/** The registry's list of a session's ports, filled by AddPort and never shortened
    (core/internal/tunnelserver/server.go:351-359, 434-449; core/internal/monitor/monitor.go:138-147),
    against the ports that the session has bound. */
module SessionListing {
  import opened Options
  import opened SessionProtocol
  import opened SessionPorts
  import opened SessionTheorems

  // ----- the history of a session's requests for a port

  /** With this event, after the run, session s completes a forward of port p. */
  ghost predicate Forwards(evs: seq<Event>, ev: Event, s: nat, p: nat) {
    ev == Act(s, List) && Run(evs).Some? && s < |Run(evs).value.sessions|
    && Run(evs).value.sessions[s].pc == Listing(p)
  }

  /** What a run did for session s and port p: the number of completed forwards, whether the latest
      completed operation was a forward, and whether a cancel ever came after a completed forward. */
  datatype Past = Past(forwards: nat, latest: bool, cancelled: bool)

  ghost function PastOf(evs: seq<Event>, s: nat, p: nat): Past {
    if evs == [] then Past(0, false, false)
    else
      var before, ev := evs[..|evs| - 1], evs[|evs| - 1];
      Later(PastOf(before, s, p), ev == Act(s, Cancel(p)), Forwards(before, ev, s, p))
  }

  /** One more event, that may be a cancel of the port or complete a forward of it. */
  function Later(past: Past, cancels: bool, forwards: bool): Past {
    if cancels then past.(latest := false, cancelled := past.cancelled || past.forwards > 0)
    else if forwards then past.(forwards := past.forwards + 1, latest := true)
    else past
  }

  // ----- what the list says

  lemma {:induction false} NothingBefore(evs: seq<Event>, s: nat, p: nat)
    requires Run(evs).Some? && s >= |Run(evs).value.sessions|
    ensures PastOf(evs, s, p) == Past(0, false, false)
  {
    if evs != [] {
      var before := evs[..|evs| - 1];
      StepGrows(Run(before).value, evs[|evs| - 1]);
      NothingBefore(before, s, p);
    }
  }

  /** The list has the port once for every completed forward. Before closeAll, the table has the ports
      whose latest operation was a forward, and the one being listed. A port that was never cancelled was
      forwarded at most once. */
  ghost predicate Recorded(x: Session, p: nat, past: Past) {
    && multiset(x.listed)[p] == past.forwards
    && (p in x.fwds ==> past.latest || x.pc == Listing(p))
    && (past.latest && !x.pc.Released? && !x.DoneClosed() ==> p in x.fwds)
    && Counts(past)
    && (!past.cancelled && x.pc == Listing(p) ==> past.forwards == 0)
  }

  predicate Counts(past: Past) {
    && (past.cancelled ==> past.forwards >= if past.latest then 2 else 1)
    && (!past.cancelled ==> past.forwards == if past.latest then 1 else 0)
  }

  lemma {:induction false} ListRecords(evs: seq<Event>, s: nat, p: nat)
    requires Run(evs).Some? && s < |Run(evs).value.sessions|
    ensures Recorded(Run(evs).value.sessions[s], p, PastOf(evs, s, p))
  {
    var before, ev := evs[..|evs| - 1], evs[|evs| - 1];
    var st := Run(before).value;
    Invariants(before);
    if s < |st.sessions| {
      ListRecords(before, s, p);
      StepRecords(st, ev, s, p, PastOf(before, s, p), Forwards(before, ev, s, p));
    } else {
      NothingBefore(before, s, p);
    }
  }

  lemma StepRecords(st: State, ev: Event, s: nat, p: nat, past: Past, now: bool)
    requires OwnershipInv(st) && Enabled(st, ev) && s < |st.sessions| && Recorded(st.sessions[s], p, past)
    requires now <==> ev == Act(s, List) && st.sessions[s].pc == Listing(p)
    ensures Recorded(Next(st, ev).sessions[s], p, Later(past, ev == Act(s, Cancel(p)), now))
  {
    assert SessionOk(st.sessions[s]);
    if ev.Act? && ev.s == s {
      OwnStepRecords(st, s, ev.action, p, past, now);
    } else {
      OthersLeaveIt(st, ev, s);
    }
  }

  lemma OthersLeaveIt(st: State, ev: Event, s: nat)
    requires Enabled(st, ev) && s < |st.sessions| && !(ev.Act? && ev.s == s)
    ensures Next(st, ev).sessions[s] in {st.sessions[s], st.sessions[s].(closed := true)}
  {
  }

  lemma OwnStepRecords(st: State, s: nat, action: Action, p: nat, past: Past, now: bool)
    requires s < |st.sessions| && Able(st, s, action) && SessionOk(st.sessions[s])
    requires Recorded(st.sessions[s], p, past)
    requires now <==> action == List && st.sessions[s].pc == Listing(p)
    ensures Recorded(Perform(st, s, action).sessions[s], p, Later(past, action == Cancel(p), now))
  {
    var x, x' := st.sessions[s], Perform(st, s, action).sessions[s];
    if action.Store? || action.List? || action.Cancel? || action.CloseAll? {
      TableStepRecords(x, x', action, p, past, now);
    } else {
      assert x'.listed == x.listed && x'.fwds == x.fwds;
    }
  }

  lemma TableStepRecords(x: Session, x': Session, action: Action, p: nat, past: Past, now: bool)
    requires SessionOk(x) && Recorded(x, p, past)
    requires now <==> action == List && x.pc == Listing(p)
    requires match action
      case Store => x.pc.Binding? && x' == x.(pc := Listing(x.pc.port), fwds := x.fwds[x.pc.port := x.pc.ln])
      case List => x.pc.Listing? && x' == x.(pc := Serving, listed := x.listed + [x.pc.port])
      case Cancel(port) => x.pc.Serving? && x' == x.(fwds := x.fwds - {port})
      case _ => x' == x.(pc := Released, fwds := map[])
    ensures Recorded(x', p, Later(past, action == Cancel(p), now))
  {
  }

  /** In every reachable state between requests: a port is listed as often as the session completed a
      forward of it, and bound exactly when its latest completed operation was a forward. So the list has
      the bound ports, each once, exactly when no port was ever cancelled after a completed forward of it;
      and it has the bound ports, some of them repeatedly, exactly when every such port was forwarded
      again. */
  lemma ListedPorts(evs: seq<Event>, s: nat)
    requires Run(evs).Some? && s < |Run(evs).value.sessions| && Run(evs).value.sessions[s].pc.Serving?
    ensures var x := Run(evs).value.sessions[s];
      && (forall p: nat :: multiset(x.listed)[p] == PastOf(evs, s, p).forwards)
      && (forall p: nat :: p in x.fwds <==> PastOf(evs, s, p).latest)
      && (multiset(x.listed) == multiset(x.fwds.Keys) <==> forall p: nat :: !PastOf(evs, s, p).cancelled)
      && ((forall p: nat :: p in x.listed <==> p in x.fwds) <==>
            forall p: nat :: PastOf(evs, s, p).cancelled ==> PastOf(evs, s, p).latest)
  {
    var x := Run(evs).value.sessions[s];
    Invariants(evs);
    assert SessionOk(x);
    forall p: nat ensures Recorded(x, p, PastOf(evs, s, p)) {
      ListRecords(evs, s, p);
    }
    ListIsTable(x, (p: nat) => PastOf(evs, s, p));
  }

  lemma ListIsTable(x: Session, past: nat -> Past)
    requires x.pc.Serving? && forall p: nat :: Recorded(x, p, past(p))
    ensures forall p: nat :: p in x.fwds <==> past(p).latest
    ensures multiset(x.listed) == multiset(x.fwds.Keys) <==> forall p: nat :: !past(p).cancelled
    ensures (forall p: nat :: p in x.listed <==> p in x.fwds) <==>
      forall p: nat :: past(p).cancelled ==> past(p).latest
  {
    forall p: nat
      ensures multiset(x.fwds.Keys)[p] == if past(p).latest then 1 else 0
      ensures multiset(x.listed)[p] == multiset(x.fwds.Keys)[p] <==> !past(p).cancelled
      ensures (p in x.listed <==> p in x.fwds) <==> (past(p).cancelled ==> past(p).latest)
    {
      assert Recorded(x, p, past(p));
      assert p in x.listed <==> p in multiset(x.listed);
    }
    if forall p: nat :: !past(p).cancelled {
      assert multiset(x.listed) == multiset(x.fwds.Keys);
    }
  }

  // ----- the list goes wrong

  lemma ForwardAndCancel(name: string, port: nat) returns (evs: seq<Event>)
    requires name != "" && 1 <= port <= MAX_PORT
    ensures Run(evs) == Some(State(
      [Session(name, {port}, Serving, 0, false, false, map[], [port])], map[name := 0], map[], 1, 1))
  {
    evs := ConnectAndForward(name, port);
    evs := Extend(evs, Act(0, List));
    evs := Extend(evs, Act(0, Cancel(port)));
    var x := Run(evs).value.sessions[0];
    assert x.fwds == map[] && x.listed == [] + [port];
    assert x == Session(name, {port}, Serving, 0, false, false, map[], [port]);
    assert Run(evs).value.sessions == [x];
    assert Run(evs).value.bound == map[];
  }

  /** A cancelled port stays listed, for every name and port. */
  lemma CancelledStaysListed(name: string, port: nat)
    requires name != "" && 1 <= port <= MAX_PORT
    ensures exists evs ::
      Run(evs).Some? && |Run(evs).value.sessions| == 1 &&
      var x := Run(evs).value.sessions[0];
      x.pc.Serving? && x.fwds == map[] && x.listed == [port] && port !in Run(evs).value.bound
  {
    var evs := ForwardAndCancel(name, port);
  }

  /** A port that is forwarded again after a cancel is listed twice. */
  lemma ForwardedAgainIsListedTwice(name: string, port: nat)
    requires name != "" && 1 <= port <= MAX_PORT
    ensures exists evs ::
      Run(evs).Some? && |Run(evs).value.sessions| == 1 &&
      var x := Run(evs).value.sessions[0];
      x.pc.Serving? && x.fwds.Keys == {port} && x.listed == [port, port]
  {
    var evs := ForwardAndCancel(name, port);
    evs := Extend(evs, Act(0, Forward(Some(port))));
    evs := Extend(evs, Act(0, Store));
    evs := Extend(evs, Act(0, List));
    assert Run(evs).value.sessions[0].listed == [port] + [port];
  }
}
