/** What single steps of the session protocol may change, told from outside: whose connection is closed,
    which ports are bound and freed (core/internal/tunnelserver/server.go:269-302, 330-371, 434-493). And
    what follows for a session whose link goes down: it lets go of everything. */
module SessionSteps {
  import opened Options
  import opened SessionProtocol
  import opened SessionSafety
  import opened SessionPorts
  import opened SessionTheorems

  // ----- connections

  /** A connection is closed by the peer, the network or keepalive, or by the one session that evicts it;
      by nothing else, and always by these. */
  lemma WhoCloses(st: State, ev: Event, i: nat)
    requires Enabled(st, ev) && i < |st.sessions| && !st.sessions[i].closed
    ensures i < |Next(st, ev).sessions|
    ensures Next(st, ev).sessions[i].closed <==>
      ev == Act(i, LinkDown) || (ev.Act? && ev.action == CloseOld && st.sessions[ev.s].pc == Evicting(i))
  {
    StepGrows(st, ev);
  }

  /** The request loop has ended. */
  predicate Ended(pc: Pc) {
    pc.Ending? || pc.Released? || pc.Done? || pc.Gone?
  }

  /** A session leaves its request loop only when its connection is closed. */
  lemma {:induction false} EndedIsClosed(evs: seq<Event>, s: nat)
    requires Run(evs).Some? && s < |Run(evs).value.sessions| && Ended(Run(evs).value.sessions[s].pc)
    ensures Run(evs).value.sessions[s].closed
  {
    var before, ev := evs[..|evs| - 1], evs[|evs| - 1];
    var st := Run(before).value;
    if s < |st.sessions| {
      if Ended(st.sessions[s].pc) {
        EndedIsClosed(before, s);
      }
      StepGrows(st, ev);
    }
  }

  // ----- ports

  /** A port becomes bound by another process, or by a session that is permitted to bind it and asks for
      it; the holder is then the one who did. */
  lemma PortGained(st: State, ev: Event, p: nat)
    requires Enabled(st, ev) && p !in st.bound
    ensures var st' := Next(st, ev);
      p in st'.bound <==>
        1 <= p <= 65535 &&
        (ev == ForeignBind(p) || (ev.Act? && ev.action == Forward(Some(p)) && p in st.sessions[ev.s].allowed))
    ensures var st' := Next(st, ev);
      p in st'.bound ==> st'.bound[p] == if ev.Act? then Listener(ev.s, st.nextListener) else Foreign
  {
  }

  /** In every reachable state a bound port is freed by the process that holds it, or by the session that
      holds it when it cancels the port or closes all; otherwise it stays with its holder. */
  lemma PortLost(evs: seq<Event>, ev: Event, p: nat)
    requires Run(evs).Some? && Enabled(Run(evs).value, ev) && p in Run(evs).value.bound
    ensures var st, st' := Run(evs).value, Next(Run(evs).value, ev);
      p !in st'.bound <==>
        || ev == ForeignFree(p)
        || (ev.Act? && (ev.action == Cancel(p) || ev.action == CloseAll)
            && p in st.sessions[ev.s].fwds && st.bound[p].Listener? && st.bound[p].owner == ev.s)
    ensures var st, st' := Run(evs).value, Next(Run(evs).value, ev);
      p in st'.bound ==> st'.bound[p] == st.bound[p]
  {
    Invariants(evs);
    var st := Run(evs).value;
    BoundAfter(st, ev);
    if ev.Act? && p in st.sessions[ev.s].fwds {
      assert st.sessions[ev.s].Has(p, st.sessions[ev.s].fwds[p]);
    }
  }

  lemma BoundAfter(st: State, ev: Event)
    requires OwnershipInv(st) && Enabled(st, ev)
    ensures Next(st, ev).bound ==
      match ev
      case ForeignBind(p) => st.bound[p := Foreign]
      case ForeignFree(p) => st.bound - {p}
      case Connect(_, _) => st.bound
      case Act(s, action) =>
        match action
        case Cancel(p) => if p in st.sessions[s].fwds then st.bound - {p} else st.bound
        case CloseAll => st.bound - st.sessions[s].fwds.Keys
        case Forward(_) => Next(st, ev).bound
        case _ => st.bound
  {
    if ev.Act? && ev.action.Cancel? {
      CancelFrees(st, ev.s, ev.action.port);
    } else if ev.Act? && ev.action == CloseAll {
      CloseAllFrees(st, ev.s);
    }
  }

  // ----- a link goes down

  function NamelessRank(pc: Pc): nat {
    if pc.Fresh? then 9 else Rank(pc)
  }

  /** A session without a name, which nobody evicts and which waits for nobody. */
  lemma {:induction false} FinishNameless(st: State, s: nat) returns (evs: seq<Event>, st': State)
    requires s < |st.sessions| && st.sessions[s].name == "" && st.sessions[s].closed && EvictionInv(st)
    ensures Steps(st, evs) == Some(st') && AllOwn(evs)
    ensures s < |st'.sessions| && st'.sessions[s].DoneClosed()
    decreases NamelessRank(st.sessions[s].pc)
  {
    if st.sessions[s].DoneClosed() {
      return [], st;
    }
    var st1 := NamelessStep(st, s);
    var ev := Act(s, Own(st.sessions[s]));
    EvictionKept(st, ev);
    var rest;
    rest, st' := FinishNameless(st1, s);
    Prepend(st, ev, rest);
    evs := [ev] + rest;
  }

  lemma NamelessStep(st: State, s: nat) returns (st': State)
    requires s < |st.sessions| && st.sessions[s].name == "" && st.sessions[s].closed && Waits(st)
    requires !st.sessions[s].DoneClosed()
    ensures Enabled(st, Act(s, Own(st.sessions[s]))) && st' == Next(st, Act(s, Own(st.sessions[s])))
    ensures s < |st'.sessions| && st'.sessions[s].name == "" && st'.sessions[s].closed
    ensures NamelessRank(st'.sessions[s].pc) < NamelessRank(st.sessions[s].pc)
  {
    assert st.sessions[s].pc.Evicting? || st.sessions[s].pc.Awaiting? ==> Before(st, st.sessions[s].pc.prev, s);
    st' := Next(st, Act(s, Own(st.sessions[s])));
  }

  /** Any session whose connection is closed can finish without a timer. */
  lemma FinishAny(st: State, s: nat) returns (evs: seq<Event>, st': State)
    requires s < |st.sessions| && st.sessions[s].closed && EvictionInv(st)
    ensures Steps(st, evs) == Some(st') && AllOwn(evs)
    ensures s < |st'.sessions| && st'.sessions[s].DoneClosed()
  {
    if st.sessions[s].name == "" {
      evs, st' := FinishNameless(st, s);
    } else if st.sessions[s].pc.Fresh? {
      var ev := Act(s, Enter);
      EvictionKept(st, ev);
      var rest;
      rest, st' := Finish(Next(st, ev), s);
      Prepend(st, ev, rest);
      evs := [ev] + rest;
    } else {
      evs, st' := Finish(st, s);
    }
  }

  /** A session whose connection goes down, at whatever point, lets go of everything: its goroutine and
      those it waits for can by themselves, without any timer, get to where its done is closed, it has no
      listener and no port is bound for it. */
  lemma LinkDownFrees(evs: seq<Event>, s: nat)
    requires Run(evs).Some? && s < |Run(evs).value.sessions|
    ensures exists more ::
      AllOwn(more) && Run(evs + ([Act(s, LinkDown)] + more)).Some? &&
      var st' := Run(evs + ([Act(s, LinkDown)] + more)).value;
      s < |st'.sessions| && st'.sessions[s].DoneClosed() && st'.sessions[s].HoldsNothing() &&
      forall p :: p in st'.bound && st'.bound[p].Listener? ==> st'.bound[p].owner != s
  {
    Invariants(evs);
    var st, ev := Run(evs).value, Act(s, LinkDown);
    EvictionKept(st, ev);
    var more, st' := FinishAny(Next(st, ev), s);
    Prepend(st, ev, more);
    StepsCompose(INITIAL, evs, [ev] + more);
    var all := evs + ([ev] + more);
    assert all + [] == all;
    DoneIsForever(all, [], s);
    assert AllOwn(more) && Run(all) == Some(st');
  }
}
