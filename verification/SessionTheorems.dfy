/** The guarantees of the session protocol, over every run. */
module SessionTheorems {
  import opened Options
  import opened SessionProtocol
  import opened SessionSafety
  import opened SessionPorts

  lemma {:induction false} Invariants(evs: seq<Event>)
    requires Run(evs).Some?
    ensures EvictionInv(Run(evs).value) && OwnershipInv(Run(evs).value)
  {
    if evs == [] {
    } else {
      var before, ev := evs[..|evs| - 1], evs[|evs| - 1];
      assert Run(before) == Steps(INITIAL, before);
      Invariants(before);
      EvictionKept(Run(before).value, ev);
      PortsKept(Run(before).value, ev);
    }
  }

  // ----- one session per name

  /** When register has returned, every session registered earlier under the name has released its
      listeners and closed done, unless a wait between the two timed out. */
  lemma RegisterReturnsClean(evs: seq<Event>, i: nat, j: nat)
    requires Run(evs).Some?
    requires Before(Run(evs).value, i, j) && Run(evs).value.sessions[j].Returned()
    ensures var st := Run(evs).value;
      || (st.sessions[i].DoneClosed() && st.sessions[i].HoldsNothing())
      || CutAfter(st, i, st.sessions[j].ticket)
  {
    Invariants(evs);
    var st := Run(evs).value;
    assert DoneOrCut(st, i, st.sessions[j].ticket);
    assert SessionOk(st.sessions[i]);
  }

  ghost predicate NoTimeout(st: State, name: string) {
    forall t :: 0 <= t < |st.sessions| && st.sessions[t].name == name ==> !st.sessions[t].timedOut
  }

  /** At most one session of a name holds listeners, as long as no wait for that name timed out. */
  lemma OneHolderPerName(evs: seq<Event>, i: nat, j: nat)
    requires Run(evs).Some? && i < |Run(evs).value.sessions| && j < |Run(evs).value.sessions|
    requires var st := Run(evs).value;
      && st.sessions[i].name == st.sessions[j].name != ""
      && NoTimeout(st, st.sessions[i].name)
      && !st.sessions[i].HoldsNothing() && !st.sessions[j].HoldsNothing()
    ensures i == j
  {
    Invariants(evs);
    var st := Run(evs).value;
    assert SessionOk(st.sessions[i]) && SessionOk(st.sessions[j]);
    if i != j {
      var a, b := if st.sessions[i].ticket < st.sessions[j].ticket then i else j,
                  if st.sessions[i].ticket < st.sessions[j].ticket then j else i;
      assert Before(st, a, b);
      RegisterReturnsClean(evs, a, b);
      assert false;
    }
  }

  /** The manager's entry for a name is always the latest registration, never an older one that an old
      session's unregister uncovered; when there is no entry, the latest registration is gone. */
  lemma EntryIsLatest(evs: seq<Event>, i: nat)
    requires Run(evs).Some? && i < |Run(evs).value.sessions|
    requires Run(evs).value.sessions[i].Registered()
    requires forall k: nat :: !Before(Run(evs).value, i, k)
    ensures var st := Run(evs).value; var x := st.sessions[i];
      (x.name in st.byName ==> st.byName[x.name] == i) && (x.name !in st.byName ==> x.DoneClosed())
  {
    Invariants(evs);
    var st := Run(evs).value;
    var x := st.sessions[i];
    if x.name in st.byName {
      var h := st.byName[x.name];
      assert !Before(st, h, i) && !Before(st, i, h);
    } else {
      assert DoneOrCut(st, i, st.nextTicket);
    }
  }

  // ----- port ownership

  /** The ports bound by the server and the listeners held by its sessions are in bijection; every
      held port is permitted to its holder; between requests what is held is the forward table. */
  lemma PortsMatchForwards(evs: seq<Event>, p: nat, i: nat, ln: nat)
    requires Run(evs).Some?
    ensures var st := Run(evs).value;
      (p in st.bound && st.bound[p] == Listener(i, ln)) <==> (i < |st.sessions| && st.sessions[i].Has(p, ln))
    ensures var st := Run(evs).value; i < |st.sessions| && st.sessions[i].Has(p, ln) ==>
      && p in st.sessions[i].allowed && 1 <= p <= MAX_PORT
      && (!st.sessions[i].pc.Binding? ==> p in st.sessions[i].fwds && st.sessions[i].fwds[p] == ln)
      && (st.sessions[i].pc.Serving? ==> p in st.sessions[i].listed)
      && (forall q: nat, k: nat :: k < |st.sessions| && st.sessions[k].Has(q, ln) ==> q == p && k == i)
  {
    Invariants(evs);
    var st := Run(evs).value;
    if i < |st.sessions| && st.sessions[i].Has(p, ln) {
      assert SessionOk(st.sessions[i]);
    }
  }

  /** A forward request that binds nothing is answered false and changes nothing; one that binds its
      port is next answered true, with the port then bound to the session's own listener. */
  lemma ForwardAnswers(evs: seq<Event>, s: nat, action: Action)
    requires Run(evs).Some? && Enabled(Run(evs).value, Act(s, action))
    ensures var st := Run(evs).value; var st' := Next(st, Act(s, action));
      action.Forward? ==>
        && (Answer(st, Act(s, action)) == Some(false) <==> st'.bound == st.bound)
        && (Answer(st, Act(s, action)) == Some(false) <==> st' == st)
        && (Answer(st, Act(s, action)) != Some(false) ==>
              && action.payload.Some? && action.payload.value !in st.bound
              && st'.bound == st.bound[action.payload.value := Listener(s, st.nextListener)]
              && st'.sessions[s].pc == Binding(action.payload.value, st.nextListener))
    ensures var st := Run(evs).value; var st' := Next(st, Act(s, action));
      Answer(st, Act(s, action)) == Some(true) ==>
        exists p: nat, ln: nat ::
          && st.sessions[s].pc == Binding(p, ln) && p !in st.sessions[s].fwds
          && st'.sessions[s].fwds == st.sessions[s].fwds[p := ln]
          && p in st'.bound && st'.bound[p] == Listener(s, ln)
  {
    Invariants(evs);
    var st := Run(evs).value;
    if action.Forward? {
      ForwardAnswer(st, s, action.payload);
    } else if action == Store {
      StoreAnswer(st, s);
    }
  }

  lemma ForwardAnswer(st: State, s: nat, payload: Option<nat>)
    requires s < |st.sessions| && st.sessions[s].pc.Serving?
    ensures var ev := Act(s, Forward(payload)); var st' := Next(st, ev);
      && Answer(st, ev) in {None, Some(false)}
      && (Answer(st, ev) == Some(false) <==> st'.bound == st.bound)
      && (Answer(st, ev) == Some(false) <==> st' == st)
      && (Answer(st, ev) != Some(false) ==>
            && payload.Some? && payload.value !in st.bound
            && st'.bound == st.bound[payload.value := Listener(s, st.nextListener)]
            && st'.sessions[s].pc == Binding(payload.value, st.nextListener))
  {
  }

  lemma StoreAnswer(st: State, s: nat)
    requires OwnershipInv(st) && s < |st.sessions| && st.sessions[s].pc.Binding?
    ensures var st' := Next(st, Act(s, Store)); exists p: nat, ln: nat ::
      && st.sessions[s].pc == Binding(p, ln) && p !in st.sessions[s].fwds
      && st'.sessions[s].fwds == st.sessions[s].fwds[p := ln]
      && p in st'.bound && st'.bound[p] == Listener(s, ln)
  {
    assert SessionOk(st.sessions[s]);
    assert st.sessions[s].Has(st.sessions[s].pc.port, st.sessions[s].pc.ln);
  }

  /** With no timed-out wait for its name, a session's forward of a permitted port fails only when
      another name, another process or the session itself already has the port. */
  lemma ReclaimSucceeds(evs: seq<Event>, s: nat, p: nat)
    requires Run(evs).Some? && s < |Run(evs).value.sessions|
    requires var st := Run(evs).value;
      && st.sessions[s].pc.Serving? && st.sessions[s].name != "" && NoTimeout(st, st.sessions[s].name)
      && p in st.sessions[s].allowed && p <= MAX_PORT
    ensures var st := Run(evs).value;
      Answer(st, Act(s, Forward(Some(p)))) == Some(false) <==>
        || p in st.sessions[s].fwds
        || (p in st.bound && st.bound[p] == Foreign)
        || (p in st.bound && st.bound[p].Listener? && st.bound[p].owner < |st.sessions|
            && st.sessions[st.bound[p].owner].name != st.sessions[s].name)
  {
    Invariants(evs);
    var st := Run(evs).value;
    assert SessionOk(st.sessions[s]);
    ForwardAnswer(st, s, Some(p));
    assert Answer(st, Act(s, Forward(Some(p)))) == Some(false) <==> p in st.bound;
    if p in st.sessions[s].fwds {
      assert st.sessions[s].Has(p, st.sessions[s].fwds[p]);
    }
    if p in st.bound && st.bound[p].Listener? {
      var k := st.bound[p].owner;
      assert st.sessions[k].Has(p, st.bound[p].id);
      if st.sessions[k].name == st.sessions[s].name && k != s {
        HolderExcludes(evs, k, s);
      }
    }
  }

  /** A session that holds a listener and a session that serves are not two of one name. */
  lemma HolderExcludes(evs: seq<Event>, k: nat, s: nat)
    requires Run(evs).Some? && k < |Run(evs).value.sessions| && s < |Run(evs).value.sessions|
    requires var st := Run(evs).value;
      && st.sessions[k].name == st.sessions[s].name != "" && NoTimeout(st, st.sessions[s].name)
      && !st.sessions[k].HoldsNothing() && st.sessions[s].pc.Serving?
    ensures k == s
  {
    Invariants(evs);
    var st := Run(evs).value;
    assert SessionOk(st.sessions[k]);
    if k != s {
      if Before(st, k, s) {
        RegisterReturnsClean(evs, k, s);
      } else {
        assert Before(st, s, k);
        RegisterReturnsClean(evs, s, k);
      }
      assert false;
    }
  }

  lemma {:induction false} StepsGrow(st: State, more: seq<Event>)
    requires Steps(st, more).Some?
    ensures Grows(st, Steps(st, more).value)
  {
    if more != [] {
      var before := Steps(st, more[..|more| - 1]).value;
      StepsGrow(st, more[..|more| - 1]);
      StepGrows(before, more[|more| - 1]);
    }
  }

  lemma StepGrows(st: State, ev: Event)
    requires Enabled(st, ev)
    ensures Grows(st, Next(st, ev))
  {
    if ev.Act? {
      PerformGrows(st, ev.s, ev.action, Perform(st, ev.s, ev.action));
    }
  }

  lemma PerformGrows(st: State, s: nat, action: Action, st': State)
    requires s < |st.sessions| && Able(st, s, action) && st' == Perform(st, s, action)
    ensures Grows(st, st')
  {
    assert |st'.sessions| == |st.sessions|;
    assert Later(st.sessions[s], st'.sessions[s]);
    forall i | 0 <= i < |st.sessions| && i != s ensures Later(st.sessions[i], st'.sessions[i]) {
      assert st'.sessions[i] == st.sessions[i] || st'.sessions[i] == st.sessions[i].(closed := true);
    }
  }

  lemma {:induction false} StepsCompose(st: State, evs: seq<Event>, more: seq<Event>)
    requires Steps(st, evs).Some?
    ensures Steps(st, evs + more) == Steps(Steps(st, evs).value, more)
  {
    if more == [] {
      assert evs + more == evs;
    } else {
      assert (evs + more)[..|evs + more| - 1] == evs + more[..|more| - 1];
      StepsCompose(st, evs, more[..|more| - 1]);
    }
  }

  /** Once done is closed, the session owns nothing for the rest of the run. */
  lemma DoneIsForever(evs: seq<Event>, more: seq<Event>, s: nat)
    requires Run(evs).Some? && Run(evs + more).Some?
    requires s < |Run(evs).value.sessions| && Run(evs).value.sessions[s].DoneClosed()
    ensures var st' := Run(evs + more).value;
      && s < |st'.sessions| && st'.sessions[s].DoneClosed() && st'.sessions[s].HoldsNothing()
      && forall p :: p in st'.bound && st'.bound[p].Listener? ==> st'.bound[p].owner != s
  {
    StepsCompose(INITIAL, evs, more);
    StepsGrow(Run(evs).value, more);
    Invariants(evs + more);
    var st, st' := Run(evs).value, Run(evs + more).value;
    assert Later(st.sessions[s], st'.sessions[s]);
    assert SessionOk(st'.sessions[s]);
  }

  // ----- evictions never deadlock

  function Rank(pc: Pc): nat {
    match pc
    case Evicting(_) => 8
    case Awaiting(_) => 7
    case Binding(_, _) => 6
    case Listing(_) => 5
    case Serving => 4
    case Ending => 3
    case Released => 2
    case _ => 1
  }

  /** The next thing a session with a closed connection does by itself. */
  function Own(x: Session): Action {
    match x.pc
    case Fresh => Enter
    case Evicting(_) => CloseOld
    case Awaiting(_) => Proceed
    case Binding(_, _) => Store
    case Listing(_) => List
    case Serving => EndLoop
    case Ending => CloseAll
    case Released => CloseDone
    case _ => Unregister
  }

  /** Sessions of another name, or registered after j, are as they were. */
  ghost predicate OthersKept(st: State, st': State, j: nat)
    requires j < |st.sessions|
  {
    && |st'.sessions| == |st.sessions|
    && forall i :: 0 <= i < |st.sessions| && i != j && !Before(st, i, j) ==> st'.sessions[i] == st.sessions[i]
  }

  ghost predicate AllOwn(evs: seq<Event>) {
    forall k :: 0 <= k < |evs| ==> !Environment(evs[k])
  }

  lemma Prepend(st: State, ev: Event, rest: seq<Event>)
    requires Enabled(st, ev)
    ensures Steps(st, [ev] + rest) == Steps(Next(st, ev), rest)
  {
    Single(st, ev);
    StepsCompose(st, [ev], rest);
  }

  /** One own step of j. */
  lemma OwnStep(st: State, j: nat) returns (evs: seq<Event>, st': State)
    requires j < |st.sessions| && st.sessions[j].Registered() && st.sessions[j].closed
    requires !st.sessions[j].DoneClosed() && EvictionInv(st)
    requires st.sessions[j].pc.Awaiting? ==> st.sessions[st.sessions[j].pc.prev].DoneClosed()
    ensures Steps(st, evs) == Some(st') && AllOwn(evs)
    ensures EvictionInv(st') && OthersKept(st, st', j)
    ensures Later(st.sessions[j], st'.sessions[j]) && st'.sessions[j].timedOut == st.sessions[j].timedOut
    ensures Rank(st'.sessions[j].pc) < Rank(st.sessions[j].pc)
    ensures st.sessions[j].pc.Awaiting? ==> st'.sessions[j].pc == Serving
    ensures st.sessions[j].pc.Evicting? ==> st'.sessions[j].pc.Awaiting?
  {
    var ev := Act(j, Own(st.sessions[j]));
    if st.sessions[j].pc.Evicting? || st.sessions[j].pc.Awaiting? {
      assert Before(st, st.sessions[j].pc.prev, j);
    }
    st' := Next(st, ev);
    OwnMoves(st, j, st');
    EvictionKept(st, ev);
    Prepend(st, ev, []);
    evs := [ev] + [];
  }

  /** One own step of j, as far as finishing needs it. */
  lemma Advance(st: State, j: nat) returns (evs: seq<Event>, st': State)
    requires j < |st.sessions| && st.sessions[j].Registered() && st.sessions[j].closed
    requires !st.sessions[j].DoneClosed() && EvictionInv(st)
    requires st.sessions[j].pc.Awaiting? ==> st.sessions[st.sessions[j].pc.prev].DoneClosed()
    ensures Steps(st, evs) == Some(st') && AllOwn(evs)
    ensures |st'.sessions| == |st.sessions| && OthersKept(st, st', j)
    ensures Later(st.sessions[j], st'.sessions[j]) && Rank(st'.sessions[j].pc) < Rank(st.sessions[j].pc)
    ensures EvictionInv(st')
  {
    evs, st' := OwnStep(st, j);
  }

  lemma OwnMoves(st: State, j: nat, st': State)
    requires j < |st.sessions| && st.sessions[j].Registered() && !st.sessions[j].DoneClosed()
    requires Able(st, j, Own(st.sessions[j])) && st' == Perform(st, j, Own(st.sessions[j]))
    requires st.sessions[j].pc.Evicting? ==> Before(st, st.sessions[j].pc.prev, j)
    ensures OthersKept(st, st', j)
    ensures Later(st.sessions[j], st'.sessions[j]) && st'.sessions[j].timedOut == st.sessions[j].timedOut
    ensures Rank(st'.sessions[j].pc) < Rank(st.sessions[j].pc)
    ensures st.sessions[j].pc.Awaiting? ==> st'.sessions[j].pc == Serving
    ensures st.sessions[j].pc.Evicting? ==> st'.sessions[j].pc.Awaiting?
  {
    OwnChanges(st, j, st');
    OwnLater(st.sessions[j], st'.sessions[j]);
  }

  /** An own step changes j, and closes the connection of the session that j evicts. */
  lemma OwnChanges(st: State, j: nat, st': State)
    requires j < |st.sessions| && !st.sessions[j].DoneClosed() && st.sessions[j].Registered()
    requires Able(st, j, Own(st.sessions[j])) && st' == Perform(st, j, Own(st.sessions[j]))
    requires st.sessions[j].pc.Evicting? ==> Before(st, st.sessions[j].pc.prev, j)
    ensures OthersKept(st, st', j) && Moved(st.sessions[j], st'.sessions[j])
  {
    if st.sessions[j].pc.Evicting? {
      var prev := st.sessions[j].pc.prev;
      assert st'.sessions == st.sessions[prev := st'.sessions[prev]][j := st'.sessions[j]];
    } else {
      assert st'.sessions == st.sessions[j := st'.sessions[j]];
    }
  }

  /** How a registered session's own step moves it on. */
  predicate Moved(x: Session, x': Session) {
    && x'.name == x.name && x'.ticket == x.ticket && x'.timedOut == x.timedOut && x'.closed == x.closed
    && match x.pc
       case Evicting(prev) => x'.pc == Awaiting(prev)
       case Awaiting(_) => x'.pc == Serving
       case Binding(port, _) => x'.pc == Listing(port)
       case Listing(_) => x'.pc == Serving
       case Serving => x'.pc == Ending
       case Ending => x'.pc == Released
       case Released => x'.pc == Done
       case _ => true
  }

  lemma OwnLater(x: Session, x': Session)
    requires x.Registered() && !x.DoneClosed() && Moved(x, x')
    ensures Later(x, x') && Rank(x'.pc) < Rank(x.pc)
  {
  }

  /** A registered session whose connection is closed can always finish, without any timer, by its own
      steps and those of its predecessors. */
  lemma {:induction false} Finish(st: State, j: nat) returns (evs: seq<Event>, st': State)
    requires EvictionInv(st) && j < |st.sessions| && st.sessions[j].Registered() && st.sessions[j].closed
    ensures Steps(st, evs) == Some(st') && AllOwn(evs)
    ensures EvictionInv(st') && OthersKept(st, st', j) && st'.sessions[j].DoneClosed()
    decreases st.sessions[j].ticket, Rank(st.sessions[j].pc), 1
  {
    if st.sessions[j].DoneClosed() {
      return [], st;
    }
    var first, st1 := FinishStep(st, j);
    var rest;
    rest, st' := Finish(st1, j);
    evs := first + rest;
    StepsCompose(st, first, rest);
    OthersChain(st, st1, st', j);
  }

  /** One own step of j, after what it waits for. */
  lemma {:induction false} FinishStep(st: State, j: nat) returns (evs: seq<Event>, st': State)
    requires j < |st.sessions| && st.sessions[j].Registered() && st.sessions[j].closed
    requires !st.sessions[j].DoneClosed() && EvictionInv(st)
    ensures Steps(st, evs) == Some(st') && AllOwn(evs)
    ensures |st'.sessions| == |st.sessions| && OthersKept(st, st', j)
    ensures Later(st.sessions[j], st'.sessions[j]) && Rank(st'.sessions[j].pc) < Rank(st.sessions[j].pc)
    ensures EvictionInv(st')
    decreases st.sessions[j].ticket, Rank(st.sessions[j].pc), 0
  {
    var first, st1 := FinishPredecessor(st, j);
    var own;
    own, st' := Advance(st1, j);
    evs := first + own;
    StepsCompose(st, first, own);
    OthersChain(st, st1, st', j);
  }

  /** If j waits for a session, that session finishes first. */
  lemma {:induction false} FinishPredecessor(st: State, j: nat) returns (evs: seq<Event>, st': State)
    requires EvictionInv(st) && j < |st.sessions| && st.sessions[j].Registered()
    ensures Steps(st, evs) == Some(st') && AllOwn(evs)
    ensures EvictionInv(st') && OthersKept(st, st', j) && st'.sessions[j] == st.sessions[j]
    ensures st.sessions[j].pc.Awaiting? ==>
      st.sessions[j].pc.prev < |st.sessions| && st'.sessions[st.sessions[j].pc.prev].DoneClosed()
    decreases st.sessions[j].ticket, 0, 0
  {
    if st.sessions[j].pc.Awaiting? {
      var p := st.sessions[j].pc.prev;
      assert Before(st, p, j);
      evs, st' := Finish(st, p);
    } else {
      evs, st' := [], st;
    }
  }

  lemma OthersChain(st: State, st1: State, st2: State, j: nat)
    requires j < |st.sessions| && OthersKept(st, st1, j) && OthersKept(st1, st2, j)
    requires st.sessions[j].Registered() && Later(st.sessions[j], st1.sessions[j])
    ensures OthersKept(st, st2, j)
  {
    forall i | 0 <= i < |st.sessions| && i != j && !Before(st, i, j) ensures st2.sessions[i] == st.sessions[i] {
      assert st1.sessions[i] == st.sessions[i];
      assert !Before(st1, i, j);
    }
  }

  lemma AwaitCanEnd(st: State, j: nat) returns (more: seq<Event>, st': State)
    requires EvictionInv(st) && j < |st.sessions| && st.sessions[j].pc.Awaiting?
    ensures Steps(st, more) == Some(st') && AllOwn(more)
    ensures j < |st'.sessions| && st'.sessions[j] == st.sessions[j].(pc := Serving)
  {
    assert Before(st, st.sessions[j].pc.prev, j);
    var first, st1 := FinishPredecessor(st, j);
    var ev := Act(j, Proceed);
    st' := Next(st1, ev);
    Single(st1, ev);
    StepsCompose(st, first, [ev]);
    more := first + [ev];
  }

  lemma Single(st: State, ev: Event)
    requires Enabled(st, ev)
    ensures Steps(st, [ev]) == Some(Next(st, ev))
  {
    assert [ev][..0] == [];
  }

  lemma EvictCanEnd(st: State, j: nat) returns (more: seq<Event>, st': State)
    requires EvictionInv(st) && j < |st.sessions| && st.sessions[j].pc.Evicting?
    ensures Steps(st, more) == Some(st') && AllOwn(more)
    ensures j < |st'.sessions| && st'.sessions[j] == st.sessions[j].(pc := Serving)
  {
    assert Before(st, st.sessions[j].pc.prev, j);
    var ev := Act(j, CloseOld);
    EvictionKept(st, ev);
    var rest;
    rest, st' := AwaitCanEnd(Next(st, ev), j);
    Prepend(st, ev, rest);
    more := [ev] + rest;
  }

  /** Every wait of an eviction can end through <-old.done: from any reachable state in which j waits,
      steps that sessions take by themselves, and no timer, lead j out of register. */
  lemma WaitCanEnd(evs: seq<Event>, j: nat)
    requires Run(evs).Some? && j < |Run(evs).value.sessions|
    requires Run(evs).value.sessions[j].pc.Evicting? || Run(evs).value.sessions[j].pc.Awaiting?
    ensures exists more ::
      AllOwn(more) && Run(evs + more).Some? &&
      var st' := Run(evs + more).value;
      j < |st'.sessions| && st'.sessions[j] == Run(evs).value.sessions[j].(pc := Serving)
  {
    var more, st';
    Invariants(evs);
    if Run(evs).value.sessions[j].pc.Evicting? {
      more, st' := EvictCanEnd(Run(evs).value, j);
    } else {
      more, st' := AwaitCanEnd(Run(evs).value, j);
    }
    StepsCompose(INITIAL, evs, more);
    assert AllOwn(more) && Run(evs + more) == Some(st');
  }

  // ----- the condition on timeouts is needed

  lemma Extend(evs: seq<Event>, ev: Event) returns (evs': seq<Event>)
    requires Run(evs).Some? && Enabled(Run(evs).value, ev)
    ensures evs' == evs + [ev] && Run(evs') == Some(Next(Run(evs).value, ev))
  {
    evs' := evs + [ev];
    assert evs'[..|evs'| - 1] == evs;
  }

  lemma ConnectAndForward(name: string, port: nat) returns (evs: seq<Event>)
    requires name != "" && 1 <= port <= MAX_PORT
    ensures Run(evs) == Some(State(
      [Session(name, {port}, Listing(port), 0, false, false, map[port := 0], [])],
      map[name := 0], map[port := Listener(0, 0)], 1, 1))
  {
    evs := Extend([], Connect(name, {port}));
    evs := Extend(evs, Act(0, Enter));
    evs := Extend(evs, Act(0, Forward(Some(port))));
    evs := Extend(evs, Act(0, Store));
    assert Run(evs).value.sessions ==
      [Session(name, {port}, Listing(port), 0, false, false, map[port := 0], [])];
  }

  /** After a wait that timed out, both sessions of a name hold a port. */
  ghost predicate TwoHold(st: State, name: string, p: nat, q: nat) {
    && |st.sessions| == 2 && st.sessions[0].name == st.sessions[1].name == name
    && p in st.bound && st.bound[p] == Listener(0, 0) && p in st.sessions[0].fwds
    && q in st.bound && st.bound[q] == Listener(1, 1) && q in st.sessions[1].fwds
    && st.sessions[1].timedOut
  }

  /** For every name and every two ports there is a run in which a wait times out and two sessions of
      that name then hold one port each. */
  lemma TimeoutLetsTwoHold(name: string, p: nat, q: nat)
    requires name != "" && 1 <= p <= MAX_PORT && 1 <= q <= MAX_PORT && p != q
    ensures exists evs :: Run(evs).Some? && TwoHold(Run(evs).value, name, p, q)
  {
    var evs := ConnectAndForward(name, p);
    evs := Extend(evs, Connect(name, {q}));
    evs := Extend(evs, Act(1, Enter));
    evs := Extend(evs, Act(1, CloseOld));
    evs := Extend(evs, Act(1, Timeout));
    evs := Extend(evs, Act(1, Forward(Some(q))));
    evs := Extend(evs, Act(1, Store));
    assert TwoHold(Run(evs).value, name, p, q);
  }

  ghost predicate TwoHolders(st: State, name: string) {
    exists a, b :: 0 <= a < b < |st.sessions| && st.sessions[a].name == st.sessions[b].name == name
      && !st.sessions[a].HoldsNothing() && !st.sessions[b].HoldsNothing()
  }

  /** From any reachable state in which j waits and could bind p: when j's wait times out and j binds p,
      two sessions of its name hold listeners exactly when another one held some before. */
  lemma TimeoutLetsTwoHoldExactly(evs: seq<Event>, j: nat, p: nat)
    requires Run(evs).Some? && j < |Run(evs).value.sessions| && Run(evs).value.sessions[j].pc.Awaiting?
    requires p in Run(evs).value.sessions[j].allowed && CanBind(Run(evs).value.bound, p)
    ensures var st, name := Run(evs).value, Run(evs).value.sessions[j].name;
      var more := [Act(j, Timeout), Act(j, Forward(Some(p))), Act(j, Store)];
      && Run(evs + more).Some?
      && (TwoHolders(Run(evs + more).value, name) <==>
            exists i :: 0 <= i < |st.sessions| && i != j && st.sessions[i].name == name
              && !st.sessions[i].HoldsNothing())
  {
    var st := Run(evs).value;
    var st1 := Next(st, Act(j, Timeout));
    var st2 := Next(st1, Act(j, Forward(Some(p))));
    var st3 := Next(st2, Act(j, Store));
    var more := [Act(j, Timeout)] + ([Act(j, Forward(Some(p)))] + [Act(j, Store)]);
    assert more == [Act(j, Timeout), Act(j, Forward(Some(p))), Act(j, Store)];
    Prepend(st, Act(j, Timeout), [Act(j, Forward(Some(p)))] + [Act(j, Store)]);
    Prepend(st1, Act(j, Forward(Some(p))), [Act(j, Store)]);
    Single(st2, Act(j, Store));
    StepsCompose(INITIAL, evs, more);
    OneMoreHolder(st, st3, j, p);
  }

  lemma OneMoreHolder(st: State, st': State, j: nat, p: nat)
    requires j < |st.sessions| == |st'.sessions| && st'.sessions == st.sessions[j := st'.sessions[j]]
    requires st'.sessions[j].name == st.sessions[j].name && p in st'.sessions[j].fwds
    ensures TwoHolders(st', st.sessions[j].name) <==>
      exists i :: 0 <= i < |st.sessions| && i != j && st.sessions[i].name == st.sessions[j].name
        && !st.sessions[i].HoldsNothing()
  {
    var name := st.sessions[j].name;
    if i :| 0 <= i < |st.sessions| && i != j && st.sessions[i].name == name && !st.sessions[i].HoldsNothing() {
      var a, b := if i < j then i else j, if i < j then j else i;
      assert !st'.sessions[a].HoldsNothing() && !st'.sessions[b].HoldsNothing();
    }
  }
}
