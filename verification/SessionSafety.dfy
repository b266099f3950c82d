/** What every interleaving of the session protocol keeps about registrations: the order of the sessions
    of a name, who waits for whom, and which of them are finished. */
module SessionSafety {
  import opened SessionProtocol

  // ----- the invariant

  /** Registered sessions are totally ordered by their ticket. */
  ghost predicate Tickets(st: State) {
    && (forall i :: 0 <= i < |st.sessions| && st.sessions[i].Registered() ==> st.sessions[i].ticket < st.nextTicket)
    && (forall i, j :: 0 <= i < j < |st.sessions| && st.sessions[i].Registered() && st.sessions[j].Registered()
          ==> st.sessions[i].ticket != st.sessions[j].ticket)
  }

  /** i and j registered under one name, i before j. */
  ghost predicate Before(st: State, i: nat, j: nat) {
    && i < |st.sessions| && j < |st.sessions|
    && st.sessions[i].Registered() && st.sessions[j].Registered()
    && st.sessions[i].name == st.sessions[j].name
    && st.sessions[i].ticket < st.sessions[j].ticket
  }

  /** The manager's entry for a name is the latest session registered under it. */
  ghost predicate Heads(st: State) {
    forall n :: n in st.byName ==>
      var h := st.byName[n];
      && h < |st.sessions| && st.sessions[h].Registered() && st.sessions[h].name == n && st.sessions[h].pc != Gone
      && forall i: nat :: !Before(st, h, i)
  }

  /** Some session registered after i, with a ticket up to `limit`, gave up waiting. */
  ghost predicate CutAfter(st: State, i: nat, limit: nat) {
    exists t: nat :: Before(st, i, t) && st.sessions[t].ticket <= limit && st.sessions[t].timedOut
  }

  ghost predicate DoneOrCut(st: State, i: nat, limit: nat)
    requires i < |st.sessions|
  {
    st.sessions[i].DoneClosed() || CutAfter(st, i, limit)
  }

  /** Once register has returned, the sessions registered before are finished, unless a wait timed out. */
  ghost predicate Chain(st: State) {
    && (forall i: nat, j: nat {:trigger DoneOrCut(st, i, st.sessions[j].ticket)} ::
          Before(st, i, j) && st.sessions[j].Returned() ==> DoneOrCut(st, i, st.sessions[j].ticket))
    && (forall i {:trigger DoneOrCut(st, i, st.nextTicket)} :: 0 <= i < |st.sessions| && st.sessions[i].Registered() && st.sessions[i].name !in st.byName ==>
          DoneOrCut(st, i, st.nextTicket))
  }

  /** A waiting session waits for its immediate predecessor, whose connection it closed. */
  ghost predicate Waits(st: State) {
    forall j :: 0 <= j < |st.sessions| && (st.sessions[j].pc.Evicting? || st.sessions[j].pc.Awaiting?) ==>
      var p := st.sessions[j].pc.prev;
      && Before(st, p, j)
      && (forall i: nat :: Before(st, p, i) ==> !Before(st, i, j))
      && (st.sessions[j].pc.Awaiting? ==> st.sessions[p].closed)
  }

  ghost predicate EvictionInv(st: State) {
    Tickets(st) && Heads(st) && Chain(st) && Waits(st)
  }

  // ----- preservation

  /** What no step takes back. */
  ghost predicate Grows(st: State, st': State) {
    && |st.sessions| <= |st'.sessions|
    && st.nextTicket <= st'.nextTicket
    && forall i :: 0 <= i < |st.sessions| ==> Later(st.sessions[i], st'.sessions[i])
  }

  predicate Later(x: Session, x': Session) {
    && x'.name == x.name
    && (x.Registered() ==> x'.Registered() && x'.ticket == x.ticket)
    && (x.timedOut ==> x'.timedOut)
    && (x.closed ==> x'.closed)
    && (x.DoneClosed() ==> x'.DoneClosed())
  }

  /** Only session s moves, and not through register or unregister. */
  ghost predicate Quiet(st: State, st': State, s: nat) {
    && s < |st.sessions| == |st'.sessions|
    && st'.byName == st.byName && st'.nextTicket == st.nextTicket
    && (forall i :: 0 <= i < |st.sessions| && i != s ==> st'.sessions[i] == st.sessions[i])
    && var x, x' := st.sessions[s], st'.sessions[s];
    && Later(x, x')
    && x'.ticket == x.ticket && x'.timedOut == x.timedOut
    && x'.Registered() == x.Registered()
    && (x.Registered() ==> x'.Returned() == x.Returned() && (x'.pc == Gone <==> x.pc == Gone))
    && (x'.pc.Evicting? || x'.pc.Awaiting? ==> x'.pc == x.pc)
  }

  lemma CutKept(st: State, st': State, i: nat, limit: nat, limit': nat)
    requires Grows(st, st') && i < |st.sessions| && limit <= limit'
    ensures DoneOrCut(st, i, limit) ==> DoneOrCut(st', i, limit')
  {
    if CutAfter(st, i, limit) {
      var t: nat :| Before(st, i, t) && st.sessions[t].ticket <= limit && st.sessions[t].timedOut;
      assert Before(st', i, t);
    }
  }

  lemma QuietOrder(st: State, st': State, s: nat)
    requires Quiet(st, st', s)
    ensures Grows(st, st')
    ensures forall i: nat, j: nat :: Before(st', i, j) <==> Before(st, i, j)
    ensures Tickets(st) ==> Tickets(st')
  {
  }

  lemma QuietHeads(st: State, st': State, s: nat)
    requires Heads(st) && Quiet(st, st', s)
    requires forall i: nat, j: nat :: Before(st', i, j) <==> Before(st, i, j)
    ensures Heads(st')
  {
  }

  lemma QuietWaits(st: State, st': State, s: nat)
    requires Waits(st) && Quiet(st, st', s)
    requires forall i: nat, j: nat :: Before(st', i, j) <==> Before(st, i, j)
    ensures Waits(st')
  {
  }

  lemma QuietChain(st: State, st': State, s: nat)
    requires Chain(st) && Quiet(st, st', s) && Grows(st, st')
    requires forall i: nat, j: nat :: Before(st', i, j) <==> Before(st, i, j)
    ensures Chain(st')
  {
    forall i: nat, limit: nat | i < |st.sessions| ensures DoneOrCut(st, i, limit) ==> DoneOrCut(st', i, limit) {
      CutKept(st, st', i, limit, limit);
    }
  }

  lemma QuietKept(st: State, st': State, s: nat)
    requires EvictionInv(st) && Quiet(st, st', s)
    ensures EvictionInv(st')
  {
    QuietOrder(st, st', s);
    assert Heads(st') by { QuietHeads(st, st', s); }
    assert Waits(st') by { QuietWaits(st, st', s); }
    assert Chain(st') by { QuietChain(st, st', s); }
  }

  /** The parts of Chain that speak about sessions other than the one that just returned. */
  lemma ChainFrom(st: State, st': State, s: nat)
    requires Chain(st) && Grows(st, st') && |st'.sessions| == |st.sessions| && s < |st.sessions|
    requires forall i: nat, j: nat :: Before(st', i, j) && j != s ==> Before(st, i, j)
    requires forall j :: 0 <= j < |st.sessions| && j != s && st'.sessions[j].Returned() ==> st.sessions[j].Returned()
    requires forall i ::
      (0 <= i < |st.sessions| && i != s && st'.sessions[i].Registered() && st'.sessions[i].name !in st'.byName) ==>
      st.sessions[i].Registered() && st.sessions[i].name !in st.byName
    requires st'.sessions[s].Returned() ==>
      forall i: nat :: Before(st', i, s) ==> DoneOrCut(st', i, st'.sessions[s].ticket)
    requires st'.sessions[s].Registered() ==> st'.sessions[s].name in st'.byName
    ensures Chain(st')
  {
    forall i: nat, j: nat | Before(st', i, j) && st'.sessions[j].Returned()
      ensures DoneOrCut(st', i, st'.sessions[j].ticket)
    {
      if j != s {
        CutKept(st, st', i, st.sessions[j].ticket, st'.sessions[j].ticket);
      }
    }
    forall i | 0 <= i < |st'.sessions| && st'.sessions[i].Registered() && st'.sessions[i].name !in st'.byName
      ensures DoneOrCut(st', i, st'.nextTicket)
    {
      CutKept(st, st', i, st.nextTicket, st'.nextTicket);
    }
  }

  lemma EnterKept(st: State, s: nat)
    requires EvictionInv(st) && s < |st.sessions| && Able(st, s, Enter) && st.sessions[s].name != ""
    ensures EvictionInv(Perform(st, s, Enter))
  {
    var st' := Perform(st, s, Enter);
    EnterOrder(st, s);
    EnterChain(st, s);
    EnterWaits(st, s);
  }

  lemma EnterBefore(st: State, s: nat, st': State)
    requires Tickets(st) && s < |st.sessions| && Able(st, s, Enter) && st.sessions[s].name != ""
    requires st' == Perform(st, s, Enter)
    ensures Grows(st, st') && Tickets(st')
    ensures forall i: nat, j: nat :: Before(st', i, j) <==>
      if j == s then
        i < |st.sessions| && i != s && st.sessions[i].Registered() && st.sessions[i].name == st.sessions[s].name
      else Before(st, i, j)
  {
    assert |st'.sessions| == |st.sessions|;
    assert forall i :: 0 <= i < |st.sessions| && i != s ==> st'.sessions[i] == st.sessions[i];
    assert st'.sessions[s].Registered() && st'.sessions[s].ticket == st.nextTicket;
  }

  lemma EnterOrder(st: State, s: nat)
    requires EvictionInv(st) && s < |st.sessions| && Able(st, s, Enter) && st.sessions[s].name != ""
    ensures Grows(st, Perform(st, s, Enter))
    ensures forall i: nat, j: nat :: Before(Perform(st, s, Enter), i, j) <==>
      if j == s then
        i < |st.sessions| && i != s && st.sessions[i].Registered() && st.sessions[i].name == st.sessions[s].name
      else Before(st, i, j)
    ensures Tickets(Perform(st, s, Enter))
    ensures Heads(Perform(st, s, Enter))
  {
    EnterBefore(st, s, Perform(st, s, Enter));
  }

  lemma EnterChain(st: State, s: nat)
    requires EvictionInv(st) && s < |st.sessions| && Able(st, s, Enter) && st.sessions[s].name != ""
    ensures Chain(Perform(st, s, Enter))
  {
    var st' := Perform(st, s, Enter);
    EnterOrder(st, s);
    forall i: nat | Before(st', i, s) && st'.sessions[s].Returned()
      ensures DoneOrCut(st', i, st'.sessions[s].ticket)
    {
      assert st.sessions[s].name !in st.byName;
      CutKept(st, st', i, st.nextTicket, st.nextTicket);
    }
    ChainFrom(st, st', s);
  }

  lemma EnterWaits(st: State, s: nat)
    requires EvictionInv(st) && s < |st.sessions| && Able(st, s, Enter) && st.sessions[s].name != ""
    ensures Waits(Perform(st, s, Enter))
  {
    var st' := Perform(st, s, Enter);
    EnterOrder(st, s);
    if st.sessions[s].name in st.byName {
      var h := st.byName[st.sessions[s].name];
      assert Before(st', h, s);
    }
  }

  /** Registration order and timeouts are untouched between two states. */
  ghost predicate SameOrder(st: State, st': State) {
    && |st'.sessions| == |st.sessions|
    && st'.nextTicket == st.nextTicket
    && forall i :: 0 <= i < |st.sessions| ==>
      var x, x' := st.sessions[i], st'.sessions[i];
      Later(x, x') && x'.ticket == x.ticket && x'.Registered() == x.Registered()
  }

  lemma OrderKept(st: State, st': State)
    requires SameOrder(st, st')
    ensures Grows(st, st')
    ensures forall i: nat, j: nat :: Before(st', i, j) <==> Before(st, i, j)
    ensures Tickets(st) ==> Tickets(st')
  {
  }

  lemma ChainKept(st: State, st': State, s: nat)
    requires Chain(st) && SameOrder(st, st') && st'.byName == st.byName && s < |st.sessions|
    requires forall j :: 0 <= j < |st.sessions| && j != s && st'.sessions[j].Returned() ==> st.sessions[j].Returned()
    requires st'.sessions[s].Returned() ==>
      forall i: nat :: Before(st, i, s) ==> DoneOrCut(st', i, st.sessions[s].ticket)
    ensures Chain(st')
  {
    OrderKept(st, st');
    forall i: nat, j: nat | Before(st', i, j) && st'.sessions[j].Returned()
      ensures DoneOrCut(st', i, st'.sessions[j].ticket)
    {
      if j != s {
        CutKept(st, st', i, st.sessions[j].ticket, st'.sessions[j].ticket);
      } else {
        assert Before(st, i, s);
      }
    }
    forall i | 0 <= i < |st'.sessions| && st'.sessions[i].Registered() && st'.sessions[i].name !in st'.byName
      ensures DoneOrCut(st', i, st'.nextTicket)
    {
      CutKept(st, st', i, st.nextTicket, st'.nextTicket);
    }
  }

  lemma HeadsKept(st: State, st': State)
    requires Heads(st) && SameOrder(st, st') && st'.byName.Keys <= st.byName.Keys
    requires forall n :: n in st'.byName ==>
      st'.byName[n] == st.byName[n] && (st.byName[n] < |st.sessions| ==> st'.sessions[st.byName[n]].pc != Gone)
    ensures Heads(st')
  {
    OrderKept(st, st');
  }

  lemma WaitsKept(st: State, st': State)
    requires Waits(st) && SameOrder(st, st')
    requires forall j :: 0 <= j < |st.sessions| ==> WaitsAlike(st, st.sessions[j].pc, st'.sessions[j].pc)
    ensures Waits(st')
  {
    OrderKept(st, st');
  }

  /** A wait may only advance from closing the old connection to waiting for it. */
  ghost predicate WaitsAlike(st: State, pc: Pc, pc': Pc) {
    match pc'
    case Evicting(_) => pc == pc'
    case Awaiting(p) => pc == pc' || (pc == Evicting(p) && p < |st.sessions| && st.sessions[p].closed)
    case _ => true
  }

  /** register returns: the predecessor is done, or this session gave up. */
  ghost predicate Returning(st: State, st': State, s: nat, gaveUp: bool) {
    && s < |st.sessions| && st.sessions[s].pc.Awaiting?
    && st' == Put(st, s, st.sessions[s].(pc := Serving, timedOut := gaveUp || st.sessions[s].timedOut))
    && st.sessions[s].pc.prev < |st.sessions|
    && (gaveUp || st.sessions[st.sessions[s].pc.prev].DoneClosed())
  }

  lemma ReturnOne(st: State, st': State, s: nat, gaveUp: bool, i: nat)
    requires EvictionInv(st) && Returning(st, st', s, gaveUp) && Before(st, i, s)
    ensures DoneOrCut(st', i, st.sessions[s].ticket)
  {
    var prev := st.sessions[s].pc.prev;
    assert Grows(st, st');
    if gaveUp {
      assert Before(st', i, s) && st'.sessions[s].timedOut;
    } else if i != prev {
      assert Before(st, prev, s) && !Before(st, prev, i);
      assert Before(st, i, prev);
      CutKept(st, st', i, st.sessions[prev].ticket, st.sessions[s].ticket);
    }
  }

  lemma ReturnChain(st: State, st': State, s: nat, gaveUp: bool)
    requires EvictionInv(st) && Returning(st, st', s, gaveUp)
    ensures Chain(st')
  {
    forall i: nat | Before(st, i, s) ensures DoneOrCut(st', i, st.sessions[s].ticket) {
      ReturnOne(st, st', s, gaveUp, i);
    }
    ChainKept(st, st', s);
  }

  lemma ReturnKept(st: State, st': State, s: nat, gaveUp: bool)
    requires EvictionInv(st) && Returning(st, st', s, gaveUp)
    ensures EvictionInv(st')
  {
    ReturnOrder(st, st', s, gaveUp);
    assert Tickets(st') by { OrderKept(st, st'); }
    assert Heads(st') by { HeadsKept(st, st'); }
    assert Waits(st') by { WaitsKept(st, st'); }
    ReturnChain(st, st', s, gaveUp);
  }

  lemma ReturnOrder(st: State, st': State, s: nat, gaveUp: bool)
    requires Returning(st, st', s, gaveUp)
    ensures SameOrder(st, st') && st'.byName == st.byName
    ensures forall i :: 0 <= i < |st.sessions| ==>
      WaitsAlike(st, st.sessions[i].pc, st'.sessions[i].pc) && (st'.sessions[i].pc == Gone <==> st.sessions[i].pc == Gone)
  {
  }

  lemma AwaitKept(st: State, s: nat, st': State)
    requires EvictionInv(st) && s < |st.sessions| && st.sessions[s].pc.Evicting?
    requires st.sessions[s].pc.prev < |st.sessions| && st.sessions[st.sessions[s].pc.prev].closed
    requires st' == Put(st, s, st.sessions[s].(pc := Awaiting(st.sessions[s].pc.prev)))
    ensures EvictionInv(st')
  {
    AwaitOrder(st, s, st');
    assert Tickets(st') by { OrderKept(st, st'); }
    assert Heads(st') by { HeadsKept(st, st'); }
    assert Waits(st') by { WaitsKept(st, st'); }
    ChainKept(st, st', s);
  }

  lemma AwaitOrder(st: State, s: nat, st': State)
    requires s < |st.sessions| && st.sessions[s].pc.Evicting?
    requires st' == Put(st, s, st.sessions[s].(pc := Awaiting(st.sessions[s].pc.prev)))
    ensures SameOrder(st, st')
    ensures forall i :: 0 <= i < |st.sessions| ==>
      && st'.sessions[i].Returned() == st.sessions[i].Returned()
      && (st'.sessions[i].pc == Gone <==> st.sessions[i].pc == Gone)
    ensures !st'.sessions[s].Returned()
  {
  }

  lemma CloseOldKept(st: State, s: nat, st': State)
    requires EvictionInv(st) && s < |st.sessions| && Able(st, s, CloseOld) && st' == Perform(st, s, CloseOld)
    ensures EvictionInv(st')
  {
    var prev := st.sessions[s].pc.prev;
    var st1 := Put(st, prev, st.sessions[prev].(closed := true));
    assert prev != s by { assert Before(st, prev, s); }
    QuietKept(st, st1, prev);
    AwaitKept(st1, s, st');
  }

  lemma UnregisterChain(st: State, s: nat, st': State)
    requires EvictionInv(st) && s < |st.sessions| && st.sessions[s].pc.Done?
    requires st' == Put(st, s, st.sessions[s].(pc := Gone)).(byName := Unregistered(st.byName, st.sessions[s].name, s))
    ensures Chain(st')
  {
    OrderKept(st, st');
    forall i: nat, j: nat | Before(st', i, j) && st'.sessions[j].Returned()
      ensures DoneOrCut(st', i, st'.sessions[j].ticket)
    {
      ReturnedKept(st, st', i, j);
    }
    forall i | 0 <= i < |st'.sessions| && st'.sessions[i].Registered() && st'.sessions[i].name !in st'.byName
      ensures DoneOrCut(st', i, st'.nextTicket)
    {
      if st.sessions[i].name !in st.byName {
        CutKept(st, st', i, st.nextTicket, st'.nextTicket);
      } else {
        NameLeft(st, s, st', i);
      }
    }
  }

  lemma ReturnedKept(st: State, st': State, i: nat, j: nat)
    requires Chain(st) && Grows(st, st') && Before(st, i, j) && st.sessions[j].Returned()
    ensures DoneOrCut(st', i, st'.sessions[j].ticket)
  {
    CutKept(st, st', i, st.sessions[j].ticket, st'.sessions[j].ticket);
  }

  /** The entry of a name goes when its latest session is done: the earlier ones are finished too. */
  lemma NameLeft(st: State, s: nat, st': State, i: nat)
    requires EvictionInv(st) && s < |st.sessions| && st.sessions[s].pc.Done?
    requires i < |st.sessions| && st.sessions[i].Registered() && st.sessions[i].name in st.byName
    requires st.byName[st.sessions[i].name] == s && st'.nextTicket == st.nextTicket
    requires Grows(st, st') && (i == s ==> st'.sessions[s].DoneClosed())
    ensures DoneOrCut(st', i, st'.nextTicket)
  {
    if i != s {
      assert !Before(st, s, i);
      assert Before(st, i, s);
      CutKept(st, st', i, st.sessions[s].ticket, st'.nextTicket);
    }
  }

  lemma UnregisterKept(st: State, s: nat, st': State)
    requires EvictionInv(st) && s < |st.sessions| && st.sessions[s].pc.Done?
    requires st' == Put(st, s, st.sessions[s].(pc := Gone)).(byName := Unregistered(st.byName, st.sessions[s].name, s))
    ensures EvictionInv(st')
  {
    assert Tickets(st') by { OrderKept(st, st'); }
    assert Heads(st') by { HeadsKept(st, st'); }
    assert Waits(st') by { WaitsKept(st, st'); }
    UnregisterChain(st, s, st');
  }

  lemma QuietSteps(st: State, s: nat, action: Action)
    requires s < |st.sessions| && Able(st, s, action)
    requires action !in {CloseOld, Proceed, Timeout, Unregister}
    requires action == Enter ==> st.sessions[s].name == ""
    ensures Quiet(st, Perform(st, s, action), s)
  {
  }

  lemma ConnectKept(st: State, name: string, allowed: set<nat>)
    requires EvictionInv(st) && Enabled(st, Connect(name, allowed))
    ensures EvictionInv(Next(st, Connect(name, allowed)))
  {
    var st' := Next(st, Connect(name, allowed));
    ConnectOrder(st, name, allowed, st');
    assert Tickets(st') && Heads(st');
    assert Waits(st') by { ConnectWaits(st, st'); }
    assert Chain(st') by { ConnectChain(st, st'); }
  }

  /** The only change to the sessions is a new one. */
  ghost predicate OneMore(st: State, st': State) {
    && |st'.sessions| == |st.sessions| + 1 && st'.sessions[|st.sessions|].pc == Fresh
    && (forall i :: 0 <= i < |st.sessions| ==> st'.sessions[i] == st.sessions[i])
    && (forall i: nat, j: nat :: Before(st', i, j) <==> Before(st, i, j))
  }

  lemma ConnectWaits(st: State, st': State)
    requires Waits(st) && OneMore(st, st')
    ensures Waits(st')
  {
  }

  lemma ConnectChain(st: State, st': State)
    requires Chain(st) && OneMore(st, st') && Grows(st, st')
    requires st'.byName == st.byName && st'.nextTicket == st.nextTicket
    ensures Chain(st')
  {
    forall i: nat, limit: nat | i < |st.sessions| ensures DoneOrCut(st, i, limit) ==> DoneOrCut(st', i, limit) {
      CutKept(st, st', i, limit, limit);
    }
  }

  lemma ConnectOrder(st: State, name: string, allowed: set<nat>, st': State)
    requires Enabled(st, Connect(name, allowed)) && st' == Next(st, Connect(name, allowed))
    ensures Grows(st, st')
    ensures |st'.sessions| == |st.sessions| + 1 && st'.sessions[|st.sessions|].pc == Fresh
    ensures forall i :: 0 <= i < |st.sessions| ==> st'.sessions[i] == st.sessions[i]
    ensures forall i: nat, j: nat :: Before(st', i, j) <==> Before(st, i, j)
  {
  }

  lemma EvictionKept(st: State, ev: Event)
    requires EvictionInv(st) && Enabled(st, ev)
    ensures EvictionInv(Next(st, ev))
  {
    match ev
    case Connect(name, allowed) => ConnectKept(st, name, allowed);
    case ForeignBind(_) => ForeignKept(st, Next(st, ev));
    case ForeignFree(_) => ForeignKept(st, Next(st, ev));
    case Act(s, action) => ActionKept(st, s, action, Next(st, ev));
  }

  lemma ActionKept(st: State, s: nat, action: Action, st': State)
    requires EvictionInv(st) && s < |st.sessions| && Able(st, s, action) && st' == Perform(st, s, action)
    ensures EvictionInv(st')
  {
    if action == CloseOld {
      CloseOldKept(st, s, st');
    } else if action == Proceed {
      ReturnKept(st, st', s, false);
    } else if action == Timeout {
      ReturnKept(st, st', s, true);
    } else if action == Unregister {
      UnregisterKept(st, s, st');
    } else if action == Enter && st.sessions[s].name != "" {
      EnterKept(st, s);
    } else {
      QuietSteps(st, s, action);
      QuietKept(st, st', s);
    }
  }

  lemma ForeignKept(st: State, st': State)
    requires EvictionInv(st) && st' == st.(bound := st'.bound)
    ensures EvictionInv(st')
  {
    assert forall i: nat, j: nat :: Before(st', i, j) <==> Before(st, i, j);
    forall i: nat, limit: nat | i < |st.sessions| ensures DoneOrCut(st, i, limit) ==> DoneOrCut(st', i, limit) {
      CutKept(st, st', i, limit, limit);
    }
  }
}
