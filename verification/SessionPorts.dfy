/** The ports bound by the server and the forward tables of its sessions are two views of one
    ownership relation, in every reachable state of the session protocol. */
module SessionPorts {
  import opened Options
  import opened SessionProtocol

  /** What one session's record satisfies by itself. */
  predicate SessionOk(x: Session) {
    && 0 !in x.allowed
    && x.fwds.Keys <= x.allowed
    && (x.pc.Binding? ==> x.pc.port in x.allowed && x.pc.port !in x.fwds)
    && (x.pc.Listing? ==> x.pc.port in x.fwds)
    && (x.fwds == map[] || x.pc.Serving? || x.pc.Binding? || x.pc.Listing? || x.pc.Ending?)
    && (forall p :: p in x.fwds ==> p in x.listed || x.pc == Listing(p))
  }

  /** A bound port belongs to the session that holds its listener ... */
  ghost predicate BoundIsHeld(st: State) {
    forall p :: p in st.bound && st.bound[p].Listener? ==>
      st.bound[p].owner < |st.sessions| && st.sessions[st.bound[p].owner].Has(p, st.bound[p].id)
  }

  /** ... and whatever a session holds is bound to it. */
  ghost predicate HeldIsBound(st: State) {
    forall i, p, ln :: 0 <= i < |st.sessions| && st.sessions[i].Has(p, ln) ==>
      p in st.bound && st.bound[p] == Listener(i, ln)
  }

  ghost predicate UniqueIds(st: State) {
    && (forall p :: p in st.bound && st.bound[p].Listener? ==> st.bound[p].id < st.nextListener)
    && (forall p, q :: p in st.bound && q in st.bound && p != q && st.bound[p].Listener? && st.bound[q].Listener?
          ==> st.bound[p].id != st.bound[q].id)
  }

  ghost predicate OwnershipInv(st: State) {
    && BoundIsHeld(st) && HeldIsBound(st) && UniqueIds(st)
    && (forall i :: 0 <= i < |st.sessions| ==> SessionOk(st.sessions[i]))
    && (forall p :: p in st.bound ==> 1 <= p <= MAX_PORT)
  }

  predicate SameHoldings(x: Session, x': Session) {
    x'.fwds == x.fwds && x'.pc.Binding? == x.pc.Binding? && (x.pc.Binding? ==> x'.pc == x.pc)
  }

  lemma SessionsKept(st: State, st': State)
    requires OwnershipInv(st)
    requires st'.bound == st.bound && st'.nextListener == st.nextListener
    requires |st'.sessions| == |st.sessions|
    requires forall i :: 0 <= i < |st.sessions| ==>
      SameHoldings(st.sessions[i], st'.sessions[i]) && SessionOk(st'.sessions[i])
    ensures OwnershipInv(st')
  {
    forall i, p, ln | 0 <= i < |st.sessions|
      ensures st'.sessions[i].Has(p, ln) <==> st.sessions[i].Has(p, ln)
    {
      assert SameHoldings(st.sessions[i], st'.sessions[i]);
    }
  }

  lemma ForwardKept(st: State, s: nat, payload: Option<nat>, st': State)
    requires OwnershipInv(st) && s < |st.sessions| && Able(st, s, Forward(payload))
    requires st' == Perform(st, s, Forward(payload))
    ensures OwnershipInv(st')
  {
    if st' != st {
      var me := st.sessions[s];
      if payload.value in me.fwds {
        assert me.Has(payload.value, me.fwds[payload.value]);
      }
      assert forall i, p, ln :: 0 <= i < |st.sessions| ==>
        (st'.sessions[i].Has(p, ln) <==>
         st.sessions[i].Has(p, ln) || (i == s && p == payload.value && ln == st.nextListener));
    }
  }

  lemma StoreKept(st: State, s: nat, st': State)
    requires OwnershipInv(st) && s < |st.sessions| && Able(st, s, Store) && st' == Perform(st, s, Store)
    ensures OwnershipInv(st')
  {
    var me := st.sessions[s];
    assert forall i, p, ln :: 0 <= i < |st.sessions| ==> (st'.sessions[i].Has(p, ln) <==> st.sessions[i].Has(p, ln));
  }

  /** A cancel frees exactly the cancelled port, if the session has it. */
  lemma CancelFrees(st: State, s: nat, port: nat)
    requires OwnershipInv(st) && s < |st.sessions|
    ensures var fwds := st.sessions[s].fwds;
      CancelBound(st.bound, s, fwds, port) == if port in fwds then st.bound - {port} else st.bound
  {
    var me := st.sessions[s];
    if port in me.fwds {
      assert me.Has(port, me.fwds[port]);
    }
  }

  lemma CancelKept(st: State, s: nat, port: nat, st': State)
    requires OwnershipInv(st) && s < |st.sessions| && Able(st, s, Cancel(port))
    requires st' == Perform(st, s, Cancel(port))
    ensures OwnershipInv(st')
    ensures st'.bound == if port in st.sessions[s].fwds then st.bound - {port} else st.bound
  {
    var me := st.sessions[s];
    CancelFrees(st, s, port);
    if port in me.fwds {
      ReleasedKept(st, s, {port}, st');
    } else {
      assert me.fwds - {port} == me.fwds;
      assert st'.sessions == st.sessions;
    }
  }

  /** closeAll frees exactly the session's ports. */
  lemma CloseAllFrees(st: State, s: nat)
    requires OwnershipInv(st) && s < |st.sessions| && !st.sessions[s].pc.Binding?
    ensures UnbindAll(st.bound, s, st.sessions[s].fwds) == st.bound - st.sessions[s].fwds.Keys
  {
    var me := st.sessions[s];
    var bound := UnbindAll(st.bound, s, me.fwds);
    forall p ensures p in bound <==> p in st.bound && p !in me.fwds {
      if p in me.fwds {
        assert me.Has(p, me.fwds[p]);
      }
      if p in st.bound && st.bound[p].Listener? && st.bound[p].owner == s {
        assert me.Has(p, st.bound[p].id);
      }
    }
  }

  lemma CloseAllKept(st: State, s: nat, st': State)
    requires OwnershipInv(st) && s < |st.sessions| && Able(st, s, CloseAll) && st' == Perform(st, s, CloseAll)
    ensures OwnershipInv(st')
    ensures st'.bound == st.bound - st.sessions[s].fwds.Keys
  {
    CloseAllFrees(st, s);
    assert st.sessions[s].fwds - st.sessions[s].fwds.Keys == map[];
    ReleasedKept(st, s, st.sessions[s].fwds.Keys, st');
  }

  /** Session s closes its listeners on some ports and forgets them. */
  lemma ReleasedKept(st: State, s: nat, ports: set<nat>, st': State)
    requires OwnershipInv(st) && s < |st.sessions| == |st'.sessions| && ports <= st.sessions[s].fwds.Keys
    requires forall i :: 0 <= i < |st.sessions| && i != s ==> st'.sessions[i] == st.sessions[i]
    requires var x, x' := st.sessions[s], st'.sessions[s];
      && x'.fwds == x.fwds - ports && !x.pc.Binding? && !x'.pc.Binding?
      && SessionOk(x')
    requires st'.bound == st.bound - ports && st'.nextListener == st.nextListener
    ensures OwnershipInv(st')
  {
    assert SessionOk(st.sessions[s]);
    forall i, p, ln | 0 <= i < |st.sessions|
      ensures st'.sessions[i].Has(p, ln) <==> st.sessions[i].Has(p, ln) && !(i == s && p in ports)
    {
    }
    forall i, p, ln | 0 <= i < |st.sessions| && st'.sessions[i].Has(p, ln)
      ensures p in st'.bound && st'.bound[p] == Listener(i, ln)
    {
      assert st.sessions[i].Has(p, ln);
      if p in ports {
        assert st.sessions[s].Has(p, st.sessions[s].fwds[p]);
      }
    }
    forall p | p in st'.bound && st'.bound[p].Listener?
      ensures st'.bound[p].owner < |st.sessions| && st'.sessions[st'.bound[p].owner].Has(p, st'.bound[p].id)
    {
      assert st.sessions[st.bound[p].owner].Has(p, st.bound[p].id);
    }
  }

  lemma PortsKept(st: State, ev: Event)
    requires OwnershipInv(st) && Enabled(st, ev)
    ensures OwnershipInv(Next(st, ev))
  {
    var st' := Next(st, ev);
    match ev
    case Connect(name, allowed) =>
      assert forall i, p, ln :: 0 <= i < |st'.sessions| ==>
        (st'.sessions[i].Has(p, ln) <==> i < |st.sessions| && st.sessions[i].Has(p, ln));
    case ForeignBind(_) =>
    case ForeignFree(_) =>
    case Act(s, action) =>
      match action
      case Forward(payload) => ForwardKept(st, s, payload, st');
      case Store => StoreKept(st, s, st');
      case Cancel(port) => CancelKept(st, s, port, st');
      case CloseAll => CloseAllKept(st, s, st');
      case _ => OtherStepsKept(st, s, action, st');
  }

  lemma OtherStepsKept(st: State, s: nat, action: Action, st': State)
    requires OwnershipInv(st) && s < |st.sessions| && Able(st, s, action) && st' == Perform(st, s, action)
    requires !action.Forward? && !action.Store? && !action.Cancel? && !action.CloseAll?
    ensures OwnershipInv(st')
  {
    assert st'.bound == st.bound && st'.nextListener == st.nextListener && |st'.sessions| == |st.sessions|;
    forall i | 0 <= i < |st.sessions|
      ensures SameHoldings(st.sessions[i], st'.sessions[i]) && SessionOk(st'.sessions[i])
    {
      assert SessionOk(st.sessions[i]);
    }
    SessionsKept(st, st');
  }
}
