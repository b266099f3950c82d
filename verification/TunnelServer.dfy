/** The objects of core/internal/tunnelserver/server.go, as classes whose methods are proved to have
    the effects that module SessionProtocol gives to the corresponding steps. */
module TunnelServer {
  import opened Options
  import opened SessionProtocol
  import M = Monitor
  import T = Traffic

  /** The operating system's table of bound TCP ports. */
  class Network {
    var bound: PortTable
    var nextListener: nat

    constructor ()
      ensures bound == map[] && nextListener == 0
    {
      bound, nextListener := map[], 0;
    }

    method Listen(port: nat, owner: nat) returns (ln: Option<nat>)
      modifies this
      ensures ln.Some? <==> CanBind(old(bound), port)
      ensures ln.Some? ==>
        && ln.value == old(nextListener) && nextListener == ln.value + 1
        && bound == old(bound)[port := Listener(owner, ln.value)]
      ensures ln.None? ==> bound == old(bound) && nextListener == old(nextListener)
    {
      if !CanBind(bound, port) {
        return None;
      }
      ln := Some(nextListener);
      bound := bound[port := Listener(owner, nextListener)];
      nextListener := nextListener + 1;
    }

    method Close(owner: nat, ln: nat)
      modifies this`bound
      ensures bound == Unbind(old(bound), Listener(owner, ln))
    {
      bound := map p | p in bound && bound[p] != Listener(owner, ln) :: bound[p];
    }
  }

  datatype Request =
    | ForwardRequest(payload: Option<nat>)
    | CancelRequest(port: nat)
    | OtherRequest

  /** What a request is answered, when `others` is bound by other owners and `held` by the session. */
  predicate AnswerTo(request: Request, others: PortTable, allowed: set<nat>, held: set<nat>) {
    match request
    case ForwardRequest(payload) =>
      payload.Some? && payload.value in allowed && CanBind(others, payload.value) && payload.value !in held
    case CancelRequest(_) => true
    case OtherRequest => false
  }

  /** The ports that the session holds after a request. */
  function HeldAfter(request: Request, others: PortTable, allowed: set<nat>, held: set<nat>): set<nat> {
    match request
    case ForwardRequest(payload) =>
      if AnswerTo(request, others, allowed, held) then held + {payload.value} else held
    case CancelRequest(port) => held - {port}
    case OtherRequest => held
  }

  predicate BoundBy(bound: PortTable, p: nat, owner: nat) {
    p in bound && bound[p].Listener? && bound[p].owner == owner
  }

  /** Some request was a forward of p that could be granted, and no later one cancels p. */
  ghost predicate InForce(requests: seq<Request>, others: PortTable, allowed: set<nat>, p: nat) {
    exists i :: ForwardedAt(requests, others, allowed, p, i) && NotCancelledAfter(requests, p, i)
  }

  ghost predicate ForwardedAt(requests: seq<Request>, others: PortTable, allowed: set<nat>, p: nat, i: int) {
    && 0 <= i < |requests| && requests[i] == ForwardRequest(Some(p))
    && p in allowed && 1 <= p <= 65535 && p !in others
  }

  ghost predicate NotCancelledAfter(requests: seq<Request>, p: nat, i: int) {
    forall j :: i < j < |requests| && j >= 0 ==> requests[j] != CancelRequest(p)
  }

  /** The ports held after some requests are those whose forward is in force. */
  lemma {:induction false} HeldIsInForce(requests: seq<Request>, others: PortTable, allowed: set<nat>, p: nat)
    ensures p in PortsHeld(requests, others, allowed) <==> InForce(requests, others, allowed, p)
  {
    if requests != [] {
      var n := |requests| - 1;
      var before := requests[..n];
      HeldIsInForce(before, others, allowed, p);
      if InForce(before, others, allowed, p) && requests[n] != CancelRequest(p) {
        var i :| ForwardedAt(before, others, allowed, p, i) && NotCancelledAfter(before, p, i);
        assert ForwardedAt(requests, others, allowed, p, i) && NotCancelledAfter(requests, p, i);
      }
      if ForwardedAt(requests, others, allowed, p, n) {
        assert NotCancelledAfter(requests, p, n);
      }
      if InForce(requests, others, allowed, p) {
        var i :| ForwardedAt(requests, others, allowed, p, i) && NotCancelledAfter(requests, p, i);
        if i < n {
          assert requests[n] != CancelRequest(p);
          assert ForwardedAt(before, others, allowed, p, i) && NotCancelledAfter(before, p, i);
        }
      }
    }
  }

  function PortsHeld(requests: seq<Request>, others: PortTable, allowed: set<nat>): set<nat> {
    if requests == [] then {}
    else HeldAfter(requests[|requests| - 1], others, allowed, PortsHeld(requests[..|requests| - 1], others, allowed))
  }

  class Session {
    const id: nat
    const name: string
    const allowed: set<nat>
    var fwds: map<nat, nat>
    var listed: seq<nat>
    var closed: bool

    constructor (id: nat, name: string, allowed: set<nat>)
      ensures this.id == id && this.name == name && this.allowed == allowed
      ensures fwds == map[] && listed == [] && !closed
    {
      this.id, this.name, this.allowed := id, name, allowed;
      fwds, listed, closed := map[], [], false;
    }

    /** The ports bound under this session's id are exactly its forward table. */
    ghost predicate Owns(net: Network)
      reads this, net
    {
      && (forall p :: p in fwds ==>
            p in net.bound && net.bound[p] == Listener(id, fwds[p]) && fwds[p] < net.nextListener)
      && (forall p :: p in net.bound && net.bound[p].Listener? && net.bound[p].owner == id ==> p in fwds)
      && (forall p, q :: p in fwds && q in fwds && p != q ==> fwds[p] != fwds[q])
      && fwds.Keys <= allowed && (forall p :: p in fwds ==> p in listed)
    }

    method StartForward(net: Network, payload: Option<nat>) returns (answer: bool)
      modifies this`fwds, this`listed, net
      ensures answer <==> payload.Some? && payload.value in allowed && CanBind(old(net.bound), payload.value)
      ensures answer ==>
        && net.bound == old(net.bound)[payload.value := Listener(id, old(net.nextListener))]
        && net.nextListener == old(net.nextListener) + 1
        && fwds == old(fwds)[payload.value := old(net.nextListener)]
        && listed == old(listed) + [payload.value]
      ensures !answer ==>
        && net.bound == old(net.bound) && net.nextListener == old(net.nextListener)
        && fwds == old(fwds) && listed == old(listed)
      ensures old(Owns(net)) ==> Owns(net)
    {
      if payload.None? || payload.value !in allowed {
        return false;
      }
      var port := payload.value;
      var ln := net.Listen(port, id);
      if ln.None? {
        return false;
      }
      fwds := fwds[port := ln.value];
      listed := listed + [port];
      answer := true;
    }

    method CancelForward(net: Network, port: nat) returns (answer: bool)
      modifies this`fwds, net`bound
      ensures answer
      ensures fwds == old(fwds) - {port}
      ensures net.bound == CancelBound(old(net.bound), id, old(fwds), port)
      ensures old(Owns(net)) ==> Owns(net) && (port in old(fwds) ==> net.bound == old(net.bound) - {port})
    {
      if port in fwds {
        net.Close(id, fwds[port]);
        fwds := fwds - {port};
      }
      answer := true;
    }

    method CloseAll(net: Network)
      modifies this`fwds, net`bound
      ensures fwds == map[]
      ensures net.bound == UnbindAll(old(net.bound), id, old(fwds))
    {
      var todo := fwds.Keys;
      ghost var was := net.bound;
      while todo != {}
        invariant todo <= fwds.Keys && fwds == old(fwds)
        invariant net.bound ==
          map p | p in was && !(exists q :: q in fwds.Keys - todo && was[p] == Listener(id, fwds[q])) :: was[p]
      {
        var port :| port in todo;
        net.Close(id, fwds[port]);
        todo := todo - {port};
      }
      fwds := map[];
    }

    /** The request loop of handleConn and what follows it: whatever the client asks for, in whatever
        order, every request is answered as its history requires, and the table of bound ports is in the
        end as it was. */
    method ServeRequests(net: Network, requests: seq<Request>) returns (answers: seq<bool>)
      requires Owns(net) && fwds == map[]
      modifies this`fwds, this`listed, net
      ensures net.bound == old(net.bound) && fwds == map[]
      ensures |answers| == |requests|
      ensures forall k :: 0 <= k < |requests| ==>
        match requests[k]
        case ForwardRequest(None) => !answers[k]
        case ForwardRequest(Some(p)) =>
          answers[k] <==>
            p in allowed && 1 <= p <= 65535 && p !in old(net.bound) && !InForce(requests[..k], old(net.bound), allowed, p)
        case CancelRequest(_) => answers[k]
        case OtherRequest => !answers[k]
    {
      answers := ServeLoop(net, requests);
      CloseAll(net);
      forall k | 0 <= k < |requests| && requests[k].ForwardRequest? && requests[k].payload.Some?
        ensures requests[k].payload.value in PortsHeld(requests[..k], old(net.bound), allowed) <==>
          InForce(requests[..k], old(net.bound), allowed, requests[k].payload.value)
      {
        HeldIsInForce(requests[..k], old(net.bound), allowed, requests[k].payload.value);
      }
    }

    method ServeLoop(net: Network, requests: seq<Request>) returns (answers: seq<bool>)
      requires Owns(net) && fwds == map[]
      modifies this`fwds, this`listed, net
      ensures Owns(net) && net.bound - fwds.Keys == old(net.bound)
      ensures |answers| == |requests|
      ensures forall k :: 0 <= k < |requests| ==>
        answers[k] == AnswerTo(requests[k], old(net.bound), allowed, PortsHeld(requests[..k], old(net.bound), allowed))
    {
      answers := [];
      for i := 0 to |requests|
        invariant |answers| == i
        invariant Owns(net)
        invariant net.bound - fwds.Keys == old(net.bound)
        invariant fwds.Keys == PortsHeld(requests[..i], old(net.bound), allowed)
        invariant forall k :: 0 <= k < i ==>
          answers[k] == AnswerTo(requests[k], old(net.bound), allowed, PortsHeld(requests[..k], old(net.bound), allowed))
      {
        assert requests[..i + 1][..i] == requests[..i];
        var answer := ServeOne(net, requests[i]);
        answers := answers + [answer];
      }
    }

    /** One request, seen as the ports that other owners hold and those that this session holds. */
    method ServeOne(net: Network, request: Request) returns (answer: bool)
      requires Owns(net)
      modifies this`fwds, this`listed, net
      ensures Owns(net)
      ensures net.bound - fwds.Keys == old(net.bound) - old(fwds).Keys
      ensures answer == AnswerTo(request, old(net.bound) - old(fwds).Keys, allowed, old(fwds).Keys)
      ensures fwds.Keys == HeldAfter(request, old(net.bound) - old(fwds).Keys, allowed, old(fwds).Keys)
      ensures match request
        case ForwardRequest(payload) => answer ==> payload.Some? && fwds.Keys == old(fwds).Keys + {payload.value}
        case CancelRequest(p) => answer && p !in fwds && !BoundBy(net.bound, p, id)
        case OtherRequest => !answer && fwds == old(fwds)
      ensures request.ForwardRequest? && !answer ==> fwds == old(fwds) && net.bound == old(net.bound)
    {
      match request {
        case ForwardRequest(payload) => answer := StartForward(net, payload);
        case CancelRequest(port) => answer := CancelForward(net, port);
        case OtherRequest => answer := false;
      }
    }
  }

  class SessionManager {
    var byName: map<string, Session>

    constructor ()
      ensures byName == map[]
    {
      byName := map[];
    }

    /** register up to the point where it waits: the session to wait for is returned. */
    method Register(s: Session) returns (evicted: Option<Session>)
      modifies this, set n | n == s.name && n in byName && byName[n] != s :: byName[n]`closed
      ensures byName == if s.name == "" then old(byName) else old(byName)[s.name := s]
      ensures evicted == if s.name == "" then None else Evictee(old(byName), s.name, s)
      ensures forall x :: x in old(byName.Values) ==> x.closed == (old(x.closed) || evicted == Some(x))
    {
      if s.name == "" {
        return None;
      }
      evicted := if s.name in byName && byName[s.name] != s then Some(byName[s.name]) else None;
      byName := byName[s.name := s];
      if evicted.Some? {
        evicted.value.closed := true;
      }
    }

    method Unregister(s: Session)
      modifies this
      ensures byName == if s.name == "" then old(byName) else Unregistered(old(byName), s.name, s)
    {
      if s.name != "" && s.name in byName && byName[s.name] == s {
        byName := byName - {s.name};
      }
    }
  }

  /** One forwarded connection: the counters that pipe hands to its two copies. rx is what the client
      receives and tx what it sends; `client` is what the registry knew when the pipe started. */
  class Pipe {
    const name: string
    const port: nat
    const client: Option<M.Client>
    const store: T.TrafficStore

    constructor (reg: M.Registry, id: string, name: string, port: nat, store: T.TrafficStore)
      modifies if id in reg.m then {reg.m[id]} else {}
      ensures this.name == name && this.port == port && this.store == store
      ensures client == if id in reg.m then Some(reg.m[id]) else None
      ensures client.Some? ==>
        && client.value.active == old(reg.m[id].active) + 1
        && client.value.tx == old(reg.m[id].tx) && client.value.rx == old(reg.m[id].rx)
    {
      var found := reg.Get(id);
      this.name, this.port, this.store, client := name, port, store, found;
      new;
      if client.Some? {
        client.value.ConnOpen();
      }
    }

    ghost function Credit(before: map<string, T.Client>, tx: nat, rx: nat, today: string): map<string, T.Client> {
      if name == "" then before
      else before[name := T.Credited(if name in before then before[name] else T.NEW_CLIENT, port, tx, rx, today)]
    }

    /** n bytes written towards the client. */
    method AddRx(n: nat, today: string)
      modifies store, if client.Some? then {client.value} else {}
      ensures store.m == Credit(old(store.m), 0, n, today)
      ensures name != "" ==>
        && store.RxOf(name, port) == (old(store.RxOf(name, port)) + n) % 0x1_0000_0000_0000_0000
        && store.TxOf(name, port) == old(store.TxOf(name, port))
        && store.DayOf(name, today) == (old(store.DayOf(name, today)) + n) % 0x1_0000_0000_0000_0000
      ensures client.Some? ==> client.value.rx == (old(client.value.rx) + n) % T.WRAP
      ensures client.Some? ==>
        client.value.tx == old(client.value.tx) && client.value.active == old(client.value.active)
    {
      if client.Some? {
        client.value.AddRx(n);
      }
      store.Add(name, port, 0, n, today);
    }

    /** n bytes written towards the visitor. */
    method AddTx(n: nat, today: string)
      modifies store, if client.Some? then {client.value} else {}
      ensures store.m == Credit(old(store.m), n, 0, today)
      ensures name != "" ==>
        && store.TxOf(name, port) == (old(store.TxOf(name, port)) + n) % 0x1_0000_0000_0000_0000
        && store.RxOf(name, port) == old(store.RxOf(name, port))
        && store.DayOf(name, today) == (old(store.DayOf(name, today)) + n) % 0x1_0000_0000_0000_0000
      ensures client.Some? ==> client.value.tx == (old(client.value.tx) + n) % T.WRAP
      ensures client.Some? ==>
        client.value.rx == old(client.value.rx) && client.value.active == old(client.value.active)
    {
      if client.Some? {
        client.value.AddTx(n);
      }
      store.Add(name, port, n, 0, today);
    }

    method Close()
      modifies if client.Some? then {client.value} else {}
      ensures client.Some? ==>
        && client.value.active == old(client.value.active) - 1
        && client.value.tx == old(client.value.tx) && client.value.rx == old(client.value.rx)
    {
      if client.Some? {
        client.value.ConnClose();
      }
    }
  }

  /** An undisturbed forward request goes through the steps Forward, Store and List of the protocol and
      has the effect that StartForward is proved to have. */
  lemma StartForwardIsThreeSteps(st: State, s: nat, port: nat)
    requires s < |st.sessions| && st.sessions[s].pc.Serving?
    requires port in st.sessions[s].allowed && CanBind(st.bound, port)
    ensures var me := st.sessions[s];
      Steps(st, [Act(s, Forward(Some(port))), Act(s, Store), Act(s, List)]) ==
      Some(Put(st, s, me.(fwds := me.fwds[port := st.nextListener], listed := me.listed + [port]))
           .(bound := st.bound[port := Listener(s, st.nextListener)], nextListener := st.nextListener + 1))
  {
    var evs := [Act(s, Forward(Some(port))), Act(s, Store), Act(s, List)];
    assert evs[..2] == [Act(s, Forward(Some(port))), Act(s, Store)];
    assert evs[..2][..1] == [Act(s, Forward(Some(port)))];
    assert evs[..1][..0] == [];
    var st1 := Next(st, evs[0]);
    var st2 := Next(st1, evs[1]);
    assert Steps(st, evs[..1]) == Some(st1);
    assert Steps(st, evs[..2]) == Some(st2);
    assert Next(st2, evs[2]).sessions == st.sessions[s := Next(st2, evs[2]).sessions[s]];
  }
}
