/** The session and port ownership protocol of core/internal/tunnelserver/server.go.

    Every SSH connection is a goroutine that registers under its client name, evicts the previous
    holder of that name and waits for it, serves forward and cancel requests, and finally releases
    its listeners. A state holds all sessions ever created, the manager's `byName` map and the
    operating system's table of bound ports; an event is one atomic step of one goroutine (code
    between two lock, channel or select boundaries) or of the environment. */
module SessionProtocol {
  import opened Options

  const MAX_PORT := 65535

  /** Who has bound a TCP port. A listener carries the session that opened it and a unique id. */
  datatype Holder = Foreign | Listener(owner: nat, id: nat)

  type PortTable = map<nat, Holder>

  // ----- effects of the individual operations, shared with the classes of module TunnelServer

  /** net.Listen succeeds on a real port that nobody has bound. */
  predicate CanBind(bound: PortTable, port: nat) {
    1 <= port <= MAX_PORT && port !in bound
  }

  /** Closing one listener frees whatever port it was bound to. */
  function Unbind(bound: PortTable, ln: Holder): PortTable {
    map p | p in bound && bound[p] != ln :: bound[p]
  }

  function Listeners(owner: nat, fwds: map<nat, nat>): set<Holder> {
    set p | p in fwds :: Listener(owner, fwds[p])
  }

  /** Closing all the listeners of a forward table. */
  function UnbindAll(bound: PortTable, owner: nat, fwds: map<nat, nat>): PortTable {
    map p | p in bound && bound[p] !in Listeners(owner, fwds) :: bound[p]
  }

  function CancelBound(bound: PortTable, owner: nat, fwds: map<nat, nat>, port: nat): PortTable {
    if port in fwds then Unbind(bound, Listener(owner, fwds[port])) else bound
  }

  /** The session that a registration under `name` has to evict. */
  function Evictee<T(==)>(byName: map<string, T>, name: string, s: T): Option<T> {
    if name in byName && byName[name] != s then Some(byName[name]) else None
  }

  /** The manager's entry is removed only while it still is this session's. */
  function Unregistered<T(==)>(byName: map<string, T>, name: string, s: T): map<string, T> {
    if name in byName && byName[name] == s then byName - {name} else byName
  }

  // ----- state

  /** The program counter of a session's goroutine. */
  datatype Pc =
    | Fresh                            // authenticated, before the critical section of register
    | Evicting(prev: nat)              // swapped itself in, about to close the old connection
    | Awaiting(prev: nat)              // in the select: old.done or the EvictWait timer
    | Serving                          // in the request loop, between requests
    | Binding(port: nat, ln: nat)      // listenReuse succeeded, before fwds is locked
    | Listing(port: nat)               // answered true, before the registry's AddPort
    | Ending                           // the request stream ended, before closeAll
    | Released                         // closeAll done, before close(done)
    | Done                             // done is closed, before the deferred unregister
    | Gone                             // unregistered

  datatype Session = Session(
    name: string,
    allowed: set<nat>,
    pc: Pc,
    ticket: nat,            // position in the order of the register critical sections
    closed: bool,           // the SSH connection is closed
    timedOut: bool,         // register gave up waiting for the previous session
    fwds: map<nat, nat>,    // port -> listener id
    listed: seq<nat>        // ports in the monitor registry, one for every AddPort
  ) {
    predicate Registered() { pc != Fresh && name != "" }

    /** register has returned. */
    predicate Returned() { !pc.Fresh? && !pc.Evicting? && !pc.Awaiting? }

    predicate DoneClosed() { pc.Done? || pc.Gone? }

    /** This session's goroutine has listener `ln` open on `port`. */
    predicate Has(port: nat, ln: nat) {
      (port in fwds && fwds[port] == ln) || pc == Binding(port, ln)
    }

    predicate HoldsNothing() { fwds == map[] && !pc.Binding? }
  }

  datatype State = State(
    sessions: seq<Session>,
    byName: map<string, nat>,
    bound: PortTable,
    nextTicket: nat,
    nextListener: nat)

  const INITIAL := State([], map[], map[], 0, 0)

  datatype Event =
    | Connect(name: string, allowed: set<nat>)
    | ForeignBind(port: nat)                // another process
    | ForeignFree(port: nat)
    | Act(s: nat, action: Action)           // an atomic step of session s

  datatype Action =
    | Enter                                 // critical section of register
    | CloseOld
    | Proceed                               // <-old.done
    | Timeout                               // <-time.After(EvictWait)
    | Forward(payload: Option<nat>)         // None: the payload does not unmarshal
    | Store
    | List
    | Cancel(port: nat)
    | EndLoop
    | CloseAll
    | CloseDone
    | Unregister
    | LinkDown                              // peer, network or keepalive closes the connection

  /** Steps that nobody can count on. */
  predicate Environment(ev: Event) {
    !ev.Act? || ev.action == LinkDown || ev.action == Timeout
  }

  predicate Enabled(st: State, ev: Event) {
    match ev
    case Connect(_, allowed) => 0 !in allowed
    case ForeignBind(port) => CanBind(st.bound, port)
    case ForeignFree(port) => port in st.bound && st.bound[port] == Foreign
    case Act(s, action) => s < |st.sessions| && Able(st, s, action)
  }

  predicate Able(st: State, s: nat, action: Action)
    requires s < |st.sessions|
  {
    var me := st.sessions[s];
    match action
    case Enter => me.pc.Fresh?
    case CloseOld => me.pc.Evicting? && me.pc.prev < |st.sessions|
    case Proceed => me.pc.Awaiting? && me.pc.prev < |st.sessions| && st.sessions[me.pc.prev].DoneClosed()
    case Timeout => me.pc.Awaiting?
    case Forward(_) => me.pc.Serving?
    case Store => me.pc.Binding?
    case List => me.pc.Listing?
    case Cancel(_) => me.pc.Serving?
    case EndLoop => me.pc.Serving? && me.closed
    case CloseAll => me.pc.Ending?
    case CloseDone => me.pc.Released?
    case Unregister => me.pc.Done?
    case LinkDown => true
  }

  function Put(st: State, s: nat, x: Session): State
    requires s < |st.sessions|
  {
    st.(sessions := st.sessions[s := x])
  }

  /** The effect of an event. */
  function Next(st: State, ev: Event): State
    requires Enabled(st, ev)
  {
    match ev
    case Connect(name, allowed) =>
      st.(sessions := st.sessions + [Session(name, allowed, Fresh, 0, false, false, map[], [])])
    case ForeignBind(port) => st.(bound := st.bound[port := Foreign])
    case ForeignFree(port) => st.(bound := st.bound - {port})
    case Act(s, action) => Perform(st, s, action)
  }

  function Perform(st: State, s: nat, action: Action): State
    requires s < |st.sessions| && Able(st, s, action)
  {
    var me := st.sessions[s];
    match action
    case Enter =>
      if me.name == "" then Put(st, s, me.(pc := Serving))
      else
        var pc := match Evictee(st.byName, me.name, s) case Some(prev) => Evicting(prev) case None => Serving;
        Put(st, s, me.(pc := pc, ticket := st.nextTicket))
          .(byName := st.byName[me.name := s], nextTicket := st.nextTicket + 1)
    case CloseOld =>
      var prev := me.pc.prev;
      var st1 := Put(st, prev, st.sessions[prev].(closed := true));
      Put(st1, s, st1.sessions[s].(pc := Awaiting(prev)))
    case Proceed => Put(st, s, me.(pc := Serving))
    case Timeout => Put(st, s, me.(pc := Serving, timedOut := true))
    case Forward(payload) =>
      if payload.None? || payload.value !in me.allowed || !CanBind(st.bound, payload.value) then st
      else
        Put(st, s, me.(pc := Binding(payload.value, st.nextListener)))
          .(bound := st.bound[payload.value := Listener(s, st.nextListener)],
            nextListener := st.nextListener + 1)
    case Store => Put(st, s, me.(pc := Listing(me.pc.port), fwds := me.fwds[me.pc.port := me.pc.ln]))
    case List => Put(st, s, me.(pc := Serving, listed := me.listed + [me.pc.port]))
    case Cancel(port) =>
      Put(st, s, me.(fwds := me.fwds - {port})).(bound := CancelBound(st.bound, s, me.fwds, port))
    case EndLoop => Put(st, s, me.(pc := Ending))
    case CloseAll =>
      Put(st, s, me.(pc := Released, fwds := map[])).(bound := UnbindAll(st.bound, s, me.fwds))
    case CloseDone => Put(st, s, me.(pc := Done))
    case Unregister => Put(st, s, me.(pc := Gone)).(byName := Unregistered(st.byName, me.name, s))
    case LinkDown => Put(st, s, me.(closed := true))
  }

  /** What a step answers to the client's forward request, if it answers one. */
  function Answer(st: State, ev: Event): Option<bool>
    requires Enabled(st, ev)
  {
    if !ev.Act? then None
    else if ev.action == Store then Some(true)
    else if ev.action.Forward? && st.sessions[ev.s].pc == Next(st, ev).sessions[ev.s].pc then Some(false)
    else None
  }

  /** The state after some events, or None when one of them was not enabled. */
  function Steps(st: State, evs: seq<Event>): Option<State> {
    if evs == [] then Some(st)
    else
      var before := Steps(st, evs[..|evs| - 1]);
      if before.Some? && Enabled(before.value, evs[|evs| - 1])
      then Some(Next(before.value, evs[|evs| - 1]))
      else None
  }

  /** A run of the server, from the start. */
  function Run(evs: seq<Event>): Option<State> {
    Steps(INITIAL, evs)
  }
}
