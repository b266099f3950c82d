/** Byte accounting of forwarded connections (pipe and countW in
    core/internal/tunnelserver/server.go:373-432): any number of pipes, each with one writer per
    direction, add to session counters and to the store in any interleaving. Counters are unbounded
    here; module Traffic and the counters of module Monitor wrap. */
module Pipes {
  import opened Options

  /** The client's perspective: it receives Rx and sends Tx. */
  datatype Direction = Tx | Rx

  /** Where one countW.Write stands: the underlying write of n bytes returned, the session counter was
      passed, the store was passed. */
  datatype Stage = Idle | Written(n: nat) | Counted(n: nat)

  datatype Flow = Flow(written: nat, counted: nat, stored: nat, stage: Stage) {
    function Write(n: nat): Flow { Flow(written + n, counted, stored, Written(n)) }

    function Count(): Flow
      requires stage.Written?
    {
      Flow(written, counted + stage.n, stored, Counted(stage.n))
    }

    function Store(): Flow
      requires stage.Counted?
    {
      Flow(written, counted, stored + stage.n, Idle)
    }
  }

  datatype Pipe = Pipe(name: string, client: Option<nat>, running: bool, tx: Flow, rx: Flow) {
    function Of(d: Direction): Flow { if d == Tx then tx else rx }

    function With(d: Direction, f: Flow): Pipe { if d == Tx then this.(tx := f) else this.(rx := f) }
  }

  datatype Client = Client(name: string, tx: nat, rx: nat, active: int) {
    function Of(d: Direction): nat { if d == Tx then tx else rx }

    function Plus(d: Direction, n: nat): Client { if d == Tx then this.(tx := tx + n) else this.(rx := rx + n) }
  }

  /** What the store gained per client name and direction since the start of the run. */
  datatype State = State(pipes: seq<Pipe>, clients: seq<Client>, stored: map<(string, Direction), nat>)

  const INITIAL := State([], [], map[])

  datatype Event =
    | Join(name: string)                            // reg.Add
    | Open(name: string, found: Option<nat>)        // pipe: reg.Get and ConnOpen
    | Write(p: nat, d: Direction, n: nat)           // the underlying Write returns n
    | Count(p: nat, d: Direction)                   // cl.AddTx / cl.AddRx
    | Store(p: nat, d: Direction)                   // store.Add
    | Close(p: nat)                                 // pipe returns: ConnClose

  predicate Enabled(st: State, ev: Event) {
    match ev
    case Join(_) => true
    case Open(name, found) => found.Some? ==> found.value < |st.clients| && st.clients[found.value].name == name
    case Write(p, d, _) => p < |st.pipes| && st.pipes[p].Of(d).stage == Idle && (d == Tx ==> st.pipes[p].running)
    case Count(p, d) =>
      && p < |st.pipes| && st.pipes[p].Of(d).stage.Written?
      && (st.pipes[p].client.Some? ==> st.pipes[p].client.value < |st.clients|)
    case Store(p, d) => p < |st.pipes| && st.pipes[p].Of(d).stage.Counted?
    case Close(p) =>
      && p < |st.pipes| && st.pipes[p].running && st.pipes[p].tx.stage == Idle
      && (st.pipes[p].client.Some? ==> st.pipes[p].client.value < |st.clients|)
  }

  function StoredOf(st: State, name: string, d: Direction): nat {
    if (name, d) in st.stored then st.stored[(name, d)] else 0
  }

  function Next(st: State, ev: Event): State
    requires Enabled(st, ev)
  {
    match ev
    case Join(name) => st.(clients := st.clients + [Client(name, 0, 0, 0)])
    case Open(name, found) =>
      var idle := Flow(0, 0, 0, Idle);
      var st1 := st.(pipes := st.pipes + [Pipe(name, found, true, idle, idle)]);
      if found.None? then st1
      else
        var c := st.clients[found.value];
        st1.(clients := st.clients[found.value := c.(active := c.active + 1)])
    case Write(p, d, n) =>
      st.(pipes := st.pipes[p := st.pipes[p].With(d, st.pipes[p].Of(d).Write(n))])
    case Count(p, d) =>
      var n := st.pipes[p].Of(d).stage.n;
      var st1 := st.(pipes := st.pipes[p := st.pipes[p].With(d, st.pipes[p].Of(d).Count())]);
      if st.pipes[p].client.None? then st1
      else
        var k := st.pipes[p].client.value;
        st1.(clients := st.clients[k := st.clients[k].Plus(d, n)])
    case Store(p, d) =>
      var n := st.pipes[p].Of(d).stage.n;
      var name := st.pipes[p].name;
      var st1 := st.(pipes := st.pipes[p := st.pipes[p].With(d, st.pipes[p].Of(d).Store())]);
      if name == "" then st1
      else st1.(stored := st.stored[(name, d) := StoredOf(st, name, d) + n])
    case Close(p) =>
      var st1 := st.(pipes := st.pipes[p := st.pipes[p].(running := false)]);
      if st.pipes[p].client.None? then st1
      else
        var k := st.pipes[p].client.value;
        st1.(clients := st.clients[k := st.clients[k].(active := st.clients[k].active - 1)])
  }

  function Run(evs: seq<Event>): Option<State> {
    if evs == [] then Some(INITIAL)
    else
      var before := Run(evs[..|evs| - 1]);
      if before.Some? && Enabled(before.value, evs[|evs| - 1])
      then Some(Next(before.value, evs[|evs| - 1]))
      else None
  }

  // ----- sums

  /** What is summed over the pipes. */
  datatype Measure =
    | CountedFor(k: nat, d: Direction)              // bytes added to session k's counter
    | RunningFor(k: nat)                            // connections of session k
    | StoredFor(name: string, d: Direction)         // bytes given to the store under a name
    | CountedUnder(name: string, d: Direction)      // bytes added to any session counter under a name
    | InFlight(name: string, d: Direction)          // of these, writes that have yet to reach the store
    | Clientless(name: string, d: Direction)        // stored bytes of pipes that found no session

  function Value(m: Measure, p: Pipe): int {
    match m
    case CountedFor(k, d) => if p.client == Some(k) then p.Of(d).counted else 0
    case RunningFor(k) => if p.client == Some(k) && p.running then 1 else 0
    case StoredFor(name, d) => if p.name == name then p.Of(d).stored else 0
    case CountedUnder(name, d) => if p.name == name && p.client.Some? then p.Of(d).counted else 0
    case InFlight(name, d) =>
      if p.name == name && p.client.Some? && p.Of(d).stage.Counted? then p.Of(d).stage.n else 0
    case Clientless(name, d) => if p.name == name && p.client.None? then p.Of(d).stored else 0
  }

  ghost function Sum(ps: seq<Pipe>, m: Measure): int {
    if ps == [] then 0 else Sum(ps[..|ps| - 1], m) + Value(m, ps[|ps| - 1])
  }

  lemma {:induction false} SumUpdate(ps: seq<Pipe>, i: nat, p: Pipe, m: Measure)
    requires i < |ps|
    ensures Sum(ps[i := p], m) == Sum(ps, m) - Value(m, ps[i]) + Value(m, p)
  {
    var n := |ps| - 1;
    if i < n {
      assert ps[i := p][..n] == ps[..n][i := p];
      SumUpdate(ps[..n], i, p, m);
    } else {
      assert ps[i := p][..n] == ps[..n];
    }
  }

  lemma SumPush(ps: seq<Pipe>, p: Pipe, m: Measure)
    ensures Sum(ps + [p], m) == Sum(ps, m) + Value(m, p)
  {
    assert (ps + [p])[..|ps + [p]| - 1] == ps;
  }

  /** The counters of all sessions of a name. */
  ghost function SessionSum(cs: seq<Client>, name: string, d: Direction): int {
    if cs == [] then 0
    else
      var c := cs[|cs| - 1];
      SessionSum(cs[..|cs| - 1], name, d) + if c.name == name then c.Of(d) else 0
  }

  lemma {:induction false} SessionUpdate(cs: seq<Client>, k: nat, c: Client, name: string, d: Direction)
    requires k < |cs| && c.name == cs[k].name
    ensures SessionSum(cs[k := c], name, d) ==
      SessionSum(cs, name, d) + if c.name == name then c.Of(d) - cs[k].Of(d) else 0
  {
    var n := |cs| - 1;
    if k < n {
      assert cs[k := c][..n] == cs[..n][k := c];
      SessionUpdate(cs[..n], k, c, name, d);
    } else {
      assert cs[k := c][..n] == cs[..n];
    }
  }

  lemma SessionPush(cs: seq<Client>, c: Client, name: string, d: Direction)
    ensures SessionSum(cs + [c], name, d) == SessionSum(cs, name, d) + if c.name == name then c.Of(d) else 0
  {
    assert (cs + [c])[..|cs + [c]| - 1] == cs;
  }

  // ----- the invariant

  predicate FlowOk(f: Flow) {
    match f.stage
    case Idle => f.written == f.counted == f.stored
    case Written(n) => f.counted == f.stored && f.written == f.counted + n
    case Counted(n) => f.written == f.counted == f.stored + n
  }

  ghost predicate PipesOk(st: State) {
    forall i :: 0 <= i < |st.pipes| ==>
      var p := st.pipes[i];
      && FlowOk(p.tx) && FlowOk(p.rx)
      && (p.client.Some? ==> p.client.value < |st.clients| && st.clients[p.client.value].name == p.name)
  }

  /** The four sums over the pipes that concern session k and name, and the sessions' own sum. */
  datatype Sums = Sums(counted: int, running: int, stored: int, under: int, sessions: int)

  ghost function SumsOf(st: State, k: nat, name: string, d: Direction): Sums {
    Sums(Sum(st.pipes, CountedFor(k, d)), Sum(st.pipes, RunningFor(k)), Sum(st.pipes, StoredFor(name, d)),
         Sum(st.pipes, CountedUnder(name, d)), SessionSum(st.clients, name, d))
  }

  /** The balance for one session k, and for one name, in one direction. */
  predicate Balance(st: State, t: Sums, k: nat, name: string, d: Direction) {
    && t.counted == (if k < |st.clients| then st.clients[k].Of(d) else 0)
    && t.running == (if k < |st.clients| then st.clients[k].active else 0)
    && (name != "" ==> t.stored == StoredOf(st, name, d))
    && t.sessions == t.under
  }

  ghost predicate Inv(st: State, k: nat, name: string, d: Direction) {
    PipesOk(st) && Balance(st, SumsOf(st, k, name, d), k, name, d)
  }

  lemma PipesKept(st: State, st': State, i: nat, p': Pipe)
    requires PipesOk(st) && i < |st.pipes| && st'.pipes == st.pipes[i := p']
    requires |st'.clients| == |st.clients|
    requires forall k :: 0 <= k < |st.clients| ==> st'.clients[k].name == st.clients[k].name
    requires FlowOk(p'.tx) && FlowOk(p'.rx) && p'.name == st.pipes[i].name && p'.client == st.pipes[i].client
    ensures PipesOk(st')
  {
  }

  /** The sums after pipe p became p', and session c (if any) became c'. */
  function Shifted(t: Sums, p: Pipe, p': Pipe, c: int, k: nat, name: string, d: Direction): Sums {
    Sums(t.counted - Value(CountedFor(k, d), p) + Value(CountedFor(k, d), p'),
         t.running - Value(RunningFor(k), p) + Value(RunningFor(k), p'),
         t.stored - Value(StoredFor(name, d), p) + Value(StoredFor(name, d), p'),
         t.under - Value(CountedUnder(name, d), p) + Value(CountedUnder(name, d), p'),
         t.sessions + c)
  }

  /** What session c's change adds to the counters under a name. */
  function SessionGain(cs: seq<Client>, cs': seq<Client>, c: Option<nat>, name: string, d: Direction): int {
    if c.Some? && c.value < |cs| == |cs'| && cs[c.value].name == name then cs'[c.value].Of(d) - cs[c.value].Of(d) else 0
  }

  lemma SumsShift(st: State, st': State, i: nat, k: nat, name: string, d: Direction)
    requires i < |st.pipes| == |st'.pipes| && st'.pipes == st.pipes[i := st'.pipes[i]]
    requires SameButOne(st.clients, st'.clients, st.pipes[i].client)
    ensures SumsOf(st', k, name, d) == Shifted(SumsOf(st, k, name, d), st.pipes[i], st'.pipes[i],
      SessionGain(st.clients, st'.clients, st.pipes[i].client, name, d), k, name, d)
  {
    SumUpdate(st.pipes, i, st'.pipes[i], CountedFor(k, d));
    SumUpdate(st.pipes, i, st'.pipes[i], RunningFor(k));
    SumUpdate(st.pipes, i, st'.pipes[i], StoredFor(name, d));
    SumUpdate(st.pipes, i, st'.pipes[i], CountedUnder(name, d));
    if st.pipes[i].client.Some? {
      var c := st.pipes[i].client.value;
      SessionUpdate(st.clients, c, st'.clients[c], name, d);
    }
  }

  predicate SameButOne(cs: seq<Client>, cs': seq<Client>, c: Option<nat>) {
    match c
    case None => cs' == cs
    case Some(k) => k < |cs| == |cs'| && cs' == cs[k := cs'[k]] && cs'[k].name == cs[k].name
  }

  /** The step changes one pipe and the session it found, and shifts the sums so that they balance. */
  ghost predicate Balanced(st: State, st': State, i: nat, t: Sums, k: nat, name: string, d: Direction) {
    && i < |st.pipes| == |st'.pipes| && st'.pipes == st.pipes[i := st'.pipes[i]]
    && SameButOne(st.clients, st'.clients, st.pipes[i].client)
    && Balance(st', Shifted(t, st.pipes[i], st'.pipes[i],
         SessionGain(st.clients, st'.clients, st.pipes[i].client, name, d), k, name, d), k, name, d)
  }

  lemma WriteBalances(st: State, ev: Event, t: Sums, k: nat, name: string, d: Direction)
    requires PipesOk(st) && Balance(st, t, k, name, d) && Enabled(st, ev) && ev.Write?
    ensures Balanced(st, Next(st, ev), ev.p, t, k, name, d)
  {
    assert st.pipes[ev.p].client.Some? ==>
      st.clients == st.clients[st.pipes[ev.p].client.value := st.clients[st.pipes[ev.p].client.value]];
  }

  /** Counting moves bytes into the sums of the session, and no other. */
  lemma CountValues(p: Pipe, e: Direction, k: nat, name: string, d: Direction)
    requires p.Of(e).stage.Written?
    ensures var p', n := p.With(e, p.Of(e).Count()), p.Of(e).stage.n;
      && Value(CountedFor(k, d), p') == Value(CountedFor(k, d), p) + (if p.client == Some(k) && e == d then n else 0)
      && Value(RunningFor(k), p') == Value(RunningFor(k), p)
      && Value(StoredFor(name, d), p') == Value(StoredFor(name, d), p)
      && Value(CountedUnder(name, d), p') ==
           Value(CountedUnder(name, d), p) + if p.name == name && p.client.Some? && e == d then n else 0
  {
  }

  lemma CountedSession(st: State, ev: Event, c: nat, n: nat, d: Direction, st': State)
    requires Enabled(st, ev) && ev.Count? && st' == Next(st, ev)
    requires st.pipes[ev.p].client == Some(c) && n == st.pipes[ev.p].Of(ev.d).stage.n
    ensures st'.clients == st.clients[c := st'.clients[c]] && st'.clients[c].name == st.clients[c].name
    ensures st'.clients[c].active == st.clients[c].active
    ensures st'.clients[c].Of(d) == st.clients[c].Of(d) + if ev.d == d then n else 0
  {
  }

  function CounterOf(cs: seq<Client>, k: nat, d: Direction): int {
    if k < |cs| then cs[k].Of(d) else 0
  }

  function ActiveOf(cs: seq<Client>, k: nat): int {
    if k < |cs| then cs[k].active else 0
  }

  /** A step balances when the values of its pipe change as the counters do. */
  lemma ChangesBalance(st: State, st': State, i: nat, t: Sums, k: nat, name: string, d: Direction)
    requires Balance(st, t, k, name, d)
    requires i < |st.pipes| == |st'.pipes| && st'.pipes == st.pipes[i := st'.pipes[i]]
    requires SameButOne(st.clients, st'.clients, st.pipes[i].client)
    requires var p, p' := st.pipes[i], st'.pipes[i];
      && Value(CountedFor(k, d), p') - Value(CountedFor(k, d), p) ==
           CounterOf(st'.clients, k, d) - CounterOf(st.clients, k, d)
      && Value(RunningFor(k), p') - Value(RunningFor(k), p) == ActiveOf(st'.clients, k) - ActiveOf(st.clients, k)
      && Value(CountedUnder(name, d), p') - Value(CountedUnder(name, d), p) ==
           SessionGain(st.clients, st'.clients, p.client, name, d)
      && (name != "" ==>
           Value(StoredFor(name, d), p') - Value(StoredFor(name, d), p) ==
           StoredOf(st', name, d) - StoredOf(st, name, d))
    ensures Balanced(st, st', i, t, k, name, d)
  {
  }

  lemma CountBalances(st: State, ev: Event, t: Sums, k: nat, name: string, d: Direction)
    requires PipesOk(st) && Balance(st, t, k, name, d) && Enabled(st, ev) && ev.Count?
    ensures Balanced(st, Next(st, ev), ev.p, t, k, name, d)
  {
    var st', p := Next(st, ev), st.pipes[ev.p];
    CountValues(p, ev.d, k, name, d);
    assert st'.pipes == st.pipes[ev.p := p.With(ev.d, p.Of(ev.d).Count())] && st'.stored == st.stored;
    if p.client.Some? {
      CountedSession(st, ev, p.client.value, p.Of(ev.d).stage.n, d, st');
    }
    ChangesBalance(st, st', ev.p, t, k, name, d);
  }

  lemma StoredGain(st: State, ev: Event, name: string, d: Direction)
    requires Enabled(st, ev) && ev.Store? && name != ""
    ensures StoredOf(Next(st, ev), name, d) ==
      StoredOf(st, name, d) +
      if st.pipes[ev.p].name == name && ev.d == d then st.pipes[ev.p].Of(d).stage.n else 0
  {
  }

  /** Storing moves bytes into the store's sum, and no other. */
  lemma StoreValues(p: Pipe, e: Direction, k: nat, name: string, d: Direction)
    requires p.Of(e).stage.Counted?
    ensures var p' := p.With(e, p.Of(e).Store());
      && Value(CountedFor(k, d), p') == Value(CountedFor(k, d), p)
      && Value(RunningFor(k), p') == Value(RunningFor(k), p)
      && Value(CountedUnder(name, d), p') == Value(CountedUnder(name, d), p)
      && Value(StoredFor(name, d), p') ==
           Value(StoredFor(name, d), p) + if p.name == name && e == d then p.Of(e).stage.n else 0
  {
  }

  lemma StoreBalances(st: State, ev: Event, t: Sums, k: nat, name: string, d: Direction)
    requires PipesOk(st) && Balance(st, t, k, name, d) && Enabled(st, ev) && ev.Store?
    ensures Balanced(st, Next(st, ev), ev.p, t, k, name, d)
  {
    var st' := Next(st, ev);
    var p := st.pipes[ev.p];
    StoreValues(p, ev.d, k, name, d);
    assert SameButOne(st.clients, st'.clients, p.client) by {
      assert p.client.Some? ==> st.clients == st.clients[p.client.value := st.clients[p.client.value]];
    }
    if name != "" {
      StoredGain(st, ev, name, d);
    }
  }

  lemma CloseBalances(st: State, ev: Event, t: Sums, k: nat, name: string, d: Direction)
    requires PipesOk(st) && Balance(st, t, k, name, d) && Enabled(st, ev) && ev.Close?
    ensures Balanced(st, Next(st, ev), ev.p, t, k, name, d)
  {
  }

  /** Each stage of a write keeps a flow's books. */
  lemma FlowKept(f: Flow, n: nat)
    requires FlowOk(f)
    ensures f.stage == Idle ==> FlowOk(f.Write(n))
    ensures f.stage.Written? ==> FlowOk(f.Count())
    ensures f.stage.Counted? ==> FlowOk(f.Store())
  {
  }

  lemma StepFlows(st: State, ev: Event)
    requires PipesOk(st) && Enabled(st, ev) && !ev.Join? && !ev.Open?
    ensures PipesOk(Next(st, ev))
  {
    var st' := Next(st, ev);
    var p := st.pipes[ev.p];
    FlowKept(p.tx, if ev.Write? then ev.n else 0);
    FlowKept(p.rx, if ev.Write? then ev.n else 0);
    PipesKept(st, st', ev.p, st'.pipes[ev.p]);
  }

  /** A new pipe starts its session's connection, and counts nothing yet. */
  predicate Opened(cs: seq<Client>, cs': seq<Client>, p: Pipe) {
    && p.running && p.tx == p.rx == Flow(0, 0, 0, Idle)
    && SameButOne(cs, cs', p.client)
    && (p.client.Some? ==>
          && cs[p.client.value].name == p.name
          && cs'[p.client.value] == cs[p.client.value].(active := cs[p.client.value].active + 1))
  }

  lemma OpenSums(st: State, p: Pipe, st': State, k: nat, name: string, d: Direction)
    requires Opened(st.clients, st'.clients, p) && st'.pipes == st.pipes + [p]
    ensures var t := SumsOf(st, k, name, d);
      SumsOf(st', k, name, d) == t.(running := t.running + if p.client == Some(k) then 1 else 0)
  {
    SumPush(st.pipes, p, CountedFor(k, d));
    SumPush(st.pipes, p, RunningFor(k));
    SumPush(st.pipes, p, StoredFor(name, d));
    SumPush(st.pipes, p, CountedUnder(name, d));
    if p.client.Some? {
      SessionUpdate(st.clients, p.client.value, st'.clients[p.client.value], name, d);
    }
  }

  lemma OpenKept(st: State, p: Pipe, st': State, k: nat, name: string, d: Direction)
    requires Inv(st, k, name, d) && Opened(st.clients, st'.clients, p)
    requires st'.pipes == st.pipes + [p] && st'.stored == st.stored
    ensures Inv(st', k, name, d)
  {
    OpenSums(st, p, st', k, name, d);
    assert PipesOk(st');
  }

  lemma {:induction false} RunKeeps(evs: seq<Event>, k: nat, name: string, d: Direction)
    requires Run(evs).Some?
    ensures Inv(Run(evs).value, k, name, d)
  {
    if evs != [] {
      var before, ev := evs[..|evs| - 1], evs[|evs| - 1];
      RunKeeps(before, k, name, d);
      var st := Run(before).value;
      match ev
      case Join(joining) => SessionPush(st.clients, Client(joining, 0, 0, 0), name, d);
      case Open(opening, found) =>
        var idle := Flow(0, 0, 0, Idle);
        OpenKept(st, Pipe(opening, found, true, idle, idle), Next(st, ev), k, name, d);
      case _ => StepKeeps(st, ev, k, name, d);
    }
  }

  lemma StepKeeps(st: State, ev: Event, k: nat, name: string, d: Direction)
    requires Inv(st, k, name, d) && Enabled(st, ev) && !ev.Join? && !ev.Open?
    ensures Inv(Next(st, ev), k, name, d)
  {
    StepFlows(st, ev);
    var t := SumsOf(st, k, name, d);
    if ev.Write? { WriteBalances(st, ev, t, k, name, d); }
    else if ev.Count? { CountBalances(st, ev, t, k, name, d); }
    else if ev.Store? { StoreBalances(st, ev, t, k, name, d); }
    else { CloseBalances(st, ev, t, k, name, d); }
    SumsShift(st, Next(st, ev), ev.p, k, name, d);
  }

  // ----- the guarantees

  lemma {:induction false} StagesBalance(ps: seq<Pipe>, name: string, d: Direction)
    requires forall i :: 0 <= i < |ps| ==> FlowOk(ps[i].Of(d))
    ensures Sum(ps, CountedUnder(name, d)) + Sum(ps, Clientless(name, d)) ==
      Sum(ps, StoredFor(name, d)) + Sum(ps, InFlight(name, d))
    ensures Sum(ps, Clientless(name, d)) >= 0
    ensures (forall i :: 0 <= i < |ps| ==> !ps[i].Of(d).stage.Counted?) ==> Sum(ps, InFlight(name, d)) == 0
  {
    if ps != [] {
      StagesBalance(ps[..|ps| - 1], name, d);
      assert FlowOk(ps[|ps| - 1].Of(d));
    }
  }

  /** In every interleaving: a write counts once, in its direction, in the store and in the session
      counter its pipe found. What the sessions of a name counted, with the bytes of pipes without a
      session, is what the store gained for that name plus the writes between the two counters; and
      `active` is the number of running pipes that found the session. */
  lemma AccountsBalance(evs: seq<Event>, k: nat, name: string, d: Direction)
    requires Run(evs).Some? && name != ""
    ensures var st := Run(evs).value;
      SessionSum(st.clients, name, d) + Sum(st.pipes, Clientless(name, d)) ==
      StoredOf(st, name, d) + Sum(st.pipes, InFlight(name, d))
    ensures var st := Run(evs).value; k < |st.clients| ==>
      && st.clients[k].Of(d) == Sum(st.pipes, CountedFor(k, d))
      && st.clients[k].active == Sum(st.pipes, RunningFor(k))
  {
    RunKeeps(evs, k, name, d);
    StagesBalance(Run(evs).value.pipes, name, d);
  }

  /** In every reachable state: the sessions of a name counted more than the store gained exactly when
      more of their bytes are between the two counters than pipes without a session have stored. */
  lemma SessionsExceedStore(evs: seq<Event>, name: string, d: Direction)
    requires Run(evs).Some? && name != ""
    ensures var st := Run(evs).value;
      SessionSum(st.clients, name, d) > StoredOf(st, name, d) <==>
        Sum(st.pipes, InFlight(name, d)) > Sum(st.pipes, Clientless(name, d))
  {
    AccountsBalance(evs, 0, name, d);
  }

  /** So never when no write is between the two counters. */
  lemma SessionsNeverExceedStore(evs: seq<Event>, name: string, d: Direction)
    requires Run(evs).Some? && name != ""
    requires var ps := Run(evs).value.pipes; forall i :: 0 <= i < |ps| ==> !ps[i].Of(d).stage.Counted?
    ensures var st := Run(evs).value; SessionSum(st.clients, name, d) <= StoredOf(st, name, d)
  {
    RunKeeps(evs, 0, name, d);
    StagesBalance(Run(evs).value.pipes, name, d);
  }

  /** A session of the name counted n bytes, and the store gained none of them. */
  ghost predicate Unstored(st: State, name: string, n: nat) {
    SessionSum(st.clients, name, Tx) == n && StoredOf(st, name, Tx) == 0
  }

  lemma CountedRun(name: string, n: nat) returns (evs: seq<Event>)
    ensures Run(evs).Some? && Unstored(Run(evs).value, name, n)
    ensures Run(evs).value.pipes == [Pipe(name, Some(0), true, Flow(n, n, 0, Counted(n)), Flow(0, 0, 0, Idle))]
  {
    evs := Extend([], Join(name));
    evs := Extend(evs, Open(name, Some(0)));
    evs := Extend(evs, Write(0, Tx, n));
    evs := Extend(evs, Count(0, Tx));
    assert Run(evs).value.clients == [] + [Client(name, n, 0, 1)];
    SessionPush([], Client(name, n, 0, 1), name, Tx);
  }

  /** Between cl.AddTx and store.Add the sessions of any name are ahead of the store. */
  lemma SessionsCanExceedStore(name: string, n: nat)
    requires n > 0
    ensures exists evs :: Run(evs).Some? && Unstored(Run(evs).value, name, n)
  {
    var evs := CountedRun(name, n);
  }

  /** The store ignores clients without a name: it gains nothing for them in any run, so their sessions
      are ahead of it exactly when one of their pipes has counted anything. */
  lemma NamelessIsNotStored(evs: seq<Event>, d: Direction)
    requires Run(evs).Some?
    ensures var st := Run(evs).value;
      && StoredOf(st, "", d) == 0
      && (SessionSum(st.clients, "", d) > StoredOf(st, "", d) <==>
            exists i :: 0 <= i < |st.pipes| && Value(CountedUnder("", d), st.pipes[i]) > 0)
  {
    RunKeeps(evs, 0, "", d);
    NothingStored(evs, d);
    PositiveSum(Run(evs).value.pipes, d);
  }

  lemma {:induction false} NothingStored(evs: seq<Event>, d: Direction)
    requires Run(evs).Some?
    ensures ("", d) !in Run(evs).value.stored
  {
    if evs != [] {
      NothingStored(evs[..|evs| - 1], d);
    }
  }

  lemma {:induction false} PositiveSum(ps: seq<Pipe>, d: Direction)
    ensures Sum(ps, CountedUnder("", d)) >= 0
    ensures Sum(ps, CountedUnder("", d)) > 0 <==>
      exists i :: 0 <= i < |ps| && Value(CountedUnder("", d), ps[i]) > 0
  {
    if ps != [] {
      var n := |ps| - 1;
      PositiveSum(ps[..n], d);
      if i :| 0 <= i < n && Value(CountedUnder("", d), ps[..n][i]) > 0 {
        assert Value(CountedUnder("", d), ps[i]) > 0;
      }
    }
  }

  /** A whole write of a nameless client: nothing is in flight, and its bytes are in no store. */
  lemma NamelessCanCount(n: nat)
    requires n > 0
    ensures exists evs ::
      Run(evs).Some? && Unstored(Run(evs).value, "", n) &&
      forall i :: 0 <= i < |Run(evs).value.pipes| ==> Run(evs).value.pipes[i].tx.stage == Idle
  {
    var before := CountedRun("", n);
    var evs := Extend(before, Store(0, Tx));
  }

  // ----- what the pipes are, told from the events

  function OpensOf(evs: seq<Event>): seq<(string, Option<nat>)> {
    if evs == [] then []
    else
      var before := OpensOf(evs[..|evs| - 1]);
      match evs[|evs| - 1]
      case Open(name, found) => before + [(name, found)]
      case _ => before
  }

  function JoinsOf(evs: seq<Event>): seq<string> {
    if evs == [] then []
    else
      var before := JoinsOf(evs[..|evs| - 1]);
      match evs[|evs| - 1]
      case Join(name) => before + [name]
      case _ => before
  }

  /** The bytes of all writes to pipe i in a direction. */
  function BytesWritten(evs: seq<Event>, i: nat, d: Direction): nat {
    if evs == [] then 0
    else
      BytesWritten(evs[..|evs| - 1], i, d) +
      match evs[|evs| - 1]
      case Write(p, e, n) => if p == i && e == d then n else 0
      case _ => 0
  }

  /** The pipes and sessions are those that were opened and joined, in order. */
  lemma {:induction false} OpenedInOrder(evs: seq<Event>)
    requires Run(evs).Some?
    ensures var st := Run(evs).value;
      |st.pipes| == |OpensOf(evs)| &&
      forall i :: 0 <= i < |st.pipes| ==> (st.pipes[i].name, st.pipes[i].client) == OpensOf(evs)[i]
    ensures var st := Run(evs).value;
      |st.clients| == |JoinsOf(evs)| && forall k :: 0 <= k < |st.clients| ==> st.clients[k].name == JoinsOf(evs)[k]
  {
    if evs != [] {
      OpenedInOrder(evs[..|evs| - 1]);
      NamesStay(Run(evs[..|evs| - 1]).value, evs[|evs| - 1]);
    }
  }

  lemma NamesStay(st: State, ev: Event)
    requires Enabled(st, ev)
    ensures var st' := Next(st, ev);
      && |st'.pipes| == |st.pipes| + (if ev.Open? then 1 else 0)
      && |st'.clients| == |st.clients| + (if ev.Join? then 1 else 0)
      && (forall i :: 0 <= i < |st.pipes| ==>
            st'.pipes[i].name == st.pipes[i].name && st'.pipes[i].client == st.pipes[i].client)
      && (forall k :: 0 <= k < |st.clients| ==> st'.clients[k].name == st.clients[k].name)
      && (ev.Open? ==> st'.pipes[|st.pipes|].name == ev.name && st'.pipes[|st.pipes|].client == ev.found)
      && (ev.Join? ==> st'.clients[|st.clients|].name == ev.name)
  {
  }

  /** What a pipe is, if it has been opened: its written bytes are those of its writes, and it runs until its
      Close. */
  ghost predicate IsHistory(ps: seq<Pipe>, evs: seq<Event>, i: nat, d: Direction) {
    if i < |ps| then ps[i].Of(d).written == BytesWritten(evs, i, d) && (ps[i].running <==> Close(i) !in evs)
    else BytesWritten(evs, i, d) == 0 && Close(i) !in evs
  }

  lemma {:induction false} PipeIsHistory(evs: seq<Event>, i: nat, d: Direction)
    requires Run(evs).Some?
    ensures IsHistory(Run(evs).value.pipes, evs, i, d)
  {
    if evs != [] {
      var before, ev := evs[..|evs| - 1], evs[|evs| - 1];
      PipeIsHistory(before, i, d);
      PipeStep(Run(before).value, ev, i, d);
      assert evs == before + [ev];
    }
  }

  lemma PipeStep(st: State, ev: Event, i: nat, d: Direction)
    requires Enabled(st, ev)
    ensures var ps, ps' := st.pipes, Next(st, ev).pipes;
      var n := if ev.Write? && ev.p == i && ev.d == d then ev.n else 0;
      && |ps| <= |ps'|
      && (i < |ps| ==>
            ps'[i].Of(d).written == ps[i].Of(d).written + n && (ps'[i].running <==> ps[i].running && ev != Close(i)))
      && (|ps| <= i ==> n == 0 && ev != Close(i))
      && (|ps| <= i < |ps'| ==> ps'[i].running && ps'[i].Of(d).written == 0)
  {
  }

  /** A pipe that is between writes has counted, and given to the store, exactly the bytes written. */
  lemma IdleHasCounted(evs: seq<Event>, i: nat, d: Direction)
    requires Run(evs).Some? && i < |Run(evs).value.pipes| && Run(evs).value.pipes[i].Of(d).stage == Idle
    ensures var f := Run(evs).value.pipes[i].Of(d); f.counted == f.stored == BytesWritten(evs, i, d)
  {
    PipeIsHistory(evs, i, d);
    RunKeeps(evs, 0, "", d);
    assert FlowOk(Run(evs).value.pipes[i].tx) && FlowOk(Run(evs).value.pipes[i].rx);
  }

  lemma Extend(evs: seq<Event>, ev: Event) returns (evs': seq<Event>)
    requires Run(evs).Some? && Enabled(Run(evs).value, ev)
    ensures evs' == evs + [ev] && Run(evs') == Some(Next(Run(evs).value, ev))
  {
    evs' := evs + [ev];
    assert evs'[..|evs'| - 1] == evs;
  }
}
