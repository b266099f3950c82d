/** The registry of connected clients (core/internal/monitor/monitor.go:36-174) and the 5-second tick
    that samples it into the availability log (:422-451). */
module Monitor {
  import opened Options
  import opened Availability
  import opened Retention
  import opened Days
  import T = Traffic

  /** A connected client, with the counters that the server increments as it pipes. */
  class Client {
    const name: string
    const ip: string
    var tx: nat
    var rx: nat
    var active: int
    var ports: seq<nat>

    constructor (name: string, ip: string)
      ensures this.name == name && this.ip == ip
      ensures tx == 0 && rx == 0 && active == 0 && ports == []
    {
      this.name, this.ip := name, ip;
      tx, rx, active, ports := 0, 0, 0, [];
    }

    method AddTx(n: nat)
      modifies this`tx
      ensures tx == (old(tx) + n) % T.WRAP
    {
      tx := (tx + n) % T.WRAP;
    }

    method AddRx(n: nat)
      modifies this`rx
      ensures rx == (old(rx) + n) % T.WRAP
    {
      rx := (rx + n) % T.WRAP;
    }

    method ConnOpen()
      modifies this`active
      ensures active == old(active) + 1
    {
      active := active + 1;
    }

    method ConnClose()
      modifies this`active
      ensures active == old(active) - 1
    {
      active := active - 1;
    }
  }

  /** Sorted by name, as strings. */
  ghost predicate InOrder(cs: seq<Client>) {
    forall i, j :: 0 <= i < j < |cs| ==> Leq(cs[i].name, cs[j].name)
  }

  /** Sorting, one client at a time. */
  method Insert(cs: seq<Client>, c: Client) returns (all: seq<Client>)
    requires InOrder(cs)
    ensures InOrder(all) && |all| == |cs| + 1
    ensures forall x :: x in all <==> x in cs || x == c
  {
    var i := 0;
    while i < |cs| && Leq(cs[i].name, c.name)
      invariant 0 <= i <= |cs|
      invariant forall k :: 0 <= k < i ==> Leq(cs[k].name, c.name)
    {
      i := i + 1;
    }
    all := cs[..i] + [c] + cs[i..];
    if i < |cs| {
      LeqTotal(cs[i].name, c.name);
      forall k | i < k < |cs| ensures Leq(c.name, cs[k].name) {
        LeqTransitive(c.name, cs[i].name, cs[k].name);
      }
    }
  }

  class Registry {
    var m: map<string, Client>
    var lastIP: map<string, string>

    constructor ()
      ensures m == map[] && lastIP == map[]
    {
      m, lastIP := map[], map[];
    }

    method Add(id: string, c: Client)
      modifies this
      ensures m == old(m)[id := c]
      ensures lastIP == if c.name != "" && c.ip != "" then old(lastIP)[c.name := c.ip] else old(lastIP)
    {
      m := m[id := c];
      if c.name != "" && c.ip != "" {
        lastIP := lastIP[c.name := c.ip];
      }
    }

    method Del(id: string)
      modifies this`m
      ensures m == old(m) - {id}
    {
      m := m - {id};
    }

    method Get(id: string) returns (c: Option<Client>)
      ensures c == if id in m then Some(m[id]) else None
    {
      c := if id in m then Some(m[id]) else None;
    }

    method AddPort(id: string, port: nat)
      modifies (if id in m then {m[id]} else {})`ports
      ensures id in m ==> m[id].ports == old(m[id].ports) + [port]
    {
      if id in m {
        m[id].ports := m[id].ports + [port];
      }
    }

    /** The names of the connected clients. */
    ghost function Names(): set<string>
      reads this
    {
      set id | id in m :: m[id].name
    }

    /** The registered clients, in the order of their names. */
    method List() returns (cs: seq<Client>)
      ensures |cs| == |m| && (forall c :: c in cs <==> c in m.Values)
      ensures InOrder(cs)
    {
      cs := [];
      var todo := m.Keys;
      assert |m| == |m.Keys|;
      while todo != {}
        invariant todo <= m.Keys && |cs| + |todo| == |m|
        invariant forall c :: c in cs ==> c in m.Values
        invariant forall id :: id in m.Keys - todo ==> m[id] in cs
        invariant InOrder(cs)
      {
        var id :| id in todo;
        cs := Insert(cs, m[id]);
        todo := todo - {id};
      }
    }

    lemma ListedNames(cs: seq<Client>)
      requires forall c :: c in cs <==> c in m.Values
      ensures NamesOf(cs) == Names()
    {
      forall n | n in Names() ensures n in NamesOf(cs) {
        var id :| id in m && m[id].name == n;
        assert m[id] in m.Values;
        var k :| 0 <= k < |cs| && cs[k] == m[id];
      }
      forall k | 0 <= k < |cs| ensures cs[k].name in Names() {
        assert cs[k] in m.Values;
        var id :| id in m && m[id] == cs[k];
      }
    }

    /** Whether the named client has a tunnel up right now. */
    method Connected(name: string) returns (up: bool)
      ensures up <==> name in Names()
    {
      var cs := List();
      ListedNames(cs);
      for i := 0 to |cs|
        invariant forall k :: 0 <= k < i ==> cs[k].name != name
      {
        if cs[i].name == name {
          return true;
        }
      }
      up := false;
    }
  }

  // ----- the tick

  const SECOND := 1_000_000_000   // nanoseconds
  const GRACE := 30 * SECOND

  type Store = map<string, T.Client>

  function EntryOf(m: Store, name: string): T.Client {
    if name in m then m[name] else T.NEW_CLIENT
  }

  /** The clients the store knows after a tick: those it knew, and those connected now. */
  ghost function Known(m: Store, connected: set<string>): set<string> {
    m.Keys + (connected - {""})
  }

  function TickedState(c: T.Client, up: bool, now: int, grace: bool): T.Client {
    if !up && grace then c else c.(up := Recorded(c.up, now, up))
  }

  function TickedEntry(c: T.Client, up: bool, now: int, grace: bool): T.Client {
    TickedState(if up then c.(lastSeen := now) else c, up, now, grace)
  }

  ghost function Ticked(m: Store, connected: set<string>, now: int, grace: bool): Store {
    map n | n in Known(m, connected) :: TickedEntry(EntryOf(m, n), n in connected, now, grace)
  }

  ghost function NamesOf(cs: seq<Client>): set<string> {
    set k | 0 <= k < |cs| :: cs[k].name
  }

  ghost function Touched(m: Store, connected: set<string>, now: int): Store {
    map n | n in Known(m, connected) :: if n in connected then EntryOf(m, n).(lastSeen := now) else EntryOf(m, n)
  }

  lemma TouchStep(m: Store, connected: set<string>, name: string, now: int)
    requires "" !in m
    ensures var m1 := Touched(m, connected, now);
      Touched(m, connected + {name}, now) ==
      if name == "" then m1 else m1[name := EntryOf(m1, name).(lastSeen := now)]
  {
  }

  /** Every connected client is recorded as seen now. */
  method TouchAll(cs: seq<Client>, store: T.TrafficStore, now: int) returns (connected: set<string>)
    requires store.Valid(now)
    modifies store
    ensures store.Valid(now)
    ensures connected == NamesOf(cs) && store.m == Touched(old(store.m), connected, now)
  {
    connected := {};
    assert store.m == Touched(store.m, {}, now);
    for i := 0 to |cs|
      invariant store.Valid(now)
      invariant connected == NamesOf(cs[..i])
      invariant store.m == Touched(old(store.m), connected, now)
    {
      TouchStep(old(store.m), connected, cs[i].name, now);
      store.Touch(cs[i].name, now);
      connected := connected + {cs[i].name};
      assert NamesOf(cs[..i + 1]) == NamesOf(cs[..i]) + {cs[i].name};
    }
    assert cs[..|cs|] == cs;
  }

  /** The state of every known client is recorded, but for disconnections during the grace period. */
  method RecordStates(store: T.TrafficStore, connected: set<string>, now: int, grace: bool)
    requires store.Valid(now)
    modifies store
    ensures store.Valid(now)
    ensures store.m == map n | n in old(store.m) :: TickedState(old(store.m)[n], n in connected, now, grace)
  {
    var todo := store.m.Keys;
    ghost var seen := store.m;
    while todo != {}
      invariant store.Valid(now)
      invariant todo <= store.m.Keys == seen.Keys
      invariant forall n :: n in seen ==>
        store.m[n] == if n in todo then seen[n] else TickedState(seen[n], n in connected, now, grace)
    {
      var name :| name in todo;
      var up := name in connected;
      if up || !grace {
        store.RecordState(name, up, now);
      }
      todo := todo - {name};
    }
  }

  /** What a tick changes, field by field: a connected client is seen now; the log of a client that is
      connected, or not in the grace period, ends in its state, by at most one event; nothing else. */
  ghost predicate TickTells(c: T.Client, c': T.Client, up: bool, now: int, grace: bool) {
    && c'.ports == c.ports && c'.days == c.days
    && c'.lastSeen == (if up then now else c.lastSeen)
    && (!up && grace ==> c'.up == c.up)
    && (up || !grace ==>
          && c'.up == (if c.up != [] && c.up[|c.up| - 1].u == up then c.up else c.up + [UpEvent(now, up)])
          && c'.up[|c'.up| - 1].u == up)
  }

  ghost predicate TickOf(m: Store, m': Store, connected: set<string>, now: int, grace: bool) {
    && m'.Keys == m.Keys + (connected - {""})
    && forall n :: n in m' ==>
      TickTells(if n in m then m[n] else T.Client(map[], map[], 0, []), m'[n], n in connected, now, grace)
  }

  lemma TickedIs(m: Store, connected: set<string>, now: int, grace: bool)
    ensures TickOf(m, Ticked(m, connected, now, grace), connected, now, grace)
  {
  }

  /** One tick of the sampler: every connected client is touched, then the state of every known client
      is recorded, except that disconnections are not recorded during the first 30 seconds. */
  method Tick(reg: Registry, store: T.TrafficStore, startAt: int, clock: int)
    requires store.Valid(clock / SECOND)
    modifies store
    ensures store.Valid(clock / SECOND)
    ensures store.m == Ticked(old(store.m), reg.Names(), clock / SECOND, clock - startAt < GRACE)
    ensures TickOf(old(store.m), store.m, reg.Names(), clock / 1_000_000_000, clock - startAt < 30_000_000_000)
  {
    SampleOnce(reg, store, startAt, clock);
    TickedIs(old(store.m), reg.Names(), clock / SECOND, clock - startAt < GRACE);
  }

  method SampleOnce(reg: Registry, store: T.TrafficStore, startAt: int, clock: int)
    requires store.Valid(clock / SECOND)
    modifies store
    ensures store.Valid(clock / SECOND)
    ensures store.m == Ticked(old(store.m), reg.Names(), clock / SECOND, clock - startAt < GRACE)
  {
    var cs := reg.List();
    var connected := TouchAll(cs, store, clock / SECOND);
    reg.ListedNames(cs);
    var grace := clock - startAt < GRACE;
    RecordStates(store, connected, clock / SECOND, grace);
  }

  // ----- runs of the sampler

  datatype Sample = Sample(connected: set<string>, now: int, grace: bool)

  ghost function AfterTicks(m: Store, ticks: seq<Sample>): Store {
    if ticks == [] then m
    else
      var last := ticks[|ticks| - 1];
      Ticked(AfterTicks(m, ticks[..|ticks| - 1]), last.connected, last.now, last.grace)
  }

  /** The samples of one client that a run of ticks takes: from the tick that first knows it, without
      the disconnected ones of the grace period. */
  ghost function SamplesOf(m: Store, ticks: seq<Sample>, name: string): Log {
    if ticks == [] then []
    else
      var before := ticks[..|ticks| - 1];
      var last := ticks[|ticks| - 1];
      if name in AfterTicks(m, ticks) && (name in last.connected || !last.grace)
      then SamplesOf(m, before, name) + [UpEvent(last.now, name in last.connected)]
      else SamplesOf(m, before, name)
  }

  lemma {:induction false} TicksRecordSamples(m: Store, ticks: seq<Sample>, name: string)
    ensures EntryOf(AfterTicks(m, ticks), name).up == RecordAll(EntryOf(m, name).up, SamplesOf(m, ticks, name))
    ensures name !in AfterTicks(m, ticks) ==> name !in m && SamplesOf(m, ticks, name) == []
  {
    if ticks != [] {
      var before := ticks[..|ticks| - 1];
      TicksRecordSamples(m, before, name);
      var ss := SamplesOf(m, ticks, name);
      if |ss| > 0 {
        assert SamplesOf(m, ticks, name) != SamplesOf(m, before, name) ==>
          ss[..|ss| - 1] == SamplesOf(m, before, name);
      }
    }
  }

  /** The clock of the ticks does not go back, and starts after the loaded log. */
  ghost predicate TicksClocked(log: Log, ticks: seq<Sample>) {
    && Sorted(log)
    && (forall i, j :: 0 <= i <= j < |ticks| ==> ticks[i].now <= ticks[j].now)
    && (forall i :: 0 <= i < |ticks| ==> NotAfter(log, ticks[i].now))
  }

  lemma {:induction false} SamplesAreSorted(m: Store, ticks: seq<Sample>, name: string)
    requires TicksClocked(EntryOf(m, name).up, ticks)
    ensures Sorted(EntryOf(m, name).up + SamplesOf(m, ticks, name))
    ensures ticks != [] ==> NotAfter(EntryOf(m, name).up + SamplesOf(m, ticks, name), ticks[|ticks| - 1].now)
  {
    var log := EntryOf(m, name).up;
    if ticks == [] {
      assert log + [] == log;
    } else {
      var before, last := ticks[..|ticks| - 1], ticks[|ticks| - 1];
      var ss := SamplesOf(m, before, name);
      SamplesAreSorted(m, before, name);
      SamplesNotAfter(m, before, name, last.now);
      var e := UpEvent(last.now, name in last.connected);
      PushSorted(log + ss, e);
      assert log + (ss + [e]) == (log + ss) + [e];
    }
  }

  lemma SamplesNotAfter(m: Store, ticks: seq<Sample>, name: string, now: int)
    requires NotAfter(EntryOf(m, name).up, now)
    requires ticks != [] ==> ticks[|ticks| - 1].now <= now
    requires ticks != [] ==> NotAfter(EntryOf(m, name).up + SamplesOf(m, ticks, name), ticks[|ticks| - 1].now)
    ensures NotAfter(EntryOf(m, name).up + SamplesOf(m, ticks, name), now)
  {
    if ticks == [] {
      assert EntryOf(m, name).up + [] == EntryOf(m, name).up;
    }
  }

  /** The log decodes to the samples: at every second the state it gives is that of the latest sample
      taken at or before that second (or of the loaded log, before the first sample), and it strictly
      alternates. */
  lemma LogDecodesSamples(m: Store, ticks: seq<Sample>, name: string, s: int)
    requires TicksClocked(EntryOf(m, name).up, ticks)
    ensures StateAt(EntryOf(AfterTicks(m, ticks), name).up, s) ==
      StateAt(EntryOf(m, name).up + SamplesOf(m, ticks, name), s)
    ensures Alternates(EntryOf(m, name).up) ==> Alternates(EntryOf(AfterTicks(m, ticks), name).up)
  {
    var all := EntryOf(m, name).up + SamplesOf(m, ticks, name);
    SamplesAreSorted(m, ticks, name);
    TicksRecordSamples(m, ticks, name);
    RunLengthExact(EntryOf(m, name).up, SamplesOf(m, ticks, name), s);
    RecordAllShape(EntryOf(m, name).up, SamplesOf(m, ticks, name), if all == [] then 0 else all[|all| - 1].t);
  }

  /** j is the last sample taken in the second of sample k. */
  predicate LastOfItsSecond(ss: Log, k: nat, j: nat) {
    k <= j < |ss| && ss[j].t == ss[k].t && (j + 1 < |ss| ==> ss[k].t < ss[j + 1].t)
  }

  /** Decoding the log at the time of a sample gives the last sample of that second, and so gives this
      sample back exactly when the last one of its second is equal to it. */
  lemma SampleReadsBack(m: Store, ticks: seq<Sample>, name: string, k: nat, j: nat)
    requires TicksClocked(EntryOf(m, name).up, ticks) && LastOfItsSecond(SamplesOf(m, ticks, name), k, j)
    ensures var ss := SamplesOf(m, ticks, name);
      && StateAt(EntryOf(AfterTicks(m, ticks), name).up, ss[k].t) == ss[j].u
      && (StateAt(EntryOf(AfterTicks(m, ticks), name).up, ss[k].t) == ss[k].u <==> ss[j] == ss[k])
  {
    var ss := SamplesOf(m, ticks, name);
    SamplesAreSorted(m, ticks, name);
    LogDecodesSamples(m, ticks, name, ss[k].t);
    StateOfSecond(EntryOf(m, name).up, ss, k, j);
  }

  lemma StateOfSecond(log: Log, ss: Log, k: nat, j: nat)
    requires Sorted(log + ss) && LastOfItsSecond(ss, k, j)
    ensures StateAt(log + ss, ss[k].t) == ss[j].u
  {
    assert (log + ss)[|log| + j] == ss[j];
    assert j + 1 < |ss| ==> (log + ss)[|log| + j + 1] == ss[j + 1];
    StateBetween(log + ss, |log| + j + 1, ss[k].t);
  }

  /** Every sample has a last one of its second. */
  lemma {:induction false} SecondsEnd(ss: Log, k: nat) returns (j: nat)
    requires Sorted(ss) && k < |ss|
    ensures LastOfItsSecond(ss, k, j)
    decreases |ss| - k
  {
    j := k;
    if k + 1 < |ss| && ss[k + 1].t == ss[k].t {
      j := SecondsEnd(ss, k + 1);
    }
  }

  /** A client that is connected at one tick and gone at another one of the same second: the log says that
      it was down in that second, although a sample of it was up. */
  lemma TwoSamplesInASecond(name: string, now: int)
    requires name != ""
    ensures exists ticks ::
      TicksClocked([], ticks) && SamplesOf(map[], ticks, name) == [UpEvent(now, true), UpEvent(now, false)] &&
      !StateAt(EntryOf(AfterTicks(map[], ticks), name).up, now)
  {
    var up, down := Sample({name}, now, false), Sample({}, now, false);
    var ticks := [up, down];
    assert ticks[..1] == [up];
    OneSample(up, name);
    assert name in AfterTicks(map[], ticks);
    assert SamplesOf(map[], ticks, name) == [UpEvent(now, true)] + [UpEvent(now, false)];
    assert TicksClocked([], ticks);
    SampleReadsBack(map[], ticks, name, 0, 1);
  }

  lemma OneSample(tick: Sample, name: string)
    requires name in tick.connected && name != ""
    ensures SamplesOf(map[], [tick], name) == [UpEvent(tick.now, true)] && name in AfterTicks(map[], [tick])
  {
    var none: seq<Sample> := [];
    assert [tick][..0] == none;
    assert AfterTicks(map[], [tick]) == Ticked(map[], tick.connected, tick.now, tick.grace);
  }

  /** After every tick past the grace period, the last state of every known client is the registry's
      answer. */
  lemma LastStateIsRegistry(m: Store, ticks: seq<Sample>, name: string)
    requires ticks != [] && !ticks[|ticks| - 1].grace && name in AfterTicks(m, ticks)
    ensures var log := AfterTicks(m, ticks)[name].up;
      log != [] && (log[|log| - 1].u <==> name in ticks[|ticks| - 1].connected)
  {
  }
}
