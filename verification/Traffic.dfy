/** The persisted store of core/internal/monitor/traffic.go: byte counters kept by port and by day, and
    the availability log, per client name. */
module Traffic {
  import opened Options
  import opened Availability
  import opened Retention
  import opened Days

  const WRAP: nat := 0x1_0000_0000_0000_0000   // uint64

  type Counter = n: nat | n < 0x1_0000_0000_0000_0000

  datatype PortBytes = PortBytes(tx: Counter, rx: Counter)

  datatype Client = Client(ports: map<nat, PortBytes>, days: Totals, lastSeen: int, up: Log)

  const NEW_CLIENT := Client(map[], map[], 0, [])

  // ----- effects of the operations on one client

  function PortOf(c: Client, port: nat): PortBytes {
    if port in c.ports then c.ports[port] else PortBytes(0, 0)
  }

  /** Add: both counters of the port and the day's total, in wrapping 64-bit arithmetic. */
  function Credited(c: Client, port: nat, tx: nat, rx: nat, day: string): Client {
    var p := PortOf(c, port);
    c.(ports := c.ports[port := PortBytes((p.tx + tx) % WRAP, (p.rx + rx) % WRAP)],
       days := c.days[day := (DayTotal(c.days, day) + (tx + rx) % WRAP) % WRAP])
  }

  ghost function Saved(c: Client, now: int): Client {
    c.(days := PrunedDays(c.days), up := c.up[Dropped(c.up, now - RETENTION)..])
  }

  // ----- conservation

  ghost function Sum<K>(m: map<K, nat>): nat {
    if m == map[] then 0
    else
      var k :| k in m;
      m[k] + Sum(m - {k})
  }

  lemma {:induction false} SumRemove<K>(m: map<K, nat>, k: K)
    requires k in m
    ensures Sum(m) == m[k] + Sum(m - {k})
    decreases |m|
  {
    var j :| j in m && Sum(m) == m[j] + Sum(m - {j});
    if j != k {
      SumRemove(m - {j}, k);
      SumRemove(m - {k}, j);
      assert m - {j} - {k} == m - {k} - {j};
    }
  }

  lemma SumUpdate<K>(m: map<K, nat>, k: K, v: nat)
    ensures Sum(m[k := v]) == Sum(m) - (if k in m then m[k] else 0) + v
  {
    SumRemove(m[k := v], k);
    assert m[k := v] - {k} == m - {k};
    if k in m {
      SumRemove(m, k);
    } else {
      assert m - {k} == m;
    }
  }

  ghost function Only<K>(m: map<K, nat>, ks: set<K>): map<K, nat> {
    map k | k in m && k in ks :: m[k]
  }

  lemma {:induction false} SumSplit<K>(m: map<K, nat>, ks: set<K>)
    ensures Sum(m) == Sum(Only(m, ks)) + Sum(m - ks)
    decreases |m|
  {
    if m == map[] {
      assert Only(m, ks) == map[] && m - ks == map[];
    } else {
      var k :| k in m;
      SumSplit(m - {k}, ks);
      SumRemove(m, k);
      if k in ks {
        SumOnlyRemove(m, ks, k);
      } else {
        SumRestRemove(m, ks, k);
      }
    }
  }

  lemma SumOnlyRemove<K>(m: map<K, nat>, ks: set<K>, k: K)
    requires k in m && k in ks
    ensures Sum(Only(m, ks)) == m[k] + Sum(Only(m - {k}, ks)) && m - ks == m - {k} - ks
  {
    SumRemove(Only(m, ks), k);
    assert Only(m, ks) - {k} == Only(m - {k}, ks);
  }

  lemma SumRestRemove<K>(m: map<K, nat>, ks: set<K>, k: K)
    requires k in m && k !in ks
    ensures Sum(m - ks) == m[k] + Sum(m - {k} - ks) && Only(m, ks) == Only(m - {k}, ks)
  {
    SumRemove(m - ks, k);
    assert (m - ks) - {k} == m - {k} - ks;
  }

  /** Bytes of a client over all ports, and over all stored days. */
  ghost function PortTotal(c: Client): nat {
    Sum(map p | p in c.ports :: c.ports[p].tx + c.ports[p].rx)
  }

  ghost function DaySum(c: Client): nat { Sum(c.days) }

  function Wraps(q: int): int { q * WRAP }

  /** Equal modulo 2^64 (see CongIs). */
  ghost predicate Cong(a: int, b: int) {
    exists q :: a - b == Wraps(q)
  }

  /** What Cong means: equal remainders. */
  lemma CongIs(a: int, b: int)
    ensures Cong(a, b) <==> a % WRAP == b % WRAP
  {
    if Cong(a, b) {
      var q :| a - b == Wraps(q);
      assert a == b + q * WRAP;
    }
    if a % WRAP == b % WRAP {
      assert a - b == Wraps(a / WRAP - b / WRAP);
    }
  }

  lemma CongSame(a: int)
    ensures Cong(a, a)
  {
    assert a - a == Wraps(0);
  }

  lemma CongSum(a: int, b: int, c: int, d: int)
    requires Cong(a, b) && Cong(c, d)
    ensures Cong(a + c, b + d)
  {
    var q :| a - b == Wraps(q);
    var r :| c - d == Wraps(r);
    assert (a + c) - (b + d) == Wraps(q + r);
  }

  lemma CongWrap(x: int)
    ensures Cong(x % WRAP, x)
  {
    assert x % WRAP - x == Wraps(-(x / WRAP));
  }

  lemma CongShift(a: int, b: int, x: int)
    requires Cong(a, b)
    ensures Cong(a + x, b + x)
  {
    var q :| a - b == Wraps(q);
    assert (a + x) - (b + x) == Wraps(q);
  }

  /** x' is x and t more; x and p make y: so x' and p make y and t more. */
  lemma CongStep(x': int, x: int, p: int, y: int, t: int)
    requires Cong(x', x + t) && Cong(x + p, y)
    ensures Cong(x' + p, y + t)
  {
    var q :| x' - (x + t) == Wraps(q);
    var r :| x + p - y == Wraps(r);
    assert x' + p - (y + t) == Wraps(q + r);
  }

  /** Ports that grew from a to a' and days that grew from d to d' got the same bytes t, if p were pruned. */
  lemma CongGrowth(a': int, a: int, d': int, d: int, p: int, t: int)
    requires Cong(a', a + t) && Cong(d' + p, d + t)
    ensures Cong(a' - a, t) && Cong(a' - a, d' - d + p)
  {
    var q :| a' - (a + t) == Wraps(q);
    var r :| d' + p - (d + t) == Wraps(r);
    assert a' - a - t == Wraps(q);
    assert a' - a - (d' - d + p) == Wraps(q - r);
  }

  /** One Add puts the same bytes on the port side and on the day side. */
  lemma CreditBoth(c: Client, port: nat, tx: nat, rx: nat, day: string)
    ensures var c' := Credited(c, port, tx, rx, day);
      && Cong(PortTotal(c'), PortTotal(c) + (tx + rx))
      && Cong(DaySum(c'), DaySum(c) + (tx + rx))
  {
    CreditPorts(c, port, tx, rx, day);
    CreditDays(c, port, tx, rx, day);
  }

  lemma PortTotalUpdate(c: Client, c': Client, port: nat, p': PortBytes)
    requires c'.ports == c.ports[port := p']
    ensures var p := PortOf(c, port); PortTotal(c') == PortTotal(c) - (p.tx + p.rx) + (p'.tx + p'.rx)
  {
    var before := map q | q in c.ports :: c.ports[q].tx + c.ports[q].rx;
    assert (map q | q in c'.ports :: c'.ports[q].tx + c'.ports[q].rx) == before[port := p'.tx + p'.rx];
    SumUpdate(before, port, p'.tx + p'.rx);
  }

  lemma CreditPorts(c: Client, port: nat, tx: nat, rx: nat, day: string)
    ensures Cong(PortTotal(Credited(c, port, tx, rx, day)), PortTotal(c) + (tx + rx))
  {
    var c' := Credited(c, port, tx, rx, day);
    var p, p' := PortOf(c, port), c'.ports[port];
    PortTotalUpdate(c, c', port, p');
    CongWrap(p.tx + tx);
    CongWrap(p.rx + rx);
    CongSum(p'.tx, p.tx + tx, p'.rx, p.rx + rx);
    CongShift(p'.tx + p'.rx, p.tx + tx + (p.rx + rx), PortTotal(c) - (p.tx + p.rx));
  }

  lemma CreditDays(c: Client, port: nat, tx: nat, rx: nat, day: string)
    ensures Cong(DaySum(Credited(c, port, tx, rx, day)), DaySum(c) + (tx + rx))
  {
    var d := DayTotal(c.days, day);
    var d' := Credited(c, port, tx, rx, day).days[day];
    SumUpdate(c.days, day, d');
    CongWrap(tx + rx);
    CongWrap(d + (tx + rx) % WRAP);
    CongStep(d', (tx + rx) % WRAP, 0, tx + rx, d);
    CongShift(d', tx + rx + d, DaySum(c) - d);
  }

  datatype Op = Credit(port: nat, tx: nat, rx: nat, day: string) | Save(now: int)

  ghost function Applied(c: Client, op: Op): Client {
    match op
    case Credit(port, tx, rx, day) => Credited(c, port, tx, rx, day)
    case Save(now) => Saved(c, now)
  }

  ghost function ApplyAll(c: Client, ops: seq<Op>): Client {
    if ops == [] then c else Applied(ApplyAll(c, ops[..|ops| - 1]), ops[|ops| - 1])
  }

  /** Bytes of the days that the saves of a run pruned. */
  ghost function PrunedBytes(c: Client, ops: seq<Op>): nat {
    if ops == [] then 0
    else
      var before := ApplyAll(c, ops[..|ops| - 1]);
      PrunedBytes(c, ops[..|ops| - 1]) +
      (if ops[|ops| - 1].Save? then Sum(before.days - PrunedDays(before.days).Keys) else 0)
  }

  /** Bytes handed to Add. */
  function Credits(ops: seq<Op>): nat {
    if ops == [] then 0
    else
      var op := ops[|ops| - 1];
      Credits(ops[..|ops| - 1]) + (if op.Credit? then op.tx + op.rx else 0)
  }

  lemma {:induction false} PortsGetCredits(c: Client, ops: seq<Op>)
    ensures Cong(PortTotal(ApplyAll(c, ops)), PortTotal(c) + Credits(ops))
  {
    if ops == [] {
      CongSame(PortTotal(c));
    } else {
      var op, before := ops[|ops| - 1], ApplyAll(c, ops[..|ops| - 1]);
      var credits := Credits(ops[..|ops| - 1]);
      PortsGetCredits(c, ops[..|ops| - 1]);
      if op.Credit? {
        CreditBoth(before, op.port, op.tx, op.rx, op.day);
        CongStep(PortTotal(Applied(before, op)), PortTotal(before), 0, PortTotal(c) + credits, op.tx + op.rx);
      }
    }
  }

  lemma {:induction false} DaysGetCredits(c: Client, ops: seq<Op>)
    ensures Cong(DaySum(ApplyAll(c, ops)) + PrunedBytes(c, ops), DaySum(c) + Credits(ops))
  {
    if ops == [] {
      CongSame(DaySum(c));
    } else {
      var op, before := ops[|ops| - 1], ApplyAll(c, ops[..|ops| - 1]);
      var credits, pruned := Credits(ops[..|ops| - 1]), PrunedBytes(c, ops[..|ops| - 1]);
      DaysGetCredits(c, ops[..|ops| - 1]);
      match op
      case Credit(port, tx, rx, day) =>
        CreditBoth(before, port, tx, rx, day);
        CongStep(DaySum(Applied(before, op)), DaySum(before), pruned, DaySum(c) + credits, tx + rx);
      case Save(now) =>
        SumSplit(before.days, PrunedDays(before.days).Keys);
        assert Only(before.days, PrunedDays(before.days).Keys) == PrunedDays(before.days);
    }
  }

  /** Over any run of Add and saves, the growth of a client's ports is the growth of its days plus what
      was pruned, and both are what was handed to Add, modulo 2^64. */
  lemma BytesAreConserved(c: Client, ops: seq<Op>)
    ensures var c' := ApplyAll(c, ops);
      && Cong(PortTotal(c') - PortTotal(c), Credits(ops))
      && Cong(PortTotal(c') - PortTotal(c), DaySum(c') - DaySum(c) + PrunedBytes(c, ops))
  {
    var c' := ApplyAll(c, ops);
    PortsGetCredits(c, ops);
    DaysGetCredits(c, ops);
    CongGrowth(PortTotal(c'), PortTotal(c), DaySum(c'), DaySum(c), PrunedBytes(c, ops), Credits(ops));
  }

  /** An Add, field by field: sent bytes go to tx, received bytes to rx, both to the day. */
  lemma CreditedFields(c: Client, port: nat, tx: nat, rx: nat, day: string)
    ensures var c' := Credited(c, port, tx, rx, day);
      && port in c'.ports && day in c'.days
      && c'.ports[port].tx == ((if port in c.ports then c.ports[port].tx else 0) + tx) % 0x1_0000_0000_0000_0000
      && c'.ports[port].rx == ((if port in c.ports then c.ports[port].rx else 0) + rx) % 0x1_0000_0000_0000_0000
      && c'.days[day] == ((if day in c.days then c.days[day] else 0) + tx + rx) % 0x1_0000_0000_0000_0000
      && c'.ports - {port} == c.ports - {port} && c'.days - {day} == c.days - {day}
      && c'.lastSeen == c.lastSeen && c'.up == c.up
  {
    WrapTwice(DayTotal(c.days, day), tx + rx);
  }

  lemma WrapTwice(d: nat, t: nat)
    ensures (d + t % WRAP) % WRAP == (d + t) % WRAP
  {
  }

  lemma SavedKeepsLog(c: Client, now: int)
    requires Sorted(c.up) && NotAfter(c.up, now)
    ensures Sorted(Saved(c, now).up) && NotAfter(Saved(c, now).up, now)
  {
  }

  // ----- the store

  class TrafficStore {
    var m: map<string, Client>
    var dirty: bool
    const path: string

    /** What a well-formed file, loaded at `now`, gives: sorted logs with nothing in the future. */
    constructor (path: string, loaded: map<string, Client>, now: int)
      requires "" !in loaded && forall n :: n in loaded ==> Sorted(loaded[n].up) && NotAfter(loaded[n].up, now)
      ensures Valid(now) && this.path == path
      ensures m.Keys == loaded.Keys
      ensures forall n :: n in m ==>
        m[n] == loaded[n].(lastSeen := if loaded[n].lastSeen == 0 then now else loaded[n].lastSeen)
    {
      this.path := path;
      m := map n | n in loaded :: loaded[n].(lastSeen := if loaded[n].lastSeen == 0 then now else loaded[n].lastSeen);
      dirty := false;
    }

    ghost predicate Valid(now: int)
      reads this
    {
      "" !in m && forall n :: n in m ==> Sorted(m[n].up) && NotAfter(m[n].up, now)
    }

    function Entry(name: string): Client
      reads this
    {
      if name in m then m[name] else NEW_CLIENT
    }

    function TxOf(name: string, port: nat): Counter
      reads this
    {
      if name in m && port in m[name].ports then m[name].ports[port].tx else 0
    }

    function RxOf(name: string, port: nat): Counter
      reads this
    {
      if name in m && port in m[name].ports then m[name].ports[port].rx else 0
    }

    function DayOf(name: string, day: string): nat
      reads this
    {
      if name in m && day in m[name].days then m[name].days[day] else 0
    }

    method Touch(name: string, now: int)
      modifies this
      ensures m == if name == "" then old(m) else old(m)[name := old(Entry(name)).(lastSeen := now)]
      ensures dirty == (old(dirty) || name != "")
      ensures forall t :: old(Valid(t)) ==> Valid(t)
    {
      if name == "" {
        return;
      }
      m := m[name := Entry(name).(lastSeen := now)];
      dirty := true;
    }

    method RecordState(name: string, up: bool, now: int)
      requires Valid(now)
      modifies this
      ensures Valid(now)
      ensures m == if name == "" then old(m)
                   else old(m)[name := old(Entry(name)).(up := Recorded(old(Entry(name)).up, now, up))]
      ensures dirty == (old(dirty) || (name != "" && Recorded(old(Entry(name)).up, now, up) != old(Entry(name)).up))
    {
      if name == "" {
        return;
      }
      if name !in m {
        m := m[name := NEW_CLIENT];
      }
      var log := m[name].up;
      RecordedShape(log, now, up);
      if |log| == 0 || log[|log| - 1].u != up {
        m := m[name := m[name].(up := log + [UpEvent(now, up)])];
        dirty := true;
      }
    }

    method UptimeOf(name: string, window: int, now: int) returns (pct: real)
      requires Valid(now)
      ensures pct == Pct(Entry(name).up, now, window)
    {
      if name !in m {
        return -1.0;
      }
      pct := UptimePct(m[name].up, now, window);
    }

    method Add(name: string, port: nat, tx: nat, rx: nat, today: string)
      modifies this
      ensures m == if name == "" then old(m) else old(m)[name := Credited(old(Entry(name)), port, tx, rx, today)]
      ensures dirty == (old(dirty) || name != "")
      ensures forall t :: old(Valid(t)) ==> Valid(t)
      ensures name != "" ==>
        && TxOf(name, port) == (old(TxOf(name, port)) + tx) % 0x1_0000_0000_0000_0000
        && RxOf(name, port) == (old(RxOf(name, port)) + rx) % 0x1_0000_0000_0000_0000
        && DayOf(name, today) == (old(DayOf(name, today)) + tx + rx) % 0x1_0000_0000_0000_0000
      ensures name != "" ==>
        && m[name].ports - {port} == old(Entry(name)).ports - {port}
        && m[name].days - {today} == old(Entry(name)).days - {today}
        && m[name].lastSeen == old(Entry(name)).lastSeen && m[name].up == old(Entry(name)).up
    {
      if name == "" {
        return;
      }
      CreditedFields(Entry(name), port, tx, rx, today);
      var c := Entry(name);
      var p := PortOf(c, port);
      c := c.(ports := c.ports[port := PortBytes((p.tx + tx) % WRAP, (p.rx + rx) % WRAP)]);
      c := c.(days := c.days[today := (DayTotal(c.days, today) + (tx + rx) % WRAP) % WRAP]);
      m := m[name := c];
      dirty := true;
    }

    method TodayTotal(name: string, today: string) returns (bytes: nat)
      ensures bytes == DayTotal(Entry(name).days, today) == DayOf(name, today)
    {
      bytes := if name in m then DayTotal(m[name].days, today) else 0;
    }

    /** One tick of the saver: every client is pruned, when there is something to save. */
    method Save(now: int) returns (written: Option<map<string, Client>>)
      requires Valid(now)
      modifies this
      ensures Valid(now)
      ensures old(dirty) && path != "" ==>
        && m.Keys == old(m).Keys && (forall n :: n in m ==> m[n] == Saved(old(m)[n], now))
        && !dirty && written == Some(m)
      ensures old(dirty) && path != "" ==> forall n :: n in m ==>
        && m[n].ports == old(m)[n].ports && m[n].lastSeen == old(m)[n].lastSeen
        && KeepsNewest(old(m)[n].days, m[n].days) && KeepsRecent(old(m)[n].up, m[n].up, now)
      ensures !(old(dirty) && path != "") ==> m == old(m) && dirty == old(dirty) && written == None
    {
      if !dirty || path == "" {
        return None;
      }
      var todo := m.Keys;
      while todo != {}
        invariant todo <= m.Keys == old(m).Keys
        invariant forall n :: n in m ==> m[n] == if n in todo then old(m)[n] else Saved(old(m)[n], now)
      {
        var name :| name in todo;
        var days := PruneDays(m[name].days);
        var up := Prune(m[name].up, now);
        m := m[name := m[name].(days := days, up := up)];
        todo := todo - {name};
      }
      forall n | n in m
        ensures Sorted(m[n].up) && NotAfter(m[n].up, now)
        ensures KeepsNewest(old(m)[n].days, m[n].days) && KeepsRecent(old(m)[n].up, m[n].up, now)
      {
        SavedKeepsLog(old(m)[n], now);
        KeptByRank(old(m)[n].days);
        DroppedKeepsRecent(old(m)[n].up, now);
      }
      dirty := false;
      written := Some(m);
    }
  }
}
