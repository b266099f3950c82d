/** Day totals under date keys: what the saver's pruning to the 60 greatest keys changes
    (core/internal/monitor/traffic.go:202-231, 243-252). Keys are compared as strings. */
module Days {

  const DAYS_KEPT := 60
  const DAYS_SHOWN := 30

  // ----- the order of sort.Strings

  predicate Leq(a: string, b: string) {
    a == [] || (b != [] && (a[0] < b[0] || (a[0] == b[0] && Leq(a[1..], b[1..]))))
  }

  lemma {:induction false} LeqTotal(a: string, b: string)
    ensures Leq(a, b) || Leq(b, a)
  {
    if a != [] && b != [] && a[0] == b[0] {
      LeqTotal(a[1..], b[1..]);
    }
  }

  lemma {:induction false} LeqAntisymmetric(a: string, b: string)
    requires Leq(a, b) && Leq(b, a)
    ensures a == b
  {
    if a != [] && b != [] {
      LeqAntisymmetric(a[1..], b[1..]);
      assert a == [a[0]] + a[1..] && b == [b[0]] + b[1..];
    }
  }

  lemma {:induction false} LeqTransitive(a: string, b: string, c: string)
    requires Leq(a, b) && Leq(b, c)
    ensures Leq(a, c)
  {
    if a != [] && a[0] == b[0] && b[0] == c[0] {
      LeqTransitive(a[1..], b[1..], c[1..]);
    }
  }

  /** b follows a: a is a prefix of b, or smaller at the first position where they differ. */
  ghost predicate FollowsFrom(a: string, b: string, k: nat) {
    && k <= |a| && k <= |b| && a[..k] == b[..k]
    && (k == |a| || (k < |b| && a[k] < b[k]))
  }

  /** The order is that of strings: the first difference decides. */
  lemma {:induction false} LeqByFirstDifference(a: string, b: string)
    ensures Leq(a, b) <==> exists k: nat :: FollowsFrom(a, b, k)
  {
    if a == [] {
      assert FollowsFrom(a, b, 0);
    } else if b != [] {
      if a[0] < b[0] {
        assert FollowsFrom(a, b, 0);
      }
      LeqByFirstDifference(a[1..], b[1..]);
      if k: nat :| a[0] == b[0] && FollowsFrom(a[1..], b[1..], k) {
        assert a[..k + 1] == [a[0]] + a[1..][..k] && b[..k + 1] == [b[0]] + b[1..][..k];
        assert FollowsFrom(a, b, k + 1);
      }
      if k: nat :| k > 0 && FollowsFrom(a, b, k) {
        assert a[0] == a[..k][0] == b[..k][0] == b[0];
        assert a[1..][..k - 1] == a[..k][1..] && b[1..][..k - 1] == b[..k][1..];
        assert FollowsFrom(a[1..], b[1..], k - 1);
      }
    }
  }

  ghost predicate IsGreatest(m: string, keys: set<string>) {
    m in keys && forall k :: k in keys ==> Leq(k, m)
  }

  ghost function Greatest(keys: set<string>): (m: string)
    requires keys != {}
    ensures m in keys
  {
    var d :| d in keys;
    if keys == {d} then d
    else
      var m := Greatest(keys - {d});
      if Leq(d, m) then m else d
  }

  lemma {:induction false} GreatestBounds(keys: set<string>)
    requires keys != {}
    ensures IsGreatest(Greatest(keys), keys)
  {
    var d :| d in keys && Greatest(keys) ==
      if keys == {d} then d
      else if Leq(d, Greatest(keys - {d})) then Greatest(keys - {d}) else d;
    LeqTotal(d, d);
    if keys != {d} {
      var m := Greatest(keys - {d});
      GreatestBounds(keys - {d});
      LeqTotal(d, m);
      forall k | k in keys ensures Leq(k, Greatest(keys)) {
        if k != d && Greatest(keys) == d {
          LeqTransitive(k, m, d);
        }
      }
    }
  }

  lemma GreatestIs(m: string, keys: set<string>)
    requires IsGreatest(m, keys)
    ensures Greatest(keys) == m
  {
    GreatestBounds(keys);
    LeqAntisymmetric(m, Greatest(keys));
  }

  lemma GreatestOfSubset(keys: set<string>, some: set<string>)
    requires keys != {} && Greatest(keys) in some && some <= keys
    ensures Greatest(some) == Greatest(keys)
  {
    GreatestBounds(keys);
    GreatestIs(Greatest(keys), some);
  }

  /** The keys in ascending order. */
  ghost function Ascending(keys: set<string>): (ds: seq<string>)
    ensures |ds| == |keys|
  {
    if keys == {} then []
    else
      var m := Greatest(keys);
      Ascending(keys - {m}) + [m]
  }

  lemma {:induction false} AscendingHas(keys: set<string>, d: string)
    ensures d in Ascending(keys) <==> d in keys
    decreases |keys|
  {
    if keys != {} {
      AscendingHas(keys - {Greatest(keys)}, d);
    }
  }

  ghost predicate Rises(ds: seq<string>) {
    forall i, j :: 0 <= i < j < |ds| ==> Leq(ds[i], ds[j]) && ds[i] != ds[j]
  }

  lemma {:induction false} AscendingRises(keys: set<string>)
    ensures Rises(Ascending(keys))
    decreases |keys|
  {
    if keys != {} {
      var m := Greatest(keys);
      AscendingRises(keys - {m});
      GreatestBounds(keys);
      forall d | d in Ascending(keys - {m}) ensures Leq(d, m) && d != m {
        AscendingHas(keys - {m}, d);
      }
    }
  }

  /** sort.Strings on the keys of a map. */
  method SortStrings(keys: set<string>) returns (ds: seq<string>)
    ensures ds == Ascending(keys)
  {
    ds := [];
    var rest := keys;
    while rest != {}
      invariant Ascending(keys) == Ascending(rest) + ds
    {
      GreatestBounds(rest);
      var m :| m in rest && forall k | k in rest :: Leq(k, m);
      GreatestIs(m, rest);
      ds := [m] + ds;
      rest := rest - {m};
    }
  }

  // ----- the n greatest keys

  /** Where the n greatest begin in the ascending list. */
  function Start(size: nat, n: nat): (from: nat)
    ensures from <= size
  {
    if n < size then size - n else 0
  }

  function LastOf(ds: seq<string>, n: nat): seq<string> {
    ds[Start(|ds|, n)..]
  }

  ghost function Newest(keys: set<string>, n: nat): (top: set<string>) {
    if keys == {} || n == 0 then {}
    else
      var m := Greatest(keys);
      {m} + Newest(keys - {m}, n - 1)
  }

  lemma {:induction false} NewestWithin(keys: set<string>, n: nat)
    ensures Newest(keys, n) <= keys
    decreases |keys|
  {
    if keys != {} && n > 0 {
      NewestWithin(keys - {Greatest(keys)}, n - 1);
    }
  }

  /** What is left of the n greatest without the greatest. */
  lemma NewestRest(keys: set<string>, n: nat)
    requires keys != {} && n > 0
    ensures var m := Greatest(keys); var newest := Newest(keys, n);
      newest != {} && Greatest(newest) == m && newest - {m} == Newest(keys - {m}, n - 1)
  {
    NewestWithin(keys, n);
    NewestWithin(keys - {Greatest(keys)}, n - 1);
    GreatestOfSubset(keys, Newest(keys, n));
  }

  lemma AscendingStep(keys: set<string>, m: string)
    requires keys != {} && m == Greatest(keys)
    ensures Ascending(keys) == Ascending(keys - {m}) + [m] && |keys| == |keys - {m}| + 1
  {
  }

  lemma LastOfPushed(ds: seq<string>, m: string, n: nat)
    requires n > 0
    ensures LastOf(ds + [m], n) == LastOf(ds, n - 1) + [m]
  {
  }

  /** The n greatest keys are the last n of the sorted list. */
  lemma {:induction false} AscendingOfNewest(keys: set<string>, n: nat)
    ensures Ascending(Newest(keys, n)) == LastOf(Ascending(keys), n)
    decreases |keys|
  {
    if keys == {} || n == 0 {
      assert Newest(keys, n) == {};
      assert LastOf(Ascending(keys), n) == [];
    } else {
      var m, newest := Greatest(keys), Newest(keys, n);
      AscendingOfNewest(keys - {m}, n - 1);
      NewestRest(keys, n);
      AscendingStep(keys, m);
      AscendingStep(newest, m);
      LastOfPushed(Ascending(keys - {m}), m, n);
    }
  }

  ghost function Above(keys: set<string>, d: string): set<string> {
    set k | k in keys && k != d && Leq(d, k)
  }

  /** A key is among the n greatest exactly when fewer than n keys are above it. */
  lemma {:induction false} NewestByRank(keys: set<string>, n: nat, d: string)
    requires d in keys
    ensures d in Newest(keys, n) <==> |Above(keys, d)| < n
    decreases |keys|
  {
    if n > 0 {
      var m := Greatest(keys);
      NewestHas(keys, n, d);
      AboveStep(keys, d);
      if d != m {
        NewestByRank(keys - {m}, n - 1, d);
      }
    }
  }

  lemma NewestHas(keys: set<string>, n: nat, d: string)
    requires d in keys && n > 0
    ensures var m := Greatest(keys); d in Newest(keys, n) <==> d == m || d in Newest(keys - {m}, n - 1)
  {
  }

  lemma AboveStep(keys: set<string>, d: string)
    requires d in keys
    ensures var m := Greatest(keys);
      |Above(keys, d)| == if d == m then 0 else |Above(keys - {m}, d)| + 1
  {
    var m := Greatest(keys);
    GreatestBounds(keys);
    if d == m {
      NoneAbove(keys, d);
    } else {
      assert Above(keys, d) == Above(keys - {m}, d) + {m};
    }
  }

  lemma NoneAbove(keys: set<string>, d: string)
    requires forall k :: k in keys ==> Leq(k, d)
    ensures Above(keys, d) == {}
  {
    forall k | k in Above(keys, d) ensures false {
      LeqAntisymmetric(k, d);
    }
  }

  // ----- the saver and the panel

  type Totals = map<string, nat>

  ghost function PrunedDays(days: Totals): Totals {
    map d | d in days && d in Newest(days.Keys, DAYS_KEPT) :: days[d]
  }

  /** A day is kept, with its bytes, exactly when fewer than 60 stored days come after it. */
  ghost predicate KeepsNewest(days: Totals, kept: Totals) {
    && (forall d :: d in kept ==> d in days && kept[d] == days[d])
    && (forall d :: d in days ==> (d in kept <==> |Above(days.Keys, d)| < 60))
  }

  lemma KeptByRank(days: Totals)
    ensures KeepsNewest(days, PrunedDays(days))
  {
    forall d | d in days ensures d in PrunedDays(days) <==> |Above(days.Keys, d)| < 60 {
      NewestByRank(days.Keys, DAYS_KEPT, d);
    }
  }

  /** The saver's pruning of one client's days. */
  method PruneDays(days: Totals) returns (kept: Totals)
    ensures kept == PrunedDays(days) && KeepsNewest(days, kept)
  {
    kept := days;
    assert |days| == |days.Keys|;
    if |days| > DAYS_KEPT {
      var ds := SortStrings(days.Keys);
      kept := DropFirst(days, ds, |ds| - DAYS_KEPT);
    }
    assert kept == KeptByList(days);
    KeptAreNewest(days);
    KeptByRank(days);
  }

  method DropFirst(days: Totals, ds: seq<string>, drop: nat) returns (kept: Totals)
    requires drop <= |ds|
    ensures kept == Unlisted(days, ds[..drop])
  {
    kept := days;
    for i := 0 to drop
      invariant kept == Unlisted(days, ds[..i])
    {
      assert ds[..i + 1] == ds[..i] + [ds[i]];
      kept := kept - {ds[i]};
    }
  }

  /** Without the first of the sorted dates. */
  ghost function KeptByList(days: Totals): Totals {
    Unlisted(days, Ascending(days.Keys)[..Start(|days.Keys|, DAYS_KEPT)])
  }

  function Unlisted(days: Totals, ds: seq<string>): Totals {
    map d | d in days && d !in ds :: days[d]
  }

  lemma KeptAreNewest(days: Totals)
    ensures PrunedDays(days) == KeptByList(days)
  {
    forall d | d in days
      ensures d in Newest(days.Keys, DAYS_KEPT) <==>
        d !in Ascending(days.Keys)[..Start(|days.Keys|, DAYS_KEPT)]
    {
      NewestAreLast(days.Keys, DAYS_KEPT, d);
    }
  }

  lemma NewestAreLast(keys: set<string>, n: nat, d: string)
    requires d in keys
    ensures d in Newest(keys, n) <==> d !in Ascending(keys)[..Start(|keys|, n)]
  {
    AscendingOfNewest(keys, n);
    AscendingHas(Newest(keys, n), d);
    AscendingHas(keys, d);
    Distinct(keys);
    SplitSeq(Ascending(keys), Start(|keys|, n), d);
  }

  ghost predicate NoDuplicates(ds: seq<string>) {
    forall i, j :: 0 <= i < j < |ds| ==> ds[i] != ds[j]
  }

  lemma SplitSeq(ds: seq<string>, n: nat, d: string)
    requires n <= |ds| && d in ds && NoDuplicates(ds)
    ensures d !in ds[..n] <==> d in ds[n..]
  {
    var k :| 0 <= k < |ds| && ds[k] == d;
    if k < n {
      assert ds[..n][k] == d;
    } else {
      assert ds[n..][k - n] == d;
    }
  }

  lemma {:induction false} Distinct(keys: set<string>)
    ensures NoDuplicates(Ascending(keys))
    decreases |keys|
  {
    if keys != {} {
      var m := Greatest(keys);
      var below := Ascending(keys - {m});
      Distinct(keys - {m});
      AscendingHas(keys - {m}, m);
      assert forall i :: 0 <= i < |below| ==> below[i] in below;
    }
  }

  datatype DayRow = DayRow(date: string, bytes: nat)

  /** The i-th row of a dialog whose dates, in ascending order, are ds. */
  function Row(days: Totals, ds: seq<string>, i: nat): DayRow
    requires i < |ds|
  {
    var d := ds[|ds| - 1 - i];
    DayRow(d, DayTotal(days, d))
  }

  /** The rows of the panel's dialog: the 30 greatest dates, newest first. */
  ghost predicate ShowsNewest(rows: seq<DayRow>, days: Totals) {
    var ds := Ascending(days.Keys);
    && |rows| == (if |ds| > DAYS_SHOWN then DAYS_SHOWN else |ds|)
    && forall i :: 0 <= i < |rows| ==> rows[i] == Row(days, ds, i)
  }

  /** What the rows of the dialog are, told from the days: each one a stored day with its bytes, newest
      first, at most 30, and none newer left out. */
  ghost predicate RowsAre(rows: seq<DayRow>, days: Totals) {
    && |rows| == (if |days| < 30 then |days| else 30)
    && RowsStored(rows, days) && RowsFall(rows) && NoneNewer(rows, days)
  }

  ghost predicate RowsStored(rows: seq<DayRow>, days: Totals) {
    forall i :: 0 <= i < |rows| ==> rows[i].date in days && rows[i].bytes == days[rows[i].date]
  }

  ghost predicate RowsFall(rows: seq<DayRow>) {
    forall i, j :: 0 <= i < j < |rows| ==> Leq(rows[j].date, rows[i].date) && rows[j].date != rows[i].date
  }

  ghost predicate ShownBefore(rows: seq<DayRow>, i: int, d: string) {
    exists k :: 0 <= k < i && k < |rows| && rows[k].date == d
  }

  ghost predicate NoneNewer(rows: seq<DayRow>, days: Totals) {
    forall d, i :: d in days && 0 <= i < |rows| ==> Leq(d, rows[i].date) || ShownBefore(rows, i, d)
  }

  lemma RowAt(days: Totals, i: nat)
    requires i < |Ascending(days.Keys)|
    ensures var row := Row(days, Ascending(days.Keys), i); row.date in days && row.bytes == days[row.date]
  {
    var ds := Ascending(days.Keys);
    AscendingHas(days.Keys, ds[|ds| - 1 - i]);
  }

  /** The rows show the end of a list, backwards. */
  ghost predicate Backwards(rows: seq<DayRow>, ds: seq<string>) {
    |rows| <= |ds| && forall i :: 0 <= i < |rows| ==> rows[i].date == ds[|ds| - 1 - i]
  }

  lemma BackwardsFalls(rows: seq<DayRow>, ds: seq<string>)
    requires Backwards(rows, ds) && Rises(ds)
    ensures RowsFall(rows)
  {
  }

  lemma OlderOrBefore(rows: seq<DayRow>, ds: seq<string>, k: nat, i: nat)
    requires Backwards(rows, ds) && Rises(ds) && k < |ds| && i < |rows|
    ensures Leq(ds[k], rows[i].date) || ShownBefore(rows, i, ds[k])
  {
    LeqTotal(ds[k], ds[k]);
    var r := |ds| - 1 - k;
    if r < i {
      assert rows[r].date == ds[k];
    }
  }

  lemma NewestAreRows(rows: seq<DayRow>, days: Totals)
    requires ShowsNewest(rows, days)
    ensures RowsAre(rows, days)
  {
    var ds := Ascending(days.Keys);
    AscendingRises(days.Keys);
    assert |days| == |days.Keys|;
    forall i | 0 <= i < |rows| ensures rows[i].date in days && rows[i].bytes == days[rows[i].date] {
      RowAt(days, i);
    }
    BackwardsFalls(rows, ds);
    forall d, i | d in days && 0 <= i < |rows| ensures Leq(d, rows[i].date) || ShownBefore(rows, i, d) {
      AscendingHas(days.Keys, d);
      var k :| 0 <= k < |ds| && ds[k] == d;
      OlderOrBefore(rows, ds, k, i);
    }
  }

  /** The day part of breakdown. */
  method Breakdown(days: Totals) returns (rows: seq<DayRow>)
    ensures ShowsNewest(rows, days) && RowsAre(rows, days)
  {
    var ds := SortStrings(days.Keys);
    rows := [];
    for i := 0 to |ds|
      invariant |rows| == i
      invariant forall k :: 0 <= k < i ==> rows[k] == Row(days, ds, k)
    {
      var d := ds[|ds| - 1 - i];
      AscendingHas(days.Keys, d);
      rows := rows + [DayRow(d, days[d])];
    }
    if |rows| > DAYS_SHOWN {
      rows := rows[..DAYS_SHOWN];
    }
    NewestAreRows(rows, days);
  }

  function DayTotal(days: Totals, today: string): nat {
    if today in days then days[today] else 0
  }

  /** Pruning does not change the rows of the dialog, for any map. */
  lemma PruningKeepsRows(days: Totals, rows: seq<DayRow>)
    ensures ShowsNewest(rows, PrunedDays(days)) <==> ShowsNewest(rows, days)
  {
    var kept := PrunedDays(days);
    NewestWithin(days.Keys, DAYS_KEPT);
    assert kept.Keys == Newest(days.Keys, DAYS_KEPT);
    AscendingOfNewest(days.Keys, DAYS_KEPT);
    var ds, ks := Ascending(days.Keys), Ascending(kept.Keys);
    forall i: nat | i < |ks| ensures Row(kept, ks, i) == Row(days, ds, i) {
      AscendingHas(kept.Keys, ks[|ks| - 1 - i]);
    }
  }

  /** Pruning changes the total of a day exactly when that day is stored with traffic and at least 60
      stored days are greater; so never for a day that is at least every stored one. */
  lemma PruningKeepsToday(days: Totals, today: string)
    ensures DayTotal(PrunedDays(days), today) != DayTotal(days, today) <==>
      today in days && days[today] > 0 && |Above(days.Keys, today)| >= DAYS_KEPT
    ensures (forall d :: d in days ==> Leq(d, today)) ==>
      DayTotal(PrunedDays(days), today) == DayTotal(days, today)
  {
    if today in days {
      NewestByRank(days.Keys, DAYS_KEPT, today);
      if forall d :: d in days ==> Leq(d, today) {
        NoneAbove(days.Keys, today);
      }
    }
  }
}
