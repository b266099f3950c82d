/** Exactly when a pruned availability log answers every query over at most 31 days as the unpruned one
    does (core/internal/monitor/traffic.go:113-156, 253-270), and a run of the saver's cap after which
    it does not. */
module PruningLimits {
  import opened Availability
  import opened Retention

  /** The two stores agree on every window of at most 31 days. */
  ghost predicate Agrees(p: Pair, now: int) {
    forall window :: window <= RETENTION ==> Pct(p.kept, now, window) == Pct(p.full, now, window)
  }

  /** The state does not change during [from, till). */
  ghost predicate Steady(ev: Log, from: int, till: int) {
    forall s :: from <= s < till ==> StateAt(ev, s) == StateAt(ev, from)
  }

  // ----- shares of up seconds

  /** All or none of the seconds are up exactly when the state is steady. */
  lemma {:induction false} SteadyIsAllOrNone(ev: Log, from: int, till: int)
    requires from < till
    ensures Steady(ev, from, till) <==> UpSeconds(ev, from, till) == if StateAt(ev, from) then till - from else 0
    decreases till - from
  {
    if from + 1 < till {
      SteadyIsAllOrNone(ev, from, till - 1);
      UpSecondsBound(ev, from, till - 1);
      assert Steady(ev, from, till) <==> Steady(ev, from, till - 1) && StateAt(ev, till - 1) == StateAt(ev, from);
      if !Steady(ev, from, till - 1) {
        SomeUpSomeDown(ev, from, till - 1);
      }
    }
  }

  lemma {:induction false} SomeUpSomeDown(ev: Log, from: int, till: int)
    requires from <= till && !Steady(ev, from, till)
    ensures 0 < UpSeconds(ev, from, till) < till - from
    decreases till - from
  {
    assert from < till;
    UpSecondsBound(ev, from, till - 1);
    if Steady(ev, from, till - 1) {
      if from < till - 1 {
        SteadyIsAllOrNone(ev, from, till - 1);
      }
    } else {
      SomeUpSomeDown(ev, from, till - 1);
    }
  }

  /** Equal percentages, in whole seconds. */
  lemma EqualShares(x: int, y: int, u: int, v: int)
    requires y > 0 && v > 0
    ensures x as real / y as real * 100.0 == u as real / v as real * 100.0 <==> x * v == u * y
  {
    var a, b := x as real / y as real, u as real / v as real;
    assert a * y as real == x as real && b * v as real == u as real;
    assert (x * v) as real == a * (y as real * v as real);
    assert (u * y) as real == b * (y as real * v as real);
    assert y as real * v as real > 0.0;
  }

  lemma PctsEqual(ev: Log, a: int, b: int, now: int)
    requires a < now && b < now
    ensures PctFrom(ev, a, now) == PctFrom(ev, b, now) <==>
      UpSeconds(ev, a, now) * (now - b) == UpSeconds(ev, b, now) * (now - a)
  {
    EqualShares(UpSeconds(ev, a, now), now - a, UpSeconds(ev, b, now), now - b);
  }

  lemma PctNotNegative(ev: Log, a: int, now: int)
    requires a < now
    ensures PctFrom(ev, a, now) != -1.0
  {
    var x, y := UpSeconds(ev, a, now) as real, (now - a) as real;
    assert x / y >= 0.0;
  }

  /** A second more changes the percentage, unless all seconds are alike. */
  lemma OneSecondMore(ev: Log, g: int, now: int)
    requires g < now && PctFrom(ev, g - 1, now) == PctFrom(ev, g, now)
    ensures UpSeconds(ev, g, now) == if StateAt(ev, g - 1) then now - g else 0
  {
    PctsEqual(ev, g - 1, g, now);
    UpSecondsSplit(ev, g - 1, g, now);
    assert UpSeconds(ev, g - 1, g - 1) == 0;
    var b := if StateAt(ev, g - 1) then 1 else 0;
    var u, c := UpSeconds(ev, g, now), now - g;
    assert (u + b) * c == u * (c + 1);
    assert b * c == u;
  }

  /** If the windows from lo, from g - 1 and from g have one percentage, the state is steady from lo. */
  lemma EqualPctsAreSteady(ev: Log, lo: int, g: int, now: int)
    requires lo < g < now
    requires PctFrom(ev, lo, now) == PctFrom(ev, g, now) == PctFrom(ev, g - 1, now)
    ensures Steady(ev, lo, now)
  {
    OneSecondMore(ev, g, now);
    PctsEqual(ev, lo, g, now);
    var u, c := UpSeconds(ev, lo, now), now - g;
    if StateAt(ev, g - 1) {
      assert u * c == c * (now - lo);
      SameFactor(u, now - lo, c);
    } else {
      assert u * c == 0;
      SameFactor(u, 0, c);
    }
    if !Steady(ev, lo, now) {
      SomeUpSomeDown(ev, lo, now);
    }
  }

  lemma SameFactor(a: int, b: int, c: int)
    requires c > 0 && a * c == b * c
    ensures a == b
  {
    assert (a - b) * c == 0;
  }

  lemma SteadyPct(ev: Log, lo: int, a: int, b: int, now: int)
    requires Steady(ev, lo, now) && lo <= a < now && lo <= b < now
    ensures PctFrom(ev, a, now) == PctFrom(ev, b, now)
  {
    SteadyIsAllOrNone(ev, a, now);
    SteadyIsAllOrNone(ev, b, now);
    assert StateAt(ev, a) == StateAt(ev, b);
    PctsEqual(ev, a, b, now);
  }

  // ----- agreement

  /** For every run: the stores agree on all windows of at most 31 days exactly when there is no data in
      those days, nothing of them was dropped, or their state never changed. */
  lemma AgreesExactly(init: Log, ops: seq<Op>, now: int)
    requires Clocked(init, ops, now) && Replay(init, ops).full != []
    ensures Replay(init, ops).kept != []
    ensures var p := Replay(init, ops);
      var lo, g := Max(now - RETENTION, p.full[0].t), p.kept[0].t;
      Agrees(p, now) <==> now <= lo || g <= lo || (g < now && Steady(p.full, lo, now))
  {
    var k := ReplayPrunes(init, ops, now);
    PairAgrees(Replay(init, ops), k, now);
  }

  lemma PairAgrees(p: Pair, k: nat, now: int)
    requires Pruned(p, k, now) && p.full != []
    ensures var lo, g := Max(now - RETENTION, p.full[0].t), p.kept[0].t;
      Agrees(p, now) <==> now <= lo || g <= lo || (g < now && Steady(p.full, lo, now))
  {
    var lo, g := Max(now - RETENTION, p.full[0].t), p.kept[0].t;
    if now <= lo || g <= lo || (g < now && Steady(p.full, lo, now)) {
      forall window | window <= RETENTION ensures Pct(p.kept, now, window) == Pct(p.full, now, window) {
        WindowAgrees(p, k, now, window);
      }
    } else if Agrees(p, now) {
      WindowsDiffer(p, k, now);
    }
  }

  lemma WindowAgrees(p: Pair, k: nat, now: int, window: int)
    requires Pruned(p, k, now) && p.full != [] && window <= RETENTION
    requires var lo, g := Max(now - RETENTION, p.full[0].t), p.kept[0].t;
      now <= lo || g <= lo || (g < now && Steady(p.full, lo, now))
    ensures Pct(p.kept, now, window) == Pct(p.full, now, window)
  {
    var lo, g := Max(now - RETENTION, p.full[0].t), p.kept[0].t;
    SuffixPct(p.full, k, now, window);
    var a, b := Max(now - window, g), Max(now - window, p.full[0].t);
    assert lo <= b <= a;
    if g > lo && b < now {
      SteadyPct(p.full, lo, a, b, now);
    }
  }

  lemma WindowsDiffer(p: Pair, k: nat, now: int)
    requires Pruned(p, k, now) && p.full != [] && Agrees(p, now)
    requires var lo, g := Max(now - RETENTION, p.full[0].t), p.kept[0].t; lo < now && lo < g
    ensures p.kept[0].t < now && Steady(p.full, Max(now - RETENTION, p.full[0].t), now)
  {
    var lo, g := Max(now - RETENTION, p.full[0].t), p.kept[0].t;
    SuffixPct(p.full, k, now, now - lo);
    assert Pct(p.kept, now, now - lo) == Pct(p.full, now, now - lo);
    if g >= now {
      PctNotNegative(p.full, lo, now);
      assert false;
    }
    SuffixPct(p.full, k, now, now - (g - 1));
    assert Pct(p.kept, now, now - (g - 1)) == Pct(p.full, now, now - (g - 1));
    EqualPctsAreSteady(p.full, lo, g, now);
  }

  ghost predicate Strict(ev: Log) {
    forall i, j :: 0 <= i < j < |ev| ==> ev[i].t < ev[j].t
  }

  /** For logs as RecordState writes them, with no two events in one second: the stores agree on every
      window of at most 31 days exactly when nothing was dropped or the first kept event is at least
      31 days old. */
  lemma AgreesByFirstKept(init: Log, ops: seq<Op>, now: int)
    requires Clocked(init, ops, now) && Alternates(init) && Strict(Replay(init, ops).full)
    ensures var p := Replay(init, ops);
      Agrees(p, now) <==> p.kept == p.full || (p.kept != [] && p.kept[0].t <= now - RETENTION)
  {
    var p := Replay(init, ops);
    var k := ReplayPrunes(init, ops, now);
    if p.full != [] && p.kept != p.full {
      ReplayAlternates(init, ops);
      PairAgrees(p, k, now);
      StateBetween(p.full, k, p.kept[0].t - 1);
      StateBetween(p.full, k + 1, p.kept[0].t);
    }
  }

  // ----- the cap changes an answer

  function Even(n: nat): bool {
    n == 0 || !Even(n - 1)
  }

  /** n transitions, one a second. */
  function Flapping(n: nat): seq<Op> {
    seq(n, i requires i >= 0 => Record(i, Even(i)))
  }

  function FlappingLog(n: nat): Log {
    seq(n, i requires i >= 0 => UpEvent(i, Even(i)))
  }

  lemma {:induction false} FlappingReplay(n: nat)
    ensures Replay([], Flapping(n)) == Pair(FlappingLog(n), FlappingLog(n), false)
  {
    if n == 0 {
      assert FlappingLog(0) == [];
    } else {
      FlappingReplay(n - 1);
      FlapOnce(n - 1);
    }
  }

  lemma FlapRecorded(n: nat)
    ensures Recorded(FlappingLog(n), n, Even(n)) == FlappingLog(n + 1)
  {
    assert FlappingLog(n + 1) == FlappingLog(n) + [UpEvent(n, Even(n))];
  }

  lemma FlapOnce(n: nat)
    requires Replay([], Flapping(n)) == Pair(FlappingLog(n), FlappingLog(n), false)
    ensures Replay([], Flapping(n + 1)) == Pair(FlappingLog(n + 1), FlappingLog(n + 1), false)
  {
    ReplayPush([], Flapping(n), Record(n, Even(n)));
    assert Flapping(n + 1) == Flapping(n) + [Record(n, Even(n))];
    FlapRecorded(n);
  }

  /** One event over the cap, none of them old. */
  function CapRun(): seq<Op> {
    Flapping(MAX_EVENTS + 1) + [Save(MAX_EVENTS + 1)]
  }

  lemma CapReplay()
    ensures Clocked([], CapRun(), MAX_EVENTS + 1)
    ensures var log := FlappingLog(MAX_EVENTS + 1); Replay([], CapRun()) == Pair(log, log[1..], true)
  {
    var n := MAX_EVENTS + 1;
    assert CapRun()[..|CapRun()| - 1] == Flapping(n);
    FlappingReplay(n);
    assert FlappingLog(n)[0].t == 0;
    assert Below(FlappingLog(n), n - RETENTION, 0) == 0;
  }

  /** A client that flaps 8001 times within 8001 seconds: after the next save, some query over at most
      31 days is answered differently. */
  lemma CapChangesAnswer()
    ensures exists ops, now, window ::
      Clocked([], ops, now) && window <= RETENTION &&
      Pct(Replay([], ops).kept, now, window) != Pct(Replay([], ops).full, now, window)
  {
    var n := MAX_EVENTS + 1;
    CapReplay();
    var p := Replay([], CapRun());
    assert Strict(p.full) && |p.kept| < |p.full|;
    AgreesByFirstKept([], CapRun(), n);
    assert p.kept[0] == p.full[1] && !Agrees(p, n);
    var window :| window <= RETENTION && Pct(p.kept, n, window) != Pct(p.full, n, window);
  }
}
