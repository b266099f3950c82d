/** The availability log of one client: its pointwise meaning, and the server's integrator of it
    (core/internal/monitor/traffic.go:113-156). */
module Availability {
  /** At unix second t the connected state became u. */
  datatype UpEvent = UpEvent(t: int, u: bool)

  type Log = seq<UpEvent>

  // ----- pointwise meaning

  ghost predicate Sorted(ev: Log) {
    forall i, j :: 0 <= i <= j < |ev| ==> ev[i].t <= ev[j].t
  }

  ghost predicate Alternates(ev: Log) {
    forall i :: 0 < i < |ev| ==> ev[i].u != ev[i - 1].u
  }

  /** The state during second s: that of the latest event at or before s. */
  ghost function StateAt(ev: Log, s: int): bool {
    if ev == [] then false
    else if ev[|ev| - 1].t <= s then ev[|ev| - 1].u
    else StateAt(ev[..|ev| - 1], s)
  }

  /** The number of seconds in [from, till) whose state is up. */
  ghost function UpSeconds(ev: Log, from: int, till: int): nat
    decreases till - from
  {
    if till <= from then 0
    else UpSeconds(ev, from, till - 1) + (if StateAt(ev, till - 1) then 1 else 0)
  }

  /** Percentage of up seconds in [from, now), -1 when there are none. */
  ghost function PctFrom(ev: Log, from: int, now: int): real {
    if now <= from then -1.0
    else UpSeconds(ev, from, now) as real / (now - from) as real * 100.0
  }

  function Max(a: int, b: int): int { if a < b then b else a }

  /** The percentage over the window before `now`, as far back as there is data. */
  ghost function Pct(ev: Log, now: int, window: int): real {
    if ev == [] then -1.0 else PctFrom(ev, Max(now - window, ev[0].t), now)
  }

  lemma {:induction false} UpSecondsBound(ev: Log, from: int, till: int)
    requires from <= till
    ensures UpSeconds(ev, from, till) <= till - from
    decreases till - from
  {
    if from < till {
      UpSecondsBound(ev, from, till - 1);
    }
  }

  lemma ShareRange(part: nat, whole: nat)
    requires part <= whole && whole > 0
    ensures 0.0 <= part as real / whole as real * 100.0 <= 100.0
  {
    var share := part as real / whole as real;
    assert share * whole as real == part as real;
    assert share <= 1.0 by {
      if share > 1.0 {
        assert share * whole as real > whole as real;
      }
    }
  }

  /** The answer is a percentage, or -1 exactly when there are no events or the covered span is empty. */
  lemma PctRange(ev: Log, now: int, window: int)
    ensures Pct(ev, now, window) == -1.0 || 0.0 <= Pct(ev, now, window) <= 100.0
    ensures Pct(ev, now, window) == -1.0 <==> ev == [] || window <= 0 || now <= ev[0].t
  {
    if ev != [] {
      var from := Max(now - window, ev[0].t);
      if from < now {
        UpSecondsBound(ev, from, now);
        ShareRange(UpSeconds(ev, from, now), now - from);
      }
    }
  }

  // ----- the same, by counting

  /** Some event at or before second s says up, and no later one is at or before s. */
  ghost predicate UpAt(ev: Log, s: int) {
    exists i :: 0 <= i < |ev| && ev[i].u && LatestAt(ev, i, s)
  }

  ghost predicate LatestAt(ev: Log, i: nat, s: int)
    requires i < |ev|
  {
    ev[i].t <= s && forall j :: i < j < |ev| ==> ev[j].t > s
  }

  lemma {:induction false} StateAtIsUpAt(ev: Log, s: int)
    ensures StateAt(ev, s) <==> UpAt(ev, s)
    decreases |ev|
  {
    if ev != [] {
      var n := |ev| - 1;
      if ev[n].t <= s {
        assert LatestAt(ev, n, s);
      } else {
        StateAtIsUpAt(ev[..n], s);
        if i :| 0 <= i < n && ev[..n][i].u && LatestAt(ev[..n], i, s) {
          assert LatestAt(ev, i, s);
        }
        if i :| 0 <= i < |ev| && ev[i].u && LatestAt(ev, i, s) {
          assert LatestAt(ev[..n], i, s);
        }
      }
    }
  }

  ghost function UpSet(ev: Log, from: int, till: int): set<int> {
    set s | from <= s < till && UpAt(ev, s)
  }

  lemma {:induction false} UpSecondsAreCounted(ev: Log, from: int, till: int)
    ensures UpSeconds(ev, from, till) == |UpSet(ev, from, till)|
    decreases till - from
  {
    if from < till {
      UpSecondsAreCounted(ev, from, till - 1);
      StateAtIsUpAt(ev, till - 1);
      assert UpSet(ev, from, till) == UpSet(ev, from, till - 1) + if UpAt(ev, till - 1) then {till - 1} else {};
    } else {
      assert UpSet(ev, from, till) == {};
    }
  }

  /** pct is 100 times the number of up seconds in the window, as far back as there is data, over the length
      of that; -1 when that has no second. */
  ghost predicate IsShare(pct: real, ev: Log, now: int, window: int) {
    if ev == [] then pct == -1.0
    else
      var from := if now - window < ev[0].t then ev[0].t else now - window;
      if from >= now then pct == -1.0
      else pct * (now - from) as real == 100.0 * |UpSet(ev, from, now)| as real
  }

  lemma PctIsShare(ev: Log, now: int, window: int)
    ensures IsShare(Pct(ev, now, window), ev, now, window)
  {
    if ev != [] {
      var from := Max(now - window, ev[0].t);
      if from < now {
        UpSecondsAreCounted(ev, from, now);
        ShareTimes(UpSeconds(ev, from, now) as real, (now - from) as real);
      }
    }
  }

  lemma ShareTimes(x: real, y: real)
    requires y > 0.0
    ensures x / y * 100.0 * y == 100.0 * x
  {
    assert x / y * y == x;
  }

  // ----- reading the log

  /** Between two neighbouring events the state is that of the earlier one. */
  lemma {:induction false} StateBetween(ev: Log, i: nat, s: int)
    requires Sorted(ev) && 0 < i <= |ev| && ev[i - 1].t <= s && (i < |ev| ==> s < ev[i].t)
    ensures StateAt(ev, s) == ev[i - 1].u
    decreases |ev|
  {
    if i < |ev| {
      StateBetween(ev[..|ev| - 1], i, s);
    }
  }

  lemma {:induction false} UpSecondsBetween(ev: Log, i: nat, from: int, till: int)
    requires Sorted(ev) && 0 < i <= |ev| && ev[i - 1].t <= from <= till && (i < |ev| ==> till <= ev[i].t)
    ensures UpSeconds(ev, from, till) == if ev[i - 1].u then till - from else 0
    decreases till - from
  {
    if from < till {
      UpSecondsBetween(ev, i, from, till - 1);
      StateBetween(ev, i, till - 1);
    }
  }

  lemma {:induction false} UpSecondsSplit(ev: Log, a: int, b: int, c: int)
    requires a <= b <= c
    ensures UpSeconds(ev, a, c) == UpSeconds(ev, a, b) + UpSeconds(ev, b, c)
    decreases c - b
  {
    if b < c {
      UpSecondsSplit(ev, a, b, c - 1);
    }
  }

  /** One more stretch without events: the step of both integrators. */
  lemma Advance(ev: Log, i: nat, from: int, cursor: int, till: int)
    requires Sorted(ev) && 0 < i <= |ev|
    requires ev[i - 1].t <= cursor && from <= cursor <= till && (i < |ev| ==> till <= ev[i].t)
    ensures UpSeconds(ev, from, till) == UpSeconds(ev, from, cursor) + if ev[i - 1].u then till - cursor else 0
  {
    UpSecondsSplit(ev, from, cursor, till);
    UpSecondsBetween(ev, i, cursor, till);
  }

  /** The state entering the window: the last event at or before `from`. */
  method EnteringState(ev: Log, from: int) returns (st: bool, ghost n: nat)
    requires Sorted(ev) && ev != [] && ev[0].t <= from
    ensures 0 < n <= |ev| && ev[n - 1].t <= from && (n < |ev| ==> from < ev[n].t)
    ensures st == ev[n - 1].u && st == StateAt(ev, from)
  {
    st := ev[0].u;
    var i := 0;
    while i < |ev|
      invariant 0 <= i <= |ev|
      invariant i > 0 ==> ev[i - 1].t <= from && st == ev[i - 1].u
    {
      if ev[i].t <= from {
        st := ev[i].u;
      } else {
        break;
      }
      i := i + 1;
    }
    n := i;
    StateBetween(ev, i, from);
  }

  /** uptimePct, for a client whose log is ev: the pointwise percentage. */
  method UptimePct(ev: Log, now: int, window: int) returns (pct: real)
    requires Sorted(ev)
    ensures pct == Pct(ev, now, window) && IsShare(pct, ev, now, window)
  {
    pct := Integrate(ev, now, window);
    PctIsShare(ev, now, window);
  }

  method Integrate(ev: Log, now: int, window: int) returns (pct: real)
    requires Sorted(ev)
    ensures pct == Pct(ev, now, window)
  {
    if |ev| == 0 {
      return -1.0;
    }
    var from := now - window;
    if ev[0].t > from {
      from := ev[0].t;
    }
    var st, n := EnteringState(ev, from);
    var cursor, cur := from, st;
    var upDur: int := 0;
    var i := 0;
    while i < |ev|
      invariant 0 <= i <= |ev|
      invariant from <= cursor && (from < now ==> cursor < now)
      invariant i <= n ==> cursor == from && cur == st
      invariant i > n ==> cursor == ev[i - 1].t && cur == ev[i - 1].u
      invariant upDur == UpSeconds(ev, from, cursor)
    {
      if ev[i].t <= from {
        i := i + 1;
        continue;
      }
      if ev[i].t >= now {
        break;
      }
      Advance(ev, i, from, cursor, ev[i].t);
      if cur {
        upDur := upDur + ev[i].t - cursor;
      }
      cursor, cur := ev[i].t, ev[i].u;
      i := i + 1;
    }
    if from < now {
      Advance(ev, i, from, cursor, now);
    }
    if cur {
      upDur := upDur + now - cursor;
    }
    var cov := now - from;
    if cov <= 0 {
      return -1.0;
    }
    pct := upDur as real / cov as real * 100.0;
  }
}
