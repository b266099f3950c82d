/** Writing and pruning the availability log (core/internal/monitor/traffic.go:83-98, 241-271): the
    recorder is a run-length encoder, and what the saver prunes is invisible to every later query. */
module Retention {
  import opened Availability

  const MAX_EVENTS := 8000
  const RETENTION := 31 * 24 * 3600   // seconds

  // ----- recording

  /** RecordState on a log: append only a real change. */
  function Recorded(ev: Log, now: int, up: bool): Log {
    if |ev| == 0 || ev[|ev| - 1].u != up then ev + [UpEvent(now, up)] else ev
  }

  ghost predicate NotAfter(ev: Log, now: int) {
    forall i :: 0 <= i < |ev| ==> ev[i].t <= now
  }

  lemma StateOfAppended(ev: Log, e: UpEvent, s: int)
    ensures StateAt(ev + [e], s) == if e.t <= s then e.u else StateAt(ev, s)
  {
    assert (ev + [e])[..|ev + [e]| - 1] == ev;
  }

  lemma PushSorted(ev: Log, e: UpEvent)
    requires Sorted(ev) && NotAfter(ev, e.t)
    ensures Sorted(ev + [e]) && NotAfter(ev + [e], e.t)
  {
  }

  lemma RecordedAlternates(ev: Log, now: int, up: bool)
    requires Alternates(ev)
    ensures Alternates(Recorded(ev, now, up))
  {
  }

  lemma RecordedShape(ev: Log, now: int, up: bool)
    requires Sorted(ev) && NotAfter(ev, now)
    ensures var ev' := Recorded(ev, now, up);
      && Sorted(ev') && NotAfter(ev', now) && ev' != [] && ev'[|ev'| - 1].u == up
      && (Alternates(ev) ==> Alternates(ev'))
  {
    var e := UpEvent(now, up);
    PushSorted(ev, e);
    if Alternates(ev) {
      RecordedAlternates(ev, now, up);
    }
  }

  function RecordAll(ev: Log, samples: Log): Log {
    if samples == [] then ev
    else
      var last := samples[|samples| - 1];
      Recorded(RecordAll(ev, samples[..|samples| - 1]), last.t, last.u)
  }

  lemma SplitLast(ev: Log, samples: Log)
    requires Sorted(ev + samples) && samples != []
    ensures var n := |samples| - 1;
      && ev + samples == (ev + samples[..n]) + [samples[n]]
      && Sorted(ev + samples[..n]) && NotAfter(ev + samples[..n], samples[n].t)
  {
    var all := ev + samples;
    assert all[..|all| - 1] == ev + samples[..|samples| - 1] && all[|all| - 1] == samples[|samples| - 1];
  }

  lemma {:induction false} RecordAllShape(ev: Log, samples: Log, now: int)
    requires Sorted(ev + samples) && NotAfter(ev + samples, now)
    ensures var r := RecordAll(ev, samples);
      && Sorted(r) && NotAfter(r, now) && (Alternates(ev) ==> Alternates(r))
      && (samples != [] ==> r != [] && r[|r| - 1].u == samples[|samples| - 1].u)
  {
    if samples == [] {
      assert ev + samples == ev;
    } else {
      var last := samples[|samples| - 1];
      SplitLast(ev, samples);
      RecordAllShape(ev, samples[..|samples| - 1], last.t);
      RecordedShape(RecordAll(ev, samples[..|samples| - 1]), last.t, last.u);
      assert (ev + samples)[|ev + samples| - 1] == last;
    }
  }

  /** Recording samples of the state loses nothing: at every second the compact log says what the
      uncompressed list of all samples says. */
  lemma {:induction false} RunLengthExact(ev: Log, samples: Log, s: int)
    requires Sorted(ev + samples)
    ensures StateAt(RecordAll(ev, samples), s) == StateAt(ev + samples, s)
  {
    if samples == [] {
      assert ev + samples == ev;
    } else {
      var last := samples[|samples| - 1];
      var shorter := samples[..|samples| - 1];
      var before := RecordAll(ev, shorter);
      SplitLast(ev, samples);
      RunLengthExact(ev, shorter, s);
      RecordAllShape(ev, shorter, last.t);
      StateOfAppended(ev + shorter, last, s);
      StateOfAppended(before, last, s);
      if last.t <= s && Recorded(before, last.t, last.u) == before {
        StateBetween(before, |before|, s);
      }
    }
  }

  // ----- pruning

  /** Where the first event from position i on is that is not before `cut`. */
  function Below(ev: Log, cut: int, i: nat): (n: nat)
    requires i <= |ev|
    ensures i <= n <= |ev|
    decreases |ev| - i
  {
    if i == |ev| || ev[i].t >= cut then i else Below(ev, cut, i + 1)
  }

  lemma {:induction false} BelowMeans(ev: Log, cut: int, i: nat)
    requires i <= |ev|
    ensures forall j :: i <= j < Below(ev, cut, i) ==> ev[j].t < cut
    ensures Below(ev, cut, i) < |ev| ==> ev[Below(ev, cut, i)].t >= cut
    decreases |ev| - i
  {
    if i < |ev| && ev[i].t < cut {
      BelowMeans(ev, cut, i + 1);
    }
  }

  /** The last event before `cut`, where the log kept for that cut-off begins. */
  function Keep(ev: Log, cut: int): (k: nat)
    ensures k <= |ev| && (ev != [] ==> k < |ev|)
  {
    if Below(ev, cut, 0) > 0 then Below(ev, cut, 0) - 1 else 0
  }

  /** The cap takes effect: more than 8000 events are left without the old ones. */
  predicate Capped(ev: Log, cut: int) {
    |ev| - Keep(ev, cut) > MAX_EVENTS
  }

  /** How many events the saver drops: all but the last one before the cut-off, and what exceeds the cap. */
  function Dropped(ev: Log, cut: int): (k: nat)
    ensures k <= |ev| && (ev != [] ==> k < |ev|)
  {
    if Capped(ev, cut) then |ev| - MAX_EVENTS else Keep(ev, cut)
  }

  /** After a drop the first kept event is older than the cut-off, exactly when the cap took no effect. */
  lemma DroppedToOld(ev: Log, cut: int)
    requires Sorted(ev) && ev != []
    ensures Capped(ev, cut) <==> Dropped(ev, cut) > 0 && ev[Dropped(ev, cut)].t >= cut
  {
    BelowMeans(ev, cut, 0);
  }

  /** The kept log is the end of the whole one, with at most 8000 events of which at most the first is older
      than 31 days; and of the events that are not older, only those over 8000 go. */
  ghost predicate KeepsRecent(ev: Log, kept: Log, now: int) {
    && |kept| <= |ev| && kept == ev[|ev| - |kept|..] && |kept| <= 8000
    && (|kept| > 1 ==> kept[1].t >= now - 2_678_400)
    && (|kept| < 8000 && |kept| < |ev| ==> kept != [] && kept[0].t < now - 2_678_400)
    && (ev != [] ==> kept != [])
  }

  lemma DroppedKeepsRecent(ev: Log, now: int)
    requires Sorted(ev)
    ensures KeepsRecent(ev, ev[Dropped(ev, now - RETENTION)..], now)
  {
    BelowMeans(ev, now - RETENTION, 0);
  }

  /** The part of the saver that prunes one client's availability log. */
  method Prune(ev: Log, now: int) returns (kept: Log)
    ensures kept == ev[Dropped(ev, now - RETENTION)..]
    ensures Sorted(ev) ==> KeepsRecent(ev, kept, now)
  {
    kept := PruneLog(ev, now);
    if Sorted(ev) {
      DroppedKeepsRecent(ev, now);
    }
  }

  method PruneLog(ev: Log, now: int) returns (kept: Log)
    ensures kept == ev[Dropped(ev, now - RETENTION)..]
  {
    var cut := now - RETENTION;
    BelowMeans(ev, cut, 0);
    kept := ev;
    if |kept| > 1 {
      var keep := 0;
      for i := 0 to |kept|
        invariant i <= Below(ev, cut, 0) && keep == if i > 0 then i - 1 else 0
        invariant kept == ev
      {
        if kept[i].t < cut {
          keep := i;
        } else {
          break;
        }
      }
      if keep > 0 {
        kept := kept[keep..];
      }
    }
    if |kept| > MAX_EVENTS {
      kept := kept[|kept| - MAX_EVENTS..];
    }
  }

  lemma {:induction false} SuffixState(ev: Log, k: nat, s: int)
    requires k < |ev| && ev[k].t <= s
    ensures StateAt(ev[k..], s) == StateAt(ev, s)
    decreases |ev|
  {
    var n := |ev| - 1;
    if ev[n].t > s {
      assert ev[k..][..|ev[k..]| - 1] == ev[..n][k..];
      SuffixState(ev[..n], k, s);
    }
  }

  lemma {:induction false} SuffixUp(ev: Log, k: nat, from: int, till: int)
    requires k < |ev| && ev[k].t <= from
    ensures UpSeconds(ev[k..], from, till) == UpSeconds(ev, from, till)
    decreases till - from
  {
    if from < till {
      SuffixUp(ev, k, from, till - 1);
      SuffixState(ev, k, till - 1);
    }
  }

  /** A log without its first k events answers as the whole log does over the window clipped to its own
      first event. */
  lemma SuffixPct(ev: Log, k: nat, now: int, window: int)
    requires k < |ev|
    ensures Pct(ev[k..], now, window) == PctFrom(ev, Max(now - window, ev[k].t), now)
  {
    SuffixUp(ev, k, Max(now - window, ev[k].t), now);
  }

  // ----- any sequence of records and prunes

  datatype Op = Record(now: int, up: bool) | Save(now: int)

  /** The log of a store that is never pruned, the log of one that is, and whether a save of the latter
      ever met more than 8000 events after the old ones. */
  datatype Pair = Pair(full: Log, kept: Log, capped: bool)

  function Replay(init: Log, ops: seq<Op>): Pair {
    if ops == [] then Pair(init, init, false)
    else Operated(Replay(init, ops[..|ops| - 1]), ops[|ops| - 1])
  }

  function Operated(p: Pair, op: Op): Pair {
    match op
    case Record(now, up) => Pair(Recorded(p.full, now, up), Recorded(p.kept, now, up), p.capped)
    case Save(now) =>
      Without(p, Dropped(p.kept, now - RETENTION), Capped(p.kept, now - RETENTION))
  }

  function Without(p: Pair, d: nat, cap: bool): Pair
    requires d <= |p.kept|
  {
    Pair(p.full, p.kept[d..], p.capped || cap)
  }

  lemma ReplayPush(init: Log, ops: seq<Op>, op: Op)
    ensures Replay(init, ops + [op]) == Operated(Replay(init, ops), op)
  {
    assert (ops + [op])[..|ops + [op]| - 1] == ops;
  }

  /** The clock of the operations does not go back, and starts after the loaded log. */
  ghost predicate Clocked(init: Log, ops: seq<Op>, clock: int) {
    && Sorted(init)
    && (forall i, j :: 0 <= i <= j < |ops| ==> ops[i].now <= ops[j].now)
    && (forall i :: 0 <= i < |ops| ==> ops[i].now <= clock && NotAfter(init, ops[i].now))
    && NotAfter(init, clock)
  }

  /** The kept log is the full one without its first k events; all dropped ones, and the first kept one,
      were too old to matter, unless the cap took effect. */
  ghost predicate Pruned(p: Pair, k: nat, clock: int) {
    && k <= |p.full| && (p.full != [] ==> k < |p.full|)
    && p.kept == p.full[k..]
    && Sorted(p.full) && NotAfter(p.full, clock)
    && (k > 0 && !p.capped ==> p.full[k].t < clock - RETENTION)
  }

  lemma RecordPrunes(p: Pair, k: nat, op: Op)
    requires Pruned(p, k, op.now) && op.Record?
    ensures Pruned(Operated(p, op), k, op.now)
  {
    RecordedShape(p.full, op.now, op.up);
    assert p.full != [] ==> p.kept[|p.kept| - 1] == p.full[|p.full| - 1];
    assert p.full[k..] + [UpEvent(op.now, op.up)] == (p.full + [UpEvent(op.now, op.up)])[k..];
  }

  lemma SavePrunes(p: Pair, k: nat, now: int, d: nat, cap: bool, p': Pair)
    requires Pruned(p, k, now) && d <= |p.kept| && (p.kept != [] ==> d < |p.kept|)
    requires p.kept != [] ==> (cap <==> d > 0 && p.kept[d].t >= now - RETENTION)
    requires p' == Without(p, d, cap)
    ensures Pruned(p', k + d, now)
  {
    assert p.kept[d..] == p.full[k + d..];
  }

  lemma ClockedPrefix(init: Log, ops: seq<Op>, clock: int)
    requires Clocked(init, ops, clock) && ops != []
    ensures Clocked(init, ops[..|ops| - 1], ops[|ops| - 1].now) && ops[|ops| - 1].now <= clock
  {
  }

  lemma PrunedLater(p: Pair, k: nat, clock: int, later: int)
    requires Pruned(p, k, clock) && clock <= later
    ensures Pruned(p, k, later)
  {
  }

  lemma SaveStep(p: Pair, k: nat, now: int) returns (k': nat)
    requires Pruned(p, k, now)
    ensures Pruned(Operated(p, Save(now)), k', now)
  {
    var d, cap := SaveFacts(p, now);
    SavePrunes(p, k, now, d, cap, Operated(p, Save(now)));
    k' := k + d;
  }

  lemma SaveFacts(p: Pair, now: int) returns (d: nat, cap: bool)
    requires Sorted(p.kept)
    ensures d <= |p.kept| && Operated(p, Save(now)) == Without(p, d, cap)
    ensures p.kept != [] ==> d < |p.kept| && (cap <==> d > 0 && p.kept[d].t >= now - RETENTION)
  {
    d, cap := Dropped(p.kept, now - RETENTION), Capped(p.kept, now - RETENTION);
    if p.kept != [] {
      DroppedToOld(p.kept, now - RETENTION);
    }
  }

  lemma StepPrunes(p: Pair, k: nat, op: Op) returns (k': nat)
    requires Pruned(p, k, op.now)
    ensures Pruned(Operated(p, op), k', op.now)
  {
    if op.Record? {
      RecordPrunes(p, k, op);
      k' := k;
    } else {
      k' := SaveStep(p, k, op.now);
    }
  }

  lemma {:induction false} ReplayPrunes(init: Log, ops: seq<Op>, clock: int) returns (k: nat)
    requires Clocked(init, ops, clock)
    ensures Pruned(Replay(init, ops), k, clock)
  {
    if ops == [] {
      k := 0;
    } else {
      var before, op := ops[..|ops| - 1], ops[|ops| - 1];
      ClockedPrefix(init, ops, clock);
      k := ReplayPrunes(init, before, op.now);
      k := StepPrunes(Replay(init, before), k, op);
      PrunedLater(Replay(init, ops), k, op.now, clock);
    }
  }

  lemma StepAlternates(p: Pair, op: Op)
    requires Alternates(p.full) && Alternates(p.kept)
    ensures Alternates(Operated(p, op).full) && Alternates(Operated(p, op).kept)
  {
  }

  lemma {:induction false} ReplayAlternates(init: Log, ops: seq<Op>)
    requires Alternates(init)
    ensures Alternates(Replay(init, ops).full) && Alternates(Replay(init, ops).kept)
  {
    if ops != [] {
      ReplayAlternates(init, ops[..|ops| - 1]);
      StepAlternates(Replay(init, ops[..|ops| - 1]), ops[|ops| - 1]);
    }
  }

  /** Pruning is invisible: after any records and saves, a query over at most 31 days gives the answer
      of a store that never prunes, unless some save met more than 8000 events after the old ones. */
  lemma PruningInvisible(init: Log, ops: seq<Op>, now: int, window: int)
    requires Clocked(init, ops, now) && window <= RETENTION
    requires !Replay(init, ops).capped
    ensures Pct(Replay(init, ops).kept, now, window) == Pct(Replay(init, ops).full, now, window)
  {
    var k := ReplayPrunes(init, ops, now);
    var p := Replay(init, ops);
    if p.full != [] {
      SuffixPct(p.full, k, now, window);
    }
  }

  /** What a pruned log answers, and what it keeps of the full one. */
  lemma PairClips(p: Pair, k: nat, now: int, window: int)
    requires Pruned(p, k, now)
    ensures p.kept == [] <==> p.full == []
    ensures p.kept != [] ==> Pct(p.kept, now, window) == PctFrom(p.full, Max(now - window, p.kept[0].t), now)
    ensures Sorted(p.kept) && (p.kept != [] ==> p.kept[|p.kept| - 1] == p.full[|p.full| - 1])
  {
    if p.full != [] {
      SuffixPct(p.full, k, now, window);
    }
  }

  /** In every case the answer is the pointwise one over the unpruned history, with the window clipped
      to the first event kept; and the log stays sorted and alternating. */
  lemma PruningClips(init: Log, ops: seq<Op>, now: int, window: int)
    requires Clocked(init, ops, now)
    ensures var p := Replay(init, ops);
      && (p.kept == [] <==> p.full == [])
      && (p.kept != [] ==>
            Pct(p.kept, now, window) == PctFrom(p.full, Max(now - window, p.kept[0].t), now))
      && Sorted(p.kept) && (Alternates(init) ==> Alternates(p.kept))
      && (p.kept != [] ==> p.kept[|p.kept| - 1] == p.full[|p.full| - 1])
  {
    var k := ReplayPrunes(init, ops, now);
    PairClips(Replay(init, ops), k, now, window);
    if Alternates(init) {
      ReplayAlternates(init, ops);
    }
  }
}
