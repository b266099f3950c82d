/** The availability percentage end to end: whatever ticks the sampler takes
    (core/internal/monitor/monitor.go:422-451) and whenever the saver prunes
    (core/internal/monitor/traffic.go:233-274), uptimePct answers as if every sample had been kept. */
module UptimeRuns {
  import opened Availability
  import opened Retention
  import M = Monitor
  import T = Traffic

  datatype Event = Tick(sample: M.Sample) | Prune(now: int)

  function TimeOf(ev: Event): int {
    match ev
    case Tick(sample) => sample.now
    case Prune(now) => now
  }

  /** The store after ticks and saves in any order. */
  ghost function After(m: M.Store, evs: seq<Event>): M.Store {
    if evs == [] then m
    else
      var before := After(m, evs[..|evs| - 1]);
      match evs[|evs| - 1]
      case Tick(s) => M.Ticked(before, s.connected, s.now, s.grace)
      case Prune(now) => SavedStore(before, now)
  }

  /** One save: every client is pruned. */
  ghost function SavedStore(m: M.Store, now: int): M.Store {
    map n | n in m :: T.Saved(m[n], now)
  }

  function Ticks(evs: seq<Event>): seq<M.Sample> {
    if evs == [] then []
    else
      var before := Ticks(evs[..|evs| - 1]);
      match evs[|evs| - 1]
      case Tick(s) => before + [s]
      case Prune(_) => before
  }

  /** The clock does not go back, and starts after the loaded log. */
  ghost predicate EventsClocked(log: Log, evs: seq<Event>, clock: int) {
    && Sorted(log) && NotAfter(log, clock)
    && (forall i, j :: 0 <= i <= j < |evs| ==> TimeOf(evs[i]) <= TimeOf(evs[j]))
    && (forall i :: 0 <= i < |evs| ==> NotAfter(log, TimeOf(evs[i])) && TimeOf(evs[i]) <= clock)
  }

  // ----- the run as one client's log sees it

  /** The last event is a tick that takes a sample of the client. */
  ghost predicate Samples(m: M.Store, evs: seq<Event>, name: string) {
    && evs != [] && evs[|evs| - 1].Tick? && name in After(m, evs)
    && (name in evs[|evs| - 1].sample.connected || !evs[|evs| - 1].sample.grace)
  }

  function OpOf(ev: Event, name: string): Op {
    match ev
    case Tick(s) => Record(s.now, name in s.connected)
    case Prune(now) => Save(now)
  }

  /** The records and prunes of one client's log that a run makes. */
  ghost function Ops(m: M.Store, evs: seq<Event>, name: string): seq<Op> {
    if evs == [] then []
    else
      var before, ev := Ops(m, evs[..|evs| - 1], name), evs[|evs| - 1];
      if ev.Prune? || Samples(m, evs, name) then before + [OpOf(ev, name)] else before
  }

  /** Pruning leaves the set of known clients as it is. */
  lemma {:induction false} KnownAlike(m: M.Store, evs: seq<Event>)
    ensures After(m, evs).Keys == M.AfterTicks(m, Ticks(evs)).Keys
  {
    if evs != [] {
      KnownAlike(m, evs[..|evs| - 1]);
      if evs[|evs| - 1].Tick? {
        assert Ticks(evs)[..|Ticks(evs)| - 1] == Ticks(evs[..|evs| - 1]);
      }
    }
  }

  /** What an event does to a client's log. */
  function Change(log: Log, ev: Event, name: string, sampled: bool): Log {
    match ev
    case Tick(s) => if sampled then Recorded(log, s.now, name in s.connected) else log
    case Prune(now) => log[Dropped(log, now - RETENTION)..]
  }

  lemma OperatedChanges(p: Pair, ev: Event, name: string)
    ensures Operated(p, OpOf(ev, name)).kept == Change(p.kept, ev, name, true)
    ensures Operated(p, OpOf(ev, name)).full == if ev.Tick? then Change(p.full, ev, name, true) else p.full
  {
  }

  /** One event more, for the two logs of the replay. */
  lemma ReplayStep(m: M.Store, evs: seq<Event>, name: string)
    requires evs != []
    ensures var log, ev := M.EntryOf(m, name).up, evs[|evs| - 1];
      var p, p' := Replay(log, Ops(m, evs[..|evs| - 1], name)), Replay(log, Ops(m, evs, name));
      && p'.kept == Change(p.kept, ev, name, Samples(m, evs, name))
      && p'.full == if ev.Tick? then Change(p.full, ev, name, Samples(m, evs, name)) else p.full
  {
    var log, ev, ops := M.EntryOf(m, name).up, evs[|evs| - 1], Ops(m, evs[..|evs| - 1], name);
    if ev.Prune? || Samples(m, evs, name) {
      ReplayPush(log, ops, OpOf(ev, name));
      OperatedChanges(Replay(log, ops), ev, name);
    }
  }

  /** The unpruned log of the run is the recording of the samples. */
  lemma {:induction false} FullIsRecorded(m: M.Store, evs: seq<Event>, name: string)
    ensures Replay(M.EntryOf(m, name).up, Ops(m, evs, name)).full ==
      RecordAll(M.EntryOf(m, name).up, M.SamplesOf(m, Ticks(evs), name))
  {
    if evs != [] {
      FullIsRecorded(m, evs[..|evs| - 1], name);
      ReplayStep(m, evs, name);
      if evs[|evs| - 1].Tick? {
        KnownAlike(m, evs);
        PushSample(m, evs, name);
      }
    }
  }

  lemma PushSample(m: M.Store, evs: seq<Event>, name: string)
    requires evs != [] && evs[|evs| - 1].Tick?
    ensures var s := evs[|evs| - 1].sample;
      var before, ss := M.SamplesOf(m, Ticks(evs[..|evs| - 1]), name), M.SamplesOf(m, Ticks(evs), name);
      if name in M.AfterTicks(m, Ticks(evs)) && (name in s.connected || !s.grace)
      then ss == before + [UpEvent(s.now, name in s.connected)] && ss[..|ss| - 1] == before
      else ss == before
  {
    assert Ticks(evs)[..|Ticks(evs)| - 1] == Ticks(evs[..|evs| - 1]);
  }

  lemma TickStep(m: M.Store, s: M.Sample, name: string)
    ensures var m' := M.Ticked(m, s.connected, s.now, s.grace); var log := M.EntryOf(m, name).up;
      M.EntryOf(m', name).up ==
      if name in m' && (name in s.connected || !s.grace) then Recorded(log, s.now, name in s.connected) else log
  {
  }

  lemma SaveStep(m: M.Store, now: int, name: string)
    ensures var m' := SavedStore(m, now); var log := M.EntryOf(m, name).up;
      M.EntryOf(m', name).up == log[Dropped(log, now - RETENTION)..]
  {
  }

  /** What the store has of a client. */
  ghost function Stored(m: M.Store, evs: seq<Event>, name: string): Log {
    M.EntryOf(After(m, evs), name).up
  }

  /** One event more, for the stored log. */
  lemma StoredStep(m: M.Store, evs: seq<Event>, name: string)
    requires evs != []
    ensures Stored(m, evs, name) ==
      Change(Stored(m, evs[..|evs| - 1], name), evs[|evs| - 1], name, Samples(m, evs, name))
  {
    var before := After(m, evs[..|evs| - 1]);
    match evs[|evs| - 1]
    case Tick(s) => TickStep(before, s, name);
    case Prune(now) => SaveStep(before, now, name);
  }

  /** The stored log of the run is the pruned one. */
  lemma {:induction false} KeptIsStored(m: M.Store, evs: seq<Event>, name: string)
    ensures Stored(m, evs, name) == Replay(M.EntryOf(m, name).up, Ops(m, evs, name)).kept
  {
    if evs != [] {
      KeptIsStored(m, evs[..|evs| - 1], name);
      ReplayStep(m, evs, name);
      StoredStep(m, evs, name);
    }
  }

  lemma {:induction false} OpsClocked(m: M.Store, evs: seq<Event>, name: string, clock: int)
    requires EventsClocked(M.EntryOf(m, name).up, evs, clock)
    ensures Clocked(M.EntryOf(m, name).up, Ops(m, evs, name), clock)
  {
    if evs != [] {
      var before, now := evs[..|evs| - 1], TimeOf(evs[|evs| - 1]);
      OpsClocked(m, before, name, now);
    }
  }

  lemma {:induction false} SamplesSorted(m: M.Store, evs: seq<Event>, name: string, clock: int)
    requires EventsClocked(M.EntryOf(m, name).up, evs, clock)
    ensures M.TicksClocked(M.EntryOf(m, name).up, Ticks(evs))
    ensures forall i :: 0 <= i < |Ticks(evs)| ==> Ticks(evs)[i].now <= clock
  {
    if evs != [] {
      SamplesSorted(m, evs[..|evs| - 1], name, TimeOf(evs[|evs| - 1]));
    }
  }

  // ----- the percentage

  lemma {:induction false} RecordedFirst(ev: Log, samples: Log)
    ensures RecordAll(ev, samples) == [] <==> ev + samples == []
    ensures ev + samples != [] ==> RecordAll(ev, samples)[0] == (ev + samples)[0]
  {
    if samples == [] {
      assert ev + samples == ev;
    } else {
      var n := |samples| - 1;
      RecordedFirst(ev, samples[..n]);
      assert ev + samples == (ev + samples[..n]) + [samples[n]];
    }
  }

  lemma {:induction false} SameStatesSameSeconds(a: Log, b: Log, from: int, till: int)
    requires forall s :: StateAt(a, s) == StateAt(b, s)
    ensures UpSeconds(a, from, till) == UpSeconds(b, from, till)
    decreases till - from
  {
    if from < till {
      SameStatesSameSeconds(a, b, from, till - 1);
    }
  }

  /** The compact log has the percentage of the list of all samples. */
  lemma RecordedPct(ev: Log, samples: Log, now: int, window: int)
    requires Sorted(ev + samples)
    ensures Pct(RecordAll(ev, samples), now, window) == Pct(ev + samples, now, window)
  {
    RecordedFirst(ev, samples);
    if ev + samples != [] {
      forall s ensures StateAt(RecordAll(ev, samples), s) == StateAt(ev + samples, s) {
        RunLengthExact(ev, samples, s);
      }
      SameStatesSameSeconds(RecordAll(ev, samples), ev + samples, Max(now - window, (ev + samples)[0].t), now);
    }
  }

  /** For any ticks and saves in any order, and any window of at most 31 days: uptimePct on the stored log
      is the percentage of the loaded log followed by all samples, unless some save met more than 8000
      events after the old ones. */
  lemma StoredPctIsSampledPct(m: M.Store, evs: seq<Event>, name: string, now: int, window: int)
    requires EventsClocked(M.EntryOf(m, name).up, evs, now) && window <= RETENTION
    requires !Replay(M.EntryOf(m, name).up, Ops(m, evs, name)).capped
    ensures Pct(Stored(m, evs, name), now, window) ==
      Pct(M.EntryOf(m, name).up + M.SamplesOf(m, Ticks(evs), name), now, window)
  {
    var log, ops := M.EntryOf(m, name).up, Ops(m, evs, name);
    KeptIsStored(m, evs, name);
    OpsClocked(m, evs, name, now);
    PruningInvisible(log, ops, now, window);
    FullIsRecorded(m, evs, name);
    SamplesSorted(m, evs, name, now);
    M.SamplesAreSorted(m, Ticks(evs), name);
    RecordedPct(log, M.SamplesOf(m, Ticks(evs), name), now, window);
  }
}
