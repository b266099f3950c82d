/** The server side of the UDP heartbeat (core/internal/heartbeat/server.go:81-126): the receive loop
    notes beats, a checker flags the clients whose beats stopped. */
module HeartbeatServer {
  import opened Options

  const SECOND := 1_000_000_000   // times are in nanoseconds
  const LOST_AFTER := 35 * SECOND
  const TICK := 5 * SECOND

  /** The last beat of a client. `at` is None until its first note has completed: the zero time, which
      is longer ago than any limit. */
  datatype Seen = Seen(at: Option<int>, ip: string, alive: bool)

  type Table = map<string, Seen>

  // ----- effects of the critical sections

  function Inserted(m: Table, name: string): Table {
    if name in m then m else m[name := Seen(None, "", true)]
  }

  function Updated(m: Table, name: string, ip: string, at: int): Table {
    m[name := Seen(Some(at), ip, true)]
  }

  predicate Overdue(v: Seen, now: int) {
    v.alive && (v.at.None? || now - v.at.value >= LOST_AFTER)
  }

  function Checked(m: Table, now: int): Table {
    map n | n in m :: if Overdue(m[n], now) then m[n].(alive := false) else m[n]
  }

  class Server {
    var m: Table

    constructor ()
      ensures m == map[]
    {
      m := map[];
    }

    /** When and from where the client's last valid beat came. */
    method Last(name: string) returns (r: Option<(Option<int>, string)>)
      ensures r == if name in m then Some((m[name].at, m[name].ip)) else None
    {
      r := if name in m then Some((m[name].at, m[name].ip)) else None;
    }

    /** The first critical section of note, for a client without an entry. */
    method Insert(name: string) returns (first: bool)
      modifies this
      ensures m == Inserted(old(m), name) && first == (name !in old(m))
      ensures first ==> m[name].at == None && m[name].alive && m - {name} == old(m)
      ensures !first ==> m == old(m)
    {
      first := name !in m;
      if first {
        m := m[name := Seen(None, "", true)];
      }
    }

    /** The critical section of note that records the beat. */
    method Update(name: string, ip: string, now: int) returns (resumed: bool)
      requires name in m
      modifies this
      ensures m == Updated(old(m), name, ip, now) && resumed == !old(m)[name].alive
      ensures name in m && m[name].at == Some(now) && m[name].ip == ip && m[name].alive
      ensures m - {name} == old(m) - {name}
    {
      resumed := !m[name].alive;
      m := m[name := Seen(Some(now), ip, true)];
    }

    /** One tick of check: the flagged clients, in some order, each once. */
    method Check(now: int) returns (lost: seq<string>)
      modifies this
      ensures m == Checked(old(m), now)
      ensures m.Keys == old(m).Keys
      ensures forall n :: n in m ==>
        && m[n].at == old(m)[n].at && m[n].ip == old(m)[n].ip
        && (m[n].alive <==> old(m)[n].alive && old(m)[n].at.Some? && now - old(m)[n].at.value < 35_000_000_000)
      ensures forall n :: n in lost <==> n in old(m) && Overdue(old(m)[n], now)
      ensures forall i, j :: 0 <= i < j < |lost| ==> lost[i] != lost[j]
    {
      lost := [];
      var todo := m.Keys;
      while todo != {}
        invariant todo <= m.Keys == old(m).Keys
        invariant forall n :: n in m ==> m[n] == if n in todo then old(m)[n] else Checked(old(m), now)[n]
        invariant forall n :: n in lost <==> n in old(m) && n !in todo && Overdue(old(m)[n], now)
        invariant forall i, j :: 0 <= i < j < |lost| ==> lost[i] != lost[j]
      {
        var n :| n in todo;
        todo := todo - {n};
        if Overdue(m[n], now) {
          m := m[n := m[n].(alive := false)];
          lost := lost + [n];
        }
      }
    }
  }

  // ----- interleavings

  /** A note in progress: the receive loop read the clock and may have made the entry. */
  datatype Note = Note(name: string, ip: string, at: int, inserted: bool)

  datatype Flip = Flip(lost: bool, at: int)

  /** `flips` and `noted` are histories: the changes of a client's state, and the times of its completed
      notes. */
  datatype State = State(now: int, m: Table, note: Option<Note>, nextTick: int,
                         flips: map<string, seq<Flip>>, noted: map<string, seq<int>>)

  datatype Event =
    | Elapse(till: int)
    | Receive(name: string, ip: string)   // note is called and reads the clock
    | First                               // its first critical section, for a new client
    | Second                              // the critical section that records the beat
    | Check                               // a tick of the checker

  function Start(began: int): State {
    State(began, map[], None, began + TICK, map[], map[])
  }

  function History<T>(h: map<string, seq<T>>, name: string): seq<T> {
    if name in h then h[name] else []
  }

  predicate Enabled(st: State, ev: Event) {
    match ev
    case Elapse(till) => st.now < till
    case Receive(_, _) => st.note.None?
    case First => st.note.Some? && st.note.value.name !in st.m
    case Second => st.note.Some? && st.note.value.name in st.m
    case Check => st.now >= st.nextTick
  }

  function Next(st: State, ev: Event): State
    requires Enabled(st, ev)
  {
    match ev
    case Elapse(till) => st.(now := till)
    case Receive(name, ip) => st.(note := Some(Note(name, ip, st.now, false)))
    case First => st.(m := Inserted(st.m, st.note.value.name), note := Some(st.note.value.(inserted := true)))
    case Second =>
      var n := st.note.value;
      var flips := History(st.flips, n.name);
      st.(m := Updated(st.m, n.name, n.ip, n.at), note := None,
          noted := st.noted[n.name := History(st.noted, n.name) + [n.at]],
          flips := st.flips[n.name := if st.m[n.name].alive then flips else flips + [Flip(false, st.now)]])
    case Check =>
      st.(m := Checked(st.m, st.now), nextTick := st.nextTick + TICK,
          flips := map n | n in st.m :: History(st.flips, n) +
            if Overdue(st.m[n], st.now) then [Flip(true, st.now)] else [])
  }

  /** Instantaneous scheduling: time does not pass while a note is in progress or a check is due. */
  predicate Prompt(st: State, ev: Event) {
    ev.Elapse? ==> st.note.None? && ev.till <= st.nextTick
  }

  /** The state after some events; with `prompt`, of a run with instantaneous scheduling. */
  function Run(began: int, evs: seq<Event>, prompt: bool): Option<State> {
    if evs == [] then Some(Start(began))
    else
      var ev := evs[|evs| - 1];
      match Run(began, evs[..|evs| - 1], prompt)
      case None => None
      case Some(st) =>
        if Enabled(st, ev) && (prompt ==> Prompt(st, ev)) then Some(Next(st, ev)) else None
  }

  // ----- what every run keeps

  ghost predicate Alternate(flips: seq<Flip>) {
    forall i :: 0 <= i < |flips| ==> (flips[i].lost <==> i % 2 == 0)
  }

  ghost predicate NoneAfter(noted: seq<int>, at: int) {
    forall i :: 0 <= i < |noted| ==> noted[i] <= at
  }

  /** The entry of a client and the history of its changes and notes. */
  ghost predicate EntryOk(v: Seen, flips: seq<Flip>, noted: seq<int>) {
    && (v.alive <==> |flips| % 2 == 0)
    && (v.at == if noted == [] then None else Some(noted[|noted| - 1]))
    && (v.at.Some? ==> NoneAfter(noted, v.at.value))
  }

  /** The invariant, for one client. */
  ghost predicate Inv(st: State, n: string) {
    var flips, noted := History(st.flips, n), History(st.noted, n);
    && Alternate(flips)
    && NoneAfter(noted, st.now)
    && (if n in st.m then EntryOk(st.m[n], flips, noted) else flips == [] && noted == [])
    && (n in st.m && noted == [] ==> st.note.Some? && st.note.value.name == n)
    && (st.note.Some? ==> st.note.value.at <= st.now)
    && (st.note.Some? && st.note.value.name == n ==> NoneAfter(noted, st.note.value.at))
  }

  /** With prompt scheduling, a client that is not flagged was noted since the check before last. */
  ghost predicate Fresh(st: State, n: string) {
    && st.now <= st.nextTick
    && (st.note.Some? ==> st.note.value.at == st.now)
    && (n in st.m && st.m[n].alive && st.m[n].at.Some? ==>
          st.m[n].at.value > st.nextTick - TICK - LOST_AFTER)
    && st.now > st.nextTick - TICK - LOST_AFTER
  }

  lemma PushNote(noted: seq<int>, at: int)
    requires NoneAfter(noted, at)
    ensures NoneAfter(noted + [at], at)
  {
  }

  lemma PushFlip(flips: seq<Flip>, f: Flip)
    requires Alternate(flips) && (f.lost <==> |flips| % 2 == 0)
    ensures Alternate(flips + [f])
  {
  }

  lemma SecondKept(st: State, n: string)
    requires Inv(st, n) && Enabled(st, Second)
    ensures Inv(Next(st, Second), n)
  {
    var note := st.note.value;
    if note.name == n {
      PushNote(History(st.noted, n), note.at);
      if !st.m[n].alive {
        PushFlip(History(st.flips, n), Flip(false, st.now));
      }
    }
  }

  lemma CheckKept(st: State, n: string)
    requires Inv(st, n) && Enabled(st, Check)
    ensures Inv(Next(st, Check), n)
  {
    if n in st.m && Overdue(st.m[n], st.now) {
      PushFlip(History(st.flips, n), Flip(true, st.now));
    } else {
      assert History(st.flips, n) + [] == History(st.flips, n);
    }
  }

  lemma {:induction false} RunKeeps(began: int, evs: seq<Event>, prompt: bool, n: string)
    requires Run(began, evs, prompt).Some?
    ensures Inv(Run(began, evs, prompt).value, n)
  {
    if evs != [] {
      RunKeeps(began, evs[..|evs| - 1], prompt, n);
      var st := Run(began, evs[..|evs| - 1], prompt).value;
      match evs[|evs| - 1]
      case Second => SecondKept(st, n);
      case Check => CheckKept(st, n);
      case _ =>
    }
  }

  lemma {:induction false} PromptRunIsFresh(began: int, evs: seq<Event>, n: string)
    requires Run(began, evs, true).Some?
    ensures Fresh(Run(began, evs, true).value, n)
  {
    if evs != [] {
      PromptRunIsFresh(began, evs[..|evs| - 1], n);
    }
  }

  // ----- what the histories are

  /** The clock after some events. */
  function Clock(began: int, evs: seq<Event>): int {
    if evs == [] then began
    else if evs[|evs| - 1].Elapse? then evs[|evs| - 1].till
    else Clock(began, evs[..|evs| - 1])
  }

  /** When beats of n were received, in order. */
  function Received(began: int, evs: seq<Event>, n: string): seq<int> {
    if evs == [] then []
    else
      var before := Received(began, evs[..|evs| - 1], n);
      match evs[|evs| - 1]
      case Receive(name, _) => if name == n then before + [Clock(began, evs)] else before
      case _ => before
  }

  /** The noted times are those of the received beats, in order, but for one whose note is in progress. */
  lemma {:induction false} NotedAreReceived(began: int, evs: seq<Event>, prompt: bool, n: string)
    requires Run(began, evs, prompt).Some?
    ensures var st := Run(began, evs, prompt).value; st.now == Clock(began, evs)
    ensures var st := Run(began, evs, prompt).value;
      Received(began, evs, n) == History(st.noted, n) +
        if st.note.Some? && st.note.value.name == n then [st.note.value.at] else []
  {
    if evs == [] {
      assert Received(began, evs, n) == [];
    } else {
      NotedAreReceived(began, evs[..|evs| - 1], prompt, n);
    }
  }

  /** The beat whose note is in progress, and for every client the last beat whose note completed: when and
      from where it was received. */
  datatype Beats = Beats(pending: Option<(string, int, string)>, last: map<string, (int, string)>)

  function BeatsOf(began: int, evs: seq<Event>): Beats {
    if evs == [] then Beats(None, map[])
    else BeatsAfter(BeatsOf(began, evs[..|evs| - 1]), evs[|evs| - 1], Clock(began, evs))
  }

  function BeatsAfter(b: Beats, ev: Event, now: int): Beats {
    match ev
    case Receive(name, ip) => b.(pending := Some((name, now, ip)))
    case Second =>
      if b.pending.None? then b
      else Beats(None, b.last[b.pending.value.0 := (b.pending.value.1, b.pending.value.2)])
    case _ => b
  }

  /** The note in progress and the entries of the table are those beats. */
  ghost predicate Holds(st: State, b: Beats) {
    && b.pending == (if st.note.Some? then Some((st.note.value.name, st.note.value.at, st.note.value.ip)) else None)
    && (forall n :: n in b.last ==> n in st.m && st.m[n].at == Some(b.last[n].0) && st.m[n].ip == b.last[n].1)
    && (forall n :: n in st.m && n !in b.last ==> st.m[n].at == None)
  }

  lemma StepHolds(st: State, ev: Event, b: Beats, now: int)
    requires Holds(st, b) && Enabled(st, ev) && (ev.Receive? ==> now == st.now)
    ensures Holds(Next(st, ev), BeatsAfter(b, ev, now))
  {
  }

  /** In every run, what Last returns is the time and the address of the client's last completed beat. */
  lemma {:induction false} EntryIsLastBeat(began: int, evs: seq<Event>, prompt: bool)
    requires Run(began, evs, prompt).Some?
    ensures Holds(Run(began, evs, prompt).value, BeatsOf(began, evs))
  {
    if evs != [] {
      var before, ev := evs[..|evs| - 1], evs[|evs| - 1];
      EntryIsLastBeat(began, before, prompt);
      NotedAreReceived(began, before, prompt, "");
      StepHolds(Run(began, before, prompt).value, ev, BeatsOf(began, before), Clock(began, evs));
    }
  }

  // ----- the guarantees

  /** In every interleaving the state of a client changes to lost, back, to lost and so on. */
  lemma FlipsAlternate(began: int, evs: seq<Event>, n: string)
    requires Run(began, evs, false).Some?
    ensures Alternate(History(Run(began, evs, false).value.flips, n))
    ensures var st := Run(began, evs, false).value;
      n in st.m ==> (st.m[n].alive <==> |History(st.flips, n)| % 2 == 0)
  {
    RunKeeps(began, evs, false, n);
  }

  /** A check flags a client that is alive exactly when no note of it completed yet, or the latest one that
      did had a beat at least 35 seconds old. */
  lemma FlaggedExactly(began: int, evs: seq<Event>, n: string)
    requires Run(began, evs, false).Some? && Enabled(Run(began, evs, false).value, Check)
    requires var st := Run(began, evs, false).value; n in st.m && st.m[n].alive
    ensures var st := Run(began, evs, false).value; var noted := History(st.noted, n);
      History(Next(st, Check).flips, n) == History(st.flips, n) + [Flip(true, st.now)] <==>
        noted == [] || noted[|noted| - 1] + 35_000_000_000 <= st.now
  {
    RunKeeps(began, evs, false, n);
    var st := Run(began, evs, false).value;
    var flips := History(st.flips, n);
    assert History(Next(st, Check).flips, n) == flips + if Overdue(st.m[n], st.now) then [Flip(true, st.now)] else [];
  }

  /** When a check flags a client, either its first note is still in progress, or no note of it completed
      with a beat received within the last 35 seconds. */
  lemma LostMeansSilent(began: int, evs: seq<Event>, n: string)
    requires Run(began, evs, false).Some? && Enabled(Run(began, evs, false).value, Check)
    requires var st := Run(began, evs, false).value; n in st.m && Overdue(st.m[n], st.now)
    ensures var st := Run(began, evs, false).value; var noted := History(st.noted, n);
      && (noted == [] ==> st.note.Some? && st.note.value.name == n)
      && (forall i :: 0 <= i < |noted| ==> noted[i] + LOST_AFTER <= st.now)
  {
    RunKeeps(began, evs, false, n);
  }

  /** The latest beat of n: of its completed notes, or of its first one while that is in progress. */
  function LatestBeat(st: State, n: string): Option<int> {
    var noted := History(st.noted, n);
    if noted != [] then Some(noted[|noted| - 1])
    else if st.note.Some? && st.note.value.name == n then Some(st.note.value.at)
    else None
  }

  /** No beat of n, completed or in progress, was received within the last 35 seconds. */
  ghost predicate Silent(st: State, n: string) {
    && (forall i :: 0 <= i < |History(st.noted, n)| ==> History(st.noted, n)[i] + LOST_AFTER <= st.now)
    && (st.note.Some? && st.note.value.name == n ==> st.note.value.at + LOST_AFTER <= st.now)
  }

  /** When a check flags a client: its latest beat is 35 seconds old exactly when some note of it completed
      or the beat of the first one is itself that old; and it was silent exactly when no note of it with a
      newer beat is in progress. */
  lemma FlagIsTrueExactly(began: int, evs: seq<Event>, n: string)
    requires Run(began, evs, false).Some? && Enabled(Run(began, evs, false).value, Check)
    requires var st := Run(began, evs, false).value; n in st.m && Overdue(st.m[n], st.now)
    ensures var st := Run(began, evs, false).value;
      && LatestBeat(st, n).Some?
      && (LatestBeat(st, n).value + LOST_AFTER <= st.now <==>
            History(st.noted, n) != [] || st.note.value.at + LOST_AFTER <= st.now)
      && (Silent(st, n) <==>
            !(st.note.Some? && st.note.value.name == n && st.note.value.at + LOST_AFTER > st.now))
  {
    LostMeansSilent(began, evs, n);
  }

  /** A client whose last completed note is older than 35 seconds and one tick has been flagged. */
  lemma SilentIsFlagged(began: int, evs: seq<Event>, n: string)
    requires Run(began, evs, true).Some?
    requires var st := Run(began, evs, true).value; var noted := History(st.noted, n);
      noted != [] && st.now >= noted[|noted| - 1] + 35_000_000_000 + 5_000_000_000
    ensures var st := Run(began, evs, true).value; var flips := History(st.flips, n);
      n in st.m && !st.m[n].alive && flips != [] && flips[|flips| - 1].lost
  {
    RunKeeps(began, evs, true, n);
    PromptRunIsFresh(began, evs, n);
    var st := Run(began, evs, true).value;
    assert !st.m[n].alive;
    LastIsLost(History(st.flips, n));
  }

  lemma LastIsLost(flips: seq<Flip>)
    requires Alternate(flips) && |flips| % 2 != 0
    ensures flips != [] && flips[|flips| - 1].lost
  {
  }

  /** The exception for the first beat is real: a check between the two critical sections of a first
      note flags a client whose beat has just arrived. */
  lemma FirstBeatCanBeFlagged(name: string, ip: string)
    ensures exists evs :: Run(0, evs, true).Some? && var st := Run(0, evs, true).value;
      && History(st.flips, name) == [Flip(true, TICK)]
      && History(st.noted, name) == [] && st.note == Some(Note(name, ip, TICK, true)) && st.now == TICK
  {
    var evs := Extend([], Elapse(TICK));
    evs := Extend(evs, Receive(name, ip));
    evs := Extend(evs, First);
    evs := Extend(evs, Check);
  }

  lemma Extend(evs: seq<Event>, ev: Event) returns (evs': seq<Event>)
    requires Run(0, evs, true).Some? && Enabled(Run(0, evs, true).value, ev)
    requires Prompt(Run(0, evs, true).value, ev)
    ensures evs' == evs + [ev] && Run(0, evs', true) == Some(Next(Run(0, evs, true).value, ev))
  {
    evs' := evs + [ev];
    assert evs'[..|evs'| - 1] == evs;
  }
}
