/** The timed behaviour of keepalive and probe (core/internal/tunnelserver/server.go:285-326), with
    instantaneous scheduling: time passes only while no step of the two goroutines is due. */
module Keepalive {
  import opened Options

  /** KeepaliveInterval and KeepaliveTimeout. */
  datatype Tunables = Tunables(interval: int, timeout: int) {
    predicate Valid() { interval > 0 && timeout > 0 }
  }

  datatype Phase =
    | Waiting                // in the select of keepalive
    | Probing(sentAt: int)   // in the select of probe
    | Closed(at: int)        // keepalive closed the connection
    | Ended                  // the session's done was seen closed

  /** `pending` is the one-element buffer of the ticker's channel. */
  datatype State = State(now: int, phase: Phase, nextTick: int, pending: bool) {
    predicate Live() { phase.Waiting? || phase.Probing? }
  }

  datatype Event =
    | Elapse(to: int)
    | Tick          // the ticker fires
    | Take          // <-t.C: a probe is sent
    | Answer        // the client replies
    | Error         // SendRequest fails
    | Expire        // <-timer.C
    | SessionEnd    // <-s.done

  function Start(k: Tunables, began: int): State {
    State(began, Waiting, began + k.interval, false)
  }

  predicate Enabled(k: Tunables, st: State, ev: Event) {
    match ev
    case Elapse(to) =>
      && st.now < to
      && (st.Live() ==> to <= st.nextTick)
      && !(st.phase.Waiting? && st.pending)
      && (st.phase.Probing? ==> to <= st.phase.sentAt + k.timeout)
    case Tick => st.Live() && st.now == st.nextTick
    case Take => st.phase.Waiting? && st.pending
    case Answer => st.phase.Probing?
    case Error => st.phase.Probing?
    case Expire => st.phase.Probing? && st.now == st.phase.sentAt + k.timeout
    case SessionEnd => st.Live()
  }

  function Next(k: Tunables, st: State, ev: Event): State
    requires Enabled(k, st, ev)
  {
    match ev
    case Elapse(to) => st.(now := to)
    case Tick => st.(nextTick := st.nextTick + k.interval, pending := true)
    case Take => st.(phase := Probing(st.now), pending := false)
    case Answer => st.(phase := Waiting)
    case Error => st.(phase := Closed(st.now))
    case Expire => st.(phase := Closed(st.now))
    case SessionEnd => st.(phase := Ended)
  }

  function Run(k: Tunables, st: State, evs: seq<Event>): Option<State> {
    if evs == [] then Some(st)
    else
      var before := Run(k, st, evs[..|evs| - 1]);
      if before.Some? && Enabled(k, before.value, evs[|evs| - 1])
      then Some(Next(k, before.value, evs[|evs| - 1]))
      else None
  }

  /** No deadline lies in the past, and the next tick is at most one interval away. */
  predicate OnTime(k: Tunables, st: State) {
    && (st.Live() ==> st.now <= st.nextTick <= st.now + k.interval)
    && (st.phase.Probing? ==> st.phase.sentAt <= st.now <= st.phase.sentAt + k.timeout)
  }

  lemma {:induction false} RunOnTime(k: Tunables, st: State, evs: seq<Event>)
    requires k.Valid() && OnTime(k, st) && Run(k, st, evs).Some?
    ensures OnTime(k, Run(k, st, evs).value)
  {
    if evs != [] {
      RunOnTime(k, st, evs[..|evs| - 1]);
    }
  }

  /** The connection is closed exactly by a failed or an expired probe, and keepalive ends otherwise exactly
      with the session; either way for good. */
  lemma {:induction false} EndsExactly(k: Tunables, began: int, evs: seq<Event>)
    requires Run(k, Start(k, began), evs).Some?
    ensures Run(k, Start(k, began), evs).value.phase.Closed? <==> Error in evs || Expire in evs
    ensures Run(k, Start(k, began), evs).value.phase.Ended? <==> SessionEnd in evs
  {
    if evs != [] {
      var before, ev := evs[..|evs| - 1], evs[|evs| - 1];
      EndsExactly(k, began, before);
      assert forall e :: e in evs <==> e in before || e == ev by {
        assert evs == before + [ev];
      }
    }
  }

  /** Time is never stuck: after any run either a step of the goroutines is due or time can pass, so
      the bounds below are not met by freezing the clock. */
  lemma NoTimelock(k: Tunables, began: int, evs: seq<Event>)
    requires k.Valid() && Run(k, Start(k, began), evs).Some?
    ensures var st := Run(k, Start(k, began), evs).value;
      || Enabled(k, st, Tick) || Enabled(k, st, Take) || Enabled(k, st, Expire)
      || Enabled(k, st, Elapse(st.now + 1))
  {
    RunOnTime(k, Start(k, began), evs);
  }

  // ----- a client that answers

  /** A client that answers every probe at the latest `latency` after it was sent, over a link on which
      no request fails. */
  ghost predicate Answers(k: Tunables, st: State, latency: int, evs: seq<Event>) {
    && Error !in evs
    && forall n :: 0 <= n <= |evs| && Run(k, st, evs[..n]).Some? ==>
      var mid := Run(k, st, evs[..n]).value;
      mid.phase.Probing? ==> mid.now <= mid.phase.sentAt + latency
  }

  /** A client that is faster than the timeout is never closed by keepalive. */
  lemma {:induction false} AnsweringClientStays(k: Tunables, began: int, latency: int, evs: seq<Event>)
    requires latency < k.timeout
    requires Run(k, Start(k, began), evs).Some? && Answers(k, Start(k, began), latency, evs)
    ensures !Run(k, Start(k, began), evs).value.phase.Closed?
  {
    if evs != [] {
      var before := evs[..|evs| - 1];
      AnswersBefore(k, Start(k, began), latency, evs);
      AnsweringClientStays(k, began, latency, before);
      assert evs[|evs| - 1] in evs;
      assert evs[..|before|] == before;
    }
  }

  lemma AnswersBefore(k: Tunables, st: State, latency: int, evs: seq<Event>)
    requires evs != [] && Answers(k, st, latency, evs)
    ensures Answers(k, st, latency, evs[..|evs| - 1])
  {
    var before := evs[..|evs| - 1];
    assert forall n :: 0 <= n <= |before| ==> before[..n] == evs[..n];
    forall ev | ev in before ensures ev in evs {
    }
  }

  /** No run with a client of that latency is closed by keepalive. */
  ghost predicate Tolerates(k: Tunables, latency: int) {
    forall began, evs :: Run(k, Start(k, began), evs).Some? && Answers(k, Start(k, began), latency, evs) ==>
      !Run(k, Start(k, began), evs).value.phase.Closed?
  }

  /** For all tunables, keepalive tolerates exactly the latencies below the timeout. */
  lemma ToleratesExactly(k: Tunables, latency: int)
    requires k.Valid() && latency >= 0
    ensures Tolerates(k, latency) <==> latency < k.timeout
  {
    if latency < k.timeout {
      forall began, evs | Run(k, Start(k, began), evs).Some? && Answers(k, Start(k, began), latency, evs)
        ensures !Run(k, Start(k, began), evs).value.phase.Closed?
      {
        AnsweringClientStays(k, began, latency, evs);
      }
    } else {
      var evs := ProbeFor(k, k.timeout);
      var all := Extend(k, evs, Expire);
      AnswersAfter(k, Start(k, 0), latency, evs, Expire);
      assert Run(k, Start(k, 0), all).value.phase.Closed?;
    }
  }

  /** For all tunables: an answer that comes exactly at the timeout races with the timer, although the
      client was never later than that. */
  lemma AnswerAtTheTimeoutIsARace(k: Tunables)
    requires k.Valid()
    ensures exists evs ::
      Run(k, Start(k, 0), evs).Some? && Answers(k, Start(k, 0), k.timeout, evs) &&
      var st := Run(k, Start(k, 0), evs).value;
      st.phase.Probing? && Enabled(k, st, Answer) && Enabled(k, st, Expire)
  {
    var evs := ProbeFor(k, k.timeout);
  }

  lemma AnswersAfter(k: Tunables, st: State, latency: int, evs: seq<Event>, ev: Event)
    requires Answers(k, st, latency, evs) && Run(k, st, evs + [ev]).Some? && ev != Error
    requires var now := Run(k, st, evs + [ev]).value;
      now.phase.Probing? ==> now.now <= now.phase.sentAt + latency
    ensures Answers(k, st, latency, evs + [ev])
  {
    var all := evs + [ev];
    forall n | 0 <= n <= |all| && Run(k, st, all[..n]).Some?
      ensures var mid := Run(k, st, all[..n]).value; mid.phase.Probing? ==> mid.now <= mid.phase.sentAt + latency
    {
      if n <= |evs| {
        assert all[..n] == evs[..n];
      } else {
        assert all[..n] == all;
      }
    }
  }

  /** The first probe, in flight for `age`: the ticker may fire many times meanwhile. */
  lemma {:induction false} ProbeFor(k: Tunables, age: nat) returns (evs: seq<Event>)
    requires k.Valid() && age <= k.timeout
    ensures Run(k, Start(k, 0), evs).Some? && Answers(k, Start(k, 0), age, evs)
    ensures var st := Run(k, Start(k, 0), evs).value;
      st.phase == Probing(k.interval) && st.now == k.interval + age && st.now < st.nextTick
  {
    if age == 0 {
      evs := FirstProbe(k);
    } else {
      evs := ProbeFor(k, age - 1);
      evs := Wait(k, age, evs);
    }
  }

  lemma FirstProbe(k: Tunables) returns (evs: seq<Event>)
    requires k.Valid()
    ensures Run(k, Start(k, 0), evs) == Some(State(k.interval, Probing(k.interval), 2 * k.interval, false))
    ensures Answers(k, Start(k, 0), 0, evs)
  {
    var none: seq<Event> := [];
    assert Answers(k, Start(k, 0), 0, none);
    evs := Step(k, 0, none, Elapse(k.interval));
    evs := Step(k, 0, evs, Tick);
    evs := Step(k, 0, evs, Take);
  }

  /** One unit of time more with the probe in flight. */
  lemma Wait(k: Tunables, age: nat, evs: seq<Event>) returns (evs': seq<Event>)
    requires k.Valid() && 0 < age <= k.timeout
    requires Run(k, Start(k, 0), evs).Some? && Answers(k, Start(k, 0), age - 1, evs)
    requires var st := Run(k, Start(k, 0), evs).value;
      st.phase == Probing(k.interval) && st.now == k.interval + age - 1 && st.now < st.nextTick
    ensures Run(k, Start(k, 0), evs').Some? && Answers(k, Start(k, 0), age, evs')
    ensures var st := Run(k, Start(k, 0), evs').value;
      st.phase == Probing(k.interval) && st.now == k.interval + age && st.now < st.nextTick
  {
    evs' := Step(k, age, evs, Elapse(k.interval + age));
    var st := Run(k, Start(k, 0), evs').value;
    if st.now == st.nextTick {
      evs' := Step(k, age, evs', Tick);
    }
  }

  lemma Step(k: Tunables, latency: int, evs: seq<Event>, ev: Event) returns (evs': seq<Event>)
    requires Run(k, Start(k, 0), evs).Some? && Enabled(k, Run(k, Start(k, 0), evs).value, ev)
    requires Answers(k, Start(k, 0), latency, evs) && ev != Error
    requires var st := Next(k, Run(k, Start(k, 0), evs).value, ev);
      st.phase.Probing? ==> st.now <= st.phase.sentAt + latency
    ensures evs' == evs + [ev] && Answers(k, Start(k, 0), latency, evs')
    ensures Run(k, Start(k, 0), evs') == Some(Next(k, Run(k, Start(k, 0), evs).value, ev))
  {
    evs' := Extend(k, evs, ev);
    AnswersAfter(k, Start(k, 0), latency, evs, ev);
  }

  // ----- a client that falls silent

  /** Where a client that has not answered since time t can be. */
  predicate Silent(k: Tunables, st: State, t: int) {
    match st.phase
    case Waiting => if st.pending then st.now <= t + k.interval else st.nextTick <= t + k.interval
    case Probing(sentAt) => sentAt <= t + k.interval
    case Closed(at) => at <= t + k.interval + k.timeout
    case Ended => true
  }

  lemma {:induction false} SilentStays(k: Tunables, st: State, t: int, evs: seq<Event>)
    requires k.Valid() && OnTime(k, st) && Silent(k, st, t)
    requires Run(k, st, evs).Some? && Answer !in evs
    ensures Silent(k, Run(k, st, evs).value, t)
  {
    if evs != [] {
      var before := evs[..|evs| - 1];
      assert evs[|evs| - 1] in evs;
      SilentStays(k, st, t, before);
      RunOnTime(k, st, before);
    }
  }

  /** A client that stops answering at time t, with a probe in flight or between two ticks, has its
      connection closed (or its session ended) no later than one interval and one timeout after t. */
  lemma SilentClientIsClosed(k: Tunables, began: int, evs: seq<Event>, more: seq<Event>)
    requires k.Valid()
    requires Run(k, Start(k, began), evs).Some?
    requires Run(k, Run(k, Start(k, began), evs).value, more).Some? && Answer !in more
    ensures var st := Run(k, Start(k, began), evs).value;
      var st' := Run(k, st, more).value;
      st.Live() && st'.now > st.now + k.interval + k.timeout ==>
        !st'.Live() && (st'.phase.Closed? ==> st'.phase.at <= st.now + k.interval + k.timeout)
  {
    RunOnTime(k, Start(k, began), evs);
    var st := Run(k, Start(k, began), evs).value;
    RunOnTime(k, st, more);
    if st.Live() {
      SilentStays(k, st, st.now, more);
    }
  }

  /** The bound is reached: with the default tunables, a client whose last answer comes at second 20
      can be closed at second 70. */
  lemma SilenceBoundIsTight()
    ensures var k := Tunables(20, 30);
      exists evs, more ::
        && Run(k, Start(k, 0), evs).Some? && Run(k, Start(k, 0), evs).value.now == 20
        && Answer !in more
        && Run(k, Start(k, 0), evs + more).Some?
        && Run(k, Start(k, 0), evs + more).value.phase == Closed(20 + 20 + 30)
  {
    var k := Tunables(20, 30);
    var evs := FirstProbe(k);
    evs := Extend(k, evs, Answer);
    var more := [Elapse(40), Tick, Take, Elapse(60), Tick, Elapse(70), Expire];
    var all := Extend(k, evs, Elapse(40));
    all := Extend(k, all, Tick);
    all := Extend(k, all, Take);
    all := Extend(k, all, Elapse(60));
    all := Extend(k, all, Tick);
    all := Extend(k, all, Elapse(70));
    all := Extend(k, all, Expire);
    assert all == evs + more;
  }

  lemma Extend(k: Tunables, evs: seq<Event>, ev: Event) returns (evs': seq<Event>)
    requires Run(k, Start(k, 0), evs).Some? && Enabled(k, Run(k, Start(k, 0), evs).value, ev)
    ensures evs' == evs + [ev]
    ensures Run(k, Start(k, 0), evs') == Some(Next(k, Run(k, Start(k, 0), evs).value, ev))
  {
    evs' := evs + [ev];
    assert evs'[..|evs'| - 1] == evs;
  }
}
