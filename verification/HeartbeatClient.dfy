/** The client side of the UDP heartbeat (core/internal/heartbeat/client.go:78-159): every beat that was
    sent is pending, answered or lost, whatever replies arrive and in whatever order. */
module HeartbeatClient {
  import opened Options
  import opened Sequences

  const SECOND := 1_000_000_000   // times are in nanoseconds
  const MISSED_BEFORE_WARN := 3
  const WINDOW := 30
  const REPLY_WAIT := 5 * SECOND
  const SEQ_WRAP := 0x1_0000_0000   // uint32

  /** What SetUDP is told. */
  datatype Report = Report(ok: bool, rtt: int, loss: real)

  /** A beat that is no longer pending. */
  datatype Outcome = Outcome(beat: nat, answered: bool)

  // ----- history

  ghost function Results(log: seq<Outcome>): seq<bool> {
    seq(|log|, i requires 0 <= i < |log| => log[i].answered)
  }

  /** The number of losses since the last answered beat. */
  function TrailingLosses(results: seq<bool>): nat {
    if results == [] || results[|results| - 1] then 0 else 1 + TrailingLosses(results[..|results| - 1])
  }

  lemma PushTrailing(results: seq<bool>, ok: bool)
    ensures TrailingLosses(results + [ok]) == if ok then 0 else TrailingLosses(results) + 1
  {
    assert (results + [ok])[..|results + [ok]| - 1] == results;
  }

  ghost function Beats(log: seq<Outcome>, answered: bool): set<nat> {
    set i | 0 <= i < |log| && log[i].answered == answered :: log[i].beat
  }

  lemma PushBeats(log: seq<Outcome>, beat: nat, ok: bool)
    ensures Beats(log + [Outcome(beat, ok)], ok) == Beats(log, ok) + {beat}
    ensures Beats(log + [Outcome(beat, ok)], !ok) == Beats(log, !ok)
  {
    var log' := log + [Outcome(beat, ok)];
    assert log'[|log|] == Outcome(beat, ok);
    forall a: bool, b | b in Beats(log, a) ensures b in Beats(log', a) {
      var i :| 0 <= i < |log| && log[i].answered == a && log[i].beat == b;
      assert log'[i] == log[i];
    }
  }

  /** The beats 1..n. */
  ghost function UpTo(n: nat): (bs: set<nat>)
    ensures forall b :: b in bs <==> 1 <= b <= n
  {
    if n == 0 then {} else UpTo(n - 1) + {n}
  }

  /** The beats 1..n are pending, answered or lost, each one of these. */
  ghost predicate Accounted(pending: set<nat>, answered: set<nat>, lost: set<nat>, n: nat) {
    && pending + answered + lost == UpTo(n)
    && pending !! answered && pending !! lost && answered !! lost
  }

  lemma NextAccounted(pending: set<nat>, answered: set<nat>, lost: set<nat>, n: nat)
    requires Accounted(pending, answered, lost, n)
    ensures Accounted(pending + {n + 1}, answered, lost, n + 1)
  {
    assert n + 1 !in UpTo(n) && UpTo(n + 1) == UpTo(n) + {n + 1};
  }

  ghost predicate RecordedOnce(log: seq<Outcome>) {
    forall i, j :: 0 <= i < j < |log| ==> log[i].beat != log[j].beat
  }

  function CountLost(hist: seq<bool>): nat {
    if hist == [] then 0 else CountLost(hist[..|hist| - 1]) + (if hist[|hist| - 1] then 0 else 1)
  }

  lemma {:induction false} CountLostBound(hist: seq<bool>)
    ensures CountLost(hist) <= |hist|
    ensures CountLost(hist) == 0 <==> forall i :: 0 <= i < |hist| ==> hist[i]
  {
    if hist != [] {
      CountLostBound(hist[..|hist| - 1]);
    }
  }

  /** The share of losses among the last beats, in percent. */
  function LossOf(hist: seq<bool>): (pct: real)
    requires hist != []
    ensures 0.0 <= pct <= 100.0
  {
    CountLostBound(hist);
    PercentRange(CountLost(hist), |hist|);
    100.0 * CountLost(hist) as real / |hist| as real
  }

  lemma PercentRange(lost: nat, of: nat)
    requires lost <= of && of > 0
    ensures 0.0 <= 100.0 * lost as real / of as real <= 100.0
  {
    assert 100.0 * lost as real <= 100.0 * of as real;
  }

  ghost function LostAt(hist: seq<bool>): set<int> {
    set i | 0 <= i < |hist| && !hist[i]
  }

  lemma {:induction false} LostAreCounted(hist: seq<bool>)
    ensures CountLost(hist) == |LostAt(hist)|
  {
    if hist != [] {
      var n := |hist| - 1;
      LostAreCounted(hist[..n]);
      assert LostAt(hist) == LostAt(hist[..n]) + if hist[n] then {} else {n};
    }
  }

  /** The share, by the number of lost beats among them. */
  lemma LossMeans(hist: seq<bool>)
    requires hist != []
    ensures LossOf(hist) * |hist| as real == 100.0 * |LostAt(hist)| as real
  {
    LostAreCounted(hist);
    ShareTimes(100.0 * CountLost(hist) as real, |hist| as real);
  }

  lemma ShareTimes(x: real, y: real)
    requires y > 0.0
    ensures x / y * y == x
  {
  }

  /** Three losses in a row are those of the last three outcomes. */
  lemma ThreeLosses(results: seq<bool>)
    ensures TrailingLosses(results) >= 3 <==>
      |results| >= 3 && !results[|results| - 1] && !results[|results| - 2] && !results[|results| - 3]
  {
    if |results| >= 3 {
      var n := |results|;
      var a, b := results[..n - 1], results[..n - 1][..n - 2];
      assert a[n - 2] == results[n - 2] && b[n - 3] == results[n - 3];
      assert TrailingLosses(b) == if b[n - 3] then 0 else 1 + TrailingLosses(b[..n - 3]);
    }
  }

  /** What a report says about all outcomes so far: its loss is that of the last 30 of them, and it is ok
      unless the last three were losses. */
  ghost predicate ReportTrue(report: Report, results: seq<bool>) {
    var tail := LastN(results, 30);
    && tail != [] && report.loss * |tail| as real == 100.0 * |LostAt(tail)| as real
    && (report.ok <==>
          !(|results| >= 3 && !results[|results| - 1] && !results[|results| - 2] && !results[|results| - 3]))
  }

  lemma SummaryIsTrue(report: Report, results: seq<bool>)
    requires var tail := LastN(results, WINDOW); tail != [] && report.loss == LossOf(tail)
    requires report.ok <==> TrailingLosses(results) < MISSED_BEFORE_WARN
    ensures ReportTrue(report, results)
  {
    LossMeans(LastN(results, WINDOW));
    ThreeLosses(results);
  }

  // ----- the books: where every beat is

  datatype Books = Books(seqNo: nat, sent: map<nat, int>, answered: set<nat>, lost: set<nat>)

  function Sending(b: Books, now: int): Books {
    var n := (b.seqNo + 1) % SEQ_WRAP;
    b.(seqNo := n, sent := b.sent[n := now])
  }

  function Replying(b: Books, beat: nat): Books {
    if beat in b.sent then b.(sent := b.sent - {beat}, answered := b.answered + {beat}) else b
  }

  /** A beat that the sweep at time `now` counts as lost. */
  predicate Overdue(b: Books, beat: nat, now: int)
    requires beat in b.sent
  {
    now - b.sent[beat] >= REPLY_WAIT && beat != b.seqNo
  }

  function Sweeping(b: Books, now: int): Books {
    b.(sent := map s | s in b.sent && !Overdue(b, s, now) :: b.sent[s],
       lost := b.lost + set s | s in b.sent && Overdue(b, s, now))
  }

  function Losing(b: Books, beat: nat): Books {
    b.(sent := b.sent - {beat}, lost := b.lost + {beat})
  }

  /** The sweep, with the beats `todo` still to be visited. */
  ghost function PartlySwept(b: Books, todo: set<nat>, now: int): Books {
    b.(sent := map s | s in b.sent && (s in todo || !Overdue(b, s, now)) :: b.sent[s],
       lost := b.lost + set s | s in b.sent && s !in todo && Overdue(b, s, now))
  }

  lemma SweepStep(b: Books, todo: set<nat>, s: nat, now: int)
    requires s in todo && todo <= b.sent.Keys
    ensures PartlySwept(b, todo - {s}, now) ==
      if Overdue(b, s, now) then Losing(PartlySwept(b, todo, now), s) else PartlySwept(b, todo, now)
    ensures s in PartlySwept(b, todo, now).sent && PartlySwept(b, todo, now).sent[s] == b.sent[s]
  {
    var before, after := PartlySwept(b, todo, now), PartlySwept(b, todo - {s}, now);
    if Overdue(b, s, now) {
      assert after.sent == before.sent - {s};
      assert after.lost == before.lost + {s};
    } else {
      assert after.sent == before.sent;
      assert after.lost == before.lost;
    }
  }

  /** The sweep, told beat by beat: exactly the beats that are 5 seconds old are lost, but for the newest. */
  ghost predicate Swept(b: Books, b': Books, now: int) {
    && b'.seqNo == b.seqNo && b'.answered == b.answered && b.lost <= b'.lost
    && (forall s :: s in b'.sent ==> s in b.sent && b'.sent[s] == b.sent[s])
    && (forall s :: s in b.sent ==> (s !in b'.sent <==> now - b.sent[s] >= 5_000_000_000 && s != b.seqNo))
    && (forall s :: s in b'.lost <==> s in b.lost || (s in b.sent && s !in b'.sent))
  }

  lemma SweepingIs(b: Books, now: int)
    ensures Swept(b, Sweeping(b, now), now) && NoneOverdue(Sweeping(b, now), now)
  {
  }

  // ----- the client

  class Client {
    var seqNo: nat
    var sent: map<nat, int>
    var hist: seq<bool>
    var missed: nat
    var downFrom: int
    var lastRTT: int
    var reported: Option<Report>
    ghost var log: seq<Outcome>   // every recorded outcome, in order

    ghost function View(): Books
      reads this
    {
      Books(seqNo, sent, Beats(log, true), Beats(log, false))
    }

    /** Beats 1..seqNo are partitioned into pending, answered and lost. */
    ghost predicate Partition()
      reads this
    {
      Accounted(sent.Keys, Beats(log, true), Beats(log, false), seqNo) && RecordedOnce(log)
    }

    /** What the bounded state keeps of the history. */
    ghost predicate Summary()
      reads this
    {
      && hist == LastN(Results(log), WINDOW)
      && missed == TrailingLosses(Results(log))
      && (reported.None? <==> log == [])
      && (reported.Some? ==>
            && (reported.value.ok <==> missed < MISSED_BEFORE_WARN)
            && hist != [] && reported.value.loss == LossOf(hist))
    }

    ghost predicate Valid()
      reads this
    {
      seqNo < SEQ_WRAP && Partition() && Summary()
    }

    constructor ()
      ensures Valid() && seqNo == 0 && sent == map[] && log == [] && reported == None
    {
      seqNo, sent, hist, missed, downFrom, lastRTT := 0, map[], [], 0, 0, 0;
      reported, log := None, [];
    }

    /** The latest report tells the truth about the whole history. */
    lemma ReportIsTrue()
      requires Valid() && reported.Some?
      ensures ReportTrue(reported.value, Results(log))
    {
      SummaryIsTrue(reported.value, Results(log));
    }

    /** The top of the loop, when there is a connection. */
    method Send(now: int)
      modifies this`seqNo, this`sent
      ensures View() == Sending(old(View()), now)
      ensures old(Valid()) && old(seqNo) + 1 < SEQ_WRAP ==> Valid()
    {
      if Partition() {
        NextAccounted(sent.Keys, Beats(log, true), Beats(log, false), seqNo);
      }
      seqNo := (seqNo + 1) % SEQ_WRAP;
      sent := sent[seqNo := now];
      assert sent.Keys == old(sent.Keys) + {seqNo};
    }

    method Loss() returns (pct: real)
      requires hist != []
      ensures pct == LossOf(hist)
    {
      var lost := 0;
      for i := 0 to |hist|
        invariant lost == CountLost(hist[..i])
      {
        assert hist[..i + 1][..i] == hist[..i];
        if !hist[i] {
          lost := lost + 1;
        }
      }
      assert hist[..|hist|] == hist;
      pct := 100.0 * lost as real / |hist| as real;
    }

    method Record(beat: nat, ok: bool)
      modifies this`hist, this`log
      ensures log == old(log) + [Outcome(beat, ok)]
      ensures hist == LastN(old(hist) + [ok], WINDOW) && hist != []
      ensures old(hist) == LastN(Results(old(log)), WINDOW) ==> hist == LastN(Results(log), WINDOW)
      ensures TrailingLosses(Results(log)) == if ok then 0 else TrailingLosses(Results(old(log))) + 1
    {
      PushLast(Results(log), ok, WINDOW);
      PushTrailing(Results(log), ok);
      assert Results(log + [Outcome(beat, ok)]) == Results(log) + [ok];
      log := log + [Outcome(beat, ok)];
      hist := hist + [ok];
      if |hist| > WINDOW {
        hist := hist[|hist| - WINDOW..];
      }
    }

    /** A pending beat is pending no more: it has an outcome, and the summary speaks of it. */
    method Settle(beat: nat, ok: bool)
      requires Partition() && beat in sent
      requires hist == LastN(Results(log), WINDOW) && missed == TrailingLosses(Results(log))
      modifies this`sent, this`hist, this`log, this`missed
      ensures Partition()
      ensures View() == if ok then Replying(old(View()), beat) else Losing(old(View()), beat)
      ensures log == old(log) + [Outcome(beat, ok)]
      ensures hist == LastN(Results(log), WINDOW) && hist != []
      ensures missed == TrailingLosses(Results(log)) == if ok then 0 else old(missed) + 1
    {
      SettledPartition(beat, ok);
      PushBeats(log, beat, ok);
      sent := sent - {beat};
      Record(beat, ok);
      missed := if ok then 0 else missed + 1;
    }

    /** Recording the outcome of a pending beat keeps the partition. */
    lemma SettledPartition(beat: nat, ok: bool)
      requires Partition() && beat in sent
      ensures var log' := log + [Outcome(beat, ok)]; var keys := sent.Keys - {beat};
        Accounted(keys, Beats(log', true), Beats(log', false), seqNo) && RecordedOnce(log')
    {
      var log' := log + [Outcome(beat, ok)];
      PushBeats(log, beat, ok);
      forall i | 0 <= i < |log| ensures log[i].beat != beat {
        assert log[i].beat in Beats(log, log[i].answered);
      }
    }

    /** A reply from the channel. A late, duplicate or unknown one changes nothing. */
    method Reply(beat: nat, at: int)
      requires Valid()
      modifies this
      ensures Valid() && View() == Replying(old(View()), beat)
      ensures beat !in old(sent) ==>
        log == old(log) && hist == old(hist) && missed == old(missed) && reported == old(reported)
      ensures beat in old(sent) ==>
        && log == old(log) + [Outcome(beat, true)]
        && lastRTT == at - old(sent)[beat] && missed == 0
        && reported.Some? && reported.value.ok && reported.value.rtt == lastRTT
    {
      if beat !in sent {
        return;
      }
      lastRTT := at - sent[beat];
      Settle(beat, true);
      var loss := Loss();
      reported := Some(Report(true, lastRTT, loss));
    }

    /** The sweep at the end of a round. The pending beats are visited in any order. */
    method Sweep(now: int)
      requires Valid()
      modifies this
      ensures Valid() && View() == Sweeping(old(View()), now)
      ensures NoneOverdue(View(), now)
      ensures Swept(old(View()), View(), now)
      ensures missed == old(missed) + (|log| - |old(log)|)
      ensures downFrom == old(downFrom) || downFrom in old(sent).Values
    {
      VisitPending(now);
      SweepingIs(old(View()), now);
    }

    method VisitPending(now: int)
      requires Valid()
      modifies this
      ensures Valid() && View() == Sweeping(old(View()), now)
      ensures missed == old(missed) + (|log| - |old(log)|)
      ensures downFrom == old(downFrom) || downFrom in old(sent).Values
    {
      var todo := sent.Keys;
      ghost var was := View();
      assert View() == PartlySwept(was, todo, now);
      while todo != {}
        invariant todo <= was.sent.Keys
        invariant Valid() && View() == PartlySwept(was, todo, now)
        invariant missed == old(missed) + (|log| - |old(log)|)
        invariant downFrom == old(downFrom) || downFrom in was.sent.Values
      {
        var s :| s in todo;
        var at := sent[s];
        SweepStep(was, todo, s, now);
        if now - at >= REPLY_WAIT && s != seqNo {
          Lose(s, at);
        }
        todo := todo - {s};
      }
    }

    /** One lost beat. */
    method Lose(beat: nat, at: int)
      requires Valid() && beat in sent
      modifies this
      ensures Valid() && View() == Losing(old(View()), beat) && |log| == |old(log)| + 1
      ensures missed == old(missed) + 1
      ensures downFrom == if missed == MISSED_BEFORE_WARN then at else old(downFrom)
      ensures reported.Some? && reported.value.rtt == lastRTT == old(lastRTT)
    {
      Settle(beat, false);
      if missed == MISSED_BEFORE_WARN {
        downFrom := at;
      }
      var loss := Loss();
      reported := Some(Report(missed < MISSED_BEFORE_WARN, lastRTT, loss));
    }
  }

  // ----- the loop

  datatype Arrival = Arrival(beat: nat, at: int)

  /** What one round of the loop meets: whether there is a connection, and the replies in order. */
  datatype Round = Round(connected: bool, sentAt: int, replies: seq<Arrival>, sweptAt: int)

  function AfterReplies(b: Books, replies: seq<Arrival>): Books {
    if replies == [] then b
    else Replying(AfterReplies(b, replies[..|replies| - 1]), replies[|replies| - 1].beat)
  }

  function AfterRound(b: Books, r: Round): Books {
    Sweeping(AfterReplies(if r.connected then Sending(b, r.sentAt) else b, r.replies), r.sweptAt)
  }

  function AfterRounds(rounds: seq<Round>): Books {
    if rounds == [] then Books(0, map[], {}, {})
    else AfterRound(AfterRounds(rounds[..|rounds| - 1]), rounds[|rounds| - 1])
  }

  lemma AfterOneMore(rounds: seq<Round>, i: nat)
    requires i < |rounds|
    ensures AfterRounds(rounds[..i + 1]) == AfterRound(AfterRounds(rounds[..i]), rounds[i])
  {
    assert rounds[..i + 1][..i] == rounds[..i];
  }

  /** Every pending beat but the newest is younger than replyWait. */
  ghost predicate NoneOverdue(b: Books, at: int) {
    forall s :: s in b.sent && s != b.seqNo ==> at - b.sent[s] < REPLY_WAIT
  }

  /** RunClient for any rounds, before the sequence number wraps: the books are the ones that the rounds
      determine, whatever the order of the sweeps, and they are a partition; what is reported is the truth
      about all outcomes so far. */
  method RunClient(rounds: seq<Round>) returns (c: Client)
    requires |rounds| < SEQ_WRAP
    ensures fresh(c) && c.Valid() && c.View() == AfterRounds(rounds)
    ensures rounds != [] ==> NoneOverdue(c.View(), rounds[|rounds| - 1].sweptAt)
    ensures c.reported.Some? ==> ReportTrue(c.reported.value, Results(c.log))
    ensures c.reported.None? <==> c.log == []
  {
    c := RunRounds(rounds);
    if c.reported.Some? {
      c.ReportIsTrue();
    }
  }

  method RunRounds(rounds: seq<Round>) returns (c: Client)
    requires |rounds| < SEQ_WRAP
    ensures fresh(c) && c.Valid() && c.View() == AfterRounds(rounds)
    ensures rounds != [] ==> NoneOverdue(c.View(), rounds[|rounds| - 1].sweptAt)
  {
    c := new Client();
    assert c.View() == AfterRounds(rounds[..0]);
    for i := 0 to |rounds|
      invariant fresh(c) && c.Valid() && c.seqNo <= i && c.View() == AfterRounds(rounds[..i])
      invariant i > 0 ==> NoneOverdue(c.View(), rounds[i - 1].sweptAt)
    {
      AfterOneMore(rounds, i);
      RunRound(c, rounds[i]);
    }
    assert rounds[..|rounds|] == rounds;
  }

  method RunRound(c: Client, round: Round)
    requires c.Valid() && c.seqNo + 1 < SEQ_WRAP
    modifies c
    ensures c.Valid() && c.View() == AfterRound(old(c.View()), round) && c.seqNo <= old(c.seqNo) + 1
    ensures NoneOverdue(c.View(), round.sweptAt)
  {
    Beat(c, round);
    Drain(c, round.replies);
    c.Sweep(round.sweptAt);
  }

  method Beat(c: Client, round: Round)
    requires c.Valid() && c.seqNo + 1 < SEQ_WRAP
    modifies c`seqNo, c`sent
    ensures c.Valid() && c.seqNo <= old(c.seqNo) + 1
    ensures c.View() == if round.connected then Sending(old(c.View()), round.sentAt) else old(c.View())
  {
    if round.connected {
      c.Send(round.sentAt);
    }
  }

  method Drain(c: Client, replies: seq<Arrival>)
    requires c.Valid()
    modifies c
    ensures c.Valid() && c.View() == AfterReplies(old(c.View()), replies) && c.seqNo == old(c.seqNo)
  {
    for k := 0 to |replies|
      invariant c.Valid() && c.seqNo == old(c.seqNo)
      invariant c.View() == AfterReplies(old(c.View()), replies[..k])
    {
      assert replies[..k + 1][..k] == replies[..k];
      c.Reply(replies[k].beat, replies[k].at);
    }
    assert replies[..|replies|] == replies;
  }

  // ----- what a round does to a beat

  lemma {:induction false} RepliesAnswer(b: Books, replies: seq<Arrival>, x: nat)
    requires x in b.sent
    ensures var b' := AfterReplies(b, replies);
      && b'.seqNo == b.seqNo && b'.lost == b.lost
      && (if Replied(replies, x) then x !in b'.sent && x in b'.answered
          else x in b'.sent && b'.sent[x] == b.sent[x])
  {
    if replies != [] {
      var before := replies[..|replies| - 1];
      RepliesAnswer(b, before, x);
      assert Replied(replies, x) <==> Replied(before, x) || replies[|replies| - 1].beat == x by {
        if k :| 0 <= k < |before| && before[k].beat == x {
          assert replies[k].beat == x;
        }
        if k :| 0 <= k < |replies| && replies[k].beat == x && k < |before| {
          assert before[k].beat == x;
        }
      }
    }
  }

  ghost predicate Replied(replies: seq<Arrival>, x: nat) {
    exists k :: 0 <= k < |replies| && replies[k].beat == x
  }

  /** A beat that is pending once the round's own beat is sent is answered when a reply to it arrives in the
      round, however old it is; otherwise lost when it is 5 seconds old at the sweep and not the newest; and
      otherwise still pending. */
  lemma RoundDecides(b: Books, r: Round, x: nat)
    requires var b1 := if r.connected then Sending(b, r.sentAt) else b; x in b1.sent
    ensures var b1, b' := if r.connected then Sending(b, r.sentAt) else b, AfterRound(b, r);
      if Replied(r.replies, x) then x in b'.answered && x !in b'.sent
      else if r.sweptAt - b1.sent[x] >= 5_000_000_000 && x != b1.seqNo then x in b'.lost && x !in b'.sent
      else x in b'.sent && b'.sent[x] == b1.sent[x]
  {
    RepliesAnswer(if r.connected then Sending(b, r.sentAt) else b, r.replies, x);
  }

  /** Sending makes the next number a pending beat, sent now; numbers wrap at 2^32. */
  lemma SendingAdds(b: Books, now: int)
    ensures var b' := Sending(b, now);
      && b'.seqNo == (if b.seqNo % 0x1_0000_0000 == 0xffff_ffff then 0 else b.seqNo % 0x1_0000_0000 + 1)
      && b'.seqNo in b'.sent && b'.sent[b'.seqNo] == now
      && b'.sent - {b'.seqNo} == b.sent - {b'.seqNo}
      && b'.answered == b.answered && b'.lost == b.lost
  {
    assert (b.seqNo + 1) % SEQ_WRAP == (b.seqNo % SEQ_WRAP + 1) % SEQ_WRAP;
  }
}
