/** The record of failed connection attempts (core/internal/monitor/attempts.go): per-IP summaries and a
    bounded ring, proved to agree with the whole history of Record calls. */
module Attempts {
  import opened Options
  import opened Sequences

  const SECOND := 1_000_000_000   // times are in nanoseconds
  const RING_LEN := 50
  const LOG_EVERY := 300 * SECOND

  datatype Attempt = Attempt(at: int, ip: string, client: string, error: string, millis: int)

  /** The zero times of the source are None. */
  datatype IpStat = IpStat(lastAt: Option<int>, lastOK: Option<int>, lastErr: string, failsSince: nat,
                           lastLogged: Option<int>, suppressed: nat)

  // ----- the history of calls, and what it says about an IP

  /** One call of Record, with what it returned. */
  datatype Call = Call(ip: string, client: string, at: int, duration: int, err: Option<string>, always: bool,
                       trivial: bool, logIt: bool, returned: nat) {
    predicate Success() { err.None? }

    /** A failure that is kept. */
    predicate Failure() { err.Some? && !trivial }

    function Entry(): Attempt
      requires err.Some?
    {
      Attempt(at / SECOND, ip, client, err.value, duration / 1_000_000)
    }
  }

  type Calls = seq<Call>

  function Init(h: Calls): Calls
    requires h != []
  {
    h[..|h| - 1]
  }

  function Last(h: Calls): Call
    requires h != []
  {
    h[|h| - 1]
  }

  /** Kinds of calls: all, authenticated, kept failures, not trivial failures, logged failures. */
  datatype Kind = Any | Success | Failure | Informative | Logged

  predicate Is(kind: Kind, c: Call) {
    match kind
    case Any => true
    case Success => c.err.None?
    case Failure => c.Failure()
    case Informative => c.err.None? || c.Failure()
    case Logged => c.Failure() && c.logIt
  }

  /** The latest call of a kind from ip. */
  function Latest(h: Calls, ip: string, kind: Kind): Option<Call> {
    if h == [] then None
    else if Last(h).ip == ip && Is(kind, Last(h)) then Some(Last(h))
    else Latest(Init(h), ip, kind)
  }

  function TimeOf(c: Option<Call>): Option<int> {
    if c.None? then None else Some(c.value.at)
  }

  /** How many kept failures from ip there are after the latest call of a kind. */
  function FailuresSince(h: Calls, ip: string, since: Kind): nat {
    if h == [] then 0
    else if Last(h).ip == ip && Is(since, Last(h)) then 0
    else FailuresSince(Init(h), ip, since) + (if Last(h).ip == ip && Last(h).Failure() then 1 else 0)
  }

  function Count(h: Calls, ip: string, kind: Kind): nat {
    if h == [] then 0
    else Count(Init(h), ip, kind) + (if Last(h).ip == ip && Is(kind, Last(h)) then 1 else 0)
  }

  /** All suppressed counts that were returned for ip. */
  function Returned(h: Calls, ip: string): nat {
    if h == [] then 0
    else Returned(Init(h), ip) + (if Last(h).ip == ip then Last(h).returned else 0)
  }

  /** The kept failures over all IPs, in order. */
  function Failures(h: Calls): seq<Attempt> {
    if h == [] then []
    else if Last(h).Failure() then Failures(Init(h)) + [Last(h).Entry()]
    else Failures(Init(h))
  }

  /** The error of the latest kept failure after the latest success. */
  function ErrorOf(h: Calls, ip: string): string {
    match Latest(h, ip, Informative)
    case Some(c) => if c.err.Some? then c.err.value else ""
    case None => ""
  }

  /** What the record of an IP should be. */
  function StatOf(h: Calls, ip: string): IpStat {
    IpStat(TimeOf(Latest(h, ip, Any)), TimeOf(Latest(h, ip, Success)), ErrorOf(h, ip),
           FailuresSince(h, ip, Success), TimeOf(Latest(h, ip, Logged)), FailuresSince(h, ip, Logged))
  }

  /** The last min(n, length) entries, newest first. */
  ghost predicate NewestFirst<T>(r: seq<T>, s: seq<T>, n: nat) {
    && |r| == (if |s| < n then |s| else n)
    && forall k :: 0 <= k < |r| ==> r[k] == s[|s| - 1 - k]
  }

  lemma NewestOfTail<T>(r: seq<T>, s: seq<T>, n: nat)
    requires NewestFirst(r, LastN(s, 50), n)
    ensures NewestFirst(r, s, if n < 50 then n else 50)
  {
    LastNIs(s, 50);
  }

  lemma {:induction false} NeverSeen(h: Calls, ip: string)
    requires Latest(h, ip, Any).None?
    ensures StatOf(h, ip) == NO_STAT
  {
    if h != [] {
      NeverSeen(Init(h), ip);
    }
  }

  const NO_STAT := IpStat(None, None, "", 0, None, 0)

  /** The record of an IP after a call from it. */
  function After(s: IpStat, c: Call): IpStat {
    Noted(s, c.at, c.err, c.trivial, c.logIt)
  }

  function Noted(s: IpStat, at: int, err: Option<string>, trivial: bool, logIt: bool): IpStat {
    if err.None? then IpStat(Some(at), Some(at), "", 0, s.lastLogged, s.suppressed)
    else if trivial then s.(lastAt := Some(at))
    else if logIt then IpStat(Some(at), s.lastOK, err.value, s.failsSince + 1, Some(at), 0)
    else IpStat(Some(at), s.lastOK, err.value, s.failsSince + 1, s.lastLogged, s.suppressed + 1)
  }

  /** A call changes the record of its own IP only, as its kind says. */
  lemma StatStep(h: Calls, c: Call)
    ensures forall ip :: ip != c.ip ==> StatOf(h + [c], ip) == StatOf(h, ip)
    ensures StatOf(h + [c], c.ip) == After(StatOf(h, c.ip), c)
    ensures Failures(h + [c]) == (if c.Failure() then Failures(h) + [c.Entry()] else Failures(h))
    ensures forall ip :: Latest(h + [c], ip, Any).Some? <==> ip == c.ip || Latest(h, ip, Any).Some?
    ensures Honest(h + [c]) <==>
      Honest(h) && c.logIt == (c.Failure() && LogsNow(h, c.ip, c.at, c.always))
      && c.returned == (if c.logIt then FailuresSince(h, c.ip, Logged) else 0)
  {
    assert Init(h + [c]) == h && Last(h + [c]) == c;
  }

  ghost predicate Summarises(ips: map<string, IpStat>, ring: seq<Attempt>, h: Calls) {
    && (forall ip :: ip in ips <==> Latest(h, ip, Any).Some?)
    && (forall ip :: ip in ips ==> ips[ip] == StatOf(h, ip))
    && ring == LastN(Failures(h), RING_LEN)
    && Honest(h)
  }

  lemma CurrentStat(ips: map<string, IpStat>, ring: seq<Attempt>, h: Calls, ip: string)
    requires Summarises(ips, ring, h)
    ensures (if ip in ips then ips[ip] else NO_STAT) == StatOf(h, ip)
  {
    if ip !in ips {
      NeverSeen(h, ip);
    }
  }

  /** One more honest call, summarised. */
  lemma SummaryStep(ips: map<string, IpStat>, ring: seq<Attempt>, h: Calls, c: Call)
    requires Summarises(ips, ring, h)
    requires c.logIt == (c.Failure() && LogsNow(h, c.ip, c.at, c.always))
    requires c.returned == if c.logIt then FailuresSince(h, c.ip, Logged) else 0
    ensures Summarises(ips[c.ip := After(if c.ip in ips then ips[c.ip] else NO_STAT, c)],
                       if c.Failure() then LastN(ring + [c.Entry()], RING_LEN) else ring, h + [c])
  {
    if c.ip !in ips {
      NeverSeen(h, c.ip);
    }
    StatStep(h, c);
    if c.Failure() {
      PushLast(Failures(h), c.Entry(), RING_LEN);
    }
  }

  /** Whether a kept failure is logged now, after history h. */
  predicate LogsNow(h: Calls, ip: string, at: int, always: bool) {
    var last := TimeOf(Latest(h, ip, Logged));
    always || last.None? || at - last.value >= LOG_EVERY
  }

  /** Every call of the history returned what the rules say. */
  ghost predicate Honest(h: Calls) {
    h == [] ||
    var c := Last(h);
    && Honest(Init(h))
    && c.logIt == (c.Failure() && LogsNow(Init(h), c.ip, c.at, c.always))
    && c.returned == (if c.logIt then FailuresSince(Init(h), c.ip, Logged) else 0)
  }

  // ----- the diagnosis

  datatype Diagnosis =
    | NoIP
    | NothingArrived
    | ConnectedAgain(ago: int)
    | Failing(fails: nat, ago: int, lastErr: string)

  /** What the record of an IP says about a client that is offline since lastSeen (unix seconds). */
  function Diagnosed(h: Calls, ip: string, lastSeen: int, now: int): Diagnosis {
    match Latest(h, ip, Any)
    case None => NothingArrived
    case Some(c) =>
      if lastSeen > 0 && c.at <= lastSeen * SECOND then NothingArrived
      else if FailuresSince(h, ip, Success) == 0 then ConnectedAgain(now - c.at)
      else Failing(FailuresSince(h, ip, Success), now - c.at, ErrorOf(h, ip))
  }

  /** What Record does to the record of the IP, and whether it logs. */
  method Note(before: IpStat, now: int, err: Option<string>, always: bool, trivial: bool)
    returns (s: IpStat, logIt: bool, suppressed: nat)
    ensures s == Noted(before, now, err, trivial, logIt)
    ensures logIt <==>
      err.Some? && !trivial && (always || before.lastLogged.None? || now - before.lastLogged.value >= LOG_EVERY)
    ensures suppressed == if logIt then before.suppressed else 0
  {
    s := before.(lastAt := Some(now));
    logIt, suppressed := false, 0;
    if err.None? {
      s := s.(lastOK := Some(now), lastErr := "", failsSince := 0);
      return;
    }
    if trivial {
      return;
    }
    s := s.(lastErr := err.value, failsSince := s.failsSince + 1);
    if always || s.lastLogged.None? || now - s.lastLogged.value >= LOG_EVERY {
      logIt, suppressed := true, s.suppressed;
      s := s.(suppressed := 0, lastLogged := Some(now));
    } else {
      s := s.(suppressed := s.suppressed + 1);
    }
  }

  class Attempts {
    var ips: map<string, IpStat>
    var ring: seq<Attempt>
    ghost var history: Calls

    /** The summaries and the ring are what the history makes them. */
    ghost predicate Valid()
      reads this
    {
      Summarises(ips, ring, history)
    }

    constructor ()
      ensures Valid() && history == []
    {
      ips, ring, history := map[], [], [];
    }

    method Record(ip: string, client: string, now: int, duration: int, err: Option<string>, always: bool, trivial: bool)
      returns (logIt: bool, suppressed: nat)
      requires Valid()
      modifies this
      ensures Valid()
      ensures history == old(history) + [Call(ip, client, now, duration, err, always, trivial, logIt, suppressed)]
    {
      var s := if ip in ips then ips[ip] else NO_STAT;
      CurrentStat(ips, ring, history, ip);
      s, logIt, suppressed := Note(s, now, err, always, trivial);
      if err.Some? && !trivial {
        Remember(Attempt(now / SECOND, ip, client, s.lastErr, duration / 1_000_000));
      }
      ips := ips[ip := s];
      ghost var c := Call(ip, client, now, duration, err, always, trivial, logIt, suppressed);
      SummaryStep(old(ips), old(ring), history, c);
      history := history + [c];
    }

    /** The ring keeps the last 50. */
    method Remember(a: Attempt)
      modifies this`ring
      ensures ring == LastN(old(ring) + [a], RING_LEN)
    {
      ring := ring + [a];
      if |ring| > RING_LEN {
        ring := ring[|ring| - RING_LEN..];
      }
    }

    /** The first min(n, length) of the kept failures, newest first. */
    method Recent(n: nat) returns (recent: seq<Attempt>)
      requires Valid()
      ensures NewestFirst(recent, LastN(Failures(history), RING_LEN), n)
      ensures NewestFirst(recent, Failures(history), if n < 50 then n else 50)
    {
      recent := FromRing(n);
      NewestOfTail(recent, Failures(history), n);
    }

    method FromRing(n: nat) returns (recent: seq<Attempt>)
      ensures NewestFirst(recent, ring, n)
    {
      recent := [];
      var i := |ring|;
      while i > 0 && |recent| < n
        invariant 0 <= i <= |ring| && |recent| == |ring| - i <= n
        invariant forall k :: 0 <= k < |recent| ==> recent[k] == ring[|ring| - 1 - k]
      {
        i := i - 1;
        recent := recent + [ring[i]];
      }
    }

    method Diagnose(ip: string, lastSeen: int, now: int) returns (d: Diagnosis)
      requires Valid()
      ensures d == if ip == "" then NoIP else Diagnosed(history, ip, lastSeen, now)
    {
      if ip == "" {
        return NoIP;
      }
      if ip !in ips || (lastSeen > 0 && ips[ip].lastAt.value <= lastSeen * SECOND) {
        return NothingArrived;
      }
      var ago := now - ips[ip].lastAt.value;
      if ips[ip].failsSince == 0 {
        return ConnectedAgain(ago);
      }
      d := Failing(ips[ip].failsSince, ago, ips[ip].lastErr);
    }
  }

  // ----- what the history says

  /** Every kept failure of an IP was logged, or is in a suppressed count that was returned, or is still
      suppressed. */
  lemma {:induction false} FailuresAreAccounted(h: Calls, ip: string)
    requires Honest(h)
    ensures Count(h, ip, Failure) == Count(h, ip, Logged) + Returned(h, ip) + FailuresSince(h, ip, Logged)
  {
    if h != [] {
      FailuresAreAccounted(Init(h), ip);
    }
  }

  lemma {:induction false} LatestIsIn(h: Calls, ip: string, kind: Kind)
    ensures match Latest(h, ip, kind)
      case Some(c) => c.ip == ip && Is(kind, c) && exists i :: 0 <= i < |h| && h[i] == c && NoneFrom(h, i + 1, ip, kind)
      case None => NoneFrom(h, 0, ip, kind)
  {
    if h != [] {
      LatestIsIn(Init(h), ip, kind);
      if !(Last(h).ip == ip && Is(kind, Last(h))) && Latest(h, ip, kind).Some? {
        var i :| 0 <= i < |Init(h)| && Init(h)[i] == Latest(h, ip, kind).value && NoneFrom(Init(h), i + 1, ip, kind);
        assert NoneFrom(h, i + 1, ip, kind);
      } else if Latest(h, ip, kind).Some? {
        assert NoneFrom(h, |h|, ip, kind);
      }
    }
  }

  ghost predicate NoneFrom(h: Calls, from: nat, ip: string, kind: Kind) {
    forall j :: from <= j < |h| && h[j].ip == ip ==> !Is(kind, h[j])
  }

  /** The clock of the calls does not go back. */
  ghost predicate Clocked(h: Calls) {
    forall i, j :: 0 <= i <= j < |h| ==> h[i].at <= h[j].at
  }

  /** A log that is not forced comes at least five minutes after every earlier log of that IP. */
  lemma {:induction false} LogsAreSpaced(h: Calls, i: nat, j: nat)
    requires Honest(h) && Clocked(h) && i < j < |h|
    requires h[i].ip == h[j].ip && h[i].logIt && h[j].logIt && !h[j].always
    ensures h[j].at - h[i].at >= LOG_EVERY
  {
    if j == |h| - 1 {
      HonestAt(Init(h), i);
      LatestIsIn(Init(h), h[j].ip, Logged);
      assert Init(h)[i] == h[i];
    } else {
      LogsAreSpaced(Init(h), i, j);
    }
  }

  lemma {:induction false} HonestAt(h: Calls, i: nat)
    requires Honest(h) && i < |h|
    ensures h[i].logIt ==> h[i].Failure()
  {
    if i < |h| - 1 {
      HonestAt(Init(h), i);
    }
  }

  /** "Connected again" is backed by a success after lastSeen exactly when the latest call from the IP
      that is not a trivial failure came after lastSeen. */
  lemma ConnectedAgainBacked(h: Calls, ip: string, lastSeen: int, now: int)
    requires Clocked(h) && Diagnosed(h, ip, lastSeen, now).ConnectedAgain?
    ensures (exists i :: 0 <= i < |h| && h[i].ip == ip && h[i].err.None? && h[i].at > lastSeen * SECOND) <==>
      (Latest(h, ip, Informative).Some? && Latest(h, ip, Informative).value.at > lastSeen * SECOND)
  {
    LatestIsIn(h, ip, Informative);
    NoFailureSince(h, ip);
  }

  /** Without failures since the latest success, the latest informative call is a success. */
  lemma {:induction false} NoFailureSince(h: Calls, ip: string)
    requires FailuresSince(h, ip, Success) == 0
    ensures Latest(h, ip, Informative).Some? ==> Latest(h, ip, Informative).value.err.None?
  {
    if h != [] {
      if !(Last(h).ip == ip && Is(Success, Last(h))) {
        NoFailureSince(Init(h), ip);
      }
    }
  }

  /** In particular, when the latest call is not a trivial failure and lastSeen is known. */
  lemma ConnectedAgainHolds(h: Calls, ip: string, lastSeen: int, now: int)
    requires Clocked(h) && Diagnosed(h, ip, lastSeen, now).ConnectedAgain? && lastSeen > 0
    requires Is(Informative, Latest(h, ip, Any).value)
    ensures exists i :: 0 <= i < |h| && h[i].ip == ip && h[i].err.None? && h[i].at > lastSeen * SECOND
  {
    LatestOfAll(h, ip);
    ConnectedAgainBacked(h, ip, lastSeen, now);
  }

  lemma {:induction false} LatestOfAll(h: Calls, ip: string)
    requires Latest(h, ip, Any).Some? && Is(Informative, Latest(h, ip, Any).value)
    ensures Latest(h, ip, Informative) == Latest(h, ip, Any)
  {
    if Last(h).ip != ip {
      LatestOfAll(Init(h), ip);
    }
  }

  /** The condition is needed: after a single port check, Diagnose says that the client connected. */
  lemma PortCheckLooksConnected(ip: string, at: int, lastSeen: int)
    requires 0 < lastSeen && lastSeen * SECOND < at
    ensures var h := [Call(ip, "", at, 0, Some("EOF"), false, true, false, 0)];
      && Honest(h) && Clocked(h)
      && Diagnosed(h, ip, lastSeen, at) == ConnectedAgain(0)
      && (forall i :: 0 <= i < |h| ==> h[i].err.Some?)
  {
    var c := Call(ip, "", at, 0, Some("EOF"), false, true, false, 0);
    var h := [c];
    assert Init(h) == [] && Last(h) == c && Honest(Init(h));
    assert Latest(h, ip, Any) == Some(c);
    assert FailuresSince(h, ip, Success) == 0;
  }

  // ----- the same, by position in the history

  /** A failure that carries information, at position i. */
  predicate KeptAt(h: Calls, i: int) {
    0 <= i < |h| && h[i].err.Some? && !h[i].trivial
  }

  /** The kept failures from ip that no call of a kind has followed. */
  ghost function OpenSince(h: Calls, ip: string, kind: Kind): set<int> {
    set i | 0 <= i < |h| && KeptAt(h, i) && h[i].ip == ip && StaysOpen(h, ip, kind, i)
  }

  ghost predicate StaysOpen(h: Calls, ip: string, kind: Kind, i: nat) {
    NoneFrom(h, i, ip, kind)
  }

  lemma {:induction false} OpenAreCounted(h: Calls, ip: string, kind: Kind)
    ensures FailuresSince(h, ip, kind) == |OpenSince(h, ip, kind)|
  {
    if h != [] {
      var n := |h| - 1;
      OpenAreCounted(Init(h), ip, kind);
      if Last(h).ip == ip && Is(kind, Last(h)) {
        assert OpenSince(h, ip, kind) == {};
      } else {
        OpenStep(h, ip, kind);
      }
    } else {
      assert OpenSince(h, ip, kind) == {};
    }
  }

  lemma OpenStep(h: Calls, ip: string, kind: Kind)
    requires h != [] && !(Last(h).ip == ip && Is(kind, Last(h)))
    ensures OpenSince(h, ip, kind) ==
      OpenSince(Init(h), ip, kind) + if KeptAt(h, |h| - 1) && Last(h).ip == ip then {|h| - 1} else {}
  {
    forall i: nat | i < |h| - 1 ensures i in OpenSince(h, ip, kind) <==> i in OpenSince(Init(h), ip, kind) {
      assert Init(h)[i] == h[i];
      if NoneFrom(Init(h), i, ip, kind) {
        assert NoneFrom(h, i, ip, kind);
      }
      if NoneFrom(h, i, ip, kind) {
        assert NoneFrom(Init(h), i, ip, kind);
      }
    }
  }

  /** The latest of the failures since the last success is the one whose error is remembered. */
  lemma {:induction false} ErrorIsLatest(h: Calls, ip: string) returns (i: nat)
    requires OpenSince(h, ip, Success) != {}
    ensures i in OpenSince(h, ip, Success) && (forall j :: j in OpenSince(h, ip, Success) ==> j <= i)
    ensures ErrorOf(h, ip) == h[i].err.value
  {
    OpenAreCounted(h, ip, Success);
    OpenStep(h, ip, Success);
    if KeptAt(h, |h| - 1) && Last(h).ip == ip {
      i := |h| - 1;
    } else {
      i := ErrorIsLatest(Init(h), ip);
    }
  }

  ghost predicate IsLatestCall(h: Calls, ip: string, i: int) {
    0 <= i < |h| && h[i].ip == ip && forall j :: i < j < |h| ==> h[j].ip != ip
  }

  /** What each answer of Diagnose means, in terms of the calls: "nothing arrived" that every call from the IP
      is at or before a known lastSeen; otherwise failing or connected again, as some failure came after the
      last success or none did, with their number, the latest of their errors, and the time since the latest
      call. */
  lemma DiagnosisMeans(h: Calls, ip: string, lastSeen: int, now: int)
    requires Clocked(h)
    ensures var d, open := Diagnosed(h, ip, lastSeen, now), OpenSince(h, ip, Success);
      && (d.NothingArrived? <==>
            forall i :: 0 <= i < |h| && h[i].ip == ip ==> lastSeen > 0 && h[i].at <= lastSeen * 1_000_000_000)
      && (!d.NothingArrived? ==> (d.Failing? <==> open != {}) && (d.ConnectedAgain? <==> open == {}))
      && (!d.NothingArrived? ==> exists i :: IsLatestCall(h, ip, i) && d.ago == now - h[i].at)
      && (d.Failing? ==>
            && d.fails == |open|
            && exists i :: i in open && (forall j :: j in open ==> j <= i) && d.lastErr == h[i].err.value)
  {
    LatestIsIn(h, ip, Any);
    OpenAreCounted(h, ip, Success);
    if Latest(h, ip, Any).Some? {
      var i :| 0 <= i < |h| && h[i] == Latest(h, ip, Any).value && NoneFrom(h, i + 1, ip, Any);
      assert IsLatestCall(h, ip, i);
      if OpenSince(h, ip, Success) != {} {
        var j := ErrorIsLatest(h, ip);
      }
    }
  }

  /** How many kept failures, over all IPs, come before position i. */
  ghost function KeptBefore(h: Calls, i: nat): set<int> {
    set j | 0 <= j < i && KeptAt(h, j)
  }

  /** The entry of the call at position i, in seconds and milliseconds. */
  ghost predicate ListedAt(h: Calls, i: nat, all: seq<Attempt>)
    requires KeptAt(h, i)
  {
    var r := |KeptBefore(h, i)|;
    r < |all| && all[r] ==
      Attempt(h[i].at / 1_000_000_000, h[i].ip, h[i].client, h[i].err.value, h[i].duration / 1_000_000)
  }

  lemma {:induction false} FailuresAreCounted(h: Calls)
    ensures |Failures(h)| == |KeptBefore(h, |h|)|
  {
    if h == [] {
      assert KeptBefore(h, 0) == {};
    } else {
      var n := |h| - 1;
      FailuresAreCounted(Init(h));
      KeptBeforeInit(h, n);
      assert KeptBefore(h, |h|) == KeptBefore(h, n) + if KeptAt(h, n) then {n} else {};
    }
  }

  /** The kept failures are listed in order, each with its time in seconds, IP, client, error and duration
      in milliseconds. */
  lemma {:induction false} ListsFailure(h: Calls, i: nat)
    requires KeptAt(h, i)
    ensures ListedAt(h, i, Failures(h))
  {
    KeptBeforeInit(h, i);
    FailuresAreCounted(Init(h));
    if i < |h| - 1 {
      ListsFailure(Init(h), i);
    }
    StillListed(h, i);
  }

  lemma StillListed(h: Calls, i: nat)
    requires h != [] && KeptAt(h, i) && |Failures(Init(h))| == |KeptBefore(Init(h), |h| - 1)|
    requires i < |h| - 1 ==> KeptAt(Init(h), i) && ListedAt(Init(h), i, Failures(Init(h)))
    ensures ListedAt(h, i, Failures(h))
  {
    KeptBeforeInit(h, i);
  }

  lemma KeptBeforeInit(h: Calls, i: nat)
    requires i < |h|
    ensures KeptBefore(h, i) == KeptBefore(Init(h), i)
    ensures i < |h| - 1 ==> (KeptAt(h, i) <==> KeptAt(Init(h), i))
  {
  }

  /** A call is logged exactly when it is a kept failure that is forced or at least five minutes after every
      earlier log of its IP; it then returns the number of kept failures of its IP since the latest of those,
      and otherwise 0. */
  lemma LogsExactly(h: Calls, i: nat)
    requires Honest(h) && Clocked(h) && i < |h|
    ensures h[i].logIt <==>
      KeptAt(h, i) &&
      (h[i].always ||
       forall j :: 0 <= j < i && h[j].ip == h[i].ip && h[j].logIt ==> h[i].at - h[j].at >= 300_000_000_000)
    ensures h[i].returned == if h[i].logIt then |OpenSince(h[..i], h[i].ip, Logged)| else 0
  {
    HonestPrefix(h, i + 1);
    var before, c := h[..i], h[i];
    assert Init(h[..i + 1]) == before && Last(h[..i + 1]) == c;
    SpacedFromAll(before, c.ip, c.at);
    OpenAreCounted(before, c.ip, Logged);
    assert forall j :: 0 <= j < i ==> before[j] == h[j];
    assert LogsNow(before, c.ip, c.at, c.always) <==> c.always || SpacedFrom(before, c.ip, c.at);
  }

  /** Every log of the IP is at least five minutes before. */
  ghost predicate SpacedFrom(h: Calls, ip: string, at: int) {
    forall j :: 0 <= j < |h| && h[j].ip == ip && h[j].logIt ==> at - h[j].at >= 300_000_000_000
  }

  lemma SpacedFromAll(h: Calls, ip: string, at: int)
    requires Honest(h) && Clocked(h)
    ensures LogsNow(h, ip, at, false) <==> SpacedFrom(h, ip, at)
  {
    LatestIsIn(h, ip, Logged);
    forall j: nat | j < |h| && h[j].logIt ensures h[j].Failure() {
      HonestAt(h, j);
    }
    if Latest(h, ip, Logged).Some? {
      var k :| 0 <= k < |h| && h[k] == Latest(h, ip, Logged).value && NoneFrom(h, k + 1, ip, Logged);
      assert Is(Logged, h[k]);
    }
  }

  lemma {:induction false} HonestPrefix(h: Calls, n: nat)
    requires Honest(h) && n <= |h|
    ensures Honest(h[..n])
  {
    if n < |h| {
      assert Init(h)[..n] == h[..n];
      HonestPrefix(Init(h), n);
    } else {
      assert h[..n] == h;
    }
  }
}
