/** probeGate (core/internal/monitor/probe.go:139-168): a rate limiter per key that forgets old entries,
    against one that never forgets. */
module ProbeGate {

  const MINUTE := 60_000_000_000   // nanoseconds
  const MAX_ENTRIES := 1024

  datatype Probe = Probe(key: string, at: int)

  type Entries = map<string, int>

  predicate Allows(last: Entries, min: int, p: Probe) {
    p.key !in last || p.at - last[p.key] >= min
  }

  function Pruned(last: Entries, now: int): Entries {
    map k | k in last && now - last[k] <= MINUTE :: last[k]
  }

  /** The gate's entries after a probe. */
  function Bounded(last: Entries, min: int, p: Probe): Entries {
    if !Allows(last, min, p) then last
    else
      var l := last[p.key := p.at];
      if |l| > MAX_ENTRIES then Pruned(l, p.at) else l
  }

  class Gate {
    var last: Entries
    const min: int

    constructor (min: int)
      ensures this.min == min && last == map[]
    {
      this.min := min;
      last := map[];
    }

    method Allow(key: string, now: int) returns (ok: bool)
      modifies this
      ensures ok == Allows(old(last), min, Probe(key, now))
      ensures last == Bounded(old(last), min, Probe(key, now))
      ensures ok <==> key !in old(last) || now - old(last)[key] >= min
      ensures ok ==> key in last && last[key] == now
      ensures !ok ==> last == old(last)
      ensures ok ==> |last| <= 1024 || forall k :: k in last ==> now - last[k] <= 60_000_000_000
      ensures ok ==> forall k :: k in old(last) && k != key ==>
        if k in last then last[k] == old(last)[k] else now - old(last)[k] > 60_000_000_000
    {
      if key in last && now - last[key] < min {
        return false;
      }
      last := last[key := now];
      if |last| > MAX_ENTRIES {
        ghost var full := last;
        var todo := last.Keys;
        while todo != {}
          invariant todo <= full.Keys
          invariant last == map k | k in full && (k in todo || now - full[k] <= MINUTE) :: full[k]
        {
          var k :| k in todo;
          todo := todo - {k};
          if now - last[k] > MINUTE {
            last := last - {k};
          }
        }
      }
      ok := true;
    }
  }

  // ----- the gate that never forgets

  function Unbounded(last: Entries, min: int, p: Probe): Entries {
    if Allows(last, min, p) then last[p.key := p.at] else last
  }

  function AllEntries(min: int, ps: seq<Probe>): Entries {
    if ps == [] then map[] else Unbounded(AllEntries(min, ps[..|ps| - 1]), min, ps[|ps| - 1])
  }

  function KeptEntries(min: int, ps: seq<Probe>): Entries {
    if ps == [] then map[] else Bounded(KeptEntries(min, ps[..|ps| - 1]), min, ps[|ps| - 1])
  }

  /** The answer that a gate gives to a probe p that comes after the probes ps. */
  predicate AnswerUnbounded(min: int, ps: seq<Probe>, p: Probe) {
    Allows(AllEntries(min, ps), min, p)
  }

  predicate AnswerBounded(min: int, ps: seq<Probe>, p: Probe) {
    Allows(KeptEntries(min, ps), min, p)
  }

  ghost predicate Clocked(ps: seq<Probe>, now: int) {
    && (forall i, j :: 0 <= i <= j < |ps| ==> ps[i].at <= ps[j].at)
    && (forall i :: 0 <= i < |ps| ==> ps[i].at <= now)
  }

  /** A forgotten entry is more than a minute old. */
  ghost predicate Forgets(all: Entries, kept: Entries, now: int) {
    && kept.Keys <= all.Keys
    && (forall k :: k in kept ==> kept[k] == all[k])
    && (forall k :: k in all && k !in kept ==> now - all[k] > MINUTE)
  }

  lemma {:induction false} KeptIsEnough(min: int, ps: seq<Probe>, now: int)
    requires min <= MINUTE + 1 && Clocked(ps, now)
    ensures Forgets(AllEntries(min, ps), KeptEntries(min, ps), now)
  {
    if ps != [] {
      var before, p := ps[..|ps| - 1], ps[|ps| - 1];
      KeptIsEnough(min, before, p.at);
    }
  }

  ghost predicate Refines(min: int) {
    forall ps: seq<Probe>, p: Probe :: Clocked(ps, p.at) ==> (AnswerBounded(min, ps, p) <==> AnswerUnbounded(min, ps, p))
  }

  /** Forgetting never changes an answer, for any keys and times, exactly when the minimum distance is at
      most one nanosecond over a minute. */
  lemma RefinesExactly(min: int)
    ensures Refines(min) <==> min <= MINUTE + 1
  {
    if min <= MINUTE + 1 {
      forall ps: seq<Probe>, p: Probe | Clocked(ps, p.at)
        ensures AnswerBounded(min, ps, p) <==> AnswerUnbounded(min, ps, p)
      {
        KeptIsEnough(min, ps, p.at);
      }
    } else {
      var ps, p := Overflow(min);
      assert Clocked(ps, p.at) && AnswerBounded(min, ps, p) && !AnswerUnbounded(min, ps, p);
    }
  }

  // ----- a run that forgets too much when the minimum distance is larger

  function Key(i: nat): string { seq(i, j => 'k') }

  function Distinct(n: nat): seq<Probe> {
    seq(n, i requires 0 <= i < n => Probe(Key(i), 0))
  }

  lemma KeysDiffer(i: nat, j: nat)
    requires i != j
    ensures Key(i) != Key(j)
  {
    assert |Key(i)| == i && |Key(j)| == j;
  }

  /** After n probes of different keys at time 0, both gates hold all n keys. */
  lemma {:induction false} Filled(min: int, n: nat)
    ensures AllEntries(min, Distinct(n)) == KeptEntries(min, Distinct(n))
    ensures |AllEntries(min, Distinct(n))| == n
    ensures forall k :: k in AllEntries(min, Distinct(n)) ==> AllEntries(min, Distinct(n))[k] == 0
    ensures forall i: nat :: i < n ==> Key(i) in AllEntries(min, Distinct(n))
    ensures forall k :: k in AllEntries(min, Distinct(n)) ==> |k| < n
  {
    if n > 0 {
      Filled(min, n - 1);
      var ps := Distinct(n);
      assert ps[..n - 1] == Distinct(n - 1) && ps[n - 1] == Probe(Key(n - 1), 0);
      var before := AllEntries(min, Distinct(n - 1));
      assert |Key(n - 1)| == n - 1 && Key(n - 1) !in before;
      var after := before[Key(n - 1) := 0];
      assert AllEntries(min, ps) == after;
      assert Pruned(after, 0) == after;
      assert KeptEntries(min, ps) == after;
    }
  }

  lemma Overflow(min: int) returns (ps: seq<Probe>, p: Probe)
    requires min > MINUTE + 1
    ensures Clocked(ps, p.at) && AnswerBounded(min, ps, p) && !AnswerUnbounded(min, ps, p)
    ensures ps != [] && ps[0] == Probe(p.key, 0) && p.at == MINUTE + 1
  {
    var n := MAX_ENTRIES;
    Filled(min, n);
    var last := Probe(Key(n), MINUTE + 1);
    ps, p := Distinct(n) + [last], Probe(Key(0), MINUTE + 1);
    assert ps[..|ps| - 1] == Distinct(n);
    var before := AllEntries(min, Distinct(n));
    assert |Key(n)| == n && Key(n) !in before;
    KeysDiffer(0, n);
    assert KeptEntries(min, ps) == Pruned(before[Key(n) := MINUTE + 1], MINUTE + 1);
  }

  // ----- spacing

  /** An accepted probe is the key's entry until another one is accepted. */
  lemma {:induction false} EntryIsLatest(min: int, ps: seq<Probe>, i: nat)
    requires Clocked(ps, if ps == [] then 0 else ps[|ps| - 1].at) && i < |ps|
    requires AnswerUnbounded(min, ps[..i], ps[i])
    ensures ps[i].key in AllEntries(min, ps) && AllEntries(min, ps)[ps[i].key] >= ps[i].at
  {
    var n := |ps| - 1;
    if i < n {
      assert ps[..n][..i] == ps[..i];
      EntryIsLatest(min, ps[..n], i);
    }
  }

  /** A probe is accepted exactly when every earlier accepted probe of its key is at least the minimum
      distance earlier. */
  lemma AcceptsExactly(min: int, ps: seq<Probe>, p: Probe)
    requires min <= MINUTE + 1 && Clocked(ps, p.at)
    ensures AnswerBounded(min, ps, p) <==>
      forall i :: 0 <= i < |ps| && ps[i].key == p.key && AnswerBounded(min, ps[..i], ps[i]) ==>
        p.at - ps[i].at >= min
  {
    KeptIsEnough(min, ps, p.at);
    forall i: nat | i < |ps| && ps[i].key == p.key && AnswerBounded(min, ps[..i], ps[i])
      ensures p.key in AllEntries(min, ps) && AllEntries(min, ps)[p.key] >= ps[i].at
    {
      KeptIsEnough(min, ps[..i], ps[i].at);
      EntryIsLatest(min, ps, i);
    }
    if p.key in AllEntries(min, ps) {
      var i := EntryIsAccepted(min, ps, p.key);
      KeptIsEnough(min, ps[..i], ps[i].at);
    }
  }

  lemma {:induction false} EntryIsAccepted(min: int, ps: seq<Probe>, key: string) returns (i: nat)
    requires key in AllEntries(min, ps)
    ensures i < |ps| && ps[i] == Probe(key, AllEntries(min, ps)[key]) && AnswerUnbounded(min, ps[..i], ps[i])
  {
    var n := |ps| - 1;
    if ps[n].key == key && AnswerUnbounded(min, ps[..n], ps[n]) {
      i := n;
    } else {
      i := EntryIsAccepted(min, ps[..n], key);
      assert ps[..n][..i] == ps[..i];
    }
  }

  /** Any two accepted probes of one key are at least the minimum distance apart. */
  lemma AcceptedAreSpaced(min: int, ps: seq<Probe>, i: nat, j: nat)
    requires min <= MINUTE + 1 && i < j < |ps| && Clocked(ps, ps[|ps| - 1].at) && ps[i].key == ps[j].key
    requires AnswerBounded(min, ps[..i], ps[i]) && AnswerBounded(min, ps[..j], ps[j])
    ensures ps[j].at - ps[i].at >= min
  {
    KeptIsEnough(min, ps[..i], ps[i].at);
    KeptIsEnough(min, ps[..j], ps[j].at);
    assert ps[..j][..i] == ps[..i];
    EntryIsLatest(min, ps[..j], i);
  }

  /** In these probes, the i-th and the j-th are accepted for one key. */
  ghost predicate BothAccepted(min: int, ps: seq<Probe>, i: nat, j: nat) {
    && i < j < |ps| && Clocked(ps, ps[|ps| - 1].at) && ps[i].key == ps[j].key
    && AnswerBounded(min, ps[..i], ps[i]) && AnswerBounded(min, ps[..j], ps[j])
  }

  ghost predicate Spaces(min: int) {
    forall ps: seq<Probe>, i: nat, j: nat :: BothAccepted(min, ps, i, j) ==> ps[j].at - ps[i].at >= min
  }

  /** The gate keeps all accepted probes of a key the minimum distance apart exactly when that distance is
      at most one nanosecond over a minute. */
  lemma SpacesExactly(min: int)
    ensures Spaces(min) <==> min <= MINUTE + 1
  {
    if min <= MINUTE + 1 {
      forall ps: seq<Probe>, i: nat, j: nat | BothAccepted(min, ps, i, j) ensures ps[j].at - ps[i].at >= min {
        AcceptedAreSpaced(min, ps, i, j);
      }
    } else {
      var ps, p := Overflow(min);
      var all := ps + [p];
      assert all[..0] == [] && all[..|ps|] == ps;
      assert BothAccepted(min, all, 0, |ps|);
    }
  }
}
