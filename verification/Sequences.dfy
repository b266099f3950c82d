/** The bounded tail that the records of the heartbeat client and of failed attempts keep. */
module Sequences {
  function LastN<T>(s: seq<T>, n: nat): seq<T> {
    if |s| > n then s[|s| - n..] else s
  }

  /** The last n elements, or all of them when there are fewer. */
  lemma LastNIs<T>(s: seq<T>, n: nat)
    ensures var tail := LastN(s, n);
      |tail| == (if |s| < n then |s| else n) && forall k :: 0 <= k < |tail| ==> tail[k] == s[|s| - |tail| + k]
  {
  }

  /** Bounding at every append keeps the tail of the whole history. */
  lemma PushLast<T>(s: seq<T>, x: T, n: nat)
    ensures LastN(LastN(s, n) + [x], n) == LastN(s + [x], n)
  {
  }
}
