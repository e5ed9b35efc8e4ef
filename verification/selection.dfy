/** Keeping the trials a test accepts and taking Python's `max(pool, key=...)`
    over them: the first element with the greatest key wins. */
module Selection {
  import opened Wrappers

  /** The increasing positions of the elements of `xs` that `keep` accepts. */
  function KeptIndices<T>(xs: seq<T>, keep: T -> bool): (ks: seq<nat>)
    ensures |ks| <= |xs|
    ensures forall k :: 0 <= k < |ks| ==> ks[k] < |xs| && keep(xs[ks[k]])
    ensures forall k, l :: 0 <= k < l < |ks| ==> ks[k] < ks[l]
    ensures forall i :: 0 <= i < |xs| && keep(xs[i]) ==> i in ks
  {
    if |xs| == 0 then []
    else
      var n := |xs| - 1;
      var front := KeptIndices(xs[..n], keep);
      assert forall i :: 0 <= i < n ==> xs[..n][i] == xs[i];
      if keep(xs[n]) then front + [n] else front
  }

  /** The pool a search appends to: the accepted elements in enumeration order. */
  function Pool<T>(xs: seq<T>, keep: T -> bool): (pool: seq<T>)
    ensures |pool| == |KeptIndices(xs, keep)|
    ensures forall k :: 0 <= k < |pool| ==> pool[k] == xs[KeptIndices(xs, keep)[k]]
  {
    var ks := KeptIndices(xs, keep);
    seq(|ks|, k requires 0 <= k < |ks| => xs[ks[k]])
  }

  /** `max(pool, key=score)` as a position: the first greatest element. */
  function FirstMax<T>(xs: seq<T>, score: T -> int): (m: nat)
    requires |xs| > 0
    ensures m < |xs|
    ensures forall j :: 0 <= j < |xs| ==> score(xs[j]) <= score(xs[m])
    ensures forall j :: 0 <= j < m ==> score(xs[j]) < score(xs[m])
  {
    if |xs| == 1 then 0
    else
      var n := |xs| - 1;
      var m := FirstMax(xs[..n], score);
      assert forall j :: 0 <= j < n ==> xs[..n][j] == xs[j];
      if score(xs[n]) > score(xs[m]) then n else m
  }

  /** Position `i` holds the first accepted element whose key no accepted element beats. */
  predicate IsFirstBest<T>(xs: seq<T>, keep: T -> bool, score: T -> int, i: int) {
    && 0 <= i < |xs| && keep(xs[i])
    && (forall j :: 0 <= j < |xs| && keep(xs[j]) ==> score(xs[j]) <= score(xs[i]))
    && (forall j :: 0 <= j < i && keep(xs[j]) ==> score(xs[j]) < score(xs[i]))
  }

  /** Appending the accepted elements to a pool and taking its maximum, with
      None for an empty pool: the position in `xs` of the element chosen. */
  function Best<T>(xs: seq<T>, keep: T -> bool, score: T -> int): (r: Option<nat>)
    ensures r.None? <==> forall i :: 0 <= i < |xs| ==> !keep(xs[i])
    ensures r.Some? ==> IsFirstBest(xs, keep, score, r.value)
  {
    var ks := KeptIndices(xs, keep);
    var pool := Pool(xs, keep);
    if |pool| == 0 then
      assert forall i :: 0 <= i < |xs| ==> !keep(xs[i]);
      None
    else
      var m := FirstMax(pool, score);
      PoolMaxIsFirstBest(xs, keep, score, ks, pool, m);
      Some(ks[m])
  }

  /** The greatest element of the pool sits at the first best position of `xs`. */
  lemma PoolMaxIsFirstBest<T>(xs: seq<T>, keep: T -> bool, score: T -> int, ks: seq<nat>, pool: seq<T>, m: nat)
    requires ks == KeptIndices(xs, keep) && pool == Pool(xs, keep)
    requires m < |pool|
    requires forall j :: 0 <= j < |pool| ==> score(pool[j]) <= score(pool[m])
    requires forall j :: 0 <= j < m ==> score(pool[j]) < score(pool[m])
    ensures m < |ks| && IsFirstBest(xs, keep, score, ks[m])
  {
    var i := ks[m];
    assert forall j :: 0 <= j < |xs| && keep(xs[j]) ==> score(xs[j]) <= score(xs[i]) by {
      forall j | 0 <= j < |xs| && keep(xs[j]) ensures score(xs[j]) <= score(xs[i]) {
        var k :| 0 <= k < |ks| && ks[k] == j;
        assert pool[k] == xs[j];
      }
    }
    assert forall j :: 0 <= j < i && keep(xs[j]) ==> score(xs[j]) < score(xs[i]) by {
      forall j | 0 <= j < i && keep(xs[j]) ensures score(xs[j]) < score(xs[i]) {
        var k :| 0 <= k < |ks| && ks[k] == j;
        assert k < m;
        assert pool[k] == xs[j];
      }
    }
  }

  /** The first best element is unique: the selection is fully determined. */
  lemma FirstBestUnique<T>(xs: seq<T>, keep: T -> bool, score: T -> int, i: int, j: int)
    requires IsFirstBest(xs, keep, score, i) && IsFirstBest(xs, keep, score, j)
    ensures i == j
  {
  }
}
