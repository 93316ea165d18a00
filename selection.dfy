/** Random index selection: `perm` turns a random permutation of at most 200
    positions and a random offset into distinct indices of an array of
    length `n`, and `choice` picks the array elements at those indices.
    The random draws are parameters, constrained to what `rand.Perm` and
    `rand.Intn` return. */
module Selection {
  import opened Wrappers
  import opened Numbers

  /** `perm` permutes at most this many positions. */
  const PermLimit: nat := 200

  /** What `rand.Perm(k)` returns: the numbers 0 .. k-1, each once. */
  ghost predicate IsPermutationOf(list: seq<int>, k: nat)
  {
    && |list| == k
    && (forall i :: 0 <= i < k ==> 0 <= list[i] < k)
    && (forall i, j :: 0 <= i < j < k ==> list[i] != list[j])
  }

  /** How many positions `perm` permutes for an array of length `n`. */
  function Span(n: nat): (k: nat)
    ensures k <= n && k <= PermLimit
    ensures k == n || k == PermLimit
  {
    Min(n, PermLimit)
  }

  /** The offset `perm` adds: the draw `rand.Intn(n - 200)` for long
      arrays, otherwise 0 (the draw is not taken). */
  function Offset(n: nat, indexDraw: int): int
  {
    if n > PermLimit then indexDraw else 0
  }

  /** What the caller of `perm(n, count)` must supply as draws. */
  ghost predicate PermDraws(n: nat, list: seq<int>, indexDraw: int)
  {
    && IsPermutationOf(list, Span(n))
    && (n > PermLimit ==> 0 <= indexDraw < n - PermLimit)
  }

  /** How many indices `perm(n, count)` returns. */
  function PermLength(n: nat, count: int): (k: nat)
    ensures k <= Span(n)
    ensures count > 0 ==> k == Min(count, Span(n))
    ensures count <= 0 ==> k == 0
  {
    if count <= 0 then 0 else Min(count, Span(n))
  }

  /** `perm(n, count)` with `list` the value of `rand.Perm` and `indexDraw`
      the value of `rand.Intn(n - 200)`. The first `min(count, min(n, 200))`
      entries of the permutation, shifted by the offset: pairwise distinct
      indices of an array of length `n`. For `n > 200` the largest index is
      at most 199 + (n - 201), so the last position is never chosen. */
  method Perm(n: nat, count: int, list: seq<int>, indexDraw: int) returns (r: seq<int>)
    requires PermDraws(n, list, indexDraw)
    ensures |r| == PermLength(n, count)
    ensures forall i :: 0 <= i < |r| ==> r[i] == list[i] + Offset(n, indexDraw)
    ensures forall i :: 0 <= i < |r| ==> 0 <= r[i] < n
    ensures n > PermLimit ==> forall i :: 0 <= i < |r| ==> r[i] < n - 1
    ensures forall i, j :: 0 <= i < j < |r| ==> r[i] != r[j]
  {
    var index := 0;
    if n > PermLimit {
      index := indexDraw;
    }
    r := [];
    var i := 0;
    while i < |list|
      invariant 0 <= i <= |list|
      invariant i == 0 || i <= count
      invariant |r| == i
      invariant forall k :: 0 <= k < i ==> r[k] == list[k] + index
    {
      if i >= count {
        break;
      }
      r := r + [list[i] + index];
      i := i + 1;
    }
  }

  /** `choice(array, count)`, with `arr` the array, with the draws `perm` takes. A nil array or a
      count of at most zero gives an empty (non-nil) slice; otherwise the
      array's elements at the indices `perm` chose, in the permutation's
      order. */
  method Choice<T>(arr: Option<seq<T>>, count: int, list: seq<int>, indexDraw: int) returns (r: seq<T>)
    requires arr.Some? && count > 0 ==> PermDraws(|arr.value|, list, indexDraw)
    ensures count <= 0 || arr.None? ==> r == []
    ensures arr.Some? ==> |r| == PermLength(|arr.value|, count)
    ensures arr.Some? && count > 0 ==>
      forall i :: 0 <= i < |r| ==> r[i] == arr.value[list[i] + Offset(|arr.value|, indexDraw)]
    ensures arr.Some? ==> multiset(r) <= multiset(arr.value)
  {
    r := [];
    if count <= 0 || arr.None? {
      return;
    }
    var a := arr.value;
    var indices := Perm(|a|, count, list, indexDraw);
    var i := 0;
    while i < |indices|
      invariant 0 <= i <= |indices|
      invariant |r| == i
      invariant forall k :: 0 <= k < i ==> r[k] == a[indices[k]]
    {
      r := r + [a[indices[i]]];
      i := i + 1;
    }
    DistinctPicksAreSubMultiset(a, indices, r);
  }

  /** Picking at pairwise distinct indices never takes one slot twice: the
      multiset of the picks is contained in that of the array. */
  lemma {:induction false} DistinctPicksAreSubMultiset<T>(a: seq<T>, idx: seq<int>, r: seq<T>)
    requires forall i :: 0 <= i < |idx| ==> 0 <= idx[i] < |a|
    requires forall i, j :: 0 <= i < j < |idx| ==> idx[i] != idx[j]
    requires |r| == |idx| && forall i :: 0 <= i < |r| ==> r[i] == a[idx[i]]
    ensures multiset(r) <= multiset(a)
    decreases |idx|
  {
    if idx != [] {
      var last := |idx| - 1;
      var k := idx[last];
      var a' := a[..k] + a[k + 1..];
      var idx' := seq(last, i requires 0 <= i < last => if idx[i] < k then idx[i] else idx[i] - 1);
      assert a == a[..k] + [a[k]] + a[k + 1..];
      forall i | 0 <= i < last
        ensures r[i] == a'[idx'[i]]
      {
        assert idx[i] != k;
      }
      forall i, j | 0 <= i < j < last
        ensures idx'[i] != idx'[j]
      {
        assert idx[i] != k && idx[j] != k;
      }
      DistinctPicksAreSubMultiset(a', idx', r[..last]);
      assert r == r[..last] + [a[k]];
      assert multiset(a) == multiset(a') + multiset{a[k]};
    }
  }
}
