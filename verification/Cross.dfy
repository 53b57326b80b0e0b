/** Nested loops over two lists: the pairs they visit, and the position of each. */
module Cross {
  // (x, b[0]), (x, b[1]), ...
  function PairWith<A, B>(x: A, b: seq<B>): (pairs: seq<(A, B)>)
    ensures |pairs| == |b|
  {
    seq(|b|, j requires 0 <= j < |b| => (x, b[j]))
  }

  // The pairs in the order of `for x in a: for y in b`.
  function Pairs<A, B>(a: seq<A>, b: seq<B>): seq<(A, B)> {
    if a == [] then [] else Pairs(a[..|a| - 1], b) + PairWith(a[|a| - 1], b)
  }

  // One more turn of the outer loop.
  lemma PairsStep<A, B>(a: seq<A>, b: seq<B>, i: nat)
    requires i < |a|
    ensures Pairs(a[..i + 1], b) == Pairs(a[..i], b) + PairWith(a[i], b)
  {
    assert a[..i + 1][..i] == a[..i];
  }

  // One more turn of the inner loop.
  lemma PairWithStep<A, B>(x: A, b: seq<B>, j: nat)
    requires j < |b|
    ensures PairWith(x, b[..j + 1]) == PairWith(x, b[..j]) + [(x, b[j])]
  {
  }

  lemma {:induction false} PairsSize<A, B>(a: seq<A>, b: seq<B>)
    ensures |Pairs(a, b)| == |a| * |b|
  {
    if a != [] {
      var n := |a| - 1;
      PairsSize(a[..n], b);
      assert n * |b| + |b| == |a| * |b|;
    }
  }

  lemma TimesMono(a: nat, b: nat, m: nat)
    requires a < b
    ensures a * m + m <= b * m
  {
    assert (a + 1) * m <= b * m;
  }

  lemma Split(k: nat, n: nat, m: nat)
    requires k < n * m
    ensures m > 0 && 0 <= k / m < n && 0 <= k % m < m && k == (k / m) * m + k % m
  {
    if k / m > n {
      TimesMono(n, k / m, m);
    }
  }

  lemma SameDigits(k: nat, k': nat, m: nat)
    requires m > 0 && k / m == k' / m && k % m == k' % m
    ensures k == k'
  {
    assert k == (k / m) * m + k % m && k' == (k' / m) * m + k' % m;
  }

  lemma Join(a: nat, b: nat, n: nat, m: nat)
    requires a < n && b < m
    ensures a * m + b < n * m && (a * m + b) / m == a && (a * m + b) % m == b
  {
    TimesMono(a, n, m);
    var x := a * m + b;
    var d := x / m;
    assert x == d * m + x % m;
    if d > a {
      TimesMono(a, d, m);
    } else if d < a {
      TimesMono(d, a, m);
    }
  }

  // k is the position i * |b| + j.
  lemma {:induction false} PairsAt<A, B>(a: seq<A>, b: seq<B>, i: nat, j: nat, k: nat)
    requires i < |a| && j < |b| && k == i * |b| + j
    ensures k < |Pairs(a, b)| && Pairs(a, b)[k] == (a[i], b[j])
    decreases |a|
  {
    var n := |a| - 1;
    PairsSize(a, b);
    PairsSize(a[..n], b);
    Join(i, j, |a|, |b|);
    if i < n {
      Join(i, j, n, |b|);
      PairsAt(a[..n], b, i, j, k);
    }
  }

  /** Position k holds the pair with the digits of k: quotient and remainder by |b|. */
  lemma PairsDigits<A, B>(a: seq<A>, b: seq<B>, k: nat)
    requires k < |Pairs(a, b)|
    ensures |b| > 0 && 0 <= k / |b| < |a| && 0 <= k % |b| < |b| && Pairs(a, b)[k] == (a[k / |b|], b[k % |b|])
  {
    PairsSize(a, b);
    Split(k, |a|, |b|);
    PairsAt(a, b, k / |b|, k % |b|, k);
  }
}
