/** The relevance metrics of the search evaluation. */
module Relevance {
  import opened Wrappers
  import opened Attrs
  import opened Facets

  datatype Criteria = Criteria(subtype: Option<string>, material: Option<string>, attributes: seq<Attr>)

  predicate Meets(p: Product, c: Criteria) {
    && (c.subtype.Some? ==> p.subtype == c.subtype.value)
    && (c.material.Some? ==> p.material == c.material.value)
    && (forall a :: a in c.attributes ==> a.key in p.attributes && p.attributes[a.key] == a.value)
  }

  method RelevantIds(products: seq<Product>, c: Criteria) returns (ids: set<int>)
    ensures forall id :: id in ids <==>
      exists i ::
        && 0 <= i < |products| && products[i].id == id
        && (c.subtype.None? || products[i].subtype == c.subtype.value)
        && (c.material.None? || products[i].material == c.material.value)
        && (forall a :: a in c.attributes ==>
              a.key in products[i].attributes && products[i].attributes[a.key] == a.value)
  {
    ids := {};
    for n := 0 to |products|
      invariant forall id :: id in ids <==> exists i :: 0 <= i < n && products[i].id == id && Meets(products[i], c)
    {
      var p := products[n];
      if c.subtype.Some? && p.subtype != c.subtype.value {
        continue;
      }
      if c.material.Some? && p.material != c.material.value {
        continue;
      }
      if exists a | a in c.attributes :: a.key !in p.attributes || p.attributes[a.key] != a.value {
        continue;
      }
      ids := ids + {p.id};
    }
  }

  function Top(ranked: seq<int>, k: nat): seq<int> { if k <= |ranked| then ranked[..k] else ranked }

  function Ids(top: seq<int>): set<int> { set pid | pid in top }

  // How many of the top positions hold something relevant.
  function HitCount(top: seq<int>, relevant: set<int>): nat {
    if top == [] then 0
    else HitCount(top[..|top| - 1], relevant) + if top[|top| - 1] in relevant then 1 else 0
  }

  function Ratio(hits: nat, of: nat): real
    requires of > 0
  {
    hits as real / of as real
  }

  function PrecisionAtK(ranked: seq<int>, relevant: set<int>, k: nat): real {
    if k == 0 then 0.0 else Ratio(HitCount(Top(ranked, k), relevant), k)
  }

  function MinInt(a: nat, b: nat): nat { if a <= b then a else b }

  lemma SomethingRelevant(relevant: set<int>)
    requires relevant != {}
    ensures |relevant| > 0
  {
  }

  // None is a division by zero: k is 0 and something is relevant.
  function RecallAtK(ranked: seq<int>, relevant: set<int>, k: nat): Option<real> {
    if relevant == {} then Some(0.0)
    else if k == 0 then None
    else
      SomethingRelevant(relevant);
      Some(Ratio(|Ids(Top(ranked, k)) * relevant|, MinInt(k, |relevant|)))
  }

  // First position of a relevant id, counted from 1; None if there is none.
  ghost predicate FirstRelevant(ranked: seq<int>, relevant: set<int>, position: nat) {
    1 <= position <= |ranked| && ranked[position - 1] in relevant &&
    forall i :: 0 <= i < position - 1 ==> ranked[i] !in relevant
  }

  ghost predicate IsReciprocalRank(ranked: seq<int>, relevant: set<int>, rr: real) {
    || (rr == 0.0 && forall i :: 0 <= i < |ranked| ==> ranked[i] !in relevant)
    || (exists position: nat :: FirstRelevant(ranked, relevant, position) && rr == Ratio(1, position))
  }

  method ReciprocalRank(ranked: seq<int>, relevant: set<int>) returns (rr: real)
    ensures IsReciprocalRank(ranked, relevant, rr)
  {
    for idx := 0 to |ranked|
      invariant forall i :: 0 <= i < idx ==> ranked[i] !in relevant
    {
      if ranked[idx] in relevant {
        assert FirstRelevant(ranked, relevant, idx + 1);
        return Ratio(1, idx + 1);
      }
    }
    return 0.0;
  }

  ghost predicate NoDuplicates(s: seq<int>) {
    forall i, j :: 0 <= i < j < |s| ==> s[i] != s[j]
  }

  lemma {:induction false} HitsAreIntersection(top: seq<int>, relevant: set<int>)
    requires NoDuplicates(top)
    ensures HitCount(top, relevant) == |Ids(top) * relevant|
    decreases |top|
  {
    if top == [] {
      assert Ids(top) * relevant == {};
    } else {
      var n := |top| - 1;
      HitsAreIntersection(top[..n], relevant);
      IdsStep(top);
      OneMoreId(Ids(top[..n]), top[n], relevant);
    }
  }

  lemma IdsStep(top: seq<int>)
    requires top != [] && NoDuplicates(top)
    ensures var n := |top| - 1; Ids(top) == Ids(top[..n]) + {top[n]} && top[n] !in Ids(top[..n])
  {
    assert top == top[..|top| - 1] + [top[|top| - 1]];
  }

  lemma OneMoreId(ids: set<int>, id: int, relevant: set<int>)
    requires id !in ids
    ensures |(ids + {id}) * relevant| == |ids * relevant| + if id in relevant then 1 else 0
  {
    assert (ids + {id}) * relevant == if id in relevant then ids * relevant + {id} else ids * relevant;
  }

  lemma {:induction false} HitsBound(top: seq<int>, relevant: set<int>)
    ensures HitCount(top, relevant) <= |top|
    ensures HitCount(top, relevant) > 0 <==> exists i :: 0 <= i < |top| && top[i] in relevant
    decreases |top|
  {
    if top != [] {
      HitsBound(top[..|top| - 1], relevant);
    }
  }

  lemma SubsetSize(a: set<int>, b: set<int>)
    requires a <= b
    ensures |a| <= |b|
  {
    assert |b - a| + |a| == |b| by {
      assert b == (b - a) + a && (b - a) !! a;
    }
  }

  lemma RatioTimes(h: nat, m: nat)
    requires m > 0
    ensures Ratio(h, m) * m as real == h as real
    ensures Ratio(h, m) >= 0.0 && (Ratio(h, m) > 0.0 <==> h > 0)
    ensures h <= m ==> Ratio(h, m) <= 1.0
  {
    var x := Ratio(h, m);
    assert x * m as real == h as real;
  }

  // Positions among the first k that hold something relevant.
  function HitPositions(ranked: seq<int>, relevant: set<int>, k: nat): set<nat> {
    set i: nat | i < |ranked| && i < k && ranked[i] in relevant
  }

  lemma {:induction false} HitsArePositions(top: seq<int>, relevant: set<int>)
    ensures HitCount(top, relevant) == |HitPositions(top, relevant, |top|)|
  {
    if top == [] {
      assert HitPositions(top, relevant, 0) == {};
    } else {
      var n := |top| - 1;
      HitsArePositions(top[..n], relevant);
      var before := HitPositions(top[..n], relevant, n);
      assert HitPositions(top, relevant, |top|) == if top[n] in relevant then before + {n} else before;
    }
  }

  // Relevant ids among the first k.
  function HitIds(ranked: seq<int>, relevant: set<int>, k: nat): set<int> {
    set i: nat | i < |ranked| && i < k && ranked[i] in relevant :: ranked[i]
  }

  lemma TopIds(ranked: seq<int>, relevant: set<int>, k: nat)
    ensures Ids(Top(ranked, k)) * relevant == HitIds(ranked, relevant, k)
  {
    var top := Top(ranked, k);
    assert forall i :: 0 <= i < |top| ==> top[i] == ranked[i];
    forall id | id in Ids(top) * relevant ensures id in HitIds(ranked, relevant, k) {
      var i :| 0 <= i < |top| && top[i] == id;
      assert ranked[i] in relevant;
    }
    forall id | id in HitIds(ranked, relevant, k) ensures id in Ids(top) {
      var i: nat :| i < |ranked| && i < k && ranked[i] in relevant && ranked[i] == id;
      assert top[i] == id;
    }
  }

  /** Precision times k is the number of positions among the first k that hold something relevant. */
  lemma PrecisionMeans(ranked: seq<int>, relevant: set<int>, k: nat)
    ensures PrecisionAtK(ranked, relevant, k) * k as real == |HitPositions(ranked, relevant, k)| as real
  {
    var top := Top(ranked, k);
    HitsArePositions(top, relevant);
    assert HitPositions(top, relevant, |top|) == HitPositions(ranked, relevant, k);
    if k > 0 {
      RatioTimes(HitCount(top, relevant), k);
    } else {
      assert HitPositions(ranked, relevant, k) == {};
    }
  }

  /** Recall is the number of relevant ids among the first k out of the most there could be. */
  lemma RecallMeans(ranked: seq<int>, relevant: set<int>, k: nat)
    requires k > 0
    ensures relevant == {} ==> RecallAtK(ranked, relevant, k) == Some(0.0)
    ensures relevant != {} ==>
      && RecallAtK(ranked, relevant, k).Some?
      && RecallAtK(ranked, relevant, k).value * (if k < |relevant| then k else |relevant|) as real ==
         |HitIds(ranked, relevant, k)| as real
  {
    if relevant != {} {
      SomethingRelevant(relevant);
      TopIds(ranked, relevant, k);
      RatioTimes(|HitIds(ranked, relevant, k)|, MinInt(k, |relevant|));
    }
  }

  // Both metrics count the same hits; recall is a fraction and precision is capped.
  predicate Consistent(precision: real, recall: real, k: nat, most: nat) {
    && precision * k as real == recall * most as real
    && 0.0 <= recall <= 1.0
    && precision * k as real <= most as real
  }

  lemma SameHits(h: nat, k: nat, most: nat)
    requires k > 0 && most > 0 && h <= most
    ensures Consistent(Ratio(h, k), Ratio(h, most), k, most)
  {
    RatioTimes(h, k);
    RatioTimes(h, most);
  }

  /**
   For a ranking without duplicates, precision@k and recall@k count the same hits: over k
   and over the most there could be. So recall is in [0, 1] and precision is capped. It
   is so exactly when k is positive or nothing is relevant, because otherwise recall
   divides by zero.
   */
  lemma PrecisionAndRecall(ranked: seq<int>, relevant: set<int>, k: nat)
    requires NoDuplicates(ranked)
    ensures
      && RecallAtK(ranked, relevant, k).Some?
      && Consistent(PrecisionAtK(ranked, relevant, k), RecallAtK(ranked, relevant, k).value, k, MinInt(k, |relevant|))
      <==> k > 0 || relevant == {}
  {
    if relevant == {} {
      NoHits(Top(ranked, k));
    } else if k > 0 {
      var top := Top(ranked, k);
      HitsAreIntersection(top, relevant);
      HitsBound(top, relevant);
      SubsetSize(Ids(top) * relevant, relevant);
      SomethingRelevant(relevant);
      SameHits(HitCount(top, relevant), k, MinInt(k, |relevant|));
    }
  }

  lemma {:induction false} NoHits(top: seq<int>)
    ensures HitCount(top, {}) == 0
  {
    if top != [] {
      NoHits(top[..|top| - 1]);
    }
  }

  // An input on which it fails: precision@0 is 0, recall@0 is undefined.
  lemma RecallAtZero()
    ensures PrecisionAtK([1], {1}, 0) == 0.0 && RecallAtK([1], {1}, 0).None?
  {
    assert {1} != {};
  }

  lemma ReciprocalOrder(position: nat, k: nat)
    requires position >= 1 && k >= 1
    ensures Ratio(1, position) >= Ratio(1, k) <==> position <= k
  {
    var p, q := position as real, k as real;
    assert (1.0 / p) * p == 1.0 && (1.0 / q) * q == 1.0;
    assert (1.0 / p - 1.0 / q) * (p * q) == q - p;
  }

  /** The reciprocal rank is at least 1/k exactly when precision@k is positive. */
  lemma RankAndPrecision(ranked: seq<int>, relevant: set<int>, rr: real, k: nat)
    requires IsReciprocalRank(ranked, relevant, rr) && k >= 1
    ensures rr >= Ratio(1, k) <==> PrecisionAtK(ranked, relevant, k) > 0.0
  {
    var top := Top(ranked, k);
    HitsBound(top, relevant);
    RatioTimes(HitCount(top, relevant), k);
    RatioTimes(1, k);
    if position: nat :| FirstRelevant(ranked, relevant, position) && rr == Ratio(1, position) {
      ReciprocalOrder(position, k);
      if position <= k {
        assert top[position - 1] in relevant;
      }
    }
  }
}
