/** What a search answers, in terms of the stored products, their columns and the query. */
module SearchMeaning {
  import opened Wrappers
  import opened Text
  import opened Sorting
  import opened Facets
  import opened Search
  import opened SearchTheorems

  // ---- who is found -----------------------------------------------------------------------

  /**
   A query finds exactly the stored products whose filtered columns and attributes have the
   values asked for, and that the index matches or whose text is similar enough.
   */
  lemma WhoIsFound(e: Engine, st: Settings, corpus: seq<Product>, query: string, f: Filters, p: Product)
    requires UniqueParts(corpus) && !Blank(query)
    ensures (exists h :: h in Ranking(e, st, corpus, query, f) && h.product == p) <==>
      && p in corpus
      && (f.category.None? || f.category.value == "" || p.category == f.category.value)
      && (f.brand.None? || f.brand.value == "" || p.brand == f.brand.value)
      && (f.material.None? || f.material.value == "" || p.material == f.material.value)
      && (forall i :: 0 <= i < |f.attrs| ==>
            f.attrs[i].key in p.attributes && p.attributes[f.attrs[i].key] == f.attrs[i].value)
      && (e.lexMatch(query, p) || Fuzzy(e, Strip(query), SearchableText(p)) >= st.fuzzyMin)
  {
    StripBlank(query);
    RankingSorted(e, st, corpus, query, f);
    PassesMeans(f, p);
    if Passes(f, p) && p in corpus && Matches(e, st, query, p) {
      var score := Score(e, st, query, RankScale(e, query, Rows(corpus, f)), p);
      assert Scored(score, p) in Ranking(e, st, corpus, query, f);
    }
  }

  // ---- scores ------------------------------------------------------------------------------

  // The best lexical rank of the stored products that pass the filters.
  ghost predicate IsBestRank(e: Engine, corpus: seq<Product>, query: string, f: Filters, best: real) {
    && (exists p :: p in corpus && Passes(f, p) && e.lexRank(query, p) == best)
    && (forall p :: p in corpus && Passes(f, p) ==> e.lexRank(query, p) <= best)
  }

  // What of a product's lexical rank counts.
  function Counted(e: Engine, query: string, p: Product): real {
    if e.lexMatch(query, p) then e.lexRank(query, p) else 0.0
  }

  lemma BestRankIsMax(e: Engine, corpus: seq<Product>, query: string, f: Filters, best: real)
    requires IsBestRank(e, corpus, query, f, best)
    ensures RankScale(e, query, Rows(corpus, f)) == if best == 0.0 then 1.0 else best
  {
    var rows := Rows(corpus, f);
    RowsOf(corpus, f);
    var p :| p in corpus && Passes(f, p) && e.lexRank(query, p) == best;
    assert p in rows;
    MaxRankIs(e, query, rows);
  }

  lemma Scaled(m: real, w: real, r: real, rest: real)
    requires m != 0.0
    ensures m * (w * (r / m) + rest) == w * r + m * rest
  {
    var x := r / m;
    assert x * m == r;
    assert m * (w * x + rest) == w * (x * m) + m * rest;
  }

  // A score, multiplied by m, is the weighted rank and m times the weighted similarity.
  ghost predicate IsScore(e: Engine, st: Settings, query: string, m: real, h: Scored) {
    m * h.score == st.weightLexical * Counted(e, query, h.product)
      + m * (st.weightFuzzy * (Fuzzy(e, Strip(query), SearchableText(h.product)) / 100.0))
  }

  lemma ScaledScore(e: Engine, st: Settings, query: string, m: real, p: Product)
    requires m != 0.0
    ensures IsScore(e, st, query, m, Scored(Score(e, st, query, m, p), p))
  {
    var rest := st.weightFuzzy * (RowFuzzy(e, query, p) / 100.0);
    assert LexNorm(e, query, m, p) == Counted(e, query, p) / m;
    Scaled(m, st.weightLexical, Counted(e, query, p), rest);
  }

  /**
   The score of a hit: the lexical weight times its rank as a share of the best rank, 0 if
   the index does not match it, plus the fuzzy weight times its similarity in percent.
   */
  lemma ScoreMeans(e: Engine, st: Settings, corpus: seq<Product>, query: string, f: Filters, best: real, h: Scored)
    requires UniqueParts(corpus) && IsBestRank(e, corpus, query, f, best)
    requires h in Ranking(e, st, corpus, query, f)
    ensures IsScore(e, st, query, if best == 0.0 then 1.0 else best, h)
  {
    BestRankIsMax(e, corpus, query, f, best);
    RankingSorted(e, st, corpus, query, f);
    ScaledScore(e, st, query, if best == 0.0 then 1.0 else best, h.product);
  }

  // With the default settings the weights are 0.7 and 0.3, and a text must be 60 percent
  // similar to be found without the index.
  lemma DefaultsAre()
    ensures DEFAULTS == Settings(0.7, 0.3, 60.0)
  {
  }

  lemma Larger(m: real, wl: real, wf: real, s: real, r: real, f: real, s': real, r': real, f': real)
    requires m > 0.0 && wl > 0.0 && wf > 0.0
    requires m * s == wl * r + m * (wf * (f / 100.0)) && m * s' == wl * r' + m * (wf * (f' / 100.0))
    requires r >= r' && f >= f' && (r > r' || f > f')
    ensures s > s'
  {
    var dr, df := wl * (r - r'), wf * ((f - f') / 100.0);
    assert dr >= 0.0 && (r > r' ==> dr > 0.0);
    assert df >= 0.0 && (f > f' ==> df > 0.0);
    assert m * (s - s') == dr + m * df;
    assert m * df >= 0.0 && (df > 0.0 ==> m * df > 0.0);
    PositiveFactor(m, s - s');
  }

  lemma PositiveFactor(m: real, d: real)
    requires m > 0.0 && m * d > 0.0
    ensures d > 0.0
  {
  }

  lemma BestRankExists(e: Engine, corpus: seq<Product>, query: string, f: Filters, p: Product) returns (best: real)
    requires p in corpus && Passes(f, p)
    ensures IsBestRank(e, corpus, query, f, best) && best >= e.lexRank(query, p)
  {
    var rows := Rows(corpus, f);
    RowsOf(corpus, f);
    assert p in rows;
    MaxRankIs(e, query, rows);
    best := MaxRank(e, query, rows);
  }

  /**
   A hit that the index ranks higher and that is at least as similar, or that is more similar
   and not ranked lower, comes first, with any positive weights.
   */
  lemma BetterHitFirst(e: Engine, st: Settings, corpus: seq<Product>, query: string, f: Filters, i: nat, j: nat)
    requires EngineOk(e) && UniqueParts(corpus) && st.weightLexical > 0.0 && st.weightFuzzy > 0.0
    requires i < |Ranking(e, st, corpus, query, f)| && j < |Ranking(e, st, corpus, query, f)|
    requires Better(e, query, Ranking(e, st, corpus, query, f)[i].product, Ranking(e, st, corpus, query, f)[j].product)
    ensures i < j
  {
    var hit, other := Ranking(e, st, corpus, query, f)[i], Ranking(e, st, corpus, query, f)[j];
    InRanking(e, st, corpus, query, f, i);
    InRanking(e, st, corpus, query, f, j);
    var best := BestRankExists(e, corpus, query, f, hit.product);
    ScoreMeans(e, st, corpus, query, f, best, hit);
    ScoreMeans(e, st, corpus, query, f, best, other);
    HigherScore(e, st, query, if best == 0.0 then 1.0 else best, hit, other);
    RankingSorted(e, st, corpus, query, f);
    HigherScoreFirst(Ranking(e, st, corpus, query, f), i, j);
  }

  ghost predicate Better(e: Engine, query: string, p: Product, q: Product) {
    var r, r' := Counted(e, query, p), Counted(e, query, q);
    var s, s' := Fuzzy(e, Strip(query), SearchableText(p)), Fuzzy(e, Strip(query), SearchableText(q));
    r >= r' && s >= s' && (r > r' || s > s')
  }

  lemma InRanking(e: Engine, st: Settings, corpus: seq<Product>, query: string, f: Filters, i: nat)
    requires UniqueParts(corpus) && i < |Ranking(e, st, corpus, query, f)|
    ensures var h := Ranking(e, st, corpus, query, f)[i];
      h in Ranking(e, st, corpus, query, f) && h.product in corpus && Passes(f, h.product)
  {
    RankingSorted(e, st, corpus, query, f);
  }

  lemma HigherScore(e: Engine, st: Settings, query: string, m: real, h: Scored, h': Scored)
    requires m > 0.0 && st.weightLexical > 0.0 && st.weightFuzzy > 0.0
    requires IsScore(e, st, query, m, h) && IsScore(e, st, query, m, h') && Better(e, query, h.product, h'.product)
    ensures h.score > h'.score
  {
    Larger(m, st.weightLexical, st.weightFuzzy,
           h.score, Counted(e, query, h.product), Fuzzy(e, Strip(query), SearchableText(h.product)),
           h'.score, Counted(e, query, h'.product), Fuzzy(e, Strip(query), SearchableText(h'.product)));
  }

  // ---- similarity ---------------------------------------------------------------------------

  /** One query token scores its best similarity to a token of the text. */
  lemma OneToken(e: Engine, query: string, text: string, t: string)
    requires e.tokens(query) == [t] && e.tokens(text) != []
    ensures exists i :: 0 <= i < |e.tokens(text)| && e.ratio(t, e.tokens(text)[i]) == Fuzzy(e, query, text)
    ensures forall i :: 0 <= i < |e.tokens(text)| ==> e.ratio(t, e.tokens(text)[i]) <= Fuzzy(e, query, text)
  {
    var qs, ts := e.tokens(query), TokenSet(e, text);
    assert e.tokens(text)[0] in ts;
    assert qs[..0] == [];
    assert SumBest(e, qs, ts) == SumBest(e, [], ts) + Best(e, t, ts);
    assert Fuzzy(e, query, text) == Best(e, t, ts);
    var tt :| tt in ts && e.ratio(t, tt) == Best(e, t, ts);
    var i :| 0 <= i < |e.tokens(text)| && e.tokens(text)[i] == tt;
  }

  lemma NoTokens(e: Engine, query: string, text: string)
    requires e.tokens(query) == [] || e.tokens(text) == []
    ensures Fuzzy(e, query, text) == 0.0
  {
  }

  lemma {:induction false} SumBestConcat(e: Engine, a: seq<string>, b: seq<string>, ts: set<string>)
    requires ts != {}
    ensures SumBest(e, a + b, ts) == SumBest(e, a, ts) + SumBest(e, b, ts)
    decreases |b|
  {
    if b == [] {
      assert a + b == a;
    } else {
      var n, all := |b| - 1, a + b;
      SumBestConcat(e, a, b[..n], ts);
      assert all[..|all| - 1] == a + b[..n] && all[|all| - 1] == b[n];
    }
  }

  lemma Shares(x: real, n: real)
    requires n > 0.0
    ensures x / n * n == x
  {
  }

  /** Several tokens score the average: the sums of two parts of a query add up. */
  lemma AverageOfParts(e: Engine, query: string, q: string, q': string, text: string)
    requires e.tokens(query) == e.tokens(q) + e.tokens(q')
    ensures Fuzzy(e, query, text) * |e.tokens(query)| as real ==
      Fuzzy(e, q, text) * |e.tokens(q)| as real + Fuzzy(e, q', text) * |e.tokens(q')| as real
  {
    var ts := TokenSet(e, text);
    if ts != {} {
      SumBestConcat(e, e.tokens(q), e.tokens(q'), ts);
      FuzzySum(e, query, text);
      FuzzySum(e, q, text);
      FuzzySum(e, q', text);
    }
  }

  lemma FuzzySum(e: Engine, query: string, text: string)
    requires TokenSet(e, text) != {}
    ensures Fuzzy(e, query, text) * |e.tokens(query)| as real == SumBest(e, e.tokens(query), TokenSet(e, text))
  {
    if e.tokens(query) != [] {
      Shares(SumBest(e, e.tokens(query), TokenSet(e, text)), |e.tokens(query)| as real);
    }
  }

  // Equal strings, and no others, have full similarity.
  ghost predicate FullOnlyIfEqual(e: Engine) { forall a, b :: e.ratio(a, b) == 100.0 <==> a == b }

  lemma {:induction false} SumBestFull(e: Engine, qs: seq<string>, ts: set<string>)
    requires EngineOk(e) && FullOnlyIfEqual(e) && ts != {}
    ensures SumBest(e, qs, ts) <= 100.0 * |qs| as real
    ensures SumBest(e, qs, ts) == 100.0 * |qs| as real <==> forall t :: t in qs ==> t in ts
  {
    if qs != [] {
      var n := |qs| - 1;
      SumBestFull(e, qs[..n], ts);
      assert qs == qs[..n] + [qs[n]];
      assert IsBest(e, qs[n], ts, Best(e, qs[n], ts));
      assert Best(e, qs[n], ts) == 100.0 <==> qs[n] in ts;
    }
  }

  /** Full score: a query all of whose tokens are in the text, and no other. */
  lemma FullScore(e: Engine, query: string, text: string)
    requires EngineOk(e) && FullOnlyIfEqual(e)
    ensures Fuzzy(e, query, text) == 100.0 <==>
      e.tokens(query) != [] && e.tokens(text) != [] && forall t :: t in e.tokens(query) ==> t in e.tokens(text)
  {
    var qs, ts := e.tokens(query), TokenSet(e, text);
    if qs != [] && e.tokens(text) != [] {
      assert e.tokens(text)[0] in ts;
      SumBestFull(e, qs, ts);
      FuzzySum(e, query, text);
      FullShare(Fuzzy(e, query, text), |qs| as real);
    }
  }

  lemma FullShare(x: real, n: real)
    requires n > 0.0
    ensures x * n == 100.0 * n <==> x == 100.0
  {
    assert x * n - 100.0 * n == (x - 100.0) * n;
  }

  // Text is split at blanks.
  ghost predicate SplitsAtBlanks(e: Engine) { forall a, b :: e.tokens(a + " " + b) == e.tokens(a) + e.tokens(b) }

  // A token of one of the columns that are searched for misspellings.
  predicate InSomeColumn(e: Engine, p: Product, t: string) {
    || t in e.tokens(p.name) || t in e.tokens(p.brand) || t in e.tokens(p.category) || t in e.tokens(p.subtype)
    || t in e.tokens(p.material) || t in e.tokens(p.attrText) || t in e.tokens(p.partNo)
  }

  lemma EitherSide(e: Engine, a: string, b: string, t: string)
    requires SplitsAtBlanks(e)
    ensures t in e.tokens(a + " " + b) <==> t in e.tokens(a) || t in e.tokens(b)
  {
    assert e.tokens(a + " " + b) == e.tokens(a) + e.tokens(b);
  }

  lemma SearchableTokens(e: Engine, p: Product, t: string)
    requires SplitsAtBlanks(e)
    ensures t in e.tokens(SearchableText(p)) <==> InSomeColumn(e, p, t)
  {
    var t1 := p.name + " " + p.brand;
    var t2 := t1 + " " + p.category;
    var t3 := t2 + " " + p.subtype;
    var t4 := t3 + " " + p.material;
    var t5 := t4 + " " + p.attrText;
    assert SearchableText(p) == t5 + " " + p.partNo;
    EitherSide(e, p.name, p.brand, t);
    EitherSide(e, t1, p.category, t);
    EitherSide(e, t2, p.subtype, t);
    EitherSide(e, t3, p.material, t);
    EitherSide(e, t4, p.attrText, t);
    EitherSide(e, t5, p.partNo, t);
  }

  /**
   A product has the full similarity exactly when every token of the query is a token of its
   name, brand, category, subtype, material, attribute text or part number; the description
   does not help.
   */
  lemma FullSimilarity(e: Engine, query: string, p: Product)
    requires EngineOk(e) && FullOnlyIfEqual(e) && SplitsAtBlanks(e) && e.tokens(query) != []
    ensures Fuzzy(e, query, SearchableText(p)) == 100.0 <==>
      forall t :: t in e.tokens(query) ==> InSomeColumn(e, p, t)
  {
    FullScore(e, query, SearchableText(p));
    forall t ensures t in e.tokens(SearchableText(p)) <==> InSomeColumn(e, p, t) {
      SearchableTokens(e, p, t);
    }
    if forall t :: t in e.tokens(query) ==> t in e.tokens(SearchableText(p)) {
      assert e.tokens(query)[0] in e.tokens(query);
    }
  }

  // ---- the answer ----------------------------------------------------------------------------

  // How many results a page of `limit` from offset has when there are total.
  function PageSize(total: nat, offset: nat, limit: nat): nat {
    if offset >= total then 0 else if offset + limit <= total then limit else total - offset
  }

  /**
   The answer to a blank query lists the filtered products by part number, without scores:
   position i of the page is position offset + i of the listing, and facets describe the
   whole listing, not the page.
   */
  lemma BrowseAnswer(
      e: Engine, st: Settings, corpus: seq<Product>, query: string, f: Filters, limit: nat, offset: nat, out: Outcome)
    requires Answers(e, st, corpus, query, f, limit, offset, out) && Blank(query)
    ensures out.query == "" && |out.results| == PageSize(out.total, offset, limit)
    ensures var all := Browse(corpus, f);
      && out.total == |all|
      && DescribesFacets(all, out.facets)
      && forall i :: 0 <= i < |out.results| ==> out.results[i] == SearchResult(all[offset + i], None)
  {
    StripBlank(query);
    FacetsDescribe(Browse(corpus, f), out.facets);
  }

  /** The answer to any other query lists its hits in the same way, with rounded scores. */
  lemma QueryAnswer(
      e: Engine, st: Settings, corpus: seq<Product>, query: string, f: Filters, limit: nat, offset: nat, out: Outcome)
    requires Answers(e, st, corpus, query, f, limit, offset, out) && !Blank(query)
    ensures out.query == Strip(query) && |out.results| == PageSize(out.total, offset, limit)
    ensures var hits := Ranking(e, st, corpus, query, f);
      && out.total == |hits|
      && DescribesFacets(Products(hits), out.facets)
      && forall i :: 0 <= i < |out.results| ==>
           out.results[i] == SearchResult(hits[offset + i].product, Some(e.round4(hits[offset + i].score)))
  {
    StripBlank(query);
    FacetsDescribe(Products(Ranking(e, st, corpus, query, f)), out.facets);
  }

  ghost predicate DescribesFacets(rows: seq<Product>, facets: map<Dim, seq<Entry>>) {
    && facets.Keys == {Category, Brand, Material}
    && CountsColumn(Categories(rows), facets[Category])
    && CountsColumn(Brands(rows), facets[Brand])
    && CountsColumn(Materials(rows), facets[Material])
  }

  /** Listings are by part number, rankings by score and then part number. */
  lemma ListingOrder(e: Engine, st: Settings, corpus: seq<Product>, query: string, f: Filters, i: nat, j: nat)
    requires UniqueParts(corpus)
    ensures i < j < |Browse(corpus, f)| ==>
      exists k: nat :: LessAt(Browse(corpus, f)[i].partNo, Browse(corpus, f)[j].partNo, k)
    ensures var hits := Ranking(e, st, corpus, query, f);
      i < j < |hits| ==>
        || hits[i].score > hits[j].score
        || (hits[i].score == hits[j].score
            && exists k: nat :: LessAt(hits[i].product.partNo, hits[j].product.partNo, k))
  {
    RankingSorted(e, st, corpus, query, f);
    var all, hits := Browse(corpus, f), Ranking(e, st, corpus, query, f);
    if i < j < |all| {
      assert PartLt(all[i], all[j]);
      LexLtMeans(all[i].partNo, all[j].partNo);
    }
    if i < j < |hits| {
      assert RankLt(hits[i], hits[j]);
      LexLtMeans(hits[i].product.partNo, hits[j].product.partNo);
    }
  }
}
