/** What filtering, row order, paging and scoring guarantee about a search. */
module SearchTheorems {
  import opened Wrappers
  import opened Text
  import opened Sorting
  import opened Facets
  import opened Search

  // part_no is UNIQUE in the products table.
  ghost predicate UniqueParts(s: seq<Product>) {
    forall i, j :: 0 <= i < j < |s| ==> s[i].partNo != s[j].partNo
  }

  // ---- drill-down ------------------------------------------------------------------------

  // The products a search finds, before they are ordered.
  ghost function Found(e: Engine, st: Settings, corpus: seq<Product>, query: string, f: Filters): seq<Product> {
    if corpus == [] then []
    else
      var n := |corpus| - 1;
      Found(e, st, corpus[..n], query, f) +
      if Passes(f, corpus[n]) && Matches(e, st, query, corpus[n]) then [corpus[n]] else []
  }

  lemma ProductsAppend(s: seq<Scored>, x: Scored)
    ensures Products(s + [x]) == Products(s) + [x.product]
  {
  }

  lemma {:induction false} HitsAreFound(
      e: Engine, st: Settings, query: string, scale: real, corpus: seq<Product>, f: Filters)
    requires scale != 0.0
    ensures Products(Hits(e, st, query, scale, Rows(corpus, f))) == Found(e, st, corpus, query, f)
  {
    if corpus != [] {
      var n := |corpus| - 1;
      HitsAreFound(e, st, query, scale, corpus[..n], f);
      var front, rows := Rows(corpus[..n], f), Rows(corpus, f);
      if Passes(f, corpus[n]) {
        assert rows[..|rows| - 1] == front && rows[|rows| - 1] == corpus[n];
        ProductsAppend(Hits(e, st, query, scale, front), Scored(Score(e, st, query, scale, corpus[n]), corpus[n]));
      } else {
        assert rows == front;
      }
    }
  }

  lemma {:induction false} BrowseIsFound(e: Engine, st: Settings, query: string, corpus: seq<Product>, f: Filters)
    requires Strip(query) == []
    ensures Rows(corpus, f) == Found(e, st, corpus, query, f)
  {
    if corpus != [] {
      BrowseIsFound(e, st, query, corpus[..|corpus| - 1], f);
    }
  }

  function WithDim(f: Filters, dim: Dim, v: string): Filters {
    match dim
    case Category => f.(category := Some(v))
    case Brand => f.(brand := Some(v))
    case Material => f.(material := Some(v))
  }

  lemma WithDimPasses(f: Filters, dim: Dim, v: string, p: Product)
    requires Unset(Wanted(f, dim)) && v != []
    ensures Passes(WithDim(f, dim, v), p) <==> Passes(f, p) && Value(p, dim) == v
  {
    var f' := WithDim(f, dim, v);
    assert f'.attrs == f.attrs;
    assert Wanted(f', dim) == Some(v) && forall d :: d != dim ==> Wanted(f', d) == Wanted(f, d);
    if Passes(f', p) {
      assert Unset(Wanted(f', dim)) || Value(p, dim) == Wanted(f', dim).value;
      assert forall d :: Unset(Wanted(f, d)) || Value(p, d) == Wanted(f, d).value;
    }
    if Passes(f, p) && Value(p, dim) == v {
      forall d ensures Unset(Wanted(f', d)) || Value(p, d) == Wanted(f', d).value {
        assert d != dim ==> Wanted(f', d) == Wanted(f, d);
        assert Unset(Wanted(f, d)) || Value(p, d) == Wanted(f, d).value;
      }
    }
  }

  lemma {:induction false} NarrowedCount(
      e: Engine, st: Settings, corpus: seq<Product>, query: string, f: Filters, dim: Dim, v: string)
    requires Unset(Wanted(f, dim)) && v != []
    ensures |Found(e, st, corpus, query, WithDim(f, dim, v))| == Count(Found(e, st, corpus, query, f), dim, v)
  {
    if corpus != [] {
      var n := |corpus| - 1;
      NarrowedCount(e, st, corpus[..n], query, f, dim, v);
      WithDimPasses(f, dim, v, corpus[n]);
      var found := Found(e, st, corpus[..n], query, f);
      CountConcat(found, [corpus[n]], dim, v);
      assert [corpus[n]][..0] == [];
      assert Count([corpus[n]], dim, v) == if Value(corpus[n], dim) == v then 1 else 0;
      assert found + [] == found;
    }
  }

  lemma {:induction false} CountInsertScored(x: Scored, s: seq<Scored>, dim: Dim, v: string)
    ensures Count(Products(Insert(RankLt, x, s)), dim, v) ==
      Count(Products(s), dim, v) + if Value(x.product, dim) == v then 1 else 0
  {
    CountOne(x.product, dim, v);
    if s == [] || RankLt(x, s[0]) {
      assert Products([x] + s) == [x.product] + Products(s);
      CountConcat([x.product], Products(s), dim, v);
    } else {
      CountInsertScored(x, s[1..], dim, v);
      var tail := Insert(RankLt, x, s[1..]);
      assert Products([s[0]] + tail) == [s[0].product] + Products(tail);
      assert Products(s) == [s[0].product] + Products(s[1..]);
      CountConcat([s[0].product], Products(tail), dim, v);
      CountConcat([s[0].product], Products(s[1..]), dim, v);
    }
  }

  lemma CountOne(p: Product, dim: Dim, v: string)
    ensures Count([p], dim, v) == if Value(p, dim) == v then 1 else 0
  {
    assert [p][..0] == [];
  }

  lemma {:induction false} CountSortedScored(s: seq<Scored>, dim: Dim, v: string)
    ensures Count(Products(Sort(RankLt, s)), dim, v) == Count(Products(s), dim, v)
  {
    if s != [] {
      var n := |s| - 1;
      CountSortedScored(s[..n], dim, v);
      CountInsertScored(s[n], Sort(RankLt, s[..n]), dim, v);
      assert Products(s)[..n] == Products(s[..n]);
    }
  }

  lemma {:induction false} CountInsertPart(x: Product, s: seq<Product>, dim: Dim, v: string)
    ensures Count(Insert(PartLt, x, s), dim, v) == Count(s, dim, v) + if Value(x, dim) == v then 1 else 0
  {
    CountOne(x, dim, v);
    if s == [] || PartLt(x, s[0]) {
      CountConcat([x], s, dim, v);
    } else {
      CountInsertPart(x, s[1..], dim, v);
      assert s == [s[0]] + s[1..];
      CountConcat([s[0]], Insert(PartLt, x, s[1..]), dim, v);
      CountConcat([s[0]], s[1..], dim, v);
    }
  }

  lemma {:induction false} CountSortedPart(s: seq<Product>, dim: Dim, v: string)
    ensures Count(Sort(PartLt, s), dim, v) == Count(s, dim, v)
  {
    if s != [] {
      var n := |s| - 1;
      CountSortedPart(s[..n], dim, v);
      CountInsertPart(s[n], Sort(PartLt, s[..n]), dim, v);
    }
  }

  // Total and facet of an answer, in terms of the products found.
  ghost predicate Tallies(out: Outcome, found: seq<Product>, dim: Dim, v: string) {
    && out.total == |found|
    && dim in out.facets && Shown(out.facets[dim], v) == Count(found, dim, v)
    && (Lists(out.facets[dim], v) <==> Count(found, dim, v) > 0)
    && (forall entry :: entry in out.facets[dim] && entry.value == v ==> entry.count == Count(found, dim, v))
  }

  lemma AnswerCounts(
      e: Engine, st: Settings, corpus: seq<Product>, query: string, f: Filters, limit: nat, offset: nat, out: Outcome,
      dim: Dim, v: string)
    requires Answers(e, st, corpus, query, f, limit, offset, out)
    ensures Tallies(out, Found(e, st, corpus, query, f), dim, v)
  {
    var rows := Rows(corpus, f);
    if Strip(query) == [] {
      BrowseIsFound(e, st, query, corpus, f);
      SortElements(PartLt, rows);
      CountSortedPart(rows, dim, v);
      ShownIsCount(Browse(corpus, f), dim, out.facets[dim], v);
      ListedCount(Browse(corpus, f), dim, out.facets[dim], v);
    } else {
      var hits := Hits(e, st, query, RankScale(e, query, rows), rows);
      HitsAreFound(e, st, query, RankScale(e, query, rows), corpus, f);
      SortElements(RankLt, hits);
      CountSortedScored(hits, dim, v);
      ShownIsCount(Products(Sort(RankLt, hits)), dim, out.facets[dim], v);
      ListedCount(Products(Sort(RankLt, hits)), dim, out.facets[dim], v);
    }
  }

  lemma {:induction false} CountBound(rows: seq<Product>, dim: Dim, v: string)
    ensures Count(rows, dim, v) <= |rows|
    ensures Count(rows, dim, v) == |rows| <==> forall p :: p in rows ==> Value(p, dim) == v
  {
    if rows != [] {
      var n := |rows| - 1;
      CountBound(rows[..n], dim, v);
      assert rows == rows[..n] + [rows[n]];
    }
  }

  lemma EmptyValueFiltersNothing(f: Filters, dim: Dim, p: Product)
    requires Unset(Wanted(f, dim))
    ensures Passes(WithDim(f, dim, []), p) <==> Passes(f, p)
  {
    var f' := WithDim(f, dim, []);
    assert f'.attrs == f.attrs;
    forall d ensures (Unset(Wanted(f, d)) || Value(p, d) == Wanted(f, d).value) <==>
                     (Unset(Wanted(f', d)) || Value(p, d) == Wanted(f', d).value)
    {
      assert Unset(Wanted(f', dim)) && (d != dim ==> Wanted(f', d) == Wanted(f, d));
    }
  }

  lemma {:induction false} EmptyValueFound(
      e: Engine, st: Settings, corpus: seq<Product>, query: string, f: Filters, dim: Dim)
    requires Unset(Wanted(f, dim))
    ensures Found(e, st, corpus, query, WithDim(f, dim, [])) == Found(e, st, corpus, query, f)
  {
    if corpus != [] {
      var n := |corpus| - 1;
      EmptyValueFound(e, st, corpus[..n], query, f, dim);
      EmptyValueFiltersNothing(f, dim, corpus[n]);
    }
  }

  /**
   Drill-down: among the products found, as many have value v as the same search filtered
   to v finds, although the filter changes the scale of the lexical ranks. It is so exactly
   when v is not empty or every product found has the empty value, because an empty value
   sets no filter.
   */
  lemma NarrowedSearch(
      e: Engine, st: Settings, corpus: seq<Product>, query: string, f: Filters, dim: Dim, v: string)
    requires Unset(Wanted(f, dim))
    ensures Count(Found(e, st, corpus, query, f), dim, v) == |Found(e, st, corpus, query, WithDim(f, dim, v))| <==>
      v != [] || forall p :: p in Found(e, st, corpus, query, f) ==> Value(p, dim) == []
  {
    if v != [] {
      NarrowedCount(e, st, corpus, query, f, dim, v);
    } else {
      EmptyValueFound(e, st, corpus, query, f, dim);
      CountBound(Found(e, st, corpus, query, f), dim, v);
    }
  }

  /**
   So the count a facet lists for v is the total of the answer filtered to v, under the
   same condition. A value that it does not list has total 0, except that the empty value
   has the total of the whole answer.
   */
  lemma DrillDown(
      e: Engine, st: Settings, corpus: seq<Product>, query: string, f: Filters, dim: Dim, v: string,
      limit: nat, offset: nat, limit': nat, offset': nat, out: Outcome, narrowed: Outcome)
    requires Unset(Wanted(f, dim))
    requires Answers(e, st, corpus, query, f, limit, offset, out)
    requires Answers(e, st, corpus, query, WithDim(f, dim, v), limit', offset', narrowed)
    ensures dim in out.facets
    ensures Shown(out.facets[dim], v) == narrowed.total <==>
      v != [] || forall p :: p in Found(e, st, corpus, query, f) ==> Value(p, dim) == []
    ensures forall entry :: entry in out.facets[dim] && entry.value == v ==>
      (entry.count == narrowed.total <==>
       v != [] || forall p :: p in Found(e, st, corpus, query, f) ==> Value(p, dim) == [])
    ensures !Lists(out.facets[dim], v) ==> narrowed.total == if v != [] then 0 else out.total
  {
    AnswerCounts(e, st, corpus, query, f, limit, offset, out, dim, v);
    AnswerCounts(e, st, corpus, query, WithDim(f, dim, v), limit', offset', narrowed, dim, v);
    NarrowedSearch(e, st, corpus, query, f, dim, v);
    if v == [] {
      EmptyValueFound(e, st, corpus, query, f, dim);
    }
  }

  const NO_FILTERS := Filters(None, None, None, [])
  const UNCLASSIFIED := Product(1, "P-1", "", "", "", "", "", 0, 0, "", map[], "")
  const CLASSIFIED := UNCLASSIFIED.(id := 2, partNo := "P-2", category := "X")

  // Without filters, browse mode finds everything.
  lemma AllFound(e: Engine, st: Settings, corpus: seq<Product>)
    ensures Found(e, st, corpus, "", NO_FILTERS) == corpus
  {
    AllPass(corpus);
    BrowseIsFound(e, st, "", corpus, NO_FILTERS);
  }

  lemma {:induction false} AllPass(corpus: seq<Product>)
    ensures Rows(corpus, NO_FILTERS) == corpus
  {
    if corpus != [] {
      AllPass(corpus[..|corpus| - 1]);
    }
  }

  lemma OneUnclassified(corpus: seq<Product>)
    requires corpus == [UNCLASSIFIED, CLASSIFIED]
    ensures Count(corpus, Category, "") == 1
  {
    assert corpus == [UNCLASSIFIED] + [CLASSIFIED];
    CountConcat([UNCLASSIFIED], [CLASSIFIED], Category, "");
    CountOne(UNCLASSIFIED, Category, "");
    CountOne(CLASSIFIED, Category, "");
  }

  /**
   An input on which the totals differ: the facet lists the empty category with one product
   of two, and the search narrowed to it finds both.
   */
  lemma DrillDownFails(
      e: Engine, st: Settings, corpus: seq<Product>, limit: nat, offset: nat, limit': nat, offset': nat,
      out: Outcome, narrowed: Outcome)
    requires corpus == [UNCLASSIFIED, CLASSIFIED]
    requires Answers(e, st, corpus, "", NO_FILTERS, limit, offset, out)
    requires Answers(e, st, corpus, "", WithDim(NO_FILTERS, Category, ""), limit', offset', narrowed)
    ensures Category in out.facets && Lists(out.facets[Category], "") && narrowed.total == 2
    ensures forall entry :: entry in out.facets[Category] && entry.value == "" ==> entry.count == 1
  {
    AnswerCounts(e, st, corpus, "", NO_FILTERS, limit, offset, out, Category, "");
    AnswerCounts(e, st, corpus, "", WithDim(NO_FILTERS, Category, ""), limit', offset', narrowed, Category, "");
    AllFound(e, st, corpus);
    EmptyValueFound(e, st, corpus, "", NO_FILTERS, Category);
    OneUnclassified(corpus);
  }

  // ---- row order ---------------------------------------------------------------------------

  lemma RankOrder()
    ensures StrictOrder(RankLt) && StrictOrder(PartLt)
  {
    forall x: Scored ensures !RankLt(x, x) {
      LexIrreflexive(x.product.partNo);
    }
    forall x: Scored, y: Scored, z: Scored | RankLt(x, y) && RankLt(y, z) ensures RankLt(x, z) {
      if x.score == y.score == z.score {
        LexTransitive(x.product.partNo, y.product.partNo, z.product.partNo);
      }
    }
    forall x: Product ensures !PartLt(x, x) {
      LexIrreflexive(x.partNo);
    }
    forall x: Product, y: Product, z: Product | PartLt(x, y) && PartLt(y, z) ensures PartLt(x, z) {
      LexTransitive(x.partNo, y.partNo, z.partNo);
    }
  }

  lemma {:induction false} RowsOf(corpus: seq<Product>, f: Filters)
    ensures forall p :: p in Rows(corpus, f) <==> p in corpus && Passes(f, p)
    ensures UniqueParts(corpus) ==> UniqueParts(Rows(corpus, f))
  {
    if corpus != [] {
      var n := |corpus| - 1;
      RowsOf(corpus[..n], f);
      assert corpus == corpus[..n] + [corpus[n]];
      var rows := Rows(corpus[..n], f);
      forall i | 0 <= i < |rows| && UniqueParts(corpus) ensures rows[i].partNo != corpus[n].partNo {
        assert rows[i] in corpus[..n];
      }
    }
  }

  lemma {:induction false} HitsOf(e: Engine, st: Settings, query: string, scale: real, rows: seq<Product>)
    requires scale != 0.0
    ensures var hits := Hits(e, st, query, scale, rows);
      && (forall h :: h in hits <==>
            h.product in rows && Matches(e, st, query, h.product) && h.score == Score(e, st, query, scale, h.product))
      && (UniqueParts(rows) ==> UniqueParts(Products(hits)))
  {
    if rows != [] {
      var n := |rows| - 1;
      HitsOf(e, st, query, scale, rows[..n]);
      assert rows == rows[..n] + [rows[n]];
      var hits := Hits(e, st, query, scale, rows[..n]);
      forall i | 0 <= i < |hits| && UniqueParts(rows) ensures hits[i].product.partNo != rows[n].partNo {
        assert hits[i] in hits;
        assert hits[i].product in rows[..n];
      }
      forall i, j | 0 <= i < j < |Hits(e, st, query, scale, rows)| && UniqueParts(rows)
        ensures Hits(e, st, query, scale, rows)[i].product.partNo != Hits(e, st, query, scale, rows)[j].product.partNo
      {
        if j < |hits| {
          assert Products(hits)[i].partNo != Products(hits)[j].partNo;
        }
      }
    }
  }

  lemma PartsSeparate(s: seq<Product>)
    requires UniqueParts(s)
    ensures Separates(PartLt, s)
  {
    forall i, j | 0 <= i < j < |s| ensures PartLt(s[i], s[j]) || PartLt(s[j], s[i]) {
      LexConnected(s[i].partNo, s[j].partNo);
    }
  }

  lemma HitsSeparate(s: seq<Scored>)
    requires UniqueParts(Products(s))
    ensures Separates(RankLt, s)
  {
    forall i, j | 0 <= i < j < |s| ensures RankLt(s[i], s[j]) || RankLt(s[j], s[i]) {
      assert Products(s)[i].partNo != Products(s)[j].partNo;
      LexConnected(s[i].product.partNo, s[j].product.partNo);
    }
  }

  lemma {:induction false} MaxRankIs(e: Engine, query: string, rows: seq<Product>)
    requires rows != []
    ensures exists p :: p in rows && e.lexRank(query, p) == MaxRank(e, query, rows)
    ensures forall p :: p in rows ==> e.lexRank(query, p) <= MaxRank(e, query, rows)
  {
    var n := |rows| - 1;
    assert rows == rows[..n] + [rows[n]];
    assert rows[n] in rows;
    if n > 0 {
      MaxRankIs(e, query, rows[..n]);
      var p :| p in rows[..n] && e.lexRank(query, p) == MaxRank(e, query, rows[..n]);
      assert p in rows;
    }
  }

  lemma SameMaxRank(e: Engine, query: string, a: seq<Product>, b: seq<Product>)
    requires forall p :: p in a <==> p in b
    ensures MaxRank(e, query, a) == MaxRank(e, query, b)
  {
    HasFirst(a);
    HasFirst(b);
    if a != [] && b != [] {
      MaxRankIs(e, query, a);
      MaxRankIs(e, query, b);
    }
  }

  // The ranking is sorted, and lists each hit once.
  lemma RankingSorted(e: Engine, st: Settings, corpus: seq<Product>, query: string, f: Filters)
    requires UniqueParts(corpus)
    ensures Sorted(RankLt, Ranking(e, st, corpus, query, f)) && Sorted(PartLt, Browse(corpus, f))
    ensures forall p :: p in Browse(corpus, f) <==> p in corpus && Passes(f, p)
    ensures forall h :: h in Ranking(e, st, corpus, query, f) <==>
      && h.product in corpus && Passes(f, h.product) && Matches(e, st, query, h.product)
      && h.score == Score(e, st, query, RankScale(e, query, Rows(corpus, f)), h.product)
  {
    var rows := Rows(corpus, f);
    var hits := Hits(e, st, query, RankScale(e, query, rows), rows);
    RankOrder();
    RowsOf(corpus, f);
    HitsOf(e, st, query, RankScale(e, query, rows), rows);
    PartsSeparate(rows);
    HitsSeparate(hits);
    SortSorts(PartLt, rows);
    SortElements(PartLt, rows);
    SortSorts(RankLt, hits);
    SortElements(RankLt, hits);
  }

  /** Canonical ranking: one listing, scores included, however the database orders its rows. */
  lemma RankingRowOrder(
      e: Engine, st: Settings, corpus: seq<Product>, corpus': seq<Product>, query: string, f: Filters)
    requires UniqueParts(corpus) && UniqueParts(corpus') && forall p :: p in corpus <==> p in corpus'
    ensures Ranking(e, st, corpus, query, f) == Ranking(e, st, corpus', query, f)
    ensures Browse(corpus, f) == Browse(corpus', f)
  {
    RankingSorted(e, st, corpus, query, f);
    RankingSorted(e, st, corpus', query, f);
    RankOrder();
    RowsOf(corpus, f);
    RowsOf(corpus', f);
    SameMaxRank(e, query, Rows(corpus, f), Rows(corpus', f));
    SortedListingIsUnique(PartLt, Browse(corpus, f), Browse(corpus', f));
    SortedListingIsUnique(RankLt, Ranking(e, st, corpus, query, f), Ranking(e, st, corpus', query, f));
  }

  /** So the whole answer, page and facets included, is the same for every order of the rows. */
  lemma RowOrderIrrelevant(
      e: Engine, st: Settings, corpus: seq<Product>, corpus': seq<Product>, query: string, f: Filters,
      limit: nat, offset: nat, out: Outcome, out': Outcome)
    requires UniqueParts(corpus) && UniqueParts(corpus') && forall p :: p in corpus <==> p in corpus'
    requires Answers(e, st, corpus, query, f, limit, offset, out)
    requires Answers(e, st, corpus', query, f, limit, offset, out')
    ensures out == out'
  {
    RankingRowOrder(e, st, corpus, corpus', query, f);
    var matched := if Strip(query) == [] then Browse(corpus, f) else Products(Ranking(e, st, corpus, query, f));
    FacetIsUnique(matched, Category, out.facets[Category], out'.facets[Category]);
    FacetIsUnique(matched, Brand, out.facets[Brand], out'.facets[Brand]);
    FacetIsUnique(matched, Material, out.facets[Material], out'.facets[Material]);
    assert out.facets == out'.facets;
  }

  // ---- pages ---------------------------------------------------------------------------------

  // Where page n starts: 0, limit, 2 * limit, ...
  function Offset(n: nat, limit: nat): nat {
    if n == 0 then 0 else Offset(n - 1, limit) + limit
  }

  lemma {:induction false} OffsetIs(n: nat, limit: nat)
    ensures Offset(n, limit) == n * limit
  {
    if n > 0 {
      OffsetIs(n - 1, limit);
      assert n * limit == (n - 1) * limit + limit;
    }
  }

  // The first k pages of `limit` results, one after the other.
  function Pages<T>(s: seq<T>, limit: nat, k: nat): seq<T> {
    if k == 0 then [] else Pages(s, limit, k - 1) + Page(s, Offset(k - 1, limit), limit)
  }

  lemma {:induction false} PagesArePrefix<T>(s: seq<T>, limit: nat, k: nat)
    ensures Pages(s, limit, k) == FirstResults(s, Offset(k, limit))
  {
    if k > 0 {
      PagesArePrefix(s, limit, k - 1);
      NextPage(s, Offset(k - 1, limit), limit);
    }
  }

  function FirstResults<T>(s: seq<T>, n: nat): seq<T> { if n <= |s| then s[..n] else s }

  lemma NextPage<T>(s: seq<T>, offset: nat, limit: nat)
    ensures FirstResults(s, offset) + Page(s, offset, limit) == FirstResults(s, offset + limit)
  {
  }

  // No product is listed twice.
  lemma RankingUnique(e: Engine, st: Settings, corpus: seq<Product>, query: string, f: Filters)
    requires UniqueParts(corpus)
    ensures UniqueParts(Products(Ranking(e, st, corpus, query, f))) && UniqueParts(Browse(corpus, f))
  {
    RankingSorted(e, st, corpus, query, f);
    var ranking, all := Ranking(e, st, corpus, query, f), Browse(corpus, f);
    forall i, j | 0 <= i < j < |ranking| ensures ranking[i].product.partNo != ranking[j].product.partNo {
      assert RankLt(ranking[i], ranking[j]);
      assert ranking[i] in ranking && ranking[j] in ranking;
      if ranking[i].product.partNo == ranking[j].product.partNo {
        SamePart(corpus, ranking[i].product, ranking[j].product);
        LexIrreflexive(ranking[i].product.partNo);
      }
    }
    forall i, j | 0 <= i < j < |all| ensures all[i].partNo != all[j].partNo {
      assert PartLt(all[i], all[j]);
      LexIrreflexive(all[i].partNo);
    }
  }

  lemma SamePart(corpus: seq<Product>, p: Product, q: Product)
    requires UniqueParts(corpus) && p in corpus && q in corpus && p.partNo == q.partNo
    ensures p == q
  {
  }

  // All results of a search, of which pages are shown.
  ghost function Listing(e: Engine, st: Settings, corpus: seq<Product>, query: string, f: Filters): seq<SearchResult> {
    if Strip(query) == [] then Listed(Browse(corpus, f)) else Present(e, Ranking(e, st, corpus, query, f))
  }

  lemma ListingRowOrder(
      e: Engine, st: Settings, corpus: seq<Product>, stored: seq<Product>, query: string, f: Filters)
    requires UniqueParts(corpus) && UniqueParts(stored) && forall p :: p in stored <==> p in corpus
    ensures Listing(e, st, stored, query, f) == Listing(e, st, corpus, query, f)
  {
    RankingRowOrder(e, st, stored, corpus, query, f);
  }

  lemma PageOfMapped<T, U>(s: seq<T>, m: seq<U>, offset: nat, limit: nat)
    requires |s| == |m|
    ensures |Page(s, offset, limit)| == |Page(m, offset, limit)|
    ensures forall i :: 0 <= i < |Page(s, offset, limit)| ==>
      Page(s, offset, limit)[i] == s[offset + i] && Page(m, offset, limit)[i] == m[offset + i]
  {
  }

  lemma AnswerIsPage(
      e: Engine, st: Settings, stored: seq<Product>, query: string, f: Filters, limit: nat, offset: nat, out: Outcome)
    requires Answers(e, st, stored, query, f, limit, offset, out)
    ensures out.total == |Listing(e, st, stored, query, f)|
    ensures out.results == Page(Listing(e, st, stored, query, f), offset, limit)
  {
    if Strip(query) == [] {
      PageOfMapped(Browse(stored, f), Listing(e, st, stored, query, f), offset, limit);
    } else {
      PageOfMapped(Ranking(e, st, stored, query, f), Listing(e, st, stored, query, f), offset, limit);
    }
  }

  // out answers the search at an offset, with the rows of corpus in the order of stored.
  ghost predicate IsPage(
      e: Engine, st: Settings, corpus: seq<Product>, query: string, f: Filters, limit: nat, offset: nat,
      stored: seq<Product>, out: Outcome)
  {
    && UniqueParts(stored) && (forall p :: p in stored <==> p in corpus)
    && Answers(e, st, stored, query, f, limit, offset, out)
  }

  lemma PageResults(
      e: Engine, st: Settings, corpus: seq<Product>, query: string, f: Filters, limit: nat, offset: nat,
      stored: seq<Product>, out: Outcome)
    requires UniqueParts(corpus) && IsPage(e, st, corpus, query, f, limit, offset, stored, out)
    ensures out.total == |Listing(e, st, corpus, query, f)|
    ensures out.results == Page(Listing(e, st, corpus, query, f), offset, limit)
  {
    ListingRowOrder(e, st, corpus, stored, query, f);
    AnswerIsPage(e, st, stored, query, f, limit, offset, out);
  }

  // Searches for the pages 0, 1, 2, ..., each with the rows in an order of its own.
  ghost predicate ArePages(
      e: Engine, st: Settings, corpus: seq<Product>, query: string, f: Filters, limit: nat,
      stored: seq<seq<Product>>, outs: seq<Outcome>)
  {
    && |stored| == |outs|
    && forall n: nat :: n < |outs| ==> IsPage(e, st, corpus, query, f, limit, Offset(n, limit), stored[n], outs[n])
  }

  function Joined(outs: seq<Outcome>): seq<SearchResult> {
    if outs == [] then [] else Joined(outs[..|outs| - 1]) + outs[|outs| - 1].results
  }

  lemma {:induction false} JoinedPages(
      e: Engine, st: Settings, corpus: seq<Product>, query: string, f: Filters, limit: nat,
      stored: seq<seq<Product>>, outs: seq<Outcome>)
    requires UniqueParts(corpus) && ArePages(e, st, corpus, query, f, limit, stored, outs)
    ensures Joined(outs) == Pages(Listing(e, st, corpus, query, f), limit, |outs|)
    decreases |outs|
  {
    if outs != [] {
      var n := |outs| - 1;
      JoinedPages(e, st, corpus, query, f, limit, stored[..n], outs[..n]);
      PageResults(e, st, corpus, query, f, limit, Offset(n, limit), stored[n], outs[n]);
    }
  }

  lemma PageTotal(
      e: Engine, st: Settings, corpus: seq<Product>, query: string, f: Filters, limit: nat,
      stored: seq<seq<Product>>, outs: seq<Outcome>, n: nat)
    requires UniqueParts(corpus) && ArePages(e, st, corpus, query, f, limit, stored, outs) && n < |outs|
    ensures outs[n].total == |Listing(e, st, corpus, query, f)|
  {
    PageResults(e, st, corpus, query, f, limit, Offset(n, limit), stored[n], outs[n]);
  }

  // No part number occurs twice.
  ghost predicate NoRepeats(results: seq<SearchResult>) {
    forall i, j :: 0 <= i < j < |results| ==> results[i].product.partNo != results[j].product.partNo
  }

  lemma JoinedSlices(all: seq<SearchResult>, limit: nat, k: nat)
    requires NoRepeats(all)
    ensures NoRepeats(Pages(all, limit, k))
    ensures Pages(all, limit, k) == all <==> k * limit >= |all|
  {
    PagesArePrefix(all, limit, k);
    OffsetIs(k, limit);
  }

  lemma ListingUnique(e: Engine, st: Settings, corpus: seq<Product>, query: string, f: Filters)
    requires UniqueParts(corpus)
    ensures NoRepeats(Listing(e, st, corpus, query, f))
  {
    RankingUnique(e, st, corpus, query, f);
    var all := Products(Ranking(e, st, corpus, query, f));
    forall i, j | 0 <= i < j < |Listing(e, st, corpus, query, f)|
      ensures Listing(e, st, corpus, query, f)[i].product.partNo != Listing(e, st, corpus, query, f)[j].product.partNo
    {
      assert Strip(query) != [] ==> all[i].partNo != all[j].partNo;
    }
  }

  /**
   Pages partition the ranking: the results of separate searches at offsets 0, limit,
   2 * limit, ..., each of which may see the rows in another order, never repeat a product,
   and joined they are the full listing exactly when they are enough to reach its end,
   which is the total that every one of them reports.
   */
  lemma PagesPartition(
      e: Engine, st: Settings, corpus: seq<Product>, query: string, f: Filters, limit: nat,
      stored: seq<seq<Product>>, outs: seq<Outcome>)
    requires UniqueParts(corpus) && ArePages(e, st, corpus, query, f, limit, stored, outs)
    ensures forall n: nat :: n < |outs| ==> outs[n].total == |Listing(e, st, corpus, query, f)|
    ensures NoRepeats(Joined(outs))
    ensures Joined(outs) == Listing(e, st, corpus, query, f) <==>
      |outs| * limit >= |Listing(e, st, corpus, query, f)|
  {
    forall n: nat | n < |outs| ensures outs[n].total == |Listing(e, st, corpus, query, f)| {
      PageTotal(e, st, corpus, query, f, limit, stored, outs, n);
    }
    JoinedPages(e, st, corpus, query, f, limit, stored, outs);
    ListingUnique(e, st, corpus, query, f);
    JoinedSlices(Listing(e, st, corpus, query, f), limit, |outs|);
  }

  // ---- scores ----------------------------------------------------------------------------------

  lemma {:induction false} SumBestBound(e: Engine, qs: seq<string>, ts: set<string>)
    requires EngineOk(e) && ts != {}
    ensures 0.0 <= SumBest(e, qs, ts) <= 100.0 * |qs| as real
  {
    if qs != [] {
      var n := |qs| - 1;
      SumBestBound(e, qs[..n], ts);
      assert IsBest(e, qs[n], ts, Best(e, qs[n], ts));
      assert 100.0 * (n + 1) as real == 100.0 * n as real + 100.0;
    }
  }

  lemma AverageBound(sum: real, n: nat)
    requires n > 0 && 0.0 <= sum <= 100.0 * n as real
    ensures 0.0 <= sum / n as real <= 100.0
  {
    var d := n as real;
    assert sum / d >= 0.0;
    assert (100.0 * d) / d == 100.0;
    assert sum / d <= (100.0 * d) / d;
  }

  /** The fuzzy score is in [0, 100]. */
  lemma FuzzyBound(e: Engine, query: string, text: string)
    requires EngineOk(e)
    ensures 0.0 <= Fuzzy(e, query, text) <= 100.0
  {
    var qs, ts := e.tokens(query), TokenSet(e, text);
    if qs != [] && ts != {} {
      SumBestBound(e, qs, ts);
      AverageBound(SumBest(e, qs, ts), |qs|);
    }
  }

  lemma {:induction false} SumBestWithout(e: Engine, qs: seq<string>, ts: set<string>, i: nat)
    requires ts != {} && i < |qs|
    ensures SumBest(e, qs, ts) == SumBest(e, qs[..i] + qs[i + 1..], ts) + Best(e, qs[i], ts)
    decreases |qs|
  {
    var n := |qs| - 1;
    var without := qs[..i] + qs[i + 1..];
    if i == n {
      assert without == qs[..n];
    } else {
      SumBestWithout(e, qs[..n], ts, i);
      assert qs[..n][..i] + qs[..n][i + 1..] == without[..n - 1];
    }
  }

  lemma MultisetWithout(b: seq<string>, i: nat)
    requires i < |b|
    ensures multiset(b[..i] + b[i + 1..]) == multiset(b) - multiset{b[i]}
  {
    assert b == b[..i] + [b[i]] + b[i + 1..];
  }

  lemma {:induction false} SumBestPermuted(e: Engine, a: seq<string>, b: seq<string>, ts: set<string>)
    requires ts != {} && multiset(a) == multiset(b)
    ensures SumBest(e, a, ts) == SumBest(e, b, ts)
    decreases |a|
  {
    if a == [] {
      assert |b| == |multiset(b)| == |multiset(a)|;
    } else {
      var n := |a| - 1;
      assert a == a[..n] + [a[n]];
      assert a[n] in multiset(b);
      var i :| 0 <= i < |b| && b[i] == a[n];
      var without := b[..i] + b[i + 1..];
      MultisetWithout(b, i);
      assert multiset(without) == multiset(a[..n]);
      SumBestWithout(e, b, ts, i);
      SumBestPermuted(e, a[..n], without, ts);
    }
  }

  /** It does not depend on the order of the query's tokens, nor on order or repetition in the text. */
  lemma FuzzyOrderIrrelevant(e: Engine, query: string, query': string, text: string, text': string)
    requires multiset(e.tokens(query)) == multiset(e.tokens(query'))
    requires forall t :: t in e.tokens(text) <==> t in e.tokens(text')
    ensures Fuzzy(e, query, text) == Fuzzy(e, query', text')
  {
    var a, b := e.tokens(query), e.tokens(query');
    assert |a| == |multiset(a)| == |multiset(b)| == |b|;
    assert TokenSet(e, text) == TokenSet(e, text');
    if a != [] && TokenSet(e, text) != {} {
      SumBestPermuted(e, a, b, TokenSet(e, text));
    }
  }

  lemma LexNormBound(e: Engine, query: string, rows: seq<Product>, p: Product)
    requires EngineOk(e) && p in rows
    ensures 0.0 <= LexNorm(e, query, RankScale(e, query, rows), p) <= 1.0
    ensures RankScale(e, query, rows) > 0.0
  {
    MaxRankIs(e, query, rows);
    var m, r := RankScale(e, query, rows), e.lexRank(query, p);
    assert 0.0 <= r <= m && m > 0.0;
    Share(r, m);
  }

  lemma Share(r: real, m: real)
    requires 0.0 <= r <= m && m > 0.0
    ensures 0.0 <= r / m <= 1.0
  {
    assert (r / m) * m == r;
  }

  // A hit that only the misspelling pass found.
  ghost predicate FuzzyOnly(e: Engine, query: string, p: Product) { !e.lexMatch(query, p) }

  ghost predicate WeightsOk(st: Settings) {
    st.weightLexical >= 0.0 && st.weightFuzzy >= 0.0
  }

  lemma ScaleBound(w: real, x: real)
    requires w >= 0.0 && 0.0 <= x <= 1.0
    ensures 0.0 <= w * x <= w
  {
  }

  lemma BlendBound(st: Settings, lexNorm: real, fuzzy: real)
    requires WeightsOk(st) && 0.0 <= lexNorm <= 1.0 && 0.0 <= fuzzy <= 100.0
    ensures st.weightLexical * lexNorm <= Blend(st, lexNorm, fuzzy) <= st.weightLexical * lexNorm + st.weightFuzzy
    ensures 0.0 <= st.weightLexical * lexNorm <= st.weightLexical
    ensures fuzzy >= st.fuzzyMin ==> Blend(st, lexNorm, fuzzy) >= st.weightFuzzy * (st.fuzzyMin / 100.0)
  {
    ScaleBound(st.weightLexical, lexNorm);
    ScaleBound(st.weightFuzzy, fuzzy / 100.0);
    if fuzzy >= st.fuzzyMin {
      assert st.weightFuzzy * (fuzzy / 100.0 - st.fuzzyMin / 100.0) >= 0.0;
    }
  }

  // What the weights make of a hit with this share of the best rank.
  ghost predicate ScoreWithin(st: Settings, score: real, share: real, fuzzyOnly: bool) {
    && 0.0 <= share <= 1.0
    && st.weightLexical * share <= score <= st.weightLexical * share + st.weightFuzzy
    && 0.0 <= st.weightLexical * share <= st.weightLexical
    && (fuzzyOnly ==> st.weightFuzzy * (st.fuzzyMin / 100.0) <= score <= st.weightFuzzy)
  }

  lemma BlendWithin(st: Settings, lexNorm: real, fuzzy: real, fuzzyOnly: bool)
    requires WeightsOk(st) && 0.0 <= lexNorm <= 1.0 && 0.0 <= fuzzy <= 100.0
    requires fuzzyOnly ==> lexNorm == 0.0 && fuzzy >= st.fuzzyMin
    ensures ScoreWithin(st, Blend(st, lexNorm, fuzzy), lexNorm, fuzzyOnly)
  {
    BlendBound(st, lexNorm, fuzzy);
  }

  lemma RowFuzzyBound(e: Engine, st: Settings, query: string, p: Product)
    requires EngineOk(e) && Strip(query) != [] && Matches(e, st, query, p)
    ensures 0.0 <= RowFuzzy(e, query, p) <= 100.0
    ensures FuzzyOnly(e, query, p) ==> RowFuzzy(e, query, p) >= st.fuzzyMin
  {
    FuzzyBound(e, Strip(query), SearchableText(p));
  }

  lemma RowScore(e: Engine, st: Settings, query: string, rows: seq<Product>, p: Product)
    requires EngineOk(e) && WeightsOk(st) && Strip(query) != [] && p in rows && Matches(e, st, query, p)
    ensures RankScale(e, query, rows) > 0.0
    ensures var scale := RankScale(e, query, rows);
      ScoreWithin(st, Score(e, st, query, scale, p), LexNorm(e, query, scale, p), FuzzyOnly(e, query, p))
  {
    RowFuzzyBound(e, st, query, p);
    LexNormBound(e, query, rows, p);
    var lexNorm := LexNorm(e, query, RankScale(e, query, rows), p);
    BlendWithin(st, lexNorm, RowFuzzy(e, query, p), FuzzyOnly(e, query, p));
  }

  /**
   A hit scores its weighted share of the best rank and up to the fuzzy weight more; one
   that only the misspelling pass found scores between its threshold and its weight.
   */
  lemma HitScore(e: Engine, st: Settings, corpus: seq<Product>, query: string, f: Filters, h: Scored)
    requires EngineOk(e) && WeightsOk(st) && UniqueParts(corpus) && Strip(query) != []
    requires h in Ranking(e, st, corpus, query, f)
    ensures RankScale(e, query, Rows(corpus, f)) > 0.0
    ensures var scale := RankScale(e, query, Rows(corpus, f));
      ScoreWithin(st, h.score, LexNorm(e, query, scale, h.product), FuzzyOnly(e, query, h.product))
  {
    RankingSorted(e, st, corpus, query, f);
    RowsOf(corpus, f);
    RowScore(e, st, query, Rows(corpus, f), h.product);
  }

  /** Scores never rise along the ranking, not even after rounding. */
  lemma ScoresNeverRise(e: Engine, st: Settings, corpus: seq<Product>, query: string, f: Filters, i: nat, j: nat)
    requires EngineOk(e) && UniqueParts(corpus) && i < j < |Ranking(e, st, corpus, query, f)|
    ensures var ranking := Ranking(e, st, corpus, query, f);
      ranking[i].score >= ranking[j].score && e.round4(ranking[i].score) >= e.round4(ranking[j].score)
  {
    RankingSorted(e, st, corpus, query, f);
    assert RankLt(Ranking(e, st, corpus, query, f)[i], Ranking(e, st, corpus, query, f)[j]);
  }

  /** With the default weights: scores in [0, 1], and misspelling-only hits in [0.18, 0.3]. */
  lemma DefaultScores(e: Engine, corpus: seq<Product>, query: string, f: Filters, h: Scored)
    requires EngineOk(e) && UniqueParts(corpus) && Strip(query) != []
    requires h in Ranking(e, DEFAULTS, corpus, query, f)
    ensures 0.0 <= h.score <= 1.0
    ensures FuzzyOnly(e, query, h.product) ==> 0.18 <= h.score <= 0.3
  {
    HitScore(e, DEFAULTS, corpus, query, f, h);
  }

  // The hit's share of the best rank outweighs any misspelling.
  predicate Strong(e: Engine, st: Settings, query: string, scale: real, p: Product)
    requires scale != 0.0
  {
    Outweighs(st, LexNorm(e, query, scale, p))
  }

  predicate Outweighs(st: Settings, share: real) { st.weightLexical * share > st.weightFuzzy }

  lemma StrongScore(st: Settings, score: real, share: real, fuzzyOnly: bool)
    requires ScoreWithin(st, score, share, fuzzyOnly) && Outweighs(st, share)
    ensures score > st.weightFuzzy
  {
  }

  lemma StrongHitScore(e: Engine, st: Settings, corpus: seq<Product>, query: string, f: Filters, h: Scored)
    requires EngineOk(e) && WeightsOk(st) && UniqueParts(corpus) && Strip(query) != []
    requires h in Ranking(e, st, corpus, query, f)
    requires RankScale(e, query, Rows(corpus, f)) != 0.0
    requires Strong(e, st, query, RankScale(e, query, Rows(corpus, f)), h.product)
    ensures h.score > st.weightFuzzy
  {
    HitScore(e, st, corpus, query, f, h);
    var share := LexNorm(e, query, RankScale(e, query, Rows(corpus, f)), h.product);
    StrongScore(st, h.score, share, FuzzyOnly(e, query, h.product));
  }

  lemma HigherScoreFirst(ranking: seq<Scored>, i: nat, j: nat)
    requires Sorted(RankLt, ranking) && i < |ranking| && j < |ranking| && ranking[i].score > ranking[j].score
    ensures i < j
  {
  }

  /** A strong lexical hit precedes every hit that only the misspelling pass found. */
  lemma StrongLexicalHitFirst(e: Engine, st: Settings, corpus: seq<Product>, query: string, f: Filters, i: nat, j: nat)
    requires EngineOk(e) && WeightsOk(st) && UniqueParts(corpus) && Strip(query) != []
    requires i < |Ranking(e, st, corpus, query, f)| && j < |Ranking(e, st, corpus, query, f)|
    requires RankScale(e, query, Rows(corpus, f)) != 0.0
    requires Strong(e, st, query, RankScale(e, query, Rows(corpus, f)), Ranking(e, st, corpus, query, f)[i].product)
    requires FuzzyOnly(e, query, Ranking(e, st, corpus, query, f)[j].product)
    ensures i < j
  {
    StrongHitScore(e, st, corpus, query, f, Ranking(e, st, corpus, query, f)[i]);
    HitScore(e, st, corpus, query, f, Ranking(e, st, corpus, query, f)[j]);
    RankingSorted(e, st, corpus, query, f);
    HigherScoreFirst(Ranking(e, st, corpus, query, f), i, j);
  }

  lemma ThreeSevenths(r: real, scale: real)
    requires scale > 0.0
    ensures DEFAULTS.weightLexical * (r / scale) > DEFAULTS.weightFuzzy <==> r > 3.0 / 7.0 * scale
  {
    assert (r / scale) * scale == r;
    assert 7.0 * (r / scale) > 3.0 <==> (7.0 * (r / scale)) * scale > 3.0 * scale;
  }

  lemma AboveThreeSevenths(e: Engine, query: string, rows: seq<Product>, p: Product)
    requires EngineOk(e) && p in rows && e.lexMatch(query, p)
    requires e.lexRank(query, p) > 3.0 / 7.0 * MaxRank(e, query, rows)
    ensures var scale := RankScale(e, query, rows); scale > 0.0 && Strong(e, DEFAULTS, query, scale, p)
  {
    LexNormBound(e, query, rows, p);
    MaxRankIs(e, query, rows);
    ThreeSevenths(e.lexRank(query, p), RankScale(e, query, rows));
  }

  /**
   With the default weights, a lexical hit that ranks above 3/7 of the best lexical rank
   precedes every hit that only the misspelling pass found.
   */
  lemma ThreeSeventhsSuffice(e: Engine, corpus: seq<Product>, query: string, f: Filters, i: nat, j: nat)
    requires EngineOk(e) && UniqueParts(corpus) && Strip(query) != []
    requires i < |Ranking(e, DEFAULTS, corpus, query, f)| && j < |Ranking(e, DEFAULTS, corpus, query, f)|
    requires var p := Ranking(e, DEFAULTS, corpus, query, f)[i].product;
      e.lexMatch(query, p) && e.lexRank(query, p) > 3.0 / 7.0 * MaxRank(e, query, Rows(corpus, f))
    requires !e.lexMatch(query, Ranking(e, DEFAULTS, corpus, query, f)[j].product)
    ensures i < j
  {
    var hit := Ranking(e, DEFAULTS, corpus, query, f)[i];
    assert hit in Ranking(e, DEFAULTS, corpus, query, f);
    RankingSorted(e, DEFAULTS, corpus, query, f);
    RowsOf(corpus, f);
    AboveThreeSevenths(e, query, Rows(corpus, f), hit.product);
    StrongLexicalHitFirst(e, DEFAULTS, corpus, query, f, i, j);
  }
}
