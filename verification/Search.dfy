/** The search pipeline: filter, match, score, sort, facet, page. */
module Search {
  import opened Wrappers
  import opened Text
  import opened Attrs
  import opened Sorting
  import opened Facets

  // The libraries the pipeline calls.
  datatype Engine = Engine(
    lexRank: (string, Product) -> real,    // ts_rank
    lexMatch: (string, Product) -> bool,   // search_vector @@ query
    ratio: (string, string) -> real,       // rapidfuzz.fuzz.ratio
    tokens: string -> seq<string>,         // lower-case words between white space
    round4: real -> real)                  // to four decimals

  ghost predicate EngineOk(e: Engine) {
    && (forall q, p :: e.lexRank(q, p) >= 0.0)
    && (forall a, b :: 0.0 <= e.ratio(a, b) <= 100.0)
    && (forall x, y :: x <= y ==> e.round4(x) <= e.round4(y))
  }

  datatype Settings = Settings(weightLexical: real, weightFuzzy: real, fuzzyMin: real)

  const DEFAULTS := Settings(0.7, 0.3, 60.0)

  datatype Filters = Filters(
    category: Option<string>, brand: Option<string>, material: Option<string>,
    attrs: seq<Attr>)

  // ---- filters ------------------------------------------------------------------------

  datatype Clause = Column(dim: Dim, value: string) | HasAttribute(key: string, value: string)

  predicate Holds(c: Clause, p: Product) {
    match c
    case Column(dim, value) => Value(p, dim) == value
    case HasAttribute(key, value) => key in p.attributes && p.attributes[key] == value
  }

  function Wanted(f: Filters, dim: Dim): Option<string> {
    match dim
    case Category => f.category
    case Brand => f.brand
    case Material => f.material
  }

  // None and "" both leave a dimension unfiltered.
  predicate Unset(v: Option<string>) { v.None? || v.value == "" }

  predicate Passes(f: Filters, p: Product) {
    && (forall dim :: Unset(Wanted(f, dim)) || Value(p, dim) == Wanted(f, dim).value)
    && (forall a :: a in f.attrs ==> a.key in p.attributes && p.attributes[a.key] == a.value)
  }

  /** A product passes when each column that is filtered has the value asked for, and each attribute too. */
  lemma PassesMeans(f: Filters, p: Product)
    ensures Passes(f, p) <==>
      && (f.category.None? || f.category.value == "" || p.category == f.category.value)
      && (f.brand.None? || f.brand.value == "" || p.brand == f.brand.value)
      && (f.material.None? || f.material.value == "" || p.material == f.material.value)
      && (forall i :: 0 <= i < |f.attrs| ==>
            f.attrs[i].key in p.attributes && p.attributes[f.attrs[i].key] == f.attrs[i].value)
  {
    assert Wanted(f, Category) == f.category && Wanted(f, Brand) == f.brand && Wanted(f, Material) == f.material;
    assert Value(p, Category) == p.category && Value(p, Brand) == p.brand && Value(p, Material) == p.material;
    if Passes(f, p) {
      forall i | 0 <= i < |f.attrs|
        ensures f.attrs[i].key in p.attributes && p.attributes[f.attrs[i].key] == f.attrs[i].value
      {
        assert f.attrs[i] in f.attrs;
      }
    }
  }

  predicate AllHold(clauses: seq<Clause>, p: Product) {
    forall c :: c in clauses ==> Holds(c, p)
  }

  // The clauses that the filters call for.
  predicate Required(f: Filters, c: Clause) {
    match c
    case Column(dim, value) => !Unset(Wanted(f, dim)) && Wanted(f, dim).value == value
    case HasAttribute(key, value) => Attr(key, value) in f.attrs
  }

  // How often: once for a dimension, and for an attribute as often as it was asked for.
  function Times(f: Filters, c: Clause): nat {
    match c
    case Column(_, _) => if Required(f, c) then 1 else 0
    case HasAttribute(key, value) => multiset(f.attrs)[Attr(key, value)]
  }

  function AttributeClauses(attrs: seq<Attr>): (clauses: seq<Clause>)
    ensures |clauses| == |attrs|
  {
    seq(|attrs|, i requires 0 <= i < |attrs| => HasAttribute(attrs[i].key, attrs[i].value))
  }

  lemma {:induction false} AttributeTimes(attrs: seq<Attr>, c: Clause)
    ensures multiset(AttributeClauses(attrs))[c] == if c.Column? then 0 else multiset(attrs)[Attr(c.key, c.value)]
  {
    if attrs != [] {
      var n := |attrs| - 1;
      AttributeTimes(attrs[..n], c);
      assert attrs == attrs[..n] + [attrs[n]];
      assert AttributeClauses(attrs)
          == AttributeClauses(attrs[..n]) + [HasAttribute(attrs[n].key, attrs[n].value)];
    }
  }

  method ColumnFilter(f: Filters) returns (clauses: seq<Clause>)
    ensures forall c :: multiset(clauses)[c] == if c.Column? then Times(f, c) else 0
  {
    clauses := [];
    if !Unset(f.category) {
      clauses := clauses + [Column(Category, f.category.value)];
    }
    if !Unset(f.brand) {
      clauses := clauses + [Column(Brand, f.brand.value)];
    }
    if !Unset(f.material) {
      clauses := clauses + [Column(Material, f.material.value)];
    }
  }

  method BuildFilter(f: Filters) returns (clauses: seq<Clause>)
    ensures forall c :: multiset(clauses)[c] == Times(f, c)
    ensures forall c :: c in clauses <==> Required(f, c)
  {
    var columns := ColumnFilter(f);
    clauses := columns;
    for i := 0 to |f.attrs|
      invariant clauses == columns + AttributeClauses(f.attrs[..i])
    {
      clauses := clauses + [HasAttribute(f.attrs[i].key, f.attrs[i].value)];
    }
    assert f.attrs[..|f.attrs|] == f.attrs;
    forall c ensures multiset(clauses)[c] == Times(f, c) && (c in clauses <==> Required(f, c)) {
      AttributeTimes(f.attrs, c);
      TimesRequired(f, c);
      assert c in clauses <==> multiset(clauses)[c] > 0;
    }
  }

  lemma TimesRequired(f: Filters, c: Clause)
    ensures Times(f, c) > 0 <==> Required(f, c)
  {
  }

  // The WHERE clause keeps exactly the rows the filters ask for.
  lemma ClausesMean(f: Filters, clauses: seq<Clause>, p: Product)
    requires forall c :: c in clauses <==> Required(f, c)
    ensures AllHold(clauses, p) <==> Passes(f, p)
    ensures AllHold(clauses, p) <==>
      && (f.category.None? || f.category.value == "" || p.category == f.category.value)
      && (f.brand.None? || f.brand.value == "" || p.brand == f.brand.value)
      && (f.material.None? || f.material.value == "" || p.material == f.material.value)
      && (forall i :: 0 <= i < |f.attrs| ==>
            f.attrs[i].key in p.attributes && p.attributes[f.attrs[i].key] == f.attrs[i].value)
  {
    PassesMeans(f, p);
    if AllHold(clauses, p) {
      forall dim | !Unset(Wanted(f, dim)) ensures Value(p, dim) == Wanted(f, dim).value {
        assert Holds(Column(dim, Wanted(f, dim).value), p);
      }
      forall a | a in f.attrs ensures a.key in p.attributes && p.attributes[a.key] == a.value {
        assert Required(f, HasAttribute(a.key, a.value));
        assert Holds(HasAttribute(a.key, a.value), p);
      }
    }
    if Passes(f, p) {
      forall c | Required(f, c) ensures Holds(c, p) {
        assert c.HasAttribute? ==> Attr(c.key, c.value) in f.attrs;
      }
    }
  }

  // The rows the query returns, in the order the database happens to give them.
  function Rows(corpus: seq<Product>, f: Filters): seq<Product> {
    if corpus == [] then []
    else
      var n := |corpus| - 1;
      Rows(corpus[..n], f) + if Passes(f, corpus[n]) then [corpus[n]] else []
  }

  method Fetch(corpus: seq<Product>, clauses: seq<Clause>, ghost f: Filters) returns (rows: seq<Product>)
    requires forall c :: c in clauses <==> Required(f, c)
    ensures rows == Rows(corpus, f)
  {
    rows := [];
    for i := 0 to |corpus|
      invariant rows == Rows(corpus[..i], f)
    {
      assert corpus[..i + 1][..i] == corpus[..i];
      ClausesMean(f, clauses, corpus[i]);
      if forall c | c in clauses :: Holds(c, corpus[i]) {
        rows := rows + [corpus[i]];
      }
    }
    assert corpus[..|corpus|] == corpus;
  }

  // ---- fuzzy score ----------------------------------------------------------------------

  ghost predicate IsBest(e: Engine, qt: string, ts: set<string>, m: real) {
    && (exists tt :: tt in ts && e.ratio(qt, tt) == m)
    && (forall tt :: tt in ts ==> e.ratio(qt, tt) <= m)
  }

  method MaxRatio(e: Engine, qt: string, ts: set<string>) returns (m: real)
    requires ts != {}
    ensures IsBest(e, qt, ts, m)
  {
    var tt :| tt in ts;
    m := e.ratio(qt, tt);
    var rest := ts - {tt};
    while rest != {}
      invariant rest <= ts && IsBest(e, qt, ts - rest, m)
      decreases rest
    {
      var next :| next in rest;
      var r := e.ratio(qt, next);
      ghost var seen := ts - rest;
      assert ts - (rest - {next}) == seen + {next};
      rest := rest - {next};
      if r > m {
        m := r;
      }
    }
    assert ts - {} == ts;
  }

  lemma {:induction false} BestExists(e: Engine, qt: string, ts: set<string>)
    requires ts != {}
    ensures exists m :: IsBest(e, qt, ts, m)
    decreases ts
  {
    var tt :| tt in ts;
    var rest := ts - {tt};
    if rest == {} {
      assert ts == {tt};
      assert IsBest(e, qt, ts, e.ratio(qt, tt));
    } else {
      BestExists(e, qt, rest);
      var m :| IsBest(e, qt, rest, m);
      assert ts == rest + {tt};
      assert IsBest(e, qt, ts, if m > e.ratio(qt, tt) then m else e.ratio(qt, tt));
    }
  }

  ghost function Best(e: Engine, qt: string, ts: set<string>): (m: real)
    requires ts != {}
    ensures IsBest(e, qt, ts, m)
  {
    BestExists(e, qt, ts);
    var m :| IsBest(e, qt, ts, m);
    m
  }

  lemma BestIsUnique(e: Engine, qt: string, ts: set<string>, m: real)
    requires ts != {} && IsBest(e, qt, ts, m)
    ensures m == Best(e, qt, ts)
  {
  }

  ghost function SumBest(e: Engine, qs: seq<string>, ts: set<string>): real
    requires ts != {}
  {
    if qs == [] then 0.0 else SumBest(e, qs[..|qs| - 1], ts) + Best(e, qs[|qs| - 1], ts)
  }

  function TokenSet(e: Engine, text: string): set<string> { set t | t in e.tokens(text) }

  ghost function TokenScore(e: Engine, qs: seq<string>, ts: set<string>): real {
    if qs == [] || ts == {} then 0.0 else SumBest(e, qs, ts) / |qs| as real
  }

  ghost function Fuzzy(e: Engine, query: string, text: string): real {
    TokenScore(e, e.tokens(query), TokenSet(e, text))
  }

  method FuzzyScore(e: Engine, query: string, text: string) returns (score: real)
    ensures score == Fuzzy(e, query, text)
  {
    var qs := e.tokens(query);
    var ts := TokenSet(e, text);
    if qs == [] || ts == {} {
      return 0.0;
    }
    var total := 0.0;
    for i := 0 to |qs|
      invariant total == SumBest(e, qs[..i], ts)
    {
      var best := MaxRatio(e, qs[i], ts);
      BestIsUnique(e, qs[i], ts, best);
      assert qs[..i + 1][..i] == qs[..i];
      total := total + best;
    }
    assert qs[..|qs|] == qs;
    return total / |qs| as real;
  }

  // ---- match and score --------------------------------------------------------------------

  function SearchableText(p: Product): string {
    p.name + " " + p.brand + " " + p.category + " " + p.subtype + " " + p.material + " " + p.attrText + " " + p.partNo
  }

  ghost function RowFuzzy(e: Engine, query: string, p: Product): real {
    Fuzzy(e, Strip(query), SearchableText(p))
  }

  // A row is a hit if the index matches it or its text is a plausible misspelling.
  ghost predicate Matches(e: Engine, st: Settings, query: string, p: Product) {
    Strip(query) == [] || e.lexMatch(query, p) || RowFuzzy(e, query, p) >= st.fuzzyMin
  }

  // The best lexical rank of the rows, 0 without rows.
  function MaxRank(e: Engine, query: string, rows: seq<Product>): real {
    if rows == [] then 0.0
    else
      var n := |rows| - 1;
      var r := e.lexRank(query, rows[n]);
      if n == 0 then r
      else
        var m := MaxRank(e, query, rows[..n]);
        if r > m then r else m
  }

  // What ranks are measured by; 1 where the best rank is 0.
  function RankScale(e: Engine, query: string, rows: seq<Product>): real {
    var m := MaxRank(e, query, rows);
    if m == 0.0 then 1.0 else m
  }

  function LexNorm(e: Engine, query: string, scale: real, p: Product): real
    requires scale != 0.0
  {
    if e.lexMatch(query, p) then e.lexRank(query, p) / scale else 0.0
  }

  function Blend(st: Settings, lexNorm: real, fuzzy: real): real {
    st.weightLexical * lexNorm + st.weightFuzzy * (fuzzy / 100.0)
  }

  ghost function Score(e: Engine, st: Settings, query: string, scale: real, p: Product): real
    requires scale != 0.0
  {
    Blend(st, LexNorm(e, query, scale, p), RowFuzzy(e, query, p))
  }

  datatype Scored = Scored(score: real, product: Product)

  ghost function Hits(e: Engine, st: Settings, query: string, scale: real, rows: seq<Product>): seq<Scored>
    requires scale != 0.0
  {
    if rows == [] then []
    else
      var n := |rows| - 1;
      Hits(e, st, query, scale, rows[..n]) +
      if Matches(e, st, query, rows[n]) then [Scored(Score(e, st, query, scale, rows[n]), rows[n])] else []
  }

  // Score descending, then part number.
  predicate RankLt(a: Scored, b: Scored) {
    a.score > b.score || (a.score == b.score && LexLt(a.product.partNo, b.product.partNo))
  }

  predicate PartLt(a: Product, b: Product) { LexLt(a.partNo, b.partNo) }

  // The full ranking: what pages are cut from.
  ghost function Ranking(e: Engine, st: Settings, corpus: seq<Product>, query: string, f: Filters): seq<Scored> {
    var rows := Rows(corpus, f);
    Sort(RankLt, Hits(e, st, query, RankScale(e, query, rows), rows))
  }

  function Browse(corpus: seq<Product>, f: Filters): seq<Product> { Sort(PartLt, Rows(corpus, f)) }

  function Page<T>(s: seq<T>, offset: nat, limit: nat): seq<T> {
    if offset >= |s| then []
    else if offset + limit >= |s| then s[offset..]
    else s[offset..offset + limit]
  }

  datatype SearchResult = SearchResult(product: Product, score: Option<real>)

  datatype Outcome = Outcome(query: string, total: nat, results: seq<SearchResult>, facets: map<Dim, seq<Entry>>)

  function Products(s: seq<Scored>): (r: seq<Product>)
    ensures |r| == |s|
  {
    seq(|s|, i requires 0 <= i < |s| => s[i].product)
  }

  function Present(e: Engine, s: seq<Scored>): (r: seq<SearchResult>)
    ensures |r| == |s|
  {
    seq(|s|, i requires 0 <= i < |s| => SearchResult(s[i].product, Some(e.round4(s[i].score))))
  }

  function Listed(s: seq<Product>): (r: seq<SearchResult>)
    ensures |r| == |s|
  {
    seq(|s|, i requires 0 <= i < |s| => SearchResult(s[i], None))
  }

  ghost predicate FacetsOf(rows: seq<Product>, facets: map<Dim, seq<Entry>>) {
    facets.Keys == {Category, Brand, Material} && forall dim :: dim in facets ==> IsFacet(rows, dim, facets[dim])
  }

  // What a search answers.
  ghost predicate Answers(
      e: Engine, st: Settings, corpus: seq<Product>, query: string, f: Filters, limit: nat, offset: nat, out: Outcome) {
    if Strip(query) == [] then
      var all := Browse(corpus, f);
      && out.query == [] && out.total == |all| && FacetsOf(all, out.facets)
      && out.results == Listed(Page(all, offset, limit))
    else
      var all := Ranking(e, st, corpus, query, f);
      && out.query == Strip(query) && out.total == |all| && FacetsOf(Products(all), out.facets)
      && out.results == Present(e, Page(all, offset, limit))
  }

  // One turn of the scoring loop; None where it skips the row.
  method ScoreRow(e: Engine, st: Settings, query: string, maxRank: real, row: Product) returns (r: Option<Scored>)
    requires maxRank != 0.0 && Strip(query) != []
    ensures r == if Matches(e, st, query, row) then Some(Scored(Score(e, st, query, maxRank, row), row)) else None
  {
    var fuzzy := FuzzyScore(e, Strip(query), SearchableText(row));
    if !e.lexMatch(query, row) && fuzzy < st.fuzzyMin {
      return None;
    }
    return Some(Scored(Blend(st, LexNorm(e, query, maxRank, row), fuzzy), row));
  }

  method ScoreRows(e: Engine, st: Settings, query: string, rows: seq<Product>, maxRank: real)
    returns (scored: seq<Scored>)
    requires maxRank != 0.0 && Strip(query) != []
    ensures scored == Hits(e, st, query, maxRank, rows)
  {
    scored := [];
    for i := 0 to |rows|
      invariant scored == Hits(e, st, query, maxRank, rows[..i])
    {
      assert rows[..i + 1][..i] == rows[..i];
      var r := ScoreRow(e, st, query, maxRank, rows[i]);
      if r.Some? {
        scored := scored + [r.value];
      }
    }
    assert rows[..|rows|] == rows;
  }

  method RunSearch(
      e: Engine, st: Settings, corpus: seq<Product>, query: string, f: Filters, limit: nat, offset: nat)
    returns (out: Outcome)
    ensures Answers(e, st, corpus, query, f, limit, offset, out)
  {
    var clauses := BuildFilter(f);
    var rows := Fetch(corpus, clauses, f);
    var text := Strip(query);
    if text == [] {
      var ordered := Sort(PartLt, rows);
      var facets := FacetCounts(ordered);
      return Outcome([], |ordered|, Listed(Page(ordered, offset, limit)), facets);
    }
    var maxRank := RankScale(e, query, rows);
    var scored := ScoreRows(e, st, query, rows, maxRank);
    scored := Sort(RankLt, scored);
    var facets := FacetCounts(Products(scored));
    return Outcome(text, |scored|, Present(e, Page(scored, offset, limit)), facets);
  }
}
