/** Facet counts over a result set. */
module Facets {
  import opened Sorting

  datatype Product = Product(
    id: int, partNo: string, name: string, brand: string, category: string, subtype: string,
    material: string, priceCents: int, leadTimeDays: int, description: string,
    attributes: map<string, string>, attrText: string)

  datatype Dim = Category | Brand | Material

  function Value(p: Product, dim: Dim): string {
    match dim
    case Category => p.category
    case Brand => p.brand
    case Material => p.material
  }

  datatype Entry = Entry(value: string, count: nat)

  // Count descending, then value ascending.
  predicate EntryLt(a: Entry, b: Entry) {
    a.count > b.count || (a.count == b.count && LexLt(a.value, b.value))
  }

  lemma EntryOrder()
    ensures StrictOrder(EntryLt)
  {
    forall x: Entry ensures !EntryLt(x, x) {
      LexIrreflexive(x.value);
    }
    forall x: Entry, y: Entry, z: Entry | EntryLt(x, y) && EntryLt(y, z) ensures EntryLt(x, z) {
      if x.count == y.count == z.count {
        LexTransitive(x.value, y.value, z.value);
      }
    }
  }

  // How many of the rows have value v.
  function Count(rows: seq<Product>, dim: Dim, v: string): nat {
    if rows == [] then 0
    else Count(rows[..|rows| - 1], dim, v) + if Value(rows[|rows| - 1], dim) == v then 1 else 0
  }

  // The entries list exactly the values that occur, each once with its count, in order.
  ghost predicate IsFacet(rows: seq<Product>, dim: Dim, entries: seq<Entry>) {
    && Sorted(EntryLt, entries)
    && (forall e :: e in entries <==> e.count == Count(rows, dim, e.value) && e.count > 0)
  }

  function Categories(rows: seq<Product>): (values: seq<string>)
    ensures |values| == |rows| && forall i :: 0 <= i < |rows| ==> values[i] == rows[i].category
  {
    seq(|rows|, i requires 0 <= i < |rows| => rows[i].category)
  }

  function Brands(rows: seq<Product>): (values: seq<string>)
    ensures |values| == |rows| && forall i :: 0 <= i < |rows| ==> values[i] == rows[i].brand
  {
    seq(|rows|, i requires 0 <= i < |rows| => rows[i].brand)
  }

  function Materials(rows: seq<Product>): (values: seq<string>)
    ensures |values| == |rows| && forall i :: 0 <= i < |rows| ==> values[i] == rows[i].material
  {
    seq(|rows|, i requires 0 <= i < |rows| => rows[i].material)
  }

  // Where in a column a value occurs.
  function Positions(values: seq<string>, v: string): set<nat> {
    set i: nat | i < |values| && values[i] == v
  }

  // The entries of a column: every value that occurs is listed, each with the number of rows
  // that have it, most frequent first, then in alphabetical order.
  ghost predicate CountsColumn(values: seq<string>, entries: seq<Entry>) {
    && (forall v :: v in values ==> exists e :: e in entries && e.value == v)
    && (forall e :: e in entries ==> e.count == |Positions(values, e.value)| > 0)
    && (forall i, j :: 0 <= i < j < |entries| ==>
          || entries[i].count > entries[j].count
          || (entries[i].count == entries[j].count && LexLt(entries[i].value, entries[j].value)))
  }

  // values is the column of the rows for a dimension.
  ghost predicate IsColumn(rows: seq<Product>, dim: Dim, values: seq<string>) {
    |values| == |rows| && forall i :: 0 <= i < |rows| ==> values[i] == Value(rows[i], dim)
  }

  lemma PositionsStep(values: seq<string>, v: string)
    requires values != []
    ensures var n := |values| - 1;
      |Positions(values, v)| == |Positions(values[..n], v)| + if values[n] == v then 1 else 0
  {
    var n := |values| - 1;
    var before := Positions(values[..n], v);
    assert Positions(values, v) == if values[n] == v then before + {n} else before;
  }

  lemma {:induction false} CountIsSize(rows: seq<Product>, dim: Dim, values: seq<string>, v: string)
    requires IsColumn(rows, dim, values)
    ensures Count(rows, dim, v) == |Positions(values, v)|
    decreases |rows|
  {
    if rows == [] {
      assert Positions(values, v) == {};
    } else {
      CountIsSize(rows[..|rows| - 1], dim, values[..|rows| - 1], v);
      PositionsStep(values, v);
    }
  }

  lemma {:induction false} Occurs(rows: seq<Product>, dim: Dim, i: nat)
    requires i < |rows|
    ensures Count(rows, dim, Value(rows[i], dim)) > 0
  {
    if i < |rows| - 1 {
      Occurs(rows[..|rows| - 1], dim, i);
    }
  }

  lemma FacetCountsColumn(rows: seq<Product>, dim: Dim, values: seq<string>, entries: seq<Entry>)
    requires IsFacet(rows, dim, entries) && IsColumn(rows, dim, values)
    ensures CountsColumn(values, entries)
  {
    forall e | e in entries ensures e.count == |Positions(values, e.value)| {
      CountIsSize(rows, dim, values, e.value);
    }
    forall v | v in values ensures exists e :: e in entries && e.value == v {
      var i :| 0 <= i < |values| && values[i] == v;
      Occurs(rows, dim, i);
      assert Entry(v, Count(rows, dim, v)) in entries;
    }
    forall i, j | 0 <= i < j < |entries| ensures EntryLt(entries[i], entries[j]) {
    }
  }

  /** Facets describe the columns of their names. */
  lemma FacetsDescribe(rows: seq<Product>, facets: map<Dim, seq<Entry>>)
    requires facets.Keys == {Category, Brand, Material}
    requires forall dim :: dim in facets ==> IsFacet(rows, dim, facets[dim])
    ensures Category in facets && Brand in facets && Material in facets
    ensures CountsColumn(Categories(rows), facets[Category])
    ensures CountsColumn(Brands(rows), facets[Brand])
    ensures CountsColumn(Materials(rows), facets[Material])
  {
    assert Category in facets.Keys && Brand in facets.Keys && Material in facets.Keys;
    FacetCountsColumn(rows, Category, Categories(rows), facets[Category]);
    FacetCountsColumn(rows, Brand, Brands(rows), facets[Brand]);
    FacetCountsColumn(rows, Material, Materials(rows), facets[Material]);
  }

  // The count that a facet shows for a value; a value it does not list has none.
  ghost function Shown(entries: seq<Entry>, v: string): nat {
    if Lists(entries, v) then
      var e :| e in entries && e.value == v; e.count
    else 0
  }

  ghost predicate Lists(entries: seq<Entry>, v: string) { exists e :: e in entries && e.value == v }

  lemma ListedCount(rows: seq<Product>, dim: Dim, entries: seq<Entry>, v: string)
    requires IsFacet(rows, dim, entries)
    ensures Lists(entries, v) <==> Count(rows, dim, v) > 0
    ensures forall e :: e in entries && e.value == v ==> e.count == Count(rows, dim, v)
  {
    if Count(rows, dim, v) > 0 {
      assert Entry(v, Count(rows, dim, v)) in entries;
    }
  }

  lemma ShownIsCount(rows: seq<Product>, dim: Dim, entries: seq<Entry>, v: string)
    requires IsFacet(rows, dim, entries)
    ensures Shown(entries, v) == Count(rows, dim, v)
  {
    if Count(rows, dim, v) > 0 {
      assert Entry(v, Count(rows, dim, v)) in entries;
    }
  }

  lemma FacetIsUnique(rows: seq<Product>, dim: Dim, a: seq<Entry>, b: seq<Entry>)
    requires IsFacet(rows, dim, a) && IsFacet(rows, dim, b)
    ensures a == b
  {
    EntryOrder();
    SortedListingIsUnique(EntryLt, a, b);
  }

  // A row inserted anywhere adds one to the count of its value.
  lemma {:induction false} CountConcat(a: seq<Product>, b: seq<Product>, dim: Dim, v: string)
    ensures Count(a + b, dim, v) == Count(a, dim, v) + Count(b, dim, v)
    decreases |b|
  {
    if b == [] {
      assert a + b == a;
    } else {
      var n := |b| - 1;
      assert (a + b)[..|a + b| - 1] == a + b[..n];
      CountConcat(a, b[..n], dim, v);
    }
  }

  // Tally the values that the rows have in a dimension.
  method CountValues(rows: seq<Product>, dim: Dim) returns (counter: map<string, nat>)
    ensures forall v :: v in counter <==> Count(rows, dim, v) > 0
    ensures forall v :: v in counter ==> counter[v] == Count(rows, dim, v)
  {
    counter := map[];
    for i := 0 to |rows|
      invariant forall v :: v in counter <==> Count(rows[..i], dim, v) > 0
      invariant forall v :: v in counter ==> counter[v] == Count(rows[..i], dim, v)
    {
      var v := Value(rows[i], dim);
      assert rows[..i + 1][..i] == rows[..i];
      counter := counter[v := (if v in counter then counter[v] else 0) + 1];
    }
    assert rows[..|rows|] == rows;
  }

  // The tally as a list, in whatever order the dictionary gives it.
  method Items(counter: map<string, nat>) returns (items: seq<Entry>)
    ensures forall e :: e in items <==> e.value in counter && e.count == counter[e.value]
    ensures forall i, j :: 0 <= i < j < |items| ==> items[i].value != items[j].value
  {
    items := [];
    var rest := counter.Keys;
    while rest != {}
      invariant rest <= counter.Keys
      invariant forall e :: e in items <==> e.value in counter.Keys - rest && e.count == counter[e.value]
      invariant forall i, j :: 0 <= i < j < |items| ==> items[i].value != items[j].value
      decreases rest
    {
      var v :| v in rest;
      assert forall i :: 0 <= i < |items| ==> items[i] in items;
      items := items + [Entry(v, counter[v])];
      rest := rest - {v};
    }
  }

  method FacetCounts(rows: seq<Product>) returns (facets: map<Dim, seq<Entry>>)
    ensures facets.Keys == {Category, Brand, Material}
    ensures forall dim :: dim in facets ==> IsFacet(rows, dim, facets[dim])
    ensures CountsColumn(Categories(rows), facets[Category])
    ensures CountsColumn(Brands(rows), facets[Brand])
    ensures CountsColumn(Materials(rows), facets[Material])
  {
    facets := map[];
    var dims := [Category, Brand, Material];
    for k := 0 to |dims|
      invariant facets.Keys == set dim | dim in dims[..k]
      invariant forall dim :: dim in facets ==> IsFacet(rows, dim, facets[dim])
    {
      var counter := CountValues(rows, dims[k]);
      var items := Items(counter);
      var ordered := Sort(EntryLt, items);
      ItemsSeparated(items);
      EntryOrder();
      SortSorts(EntryLt, items);
      SortElements(EntryLt, items);
      facets := facets[dims[k] := ordered];
    }
    assert dims[0] in dims && dims[1] in dims && dims[2] in dims;
    FacetsDescribe(rows, facets);
  }

  lemma ItemsSeparated(items: seq<Entry>)
    requires forall i, j :: 0 <= i < j < |items| ==> items[i].value != items[j].value
    ensures Separates(EntryLt, items)
  {
    forall i, j | 0 <= i < j < |items| ensures EntryLt(items[i], items[j]) || EntryLt(items[j], items[i]) {
      LexConnected(items[i].value, items[j].value);
    }
  }
}
