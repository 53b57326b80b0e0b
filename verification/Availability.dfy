/** Availability of one product across warehouses, read from the stock tables. */
module Availability {
  import opened Wrappers
  import opened Store
  import opened Protocol
  import opened ProtocolInvariant
  import opened Sorting

  type Point = (real, real)

  // Region table and the library functions on it.
  datatype Geo = Geo(
    regions: map<string, Point>,
    upper: string -> string,
    km: (Point, Point) -> real,      // great-circle distance
    round1: real -> real)            // to one decimal

  ghost predicate GeoOk(geo: Geo) {
    && (forall x, y :: x <= y ==> geo.round1(x) <= geo.round1(y))
    && (forall x :: -0.05 <= geo.round1(x) - x <= 0.05)
  }

  // One row of inventory joined with its warehouse.
  datatype Row = Row(code: string, place: Point, stock: Stock)

  datatype Line = Line(row: Row, distance: Option<real>) {
    function Atp(): int { row.stock.Atp() }
  }

  datatype Report = Report(
    sku: string, totalOnHand: int, totalReserved: int, totalAtp: int, warehouses: seq<Line>,
    nearest: Option<string>, leadTimeDays: int, backorder: bool)

  datatype NotFound = UnknownProduct(sku: string)

  // (product_id, warehouse_code) is a key, so no code occurs twice.
  ghost predicate UniqueCodes(rows: seq<Row>) {
    forall i, j :: 0 <= i < j < |rows| ==> rows[i].code != rows[j].code
  }

  // An unknown region counts as none.
  function Origin(geo: Geo, region: Option<string>): Option<Point> {
    if region.None? || region.value == [] || geo.upper(region.value) !in geo.regions then None
    else Some(geo.regions[geo.upper(region.value)])
  }

  function MakeLine(geo: Geo, origin: Option<Point>, r: Row): Line {
    Line(r, if origin.Some? then Some(geo.round1(geo.km(origin.value, r.place))) else None)
  }

  // By rounded distance, then code.
  predicate NearerLt(a: Line, b: Line) {
    var (x, y) := (a.distance.GetOr(0.0), b.distance.GetOr(0.0));
    x < y || (x == y && LexLt(a.row.code, b.row.code))
  }

  predicate CodeLt(a: Line, b: Line) { LexLt(a.row.code, b.row.code) }

  function Order(origin: Option<Point>): (Line, Line) -> bool {
    if origin.Some? then NearerLt else CodeLt
  }

  function Lines(geo: Geo, origin: Option<Point>, rows: seq<Row>): (lines: seq<Line>)
    ensures |lines| == |rows|
  {
    seq(|rows|, i requires 0 <= i < |rows| => MakeLine(geo, origin, rows[i]))
  }

  function Available(lines: seq<Line>): seq<Line> {
    if lines == [] then []
    else (if lines[0].Atp() > 0 then [lines[0]] else []) + Available(lines[1..])
  }

  // The line with most to promise, the first of them if several have as much.
  function FirstLargest(lines: seq<Line>): Line
    requires lines != []
  {
    var n := |lines| - 1;
    if n == 0 then lines[0]
    else
      var m := FirstLargest(lines[..n]);
      if lines[n].Atp() > m.Atp() then lines[n] else m
  }

  function Sum(lines: seq<Line>, amount: Stock -> int): int {
    if lines == [] then 0 else amount(lines[0].row.stock) + Sum(lines[1..], amount)
  }

  function OnHand(s: Stock): int { s.onHand }
  function ReservedUnits(s: Stock): int { s.reserved }
  function AtpUnits(s: Stock): int { s.Atp() }

  function Choose(origin: Option<Point>, available: seq<Line>): Option<string> {
    if available == [] then None
    else if origin.Some? then Some(available[0].row.code)
    else Some(FirstLargest(available).row.code)
  }

  // What the report says about rows, whatever their order.
  function Summary(geo: Geo, sku: string, leadTimeDays: int, rows: seq<Row>, origin: Option<Point>): Report {
    var lines := Sort(Order(origin), Lines(geo, origin, rows));
    Report(sku, Sum(lines, OnHand), Sum(lines, ReservedUnits), Sum(lines, AtpUnits), lines,
           Choose(origin, Available(lines)), leadTimeDays, Sum(lines, AtpUnits) <= 0)
  }

  // The report on rows for a buyer at a known point, or at none: every row is a line with its
  // distance, nearest first, or by code without a point; totals are those of the rows; the
  // warehouse named is the best choice, and there is a backorder if there is none.
  ghost predicate Reports(geo: Geo, point: Option<Point>, rows: seq<Row>, rep: Report) {
    && (forall r :: r in rows ==> exists l :: l in rep.warehouses && l.row == r)
    && (forall l :: l in rep.warehouses ==>
          && l.row in rows
          && match point
             case Some(o) => l.distance == Some(geo.round1(geo.km(o, l.row.place)))
             case None => l.distance == None)
    && |rep.warehouses| == |rows|
    && (forall i, j :: 0 <= i < j < |rep.warehouses| ==> InOrder(point, rep.warehouses[i], rep.warehouses[j]))
    && (if exists r :: r in rows && r.stock.onHand - r.stock.reserved > 0 then
          exists r :: IsChoice(geo, point, rows, r) && rep.nearest == Some(r.code)
        else rep.nearest == None)
    && rep.totalOnHand == UnitsOnHand(rows) && rep.totalReserved == UnitsReserved(rows)
    && rep.totalAtp == rep.totalOnHand - rep.totalReserved
    && ((forall r :: r in rows ==> 0 <= r.stock.reserved <= r.stock.onHand <= 0x7fff_ffff) ==>
          (rep.backorder <==> rep.nearest == None))
  }

  function UnitsOnHand(rows: seq<Row>): int {
    if rows == [] then 0 else rows[0].stock.onHand + UnitsOnHand(rows[1..])
  }

  function UnitsReserved(rows: seq<Row>): int {
    if rows == [] then 0 else rows[0].stock.reserved + UnitsReserved(rows[1..])
  }

  lemma {:induction false} TotalsOfRows(geo: Geo, point: Option<Point>, rows: seq<Row>)
    ensures Sum(Lines(geo, point, rows), OnHand) == UnitsOnHand(rows)
    ensures Sum(Lines(geo, point, rows), ReservedUnits) == UnitsReserved(rows)
  {
    if rows != [] {
      assert Lines(geo, point, rows)[1..] == Lines(geo, point, rows[1..]);
      TotalsOfRows(geo, point, rows[1..]);
    }
  }

  ghost predicate InOrder(point: Option<Point>, a: Line, b: Line) {
    if point.None? then LexLt(a.row.code, b.row.code)
    else
      && a.distance.Some? && b.distance.Some?
      && (a.distance.value < b.distance.value
          || (a.distance.value == b.distance.value && LexLt(a.row.code, b.row.code)))
  }

  lemma SummaryReports(geo: Geo, sku: string, leadTimeDays: int, rows: seq<Row>, point: Option<Point>)
    requires GeoOk(geo) && UniqueCodes(rows)
    ensures Reports(geo, point, rows, Summary(geo, sku, leadTimeDays, rows, point))
  {
    var lines := Sort(Order(point), Lines(geo, point, rows));
    SummaryLines(geo, rows, point);
    SortElements(Order(point), Lines(geo, point, rows));
    LinesInOrder(geo, rows, point);
    NearestIsBest(geo, sku, leadTimeDays, rows, point);
    TotalsAndBackorder(geo, sku, leadTimeDays, rows, point);
    TotalsOfRows(geo, point, rows);
    forall r | r in rows ensures exists l :: l in lines && l.row == r {
      assert MakeLine(geo, point, r) in lines;
    }
  }

  lemma LinesInOrder(geo: Geo, rows: seq<Row>, point: Option<Point>)
    requires UniqueCodes(rows)
    ensures var lines := Sort(Order(point), Lines(geo, point, rows));
      forall i, j :: 0 <= i < j < |lines| ==> InOrder(point, lines[i], lines[j])
  {
    SummaryLines(geo, rows, point);
    var lines := Sort(Order(point), Lines(geo, point, rows));
    forall i, j | 0 <= i < j < |lines| ensures InOrder(point, lines[i], lines[j]) {
      assert lines[i] in lines && lines[j] in lines;
      assert Order(point)(lines[i], lines[j]);
    }
  }

  // products gives id and lead time by part number; stock gives the rows joined for an id.
  method GetAvailability(
      geo: Geo, products: map<string, (int, int)>, stock: int -> seq<Row>, sku: string, region: Option<string>)
    returns (r: Result<Report, NotFound>)
    ensures r == if sku !in products then Err(UnknownProduct(sku))
                 else Ok(Summary(geo, sku, products[sku].1, stock(products[sku].0), Origin(geo, region)))
    // the point is the region's, if one is given and its upper-case form is in the table
    ensures r.Ok? && GeoOk(geo) && UniqueCodes(stock(products[sku].0)) ==>
      && r.value.sku == sku && r.value.leadTimeDays == products[sku].1
      && if region.Some? && region.value != "" && geo.upper(region.value) in geo.regions then
           Reports(geo, Some(geo.regions[geo.upper(region.value)]), stock(products[sku].0), r.value)
         else Reports(geo, None, stock(products[sku].0), r.value)
  {
    if sku !in products {
      return Err(UnknownProduct(sku));
    }
    var rows := stock(products[sku].0);
    var origin := Origin(geo, region);
    var warehouses: seq<Line> := [];
    for i := 0 to |rows|
      invariant warehouses == Lines(geo, origin, rows[..i])
    {
      var distance := if origin.Some? then Some(geo.round1(geo.km(origin.value, rows[i].place))) else None;
      warehouses := warehouses + [Line(rows[i], distance)];
    }
    assert rows[..|rows|] == rows;
    warehouses := Sort(Order(origin), warehouses);
    var available := Available(warehouses);
    var nearest := Choose(origin, available);
    var totalAtp := Sum(warehouses, AtpUnits);
    if GeoOk(geo) && UniqueCodes(rows) {
      SummaryReports(geo, sku, products[sku].1, rows, origin);
    }
    return Ok(Report(
      sku, Sum(warehouses, OnHand), Sum(warehouses, ReservedUnits), totalAtp, warehouses,
      nearest, products[sku].1, totalAtp <= 0));
  }

  // ---- order ------------------------------------------------------------------------------

  lemma LineOrder(origin: Option<Point>)
    ensures StrictOrder(Order(origin))
  {
    forall x: Line ensures !NearerLt(x, x) && !CodeLt(x, x) {
      LexIrreflexive(x.row.code);
    }
    forall x: Line, y: Line, z: Line | CodeLt(x, y) && CodeLt(y, z) ensures CodeLt(x, z) {
      LexTransitive(x.row.code, y.row.code, z.row.code);
    }
    forall x: Line, y: Line, z: Line | NearerLt(x, y) && NearerLt(y, z) ensures NearerLt(x, z) {
      if LexLt(x.row.code, y.row.code) && LexLt(y.row.code, z.row.code) {
        LexTransitive(x.row.code, y.row.code, z.row.code);
      }
    }
  }

  lemma LinesSeparate(geo: Geo, origin: Option<Point>, rows: seq<Row>)
    requires UniqueCodes(rows)
    ensures Separates(Order(origin), Lines(geo, origin, rows))
  {
    var lines := Lines(geo, origin, rows);
    forall i, j | 0 <= i < j < |lines| ensures Order(origin)(lines[i], lines[j]) || Order(origin)(lines[j], lines[i]) {
      LexConnected(rows[i].code, rows[j].code);
    }
  }

  // The report's lines are the rows, each once, in order.
  lemma SummaryLines(geo: Geo, rows: seq<Row>, origin: Option<Point>)
    requires UniqueCodes(rows)
    ensures var lines := Sort(Order(origin), Lines(geo, origin, rows));
      && Sorted(Order(origin), lines)
      && (forall l :: l in lines <==> l.row in rows && l == MakeLine(geo, origin, l.row))
  {
    var lines := Lines(geo, origin, rows);
    LineOrder(origin);
    LinesSeparate(geo, origin, rows);
    SortSorts(Order(origin), lines);
    SortElements(Order(origin), lines);
    forall l ensures l in lines <==> l.row in rows && l == MakeLine(geo, origin, l.row) {
      if l in lines {
        var i :| 0 <= i < |lines| && lines[i] == l;
        assert l.row == rows[i];
      }
      if l.row in rows && l == MakeLine(geo, origin, l.row) {
        var i :| 0 <= i < |rows| && rows[i] == l.row;
        assert lines[i] == l;
      }
    }
  }

  /** The report is the same for every order in which the database returns the rows. */
  lemma RowOrderIrrelevant(
      geo: Geo, sku: string, leadTimeDays: int, rows: seq<Row>, rows': seq<Row>, origin: Option<Point>)
    requires UniqueCodes(rows) && UniqueCodes(rows') && forall r :: r in rows <==> r in rows'
    ensures Summary(geo, sku, leadTimeDays, rows, origin) == Summary(geo, sku, leadTimeDays, rows', origin)
  {
    SummaryLines(geo, rows, origin);
    SummaryLines(geo, rows', origin);
    LineOrder(origin);
    SortedListingIsUnique(
      Order(origin), Sort(Order(origin), Lines(geo, origin, rows)), Sort(Order(origin), Lines(geo, origin, rows')));
  }

  // ---- totals -------------------------------------------------------------------------------

  lemma {:induction false} SumsAgree(lines: seq<Line>)
    ensures Sum(lines, AtpUnits) == Sum(lines, OnHand) - Sum(lines, ReservedUnits)
  {
    if lines != [] {
      SumsAgree(lines[1..]);
    }
  }

  lemma {:induction false} InsertSum(lt: (Line, Line) -> bool, x: Line, s: seq<Line>, amount: Stock -> int)
    ensures Sum(Insert(lt, x, s), amount) == Sum(s, amount) + amount(x.row.stock)
  {
    if s == [] || lt(x, s[0]) {
      assert ([x] + s)[1..] == s;
    } else {
      InsertSum(lt, x, s[1..], amount);
      assert ([s[0]] + Insert(lt, x, s[1..]))[1..] == Insert(lt, x, s[1..]);
    }
  }

  lemma {:induction false} SumAppend(s: seq<Line>, x: Line, amount: Stock -> int)
    ensures Sum(s + [x], amount) == Sum(s, amount) + amount(x.row.stock)
  {
    if s != [] {
      assert (s + [x])[1..] == s[1..] + [x];
      SumAppend(s[1..], x, amount);
    } else {
      assert (s + [x])[1..] == [];
    }
  }

  // Sorting moves units between lines of the listing, never in or out of the total.
  lemma {:induction false} SortSum(lt: (Line, Line) -> bool, s: seq<Line>, amount: Stock -> int)
    ensures Sum(Sort(lt, s), amount) == Sum(s, amount)
  {
    if s != [] {
      var n := |s| - 1;
      SortSum(lt, s[..n], amount);
      InsertSum(lt, s[n], Sort(lt, s[..n]), amount);
      SumAppend(s[..n], s[n], amount);
      assert s[..n] + [s[n]] == s;
    }
  }

  ghost predicate StockFits(lines: seq<Line>) { forall l :: l in lines ==> l.row.stock.Ok() }

  lemma {:induction false} AtpSumSign(lines: seq<Line>)
    requires StockFits(lines)
    ensures Sum(lines, AtpUnits) >= 0
    ensures Sum(lines, AtpUnits) == 0 <==> forall l :: l in lines ==> l.Atp() == 0
  {
    if lines != [] {
      assert lines[0] in lines && lines == [lines[0]] + lines[1..];
      AtpSumSign(lines[1..]);
    }
  }

  lemma {:induction false} AvailableLines(lines: seq<Line>, lt: (Line, Line) -> bool)
    requires Sorted(lt, lines)
    ensures forall l :: l in Available(lines) <==> l in lines && l.Atp() > 0
    ensures Sorted(lt, Available(lines))
  {
    if lines != [] {
      AvailableLines(lines[1..], lt);
      assert lines == [lines[0]] + lines[1..];
      var rest := Available(lines[1..]);
      forall j | 0 <= j < |rest| ensures lt(lines[0], rest[j]) {
        assert rest[j] in rest;
        assert rest[j] in lines[1..];
      }
    }
  }

  /**
   Totals add up, and on stock that respects its constraints there is a backorder
   exactly when no warehouse is named.
   */
  lemma TotalsAndBackorder(geo: Geo, sku: string, leadTimeDays: int, rows: seq<Row>, origin: Option<Point>)
    requires UniqueCodes(rows)
    ensures var rep := Summary(geo, sku, leadTimeDays, rows, origin);
      && rep.totalAtp == rep.totalOnHand - rep.totalReserved
      && rep.totalOnHand == Sum(Lines(geo, origin, rows), OnHand)
      && rep.totalReserved == Sum(Lines(geo, origin, rows), ReservedUnits)
      && ((forall r :: r in rows ==> r.stock.Ok()) ==> (rep.backorder <==> rep.nearest.None?))
  {
    var rep := Summary(geo, sku, leadTimeDays, rows, origin);
    SumsAgree(rep.warehouses);
    SortSum(Order(origin), Lines(geo, origin, rows), OnHand);
    SortSum(Order(origin), Lines(geo, origin, rows), ReservedUnits);
    SummaryLines(geo, rows, origin);
    if forall r :: r in rows ==> r.stock.Ok() {
      AtpSumSign(rep.warehouses);
      AvailableLines(rep.warehouses, Order(origin));
      var available := Available(rep.warehouses);
      HasFirst(available);
      forall l | l in rep.warehouses && l.Atp() != 0 ensures l in available {
      }
    }
  }

  // ---- the warehouse named --------------------------------------------------------------------

  lemma {:induction false} FirstLargestIs(lines: seq<Line>)
    requires lines != [] && Sorted(CodeLt, lines)
    ensures var m := FirstLargest(lines);
      m in lines && forall l :: l in lines ==>
        l.Atp() < m.Atp() || (l.Atp() == m.Atp() && (l == m || CodeLt(m, l)))
  {
    var n := |lines| - 1;
    assert lines == lines[..n] + [lines[n]];
    if n > 0 {
      FirstLargestIs(lines[..n]);
      var m := FirstLargest(lines[..n]);
      var k :| 0 <= k < n && lines[k] == m;
      assert CodeLt(lines[k], lines[n]);
    }
  }

  // r is the best of the rows that can promise stock.
  ghost predicate IsChoice(geo: Geo, origin: Option<Point>, rows: seq<Row>, r: Row) {
    && r in rows && r.stock.Atp() > 0
    && forall q :: q in rows && q.stock.Atp() > 0 && q != r ==>
         match origin
         case Some(o) =>
           && (geo.round1(geo.km(o, r.place)) < geo.round1(geo.km(o, q.place))
               || (geo.round1(geo.km(o, r.place)) == geo.round1(geo.km(o, q.place)) && LexLt(r.code, q.code)))
           && geo.km(o, r.place) <= geo.km(o, q.place) + 0.1
         case None =>
           q.stock.Atp() < r.stock.Atp() || (q.stock.Atp() == r.stock.Atp() && LexLt(r.code, q.code))
  }

  // The lines that can promise stock, in order.
  lemma AvailableAre(geo: Geo, rows: seq<Row>, origin: Option<Point>)
    requires UniqueCodes(rows)
    ensures var available := Available(Sort(Order(origin), Lines(geo, origin, rows)));
      && Sorted(Order(origin), available)
      && (forall l :: l in available <==> l.row in rows && l == MakeLine(geo, origin, l.row) && l.Atp() > 0)
  {
    SummaryLines(geo, rows, origin);
    AvailableLines(Sort(Order(origin), Lines(geo, origin, rows)), Order(origin));
  }

  lemma FirstIsNearest(geo: Geo, rows: seq<Row>, origin: Option<Point>, available: seq<Line>)
    requires GeoOk(geo) && origin.Some? && available != [] && Sorted(NearerLt, available)
    requires forall l :: l in available <==> l.row in rows && l == MakeLine(geo, origin, l.row) && l.Atp() > 0
    ensures IsChoice(geo, origin, rows, available[0].row)
  {
    var best := available[0];
    assert best in available;
    forall q | q in rows && q.stock.Atp() > 0 && q != best.row
      ensures NearerLt(best, MakeLine(geo, origin, q))
      ensures geo.km(origin.value, best.row.place) <= geo.km(origin.value, q.place) + 0.1
    {
      var l := MakeLine(geo, origin, q);
      assert l in available;
      var i :| 0 <= i < |available| && available[i] == l;
      assert NearerLt(available[0], available[i]);
    }
  }

  lemma LargestIsChoice(geo: Geo, rows: seq<Row>, available: seq<Line>)
    requires available != [] && Sorted(CodeLt, available)
    requires forall l :: l in available <==> l.row in rows && l == MakeLine(geo, None, l.row) && l.Atp() > 0
    ensures IsChoice(geo, None, rows, FirstLargest(available).row)
  {
    FirstLargestIs(available);
    forall q | q in rows && q.stock.Atp() > 0 ensures MakeLine(geo, None, q) in available {
    }
  }

  /**
   The warehouse named can promise stock. With a known region it is the least by rounded
   distance and code, and within 0.1 km of the truly nearest; without one it has the
   most to promise, and the least code among those.
   */
  lemma NearestIsBest(geo: Geo, sku: string, leadTimeDays: int, rows: seq<Row>, origin: Option<Point>)
    requires GeoOk(geo) && UniqueCodes(rows)
    ensures var rep := Summary(geo, sku, leadTimeDays, rows, origin);
      if exists r :: r in rows && r.stock.Atp() > 0 then
        exists r :: IsChoice(geo, origin, rows, r) && rep.nearest == Some(r.code)
      else rep.nearest == None
  {
    var available := Available(Sort(Order(origin), Lines(geo, origin, rows)));
    AvailableAre(geo, rows, origin);
    HasFirst(available);
    if r :| r in rows && r.stock.Atp() > 0 {
      assert MakeLine(geo, origin, r) in available;
      if origin.Some? {
        FirstIsNearest(geo, rows, origin, available);
      } else {
        LargestIsChoice(geo, rows, available);
      }
    }
  }

  // ---- over the protocol's state -----------------------------------------------------------------

  // The rows that the join reads for a product: each of its inventory rows once, since
  // every row names a warehouse.
  ghost predicate IsJoin(db: Db, product: int, rows: seq<Row>) {
    && UniqueCodes(rows)
    && (forall r :: r in rows ==>
          Key(product, r.code) in db.inventory && db.inventory[Key(product, r.code)] == r.stock)
    && (forall key :: key in db.inventory && key.product == product ==> HasCode(rows, key.warehouse))
  }

  predicate HasCode(rows: seq<Row>, code: string) { exists i :: 0 <= i < |rows| && rows[i].code == code }

  function ProductClaim(r: Reservation, product: int): int {
    if r.key.product == product && r.status == Active then r.quantity else 0
  }

  // The units that active reservations of the product with an id below n claim.
  function ProductUnits(reservations: map<int, Reservation>, product: int, n: int): int
    decreases n
  {
    if n <= 0 then 0
    else ProductUnits(reservations, product, n - 1) +
         if n - 1 in reservations then ProductClaim(reservations[n - 1], product) else 0
  }

  // What one reservation, or all below n, claim of the rows together.
  function RowsClaim(rows: seq<Row>, product: int, r: Reservation): int {
    if rows == [] then 0
    else Claim(r, Key(product, rows[0].code)) + RowsClaim(rows[1..], product, r)
  }

  function RowsUnits(rows: seq<Row>, product: int, reservations: map<int, Reservation>, n: int): int {
    if rows == [] then 0
    else ActiveUnits(reservations, Key(product, rows[0].code), n) + RowsUnits(rows[1..], product, reservations, n)
  }

  // A reservation counts towards one row, the one it names.
  lemma {:induction false} OneRowClaims(rows: seq<Row>, product: int, r: Reservation)
    requires UniqueCodes(rows)
    ensures RowsClaim(rows, product, r) == if HasCode(rows, r.key.warehouse) then ProductClaim(r, product) else 0
  {
    if rows != [] {
      OneRowClaims(rows[1..], product, r);
      assert HasCode(rows, r.key.warehouse) <==>
        rows[0].code == r.key.warehouse || HasCode(rows[1..], r.key.warehouse) by
      {
        if i :| 0 < i < |rows| && rows[i].code == r.key.warehouse {
          assert rows[1..][i - 1].code == r.key.warehouse;
        }
      }
    }
  }

  lemma {:induction false} RowsUnitsStep(rows: seq<Row>, product: int, reservations: map<int, Reservation>, n: int)
    requires n > 0
    ensures RowsUnits(rows, product, reservations, n) == RowsUnits(rows, product, reservations, n - 1) +
      if n - 1 in reservations then RowsClaim(rows, product, reservations[n - 1]) else 0
  {
    if rows != [] {
      RowsUnitsStep(rows[1..], product, reservations, n);
    }
  }

  lemma {:induction false} NoUnits(rows: seq<Row>, product: int, reservations: map<int, Reservation>, n: int)
    requires n <= 0
    ensures RowsUnits(rows, product, reservations, n) == 0
  {
    if rows != [] {
      NoUnits(rows[1..], product, reservations, n);
    }
  }

  // Row by row or reservation by reservation, the sum is the same.
  lemma {:induction false} UnitsBothWays(
      rows: seq<Row>, product: int, reservations: map<int, Reservation>, n: int)
    requires UniqueCodes(rows)
    requires forall id :: id in reservations && reservations[id].key.product == product ==>
      HasCode(rows, reservations[id].key.warehouse)
    ensures RowsUnits(rows, product, reservations, n) == ProductUnits(reservations, product, n)
    decreases n
  {
    if n <= 0 {
      NoUnits(rows, product, reservations, n);
    } else {
      UnitsBothWays(rows, product, reservations, n - 1);
      RowsUnitsStep(rows, product, reservations, n);
      if n - 1 in reservations {
        OneRowClaims(rows, product, reservations[n - 1]);
      }
    }
  }

  lemma {:induction false} ReservedIsUnits(
      geo: Geo, origin: Option<Point>, rows: seq<Row>, product: int, reservations: map<int, Reservation>, n: int)
    requires forall r :: r in rows ==> r.stock.reserved == ActiveUnits(reservations, Key(product, r.code), n)
    ensures Sum(Lines(geo, origin, rows), ReservedUnits) == RowsUnits(rows, product, reservations, n)
  {
    if rows != [] {
      assert Lines(geo, origin, rows)[1..] == Lines(geo, origin, rows[1..]);
      ReservedIsUnits(geo, origin, rows[1..], product, reservations, n);
    }
  }

  /**
   Whatever reserves and releases are under way, the reserved total that availability
   reports is the sum of the product's active reservations, every ATP is in [0, on_hand],
   and there is a backorder exactly when no warehouse is named.
   */
  lemma AvailabilityDuringRun(
      s: State, sched: seq<nat>, geo: Geo, sku: string, leadTimeDays: int, product: int, rows: seq<Row>,
      origin: Option<Point>)
    requires Init(s) && Runs(s, sched) && IsJoin(Run(s, sched).db, product, rows)
    ensures var rep := Summary(geo, sku, leadTimeDays, rows, origin); var s' := Run(s, sched);
      && rep.totalReserved == ProductUnits(s'.db.reservations, product, s'.nextId)
      && rep.totalAtp == rep.totalOnHand - rep.totalReserved
      && (forall l :: l in rep.warehouses ==> 0 <= l.Atp() <= l.row.stock.onHand)
      && (rep.backorder <==> rep.nearest.None?)
  {
    InitInv(s);
    RunKeepsInv(s, sched, s.free);
    var s' := Run(s, sched);
    forall r | r in rows
      ensures r.stock.Ok() && r.stock.reserved == ActiveUnits(s'.db.reservations, Key(product, r.code), s'.nextId)
    {
      assert StockOk(s'.db, Key(product, r.code), s'.nextId);
    }
    forall id | id in s'.db.reservations && s'.db.reservations[id].key.product == product
      ensures HasCode(rows, s'.db.reservations[id].key.warehouse)
    {
      assert ReservationOk(s'.db, id, s'.nextId);
    }
    SummaryLines(geo, rows, origin);
    TotalsAndBackorder(geo, sku, leadTimeDays, rows, origin);
    ReservedIsUnits(geo, origin, rows, product, s'.db.reservations, s'.nextId);
    UnitsBothWays(rows, product, s'.db.reservations, s'.nextId);
  }
}
