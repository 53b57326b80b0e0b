/** The catalog generator: every combination once, and the stock tables it leaves behind. */
module Seed {
  import opened Wrappers
  import opened Text
  import opened Store
  import opened Protocol
  import opened Cross

  // ---- attribute combinations -------------------------------------------------------------

  datatype Axis = Axis(name: string, values: seq<string>)

  // One value per axis, in axis order.
  type Combo = seq<(string, string)>

  function Glue(axis: Axis, pairs: seq<(Combo, string)>): (combos: seq<Combo>)
    ensures |combos| == |pairs|
  {
    seq(|pairs|, i requires 0 <= i < |pairs| => pairs[i].0 + [(axis.name, pairs[i].1)])
  }

  // The Cartesian product of the axes.
  function Listing(axes: seq<Axis>): seq<Combo> {
    if axes == [] then [[]]
    else
      var n := |axes| - 1;
      Glue(axes[n], Pairs(Listing(axes[..n]), axes[n].values))
  }

  // Every combination so far with every value of one more axis.
  method ExtendCombos(combos: seq<Combo>, axis: Axis) returns (next: seq<Combo>)
    ensures next == Glue(axis, Pairs(combos, axis.values))
  {
    next := [];
    for a := 0 to |combos|
      invariant next == Glue(axis, Pairs(combos[..a], axis.values))
    {
      for b := 0 to |axis.values|
        invariant next == Glue(axis, Pairs(combos[..a], axis.values) + PairWith(combos[a], axis.values[..b]))
      {
        PairWithStep(combos[a], axis.values, b);
        next := next + [combos[a] + [(axis.name, axis.values[b])]];
      }
      assert axis.values[..|axis.values|] == axis.values;
      PairsStep(combos, axis.values, a);
    }
    assert combos[..|combos|] == combos;
  }

  method IterAttrCombos(axes: seq<Axis>) returns (combos: seq<Combo>)
    ensures combos == Listing(axes)
  {
    combos := [[]];
    for k := 0 to |axes|
      invariant combos == Listing(axes[..k])
    {
      combos := ExtendCombos(combos, axes[k]);
      assert axes[..k + 1][..k] == axes[..k];
    }
    assert axes[..|axes|] == axes;
  }

  function Total(axes: seq<Axis>): nat {
    if axes == [] then 1 else Total(axes[..|axes| - 1]) * |axes[|axes| - 1].values|
  }

  // digits[j] chooses a value of axes[j].
  predicate DigitsFor(axes: seq<Axis>, digits: seq<nat>) {
    |digits| == |axes| && forall j :: 0 <= j < |axes| ==> digits[j] < |axes[j].values|
  }

  function Pick(axes: seq<Axis>, digits: seq<nat>): Combo
    requires DigitsFor(axes, digits)
  {
    seq(|axes|, j requires 0 <= j < |axes| => (axes[j].name, axes[j].values[digits[j]]))
  }

  // The mixed-radix digits of i, the last axis varying fastest.
  function Digits(axes: seq<Axis>, i: nat): (digits: seq<nat>)
    requires i < Total(axes)
    ensures DigitsFor(axes, digits)
  {
    if axes == [] then []
    else
      var n := |axes| - 1;
      Split(i, Total(axes[..n]), |axes[n].values|);
      Digits(axes[..n], i / |axes[n].values|) + [i % |axes[n].values|]
  }

  // The number that has these digits.
  function Rank(axes: seq<Axis>, digits: seq<nat>): (i: nat)
    requires DigitsFor(axes, digits)
    ensures i < Total(axes)
  {
    if axes == [] then 0
    else
      var n := |axes| - 1;
      var high := Rank(axes[..n], digits[..n]);
      Join(high, digits[n], Total(axes[..n]), |axes[n].values|);
      high * |axes[n].values| + digits[n]
  }

  lemma {:induction false} RankOfDigits(axes: seq<Axis>, i: nat)
    requires i < Total(axes)
    ensures Rank(axes, Digits(axes, i)) == i
  {
    if axes != [] {
      var n := |axes| - 1;
      var m := |axes[n].values|;
      Split(i, Total(axes[..n]), m);
      RankOfDigits(axes[..n], i / m);
      assert Digits(axes, i)[..n] == Digits(axes[..n], i / m);
    }
  }

  lemma {:induction false} DigitsOfRank(axes: seq<Axis>, digits: seq<nat>)
    requires DigitsFor(axes, digits)
    ensures Digits(axes, Rank(axes, digits)) == digits
  {
    if axes != [] {
      var n := |axes| - 1;
      var m := |axes[n].values|;
      var high := Rank(axes[..n], digits[..n]);
      Join(high, digits[n], Total(axes[..n]), m);
      DigitsOfRank(axes[..n], digits[..n]);
      assert digits == digits[..n] + [digits[n]];
    }
  }

  lemma {:induction false} ListingDigits(axes: seq<Axis>, i: nat)
    requires i < Total(axes)
    ensures |Listing(axes)| == Total(axes) && Listing(axes)[i] == Pick(axes, Digits(axes, i))
  {
    if axes != [] {
      var n := |axes| - 1;
      var m := |axes[n].values|;
      Split(i, Total(axes[..n]), m);
      ListingDigits(axes[..n], i / m);
      PairsSize(Listing(axes[..n]), axes[n].values);
      PairsDigits(Listing(axes[..n]), axes[n].values, i);
      var digits := Digits(axes, i);
      assert digits[..n] == Digits(axes[..n], i / m) && digits[n] == i % m;
      assert Pick(axes, digits) == Pick(axes[..n], digits[..n]) + [(axes[n].name, axes[n].values[i % m])];
    }
  }

  lemma {:induction false} ListingSize(axes: seq<Axis>)
    ensures |Listing(axes)| == Total(axes)
  {
    if axes != [] {
      var n := |axes| - 1;
      ListingSize(axes[..n]);
      PairsSize(Listing(axes[..n]), axes[n].values);
    }
  }

  // Where two choices first differ, d has the smaller digit.
  ghost predicate DigitsLess(d: seq<nat>, d': seq<nat>, j: nat) {
    j < |d| == |d'| && d[..j] == d'[..j] && d[j] < d'[j]
  }

  /** The listing is lexicographic: combinations that first differ in one axis come in its order. */
  lemma {:induction false} Lexicographic(axes: seq<Axis>, d: seq<nat>, d': seq<nat>, j: nat)
    requires DigitsFor(axes, d) && DigitsFor(axes, d') && DigitsLess(d, d', j)
    ensures Rank(axes, d) < Rank(axes, d')
    decreases |axes|
  {
    var n := |axes| - 1;
    var m := |axes[n].values|;
    var high, high' := Rank(axes[..n], d[..n]), Rank(axes[..n], d'[..n]);
    if j < n {
      assert d[..n][..j] == d[..j] && d'[..n][..j] == d'[..j];
      Lexicographic(axes[..n], d[..n], d'[..n], j);
      TimesMono(high, high', m);
    }
  }

  ghost predicate DistinctValues(axes: seq<Axis>) {
    forall j, a, b :: 0 <= j < |axes| && 0 <= a < |axes[j].values| && 0 <= b < |axes[j].values| ==>
      axes[j].values[a] == axes[j].values[b] ==> a == b
  }

  /**
   The listing is a bijection: combination i is the choice with the mixed-radix digits of
   i, every choice of one value per axis is listed, and none is listed twice.
   */
  lemma ListingIsBijection(axes: seq<Axis>, digits: seq<nat>, i: nat, j: nat)
    requires DigitsFor(axes, digits) && i < Total(axes) && j < Total(axes) && DistinctValues(axes)
    ensures |Listing(axes)| == Total(axes)
    ensures Listing(axes)[i] == Pick(axes, Digits(axes, i))
    ensures Listing(axes)[Rank(axes, digits)] == Pick(axes, digits)
    ensures Listing(axes)[i] == Listing(axes)[j] ==> i == j
  {
    DigitsOfRank(axes, digits);
    ListingDigits(axes, Rank(axes, digits));
    RankOfDigits(axes, i);
    RankOfDigits(axes, j);
    ListingDigits(axes, i);
    ListingDigits(axes, j);
    if Listing(axes)[i] == Listing(axes)[j] {
      var di, dj := Digits(axes, i), Digits(axes, j);
      forall k | 0 <= k < |axes| ensures di[k] == dj[k] {
        assert Pick(axes, di)[k].1 == Pick(axes, dj)[k].1;
      }
      assert di == dj;
    }
  }

  // ---- products -----------------------------------------------------------------------------

  // Lowest and highest price, in dollars.
  type PriceRange = r: (nat, nat) | r.0 <= r.1 witness (0, 0)

  datatype Spec = Spec(
    category: string, subtype: string, materials: seq<string>, brands: seq<string>, axes: seq<Axis>,
    leadTimeDays: int, prices: PriceRange)

  datatype Item = Item(
    id: nat, partNo: string, brand: string, category: string, subtype: string, material: string,
    priceCents: nat, leadTimeDays: int, combo: Combo)

  // How part numbers are formatted, and their digests, read as numbers.
  datatype Codes = Codes(
    digest: string -> nat,
    brand: string -> string,      // three letters of the name, in capitals
    subtype: string -> string,    // letters of the subtype's words
    number: nat -> string)        // the running number, padded to five digits

  ghost predicate PadsToFive(codes: Codes) { forall n :: codes.number(n) == Pad5(n) }

  function Zeros(n: nat): string { if n == 0 then [] else ['0'] + Zeros(n - 1) }

  // f"{n:05d}"
  function Pad5(n: nat): string {
    var s := Decimal(n);
    Zeros(if |s| < 5 then 5 - |s| else 0) + s
  }

  function PartNo(codes: Codes, subtype: string, brand: string, id: nat): string {
    codes.brand(brand) + ['-'] + codes.subtype(subtype) + ['-'] + codes.number(id)
  }

  type Choice = (string, (string, Combo))

  // Brand, material and combination, the combination varying fastest.
  function Choices(spec: Spec): seq<Choice> {
    Pairs(spec.brands, Pairs(spec.materials, Listing(spec.axes)))
  }

  function MakeItem(codes: Codes, spec: Spec, c: Choice, id: nat): Item {
    var partNo := PartNo(codes, spec.subtype, c.0, id);
    Item(id, partNo, c.0, spec.category, spec.subtype, c.1.0,
         PriceCents(codes.digest(partNo), spec.prices.0, spec.prices.1), spec.leadTimeDays, c.1.1)
  }

  // Items for the choices, numbered from start + 1.
  function Stamp(codes: Codes, spec: Spec, choices: seq<Choice>, start: nat): (items: seq<Item>)
    ensures |items| == |choices|
  {
    seq(|choices|, k requires 0 <= k < |choices| => MakeItem(codes, spec, choices[k], start + k + 1))
  }

  function Catalogue(codes: Codes, specs: seq<Spec>): seq<Item> {
    if specs == [] then []
    else
      var before := Catalogue(codes, specs[..|specs| - 1]);
      before + Stamp(codes, specs[|specs| - 1], Choices(specs[|specs| - 1]), |before|)
  }

  lemma StampConcat(codes: Codes, spec: Spec, a: seq<Choice>, b: seq<Choice>, start: nat)
    ensures Stamp(codes, spec, a + b, start) == Stamp(codes, spec, a, start) + Stamp(codes, spec, b, start + |a|)
  {
  }

  // The loops over materials and combinations; the running number is the last id.
  method GenerateBrand(codes: Codes, spec: Spec, brand: string, combos: seq<Combo>, number: nat)
    returns (items: seq<Item>)
    ensures items == Stamp(codes, spec, PairWith(brand, Pairs(spec.materials, combos)), number)
  {
    var id := number;
    items := [];
    for m := 0 to |spec.materials|
      invariant items == Stamp(codes, spec, PairWith(brand, Pairs(spec.materials[..m], combos)), number)
      invariant id == number + |items|
    {
      ghost var done := Pairs(spec.materials[..m], combos);
      for c := 0 to |combos|
        invariant items == Stamp(codes, spec, PairWith(brand, done + PairWith(spec.materials[m], combos[..c])), number)
        invariant id == number + |items|
      {
        id := id + 1;
        items := items + [MakeItem(codes, spec, (brand, (spec.materials[m], combos[c])), id)];
        PairWithStep(spec.materials[m], combos, c);
      }
      assert combos[..|combos|] == combos;
      PairsStep(spec.materials, combos, m);
    }
    assert spec.materials[..|spec.materials|] == spec.materials;
  }

  method GenerateSpec(codes: Codes, spec: Spec, number: nat) returns (items: seq<Item>)
    ensures items == Stamp(codes, spec, Choices(spec), number)
  {
    var combos := IterAttrCombos(spec.axes);
    items := [];
    ghost var inner := Pairs(spec.materials, combos);
    for b := 0 to |spec.brands|
      invariant items == Stamp(codes, spec, Pairs(spec.brands[..b], inner), number)
    {
      var more := GenerateBrand(codes, spec, spec.brands[b], combos, number + |items|);
      StampConcat(codes, spec, Pairs(spec.brands[..b], inner), PairWith(spec.brands[b], inner), number);
      PairsStep(spec.brands, inner, b);
      items := items + more;
    }
    assert spec.brands[..|spec.brands|] == spec.brands;
  }

  method GenerateProducts(codes: Codes, specs: seq<Spec>) returns (products: seq<Item>)
    ensures products == Catalogue(codes, specs)
  {
    products := [];
    for s := 0 to |specs|
      invariant products == Catalogue(codes, specs[..s])
    {
      var items := GenerateSpec(codes, specs[s], |products|);
      assert specs[..s + 1][..s] == specs[..s];
      products := products + items;
    }
    assert specs[..|specs|] == specs;
  }

  // ---- ids and part numbers --------------------------------------------------------------------

  function SpecCount(spec: Spec): nat { |spec.brands| * (|spec.materials| * Total(spec.axes)) }

  function CatalogueSize(specs: seq<Spec>): nat {
    if specs == [] then 0 else CatalogueSize(specs[..|specs| - 1]) + SpecCount(specs[|specs| - 1])
  }

  lemma ChoicesSize(spec: Spec)
    ensures |Choices(spec)| == SpecCount(spec)
  {
    ListingSize(spec.axes);
    PairsSize(spec.materials, Listing(spec.axes));
    PairsSize(spec.brands, Pairs(spec.materials, Listing(spec.axes)));
  }

  predicate Numbered(codes: Codes, item: Item, id: nat) {
    item.id == id && item.partNo == PartNo(codes, item.subtype, item.brand, id)
  }

  lemma {:induction false} CatalogueSizeIs(codes: Codes, specs: seq<Spec>)
    ensures |Catalogue(codes, specs)| == CatalogueSize(specs)
  {
    if specs != [] {
      CatalogueSizeIs(codes, specs[..|specs| - 1]);
      ChoicesSize(specs[|specs| - 1]);
    }
  }

  lemma {:induction false} CatalogueNumbers(codes: Codes, specs: seq<Spec>, i: nat)
    requires i < |Catalogue(codes, specs)|
    ensures Catalogue(codes, specs)[i].id == i + 1 && Numbered(codes, Catalogue(codes, specs)[i], i + 1)
  {
    var n := |specs| - 1;
    var before := Catalogue(codes, specs[..n]);
    if i < |before| {
      CatalogueNumbers(codes, specs[..n], i);
    } else {
      assert Catalogue(codes, specs)[i] == MakeItem(codes, specs[n], Choices(specs[n])[i - |before|], i + 1);
    }
  }

  lemma LastSpecAt(codes: Codes, specs: seq<Spec>, k: nat)
    requires specs != [] && k < |Choices(specs[|specs| - 1])|
    ensures var n := |specs| - 1; var at := CatalogueSize(specs[..n]) + k;
      && at < |Catalogue(codes, specs)|
      && Catalogue(codes, specs)[at] == MakeItem(codes, specs[n], Choices(specs[n])[k], at + 1)
  {
    var n := |specs| - 1;
    CatalogueSizeIs(codes, specs[..n]);
    var before := Catalogue(codes, specs[..n]);
    var items := Stamp(codes, specs[n], Choices(specs[n]), |before|);
    assert Catalogue(codes, specs) == before + items;
    assert items[k] == MakeItem(codes, specs[n], Choices(specs[n])[k], |before| + k + 1);
  }

  lemma CatalogueGrows(codes: Codes, specs: seq<Spec>)
    requires specs != []
    ensures Catalogue(codes, specs[..|specs| - 1]) <= Catalogue(codes, specs)
  {
  }

  // The products of each spec follow those of the specs before it.
  lemma {:induction false} ProductAt(codes: Codes, specs: seq<Spec>, s: nat, k: nat)
    requires s < |specs| && k < |Choices(specs[s])|
    ensures var at := CatalogueSize(specs[..s]) + k;
      && at < |Catalogue(codes, specs)|
      && Catalogue(codes, specs)[at] == MakeItem(codes, specs[s], Choices(specs[s])[k], at + 1)
    decreases |specs|
  {
    var n := |specs| - 1;
    if s < n {
      assert specs[..n][..s] == specs[..s];
      ProductAt(codes, specs[..n], s, k);
      CatalogueGrows(codes, specs);
    } else {
      LastSpecAt(codes, specs, k);
    }
  }

  /**
   Every brand, material and combination of a spec is one product, at the position that
   its indices give: combinations vary fastest, then materials, then brands.
   */
  lemma ChoiceAt(spec: Spec, b: nat, m: nat, c: nat, k: nat, r: nat)
    requires b < |spec.brands| && m < |spec.materials| && c < Total(spec.axes)
    requires r == m * Total(spec.axes) + c && k == b * (|spec.materials| * Total(spec.axes)) + r
    ensures k < |Choices(spec)| == SpecCount(spec)
    ensures Choices(spec)[k] == (spec.brands[b], (spec.materials[m], Pick(spec.axes, Digits(spec.axes, c))))
  {
    var listing := Listing(spec.axes);
    ChoicesSize(spec);
    ListingDigits(spec.axes, c);
    PairsSize(spec.materials, listing);
    PairsAt(spec.materials, listing, m, c, r);
    PairsAt(spec.brands, Pairs(spec.materials, listing), b, r, k);
  }

  /**
   What the product at that position of the catalog is: brand, material and combination by
   its indices, category, subtype and lead time of its spec, a part number of brand code,
   subtype code and running number, and a price in the range of its spec.
   */
  lemma ProductMeans(codes: Codes, specs: seq<Spec>, s: nat, b: nat, m: nat, c: nat, k: nat, r: nat)
    requires s < |specs| && b < |specs[s].brands| && m < |specs[s].materials| && c < Total(specs[s].axes)
    requires r == m * Total(specs[s].axes) + c && k == b * (|specs[s].materials| * Total(specs[s].axes)) + r
    ensures var at := CatalogueSize(specs[..s]) + k; var spec := specs[s];
      && at < |Catalogue(codes, specs)|
      && var item := Catalogue(codes, specs)[at];
      && item.id == at + 1
      && item.brand == spec.brands[b] && item.material == spec.materials[m]
      && item.category == spec.category && item.subtype == spec.subtype && item.leadTimeDays == spec.leadTimeDays
      && |item.combo| == |spec.axes|
      && (forall j :: 0 <= j < |spec.axes| ==>
            item.combo[j] == (spec.axes[j].name, spec.axes[j].values[Digits(spec.axes, c)[j]]))
      && item.partNo ==
         codes.brand(spec.brands[b]) + "-" + codes.subtype(spec.subtype) + "-" + codes.number(at + 1)
      && spec.prices.0 * 100 <= item.priceCents <= spec.prices.1 * 100
  {
    ChoiceAt(specs[s], b, m, c, k, r);
    ProductAt(codes, specs, s, k);
  }

  ghost predicate AllDigits(s: string) { s != [] && forall i :: 0 <= i < |s| ==> IsDigit(s[i]) }

  lemma {:induction false} ParseZero(s: string)
    requires AllDigits(s)
    ensures ParseDigits(['0'] + s) == ParseDigits(s)
    decreases |s|
  {
    var t := ['0'] + s;
    if |s| == 1 {
      assert t[..1] == ['0'];
    } else {
      assert t[..|t| - 1] == ['0'] + s[..|s| - 1];
      ParseZero(s[..|s| - 1]);
    }
  }

  lemma {:induction false} ParseZeros(n: nat, s: string)
    requires AllDigits(s)
    ensures AllDigits(Zeros(n) + s) && ParseDigits(Zeros(n) + s) == ParseDigits(s)
  {
    if n > 0 {
      ParseZeros(n - 1, s);
      ParseZero(Zeros(n - 1) + s);
      assert Zeros(n) + s == ['0'] + (Zeros(n - 1) + s);
    } else {
      assert Zeros(n) + s == s;
    }
  }

  lemma PadParses(n: nat)
    ensures AllDigits(Pad5(n)) && ParseDigits(Pad5(n)) == Some(n)
  {
    var s := Decimal(n);
    ParseDecimal(n);
    ParseZeros(if |s| < 5 then 5 - |s| else 0, s);
  }

  // What follows the last '-' is the same in equal strings.
  lemma {:induction false} LastPart(a: string, x: string, b: string, y: string)
    requires a + ['-'] + x == b + ['-'] + y && '-' !in x && '-' !in y
    ensures x == y
    decreases |x|
  {
    var s := a + ['-'] + x;
    if x != [] && y != [] {
      var x', y' := x[..|x| - 1], y[..|y| - 1];
      assert s[..|s| - 1] == a + ['-'] + x';
      assert s[..|s| - 1] == b + ['-'] + y';
      LastPart(a, x', b, y');
      assert x == x' + [s[|s| - 1]] && y == y' + [s[|s| - 1]];
    } else {
      LastIsDash(a, b, x);
      LastIsDash(b, a, y);
    }
  }

  lemma LastIn(x: string)
    ensures x == [] || x[|x| - 1] in x
  {
  }

  lemma LastIsDash(a: string, b: string, x: string)
    requires '-' !in x
    ensures a + ['-'] + x == b + ['-'] ==> x == []
  {
    var s := a + ['-'] + x;
    if s == b + ['-'] {
      assert s[|s| - 1] == '-';
      LastIn(x);
    }
  }

  lemma PartNoInjective(
      codes: Codes, subtype: string, brand: string, id: nat, subtype': string, brand': string, id': nat)
    requires PadsToFive(codes) && PartNo(codes, subtype, brand, id) == PartNo(codes, subtype', brand', id')
    ensures id == id'
  {
    PadParses(id);
    PadParses(id');
    LastPart(codes.brand(brand) + ['-'] + codes.subtype(subtype), Pad5(id),
             codes.brand(brand') + ['-'] + codes.subtype(subtype'), Pad5(id'));
  }

  /**
   Identity: ids are exactly 1..N in order, with N the sum over the specs of brands times
   materials times the product of the axis sizes, and no two part numbers are equal,
   whatever the brand and subtype codes are.
   */
  lemma CatalogueIdentity(codes: Codes, specs: seq<Spec>, i: nat, j: nat)
    requires PadsToFive(codes) && i < |Catalogue(codes, specs)| && j < |Catalogue(codes, specs)|
    ensures |Catalogue(codes, specs)| == CatalogueSize(specs) && Catalogue(codes, specs)[i].id == i + 1
    ensures Catalogue(codes, specs)[i].partNo == Catalogue(codes, specs)[j].partNo ==> i == j
  {
    CatalogueSizeIs(codes, specs);
    CatalogueNumbers(codes, specs, i);
    CatalogueNumbers(codes, specs, j);
    var x, y := Catalogue(codes, specs)[i], Catalogue(codes, specs)[j];
    if x.partNo == y.partNo {
      PartNoInjective(codes, x.subtype, x.brand, i + 1, y.subtype, y.brand, j + 1);
    }
  }

  // ---- prices -------------------------------------------------------------------------------

  // hash: the digest of the part number, read as a number.
  function PriceCents(hash: nat, low: nat, high: nat): (cents: nat)
    requires low <= high
    ensures low * 100 <= cents <= high * 100
  {
    low * 100 + hash % ((high - low) * 100 + 1)
  }

  /** Every price of the range is reached, and digests a whole range apart have the same price. */
  lemma PricesReached(hash: nat, low: nat, high: nat, cents: nat)
    requires low * 100 <= cents <= high * 100
    ensures low <= high
    ensures PriceCents(cents - low * 100, low, high) == cents
    ensures PriceCents(hash + ((high - low) * 100 + 1), low, high) == PriceCents(hash, low, high)
  {
    var span := (high - low) * 100 + 1;
    SmallRemainder(cents - low * 100, span);
    SameRemainder(hash, span);
  }

  lemma SmallRemainder(x: nat, m: nat)
    requires x < m
    ensures x % m == x
  {
    Join(0, x, 1, m);
  }

  lemma SameRemainder(x: nat, m: nat)
    requires m > 0
    ensures (x + m) % m == x % m
  {
    var (q, r) := (x / m, x % m);
    assert x == q * m + r;
    assert x + m == (q + 1) * m + r;
    Join(q + 1, r, q + 2, m);
  }

  // ---- inventory -----------------------------------------------------------------------------

  // The random stream, by position: a fraction, and a number from 1 to 500.
  datatype Rng = Rng(random: nat -> real, randint: nat -> int)

  ghost predicate RngOk(rng: Rng) { forall n :: 1 <= rng.randint(n) <= 500 }

  datatype StockRow = StockRow(productId: int, warehouse: string, stock: Stock)

  // Where in the stream the draws for row k begin: a row takes one draw, or two if it has stock.
  function DrawsBefore(rng: Rng, k: nat): nat {
    if k == 0 then 0
    else DrawsBefore(rng, k - 1) + if rng.random(DrawsBefore(rng, k - 1)) < 0.12 then 1 else 2
  }

  // About one row in eight is empty, the others have the number drawn.
  ghost predicate AsDrawn(rng: Rng, rows: seq<StockRow>) {
    forall k :: 0 <= k < |rows| ==>
      rows[k].stock.onHand ==
        if rng.random(DrawsBefore(rng, k)) < 0.12 then 0 else rng.randint(DrawsBefore(rng, k) + 1)
  }

  // What the rows are about: one cell per product and warehouse.
  function Cells(rows: seq<StockRow>): (cells: seq<(int, string)>)
    ensures |cells| == |rows|
  {
    seq(|rows|, i requires 0 <= i < |rows| => (rows[i].productId, rows[i].warehouse))
  }

  lemma CellsAppend(rows: seq<StockRow>, r: StockRow)
    ensures Cells(rows + [r]) == Cells(rows) + [(r.productId, r.warehouse)]
  {
  }

  // Nothing is reserved at first.
  ghost predicate Unreserved(rows: seq<StockRow>) {
    forall k :: 0 <= k < |rows| ==> rows[k].stock.reserved == 0 && 0 <= rows[k].stock.onHand <= 500
  }

  function Ids(products: seq<Item>): (ids: seq<int>)
    ensures |ids| == |products|
  {
    seq(|products|, i requires 0 <= i < |products| => products[i].id)
  }

  method DrawStock(rng: Rng, drawn: nat) returns (onHand: int, next: nat)
    requires RngOk(rng)
    ensures onHand == if rng.random(drawn) < 0.12 then 0 else rng.randint(drawn + 1)
    ensures 0 <= onHand <= 500
    ensures next == drawn + if rng.random(drawn) < 0.12 then 1 else 2
  {
    if rng.random(drawn) < 0.12 {
      return 0, drawn + 1;
    }
    return rng.randint(drawn + 1), drawn + 2;
  }

  // The rows so far are for these cells, and what has been drawn for them is in them.
  ghost predicate Stocked(rng: Rng, rows: seq<StockRow>, cells: seq<(int, string)>, drawn: nat) {
    Cells(rows) == cells && Unreserved(rows) && AsDrawn(rng, rows) && drawn == DrawsBefore(rng, |rows|)
  }

  lemma DrawnAppend(rng: Rng, rows: seq<StockRow>, r: StockRow)
    requires AsDrawn(rng, rows)
    requires var at := DrawsBefore(rng, |rows|);
      r.stock.onHand == if rng.random(at) < 0.12 then 0 else rng.randint(at + 1)
    ensures AsDrawn(rng, rows + [r])
  {
  }

  lemma UnreservedAppend(rows: seq<StockRow>, r: StockRow)
    requires Unreserved(rows) && r.stock.reserved == 0 && 0 <= r.stock.onHand <= 500
    ensures Unreserved(rows + [r])
  {
  }

  lemma DrawsAfter(rng: Rng, n: nat)
    ensures DrawsBefore(rng, n + 1) ==
      DrawsBefore(rng, n) + if rng.random(DrawsBefore(rng, n)) < 0.12 then 1 else 2
  {
  }

  lemma StockOne(rng: Rng, rows: seq<StockRow>, cells: seq<(int, string)>, drawn: nat, r: StockRow, next: nat)
    requires Stocked(rng, rows, cells, drawn) && r.stock.reserved == 0 && 0 <= r.stock.onHand <= 500
    requires r.stock.onHand == if rng.random(drawn) < 0.12 then 0 else rng.randint(drawn + 1)
    requires next == drawn + if rng.random(drawn) < 0.12 then 1 else 2
    ensures Stocked(rng, rows + [r], cells + [(r.productId, r.warehouse)], next)
  {
    CellsAppend(rows, r);
    UnreservedAppend(rows, r);
    DrawnAppend(rng, rows, r);
    DrawsAfter(rng, |rows|);
  }

  method GenerateInventory(products: seq<Item>, warehouses: seq<string>, rng: Rng) returns (rows: seq<StockRow>)
    requires RngOk(rng)
    ensures Cells(rows) == Pairs(Ids(products), warehouses) && Unreserved(rows) && AsDrawn(rng, rows)
  {
    rows := [];
    var drawn := 0;
    ghost var ids := Ids(products);
    for i := 0 to |products|
      invariant Stocked(rng, rows, Pairs(ids[..i], warehouses), drawn)
    {
      ghost var before := Pairs(ids[..i], warehouses);
      for j := 0 to |warehouses|
        invariant Stocked(rng, rows, before + PairWith(ids[i], warehouses[..j]), drawn)
      {
        var onHand, next := DrawStock(rng, drawn);
        var row := StockRow(products[i].id, warehouses[j], Stock(onHand, 0));
        StockOne(rng, rows, before + PairWith(ids[i], warehouses[..j]), drawn, row, next);
        PairWithStep(ids[i], warehouses, j);
        assert before + PairWith(ids[i], warehouses[..j + 1])
            == before + PairWith(ids[i], warehouses[..j]) + [(row.productId, row.warehouse)];
        rows, drawn := rows + [row], next;
      }
      assert warehouses[..|warehouses|] == warehouses;
      PairsStep(ids, warehouses, i);
    }
    assert ids[..|ids|] == ids;
  }

  // Product i has id i + 1.
  lemma IdsInOrder(codes: Codes, specs: seq<Spec>)
    ensures |Ids(Catalogue(codes, specs))| == CatalogueSize(specs)
    ensures forall i :: 0 <= i < CatalogueSize(specs) ==> Ids(Catalogue(codes, specs))[i] == i + 1
  {
    CatalogueSizeIs(codes, specs);
    forall i | 0 <= i < CatalogueSize(specs) ensures Ids(Catalogue(codes, specs))[i] == i + 1 {
      CatalogueNumbers(codes, specs, i);
    }
  }

  ghost predicate DistinctCodes(warehouses: seq<string>) {
    forall a, b :: 0 <= a < |warehouses| && 0 <= b < |warehouses| ==> warehouses[a] == warehouses[b] ==> a == b
  }

  /** Every product is stocked in every warehouse by exactly one row. */
  lemma InventoryExactlyOnce(codes: Codes, specs: seq<Spec>, warehouses: seq<string>, rows: seq<StockRow>,
                             k: nat, k': nat, i: nat, j: nat)
    requires Cells(rows) == Pairs(Ids(Catalogue(codes, specs)), warehouses) && DistinctCodes(warehouses)
    requires k < |rows| && k' < |rows| && i < CatalogueSize(specs) && j < |warehouses|
    ensures |rows| == CatalogueSize(specs) * |warehouses|
    ensures Cells(rows)[k] == Cells(rows)[k'] ==> k == k'
    ensures (i + 1, warehouses[j]) in Cells(rows)
  {
    var ids := Ids(Catalogue(codes, specs));
    IdsInOrder(codes, specs);
    PairsSize(ids, warehouses);
    if Cells(rows)[k] == Cells(rows)[k'] {
      CellIsUnique(ids, warehouses, k, k');
    }
    CellExists(ids, warehouses, i, j);
  }

  lemma CellExists(ids: seq<int>, warehouses: seq<string>, i: nat, j: nat)
    requires i < |ids| && j < |warehouses|
    ensures (ids[i], warehouses[j]) in Pairs(ids, warehouses)
  {
    PairsAt(ids, warehouses, i, j, i * |warehouses| + j);
  }

  lemma CellIsUnique(ids: seq<int>, warehouses: seq<string>, k: nat, k': nat)
    requires forall i :: 0 <= i < |ids| ==> ids[i] == i + 1
    requires DistinctCodes(warehouses)
    requires k < |Pairs(ids, warehouses)| && k' < |Pairs(ids, warehouses)|
    requires Pairs(ids, warehouses)[k] == Pairs(ids, warehouses)[k']
    ensures k == k'
  {
    PairsDigits(ids, warehouses, k);
    PairsDigits(ids, warehouses, k');
    SameDigits(k, k', |warehouses|);
  }

  // ---- where the protocol starts ----------------------------------------------------------------

  function Inventory(rows: seq<StockRow>): map<Key, Stock> {
    if rows == [] then map[]
    else
      var r := rows[|rows| - 1];
      Inventory(rows[..|rows| - 1])[Key(r.productId, r.warehouse) := r.stock]
  }

  /** The table has exactly the rows, under their products and warehouses. */
  lemma {:induction false} InventoryMeans(rows: seq<StockRow>)
    requires forall i, j :: 0 <= i < j < |rows| ==> Cells(rows)[i] != Cells(rows)[j]
    ensures forall key :: key in Inventory(rows) ==>
      exists i :: 0 <= i < |rows| && key == Key(rows[i].productId, rows[i].warehouse)
    ensures forall i :: 0 <= i < |rows| ==>
      var key := Key(rows[i].productId, rows[i].warehouse);
      key in Inventory(rows) && Inventory(rows)[key] == rows[i].stock
  {
    if rows != [] {
      var n := |rows| - 1;
      assert forall i :: 0 <= i < n ==> Cells(rows)[i] == Cells(rows[..n])[i];
      InventoryMeans(rows[..n]);
      forall key | key in Inventory(rows)
        ensures exists i :: 0 <= i < |rows| && key == Key(rows[i].productId, rows[i].warehouse)
      {
        if key in Inventory(rows[..n]) {
          var i :| 0 <= i < n && key == Key(rows[..n][i].productId, rows[..n][i].warehouse);
          assert key == Key(rows[i].productId, rows[i].warehouse);
        } else {
          assert key == Key(rows[n].productId, rows[n].warehouse);
        }
      }
      forall i | 0 <= i < n ensures var key := Key(rows[i].productId, rows[i].warehouse);
        key in Inventory(rows) && Inventory(rows)[key] == rows[i].stock
      {
        assert rows[..n][i] == rows[i] && Cells(rows)[i] != Cells(rows)[n];
      }
    }
  }

  lemma {:induction false} InventoryUnreserved(rows: seq<StockRow>)
    requires Unreserved(rows)
    ensures forall key :: key in Inventory(rows) ==>
      Inventory(rows)[key].reserved == 0 && 0 <= Inventory(rows)[key].onHand <= 500
  {
    if rows != [] {
      InventoryUnreserved(rows[..|rows| - 1]);
    }
  }

  lemma {:induction false} NoActiveUnits(key: Key, n: int)
    ensures ActiveUnits(map[], key, n) == 0
    decreases n
  {
    if n > 0 {
      NoActiveUnits(key, n - 1);
    }
  }

  function Waiting(ops: seq<Op>): seq<Call> {
    seq(|ops|, i requires 0 <= i < |ops| => Call(ops[i], Idle, NO_WRITES))
  }

  /** A freshly seeded database is a start of the reserve and release protocol. */
  lemma SeededDatabaseIsStart(rows: seq<StockRow>, catalog: Catalog, connections: nat, ops: seq<Op>)
    requires Unreserved(rows)
    ensures Init(State(catalog, Db(Inventory(rows), map[]), 1, connections, map[], map[], Waiting(ops)))
  {
    var db := Db(Inventory(rows), map[]);
    InventoryUnreserved(rows);
    forall key | key in db.inventory ensures StockOk(db, key, 1) {
      NoActiveUnits(key, 1);
    }
    assert Conserved(db, 1);
  }
}
