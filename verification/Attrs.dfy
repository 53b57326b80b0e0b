/** The 'key:value' attribute filters of the search endpoint. */
module Attrs {
  import opened Wrappers
  import opened Text

  datatype Attr = Attr(key: string, value: string)

  // What one item means; None for a malformed one.
  function ParseItem(item: string): Option<Attr> {
    var p := Partition(item, ':');
    if !p.found || Strip(p.head) == [] || Strip(p.tail) == [] then None
    else Some(Attr(Strip(p.head), Strip(p.tail)))
  }

  // Key and value are what is left and right of the first ':', trimmed; neither may be blank.
  lemma ItemMeans(head: string, tail: string)
    requires ':' !in head
    ensures ParseItem(head) == None
    ensures ParseItem(head + [':'] + tail) ==
      if Blank(head) || Blank(tail) then None else Some(Attr(Strip(head), Strip(tail)))
  {
    PartitionJoined(head, ':', tail);
    StripBlank(head);
    StripBlank(tail);
  }

  /** Blanks around key and value do not count: "size: 10mm" is the size 10mm. */
  lemma PaddedItem(a: string, key: string, b: string, c: string, value: string, d: string)
    requires Padding(a) && Padding(b) && Padding(c) && Padding(d)
    requires key != [] && value != [] && Trimmed(key) && Trimmed(value) && ':' !in key
    ensures ParseItem(a + key + b + [':'] + (c + value + d)) == Some(Attr(key, value))
  {
    StripPadded(a, key, b);
    StripPadded(c, value, d);
    PartitionJoined(a + key + b, ':', c + value + d);
  }

  // r is what the items mean: the filters in order, or the first malformed item.
  ghost predicate Means(items: seq<string>, r: Result<seq<Attr>, string>) {
    match r
    case Ok(attrs) => AllParsed(ParseItem, items, attrs)
    case Err(item) => exists i :: 0 <= i < |items| && FirstMalformed(items, i) && items[i] == item
  }

  ghost predicate AllParsed(parse: string -> Option<Attr>, items: seq<string>, attrs: seq<Attr>) {
    |attrs| == |items| && forall i :: 0 <= i < |items| ==> parse(items[i]) == Some(attrs[i])
  }

  ghost predicate FirstMalformed(items: seq<string>, i: nat)
    requires i < |items|
  {
    ParseItem(items[i]).None? && forall j :: 0 <= j < i ==> ParseItem(items[j]).Some?
  }

  lemma OneMore(parse: string -> Option<Attr>, items: seq<string>, i: nat, parsed: seq<Attr>, a: Attr)
    requires i < |items| && AllParsed(parse, items[..i], parsed) && parse(items[i]) == Some(a)
    ensures AllParsed(parse, items[..i + 1], parsed + [a])
  {
  }

  lemma MalformedAt(items: seq<string>, i: nat, parsed: seq<Attr>)
    requires i < |items| && AllParsed(ParseItem, items[..i], parsed) && ParseItem(items[i]) == None
    ensures Means(items, Err(items[i]))
  {
    forall j | 0 <= j < i ensures ParseItem(items[j]).Some? {
      assert items[..i][j] == items[j];
    }
    assert FirstMalformed(items, i);
  }

  method ParseAttrs(items: seq<string>) returns (r: Result<seq<Attr>, string>)
    ensures Means(items, r)
  {
    var parsed: seq<Attr> := [];
    for i := 0 to |items|
      invariant AllParsed(ParseItem, items[..i], parsed)
    {
      var attr := ParseItem(items[i]);
      if attr.None? {
        MalformedAt(items, i, parsed);
        return Err(items[i]);
      }
      OneMore(ParseItem, items, i, parsed, attr.value);
      parsed := parsed + [attr.value];
    }
    assert items[..|items|] == items;
    return Ok(parsed);
  }

  // A list of items has one outcome.
  lemma MeaningIsUnique(items: seq<string>, r: Result<seq<Attr>, string>, r': Result<seq<Attr>, string>)
    requires Means(items, r) && Means(items, r')
    ensures r == r'
  {
    if r.Ok? && r'.Ok? {
      assert r.value == r'.value;
    } else {
      var bad := if r.Err? then r else r';
      var i :| 0 <= i < |items| && FirstMalformed(items, i) && items[i] == bad.error;
      assert ParseItem(items[i]).None?;
    }
  }

  // ---- round trip --------------------------------------------------------------------

  function RenderItem(a: Attr): string { a.key + [':'] + a.value }

  function Render(attrs: seq<Attr>): seq<string> {
    seq(|attrs|, i requires 0 <= i < |attrs| => RenderItem(attrs[i]))
  }

  // Trimmed and not empty, with no ':' in the key.
  predicate Canonical(a: Attr) {
    a.key != [] && a.value != [] && Trimmed(a.key) && Trimmed(a.value) && ':' !in a.key
  }

  ghost predicate AllCanonical(attrs: seq<Attr>) { forall i :: 0 <= i < |attrs| ==> Canonical(attrs[i]) }

  lemma ItemRoundTrip(a: Attr)
    requires Canonical(a)
    ensures ParseItem(RenderItem(a)) == Some(a)
  {
    PartitionJoined(a.key, ':', a.value);
  }

  lemma ParsedIsCanonical(item: string)
    ensures ParseItem(item).Some? ==> Canonical(ParseItem(item).value)
  {
  }

  /**
   Round trip: rendering filters and parsing them gives the same filters back if and
   only if every one is canonical; whatever a parse accepts is canonical, so parsing,
   rendering and parsing again changes nothing. Values may contain ':'. There is no other
   outcome that parsing could have.
   */
  lemma RoundTrip(attrs: seq<Attr>, items: seq<string>)
    ensures Means(Render(attrs), Ok(attrs)) <==> AllCanonical(attrs)
    ensures Means(items, Ok(attrs)) ==> Means(Render(attrs), Ok(attrs))
    ensures AllCanonical(attrs) ==> forall r :: Means(Render(attrs), r) ==> r == Ok(attrs)
  {
    forall i | 0 <= i < |attrs|
      ensures ParseItem(Render(attrs)[i]) == Some(attrs[i]) <==> Canonical(attrs[i])
    {
      ParsedIsCanonical(RenderItem(attrs[i]));
      if Canonical(attrs[i]) {
        ItemRoundTrip(attrs[i]);
      }
    }
    if Means(items, Ok(attrs)) {
      forall i | 0 <= i < |attrs| ensures Canonical(attrs[i]) {
        assert ParseItem(items[i]) == Some(attrs[i]);
        ParsedIsCanonical(items[i]);
      }
    }
    if AllCanonical(attrs) {
      forall r | Means(Render(attrs), r) ensures r == Ok(attrs) {
        MeaningIsUnique(Render(attrs), r, Ok(attrs));
      }
    }
  }
}
