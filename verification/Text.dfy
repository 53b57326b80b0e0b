/** The string operations the parsers use. */
module Text {
  import opened Wrappers

  // The characters str.strip removes.
  predicate IsSpace(c: char) {
    var n := c as int;
    || 0x09 <= n <= 0x0d || 0x1c <= n <= 0x20 || n == 0x85 || n == 0xa0 || n == 0x1680
    || 0x2000 <= n <= 0x200a || n == 0x2028 || n == 0x2029 || n == 0x202f || n == 0x205f || n == 0x3000
  }

  predicate Trimmed(s: string) {
    s != [] ==> !IsSpace(s[0]) && !IsSpace(s[|s| - 1])
  }

  function Strip(s: string): (r: string)
    ensures Trimmed(r)
    ensures Trimmed(s) ==> r == s
    ensures forall c :: c in r ==> c in s
    ensures forall c :: c in s && !IsSpace(c) ==> c in r
  {
    if s == [] then s
    else if IsSpace(s[0]) then
      assert s == [s[0]] + s[1..];
      Strip(s[1..])
    else if IsSpace(s[|s| - 1]) then
      assert s == s[..|s| - 1] + [s[|s| - 1]];
      Strip(s[..|s| - 1])
    else s
  }

  ghost predicate Blank(s: string) { forall c :: c in s ==> IsSpace(c) }

  // Blanks as people type them.
  ghost predicate Padding(s: string) { forall c :: c in s ==> c == ' ' || c == '\t' || c == '\n' || c == '\r' }

  // Nothing is left of blank text, and of no other.
  lemma StripBlank(s: string)
    ensures Strip(s) == [] <==> Blank(s)
  {
    HasFirstChar(Strip(s));
  }

  lemma HasFirstChar(s: string)
    ensures s != [] ==> s[0] in s
  {
  }

  // Padding goes, what is inside stays.
  lemma {:induction false} StripPadded(before: string, s: string, after: string)
    requires Padding(before) && Padding(after) && Trimmed(s)
    ensures Strip(before + s + after) == s
    decreases |before| + |after|
  {
    var t := before + s + after;
    if s == [] {
      StripBlank(t);
    } else if before != [] {
      assert before[0] in before;
      assert t[1..] == before[1..] + s + after;
      assert forall c :: c in before[1..] ==> c in before;
      StripPadded(before[1..], s, after);
    } else if after != [] {
      var n := |after| - 1;
      assert after[n] in after;
      assert t[..|t| - 1] == before + s + after[..n];
      assert forall c :: c in after[..n] ==> c in after;
      StripPadded(before, s, after[..n]);
    } else {
      assert t == s;
    }
  }

  // The text before and after the first separator, if there is one.
  datatype Parts = Parts(head: string, found: bool, tail: string)

  function Partition(s: string, sep: char): (p: Parts)
    ensures sep !in p.head
    ensures s == if p.found then p.head + [sep] + p.tail else p.head
    ensures !p.found ==> p.tail == []
  {
    if s == [] then Parts([], false, [])
    else if s[0] == sep then
      assert s == [] + [sep] + s[1..];
      Parts([], true, s[1..])
    else
      var p := Partition(s[1..], sep);
      assert s == [s[0]] + s[1..];
      Parts([s[0]] + p.head, p.found, p.tail)
  }

  lemma {:induction false} PartitionJoined(head: string, sep: char, tail: string)
    requires sep !in head
    ensures Partition(head + [sep] + tail, sep) == Parts(head, true, tail)
  {
    var s := head + [sep] + tail;
    if head != [] {
      assert s[1..] == head[1..] + [sep] + tail;
      PartitionJoined(head[1..], sep, tail);
    } else {
      assert s[1..] == tail;
    }
  }

  function LowerChar(c: char): char { if 'A' <= c <= 'Z' then c - 'A' + 'a' else c }

  function Lower(s: string): string { seq(|s|, i requires 0 <= i < |s| => LowerChar(s[i])) }

  // ---- decimal numerals -----------------------------------------------------------

  predicate IsDigit(c: char) { '0' <= c <= '9' }

  function DigitValue(c: char): nat
    requires IsDigit(c)
  {
    c as int - '0' as int
  }

  function DigitChar(d: nat): (c: char)
    requires d < 10
    ensures IsDigit(c) && DigitValue(c) == d
  {
    (d + '0' as int) as char
  }

  function Decimal(n: nat): (s: string)
    ensures s != [] && forall i :: 0 <= i < |s| ==> IsDigit(s[i])
  {
    if n < 10 then [DigitChar(n)] else Decimal(n / 10) + [DigitChar(n % 10)]
  }

  // Digits, with single underscores allowed between them.
  function ParseDigits(s: string): Option<nat> {
    if s == [] || !IsDigit(s[|s| - 1]) then None
    else
      var d := DigitValue(s[|s| - 1]);
      if |s| == 1 then Some(d)
      else
        var front := s[..|s| - 1];
        var digits := if front[|front| - 1] == '_' then front[..|front| - 1] else front;
        var high := ParseDigits(digits);
        if high.None? then None else Some(10 * high.value + d)
  }

  function ParseInt(s: string): Option<int> {
    if s == [] then None
    else
      var signed := s[0] == '-' || s[0] == '+';
      match ParseDigits(if signed then s[1..] else s)
      case None => None
      case Some(n) => Some(if s[0] == '-' then 0 - (n as int) else n as int)
  }

  lemma {:induction false} ParseDecimal(n: nat)
    ensures ParseDigits(Decimal(n)) == Some(n)
  {
    if n >= 10 {
      ParseDecimal(n / 10);
      var s := Decimal(n);
      assert s[..|s| - 1] == Decimal(n / 10);
    }
  }

  // Numerals are read in base ten; underscores group digits.
  lemma Numerals()
    ensures ParseInt("60") == Some(60) && ParseInt("120") == Some(120)
    ensures ParseInt("7200") == Some(7200) && ParseInt("1_000") == Some(1000)
  {
    assert "60"[..1] == "6";
    assert "120"[..2] == "12" && "12"[..1] == "1";
    assert "7200"[..3] == "720" && "720"[..2] == "72" && "72"[..1] == "7";
    assert "1_000"[..4] == "1_00" && "1_00"[..3] == "1_0" && "1_0"[..2] == "1_" && "1_"[..1] == "1";
  }

  lemma SignedNumeral(n: nat)
    ensures ParseInt(['-'] + Decimal(n)) == Some(-(n as int)) && ParseInt(['+'] + Decimal(n)) == Some(n)
  {
    ParseDecimal(n);
    assert (['-'] + Decimal(n))[1..] == Decimal(n) && (['+'] + Decimal(n))[1..] == Decimal(n);
  }

  lemma ParseIntDecimal(n: nat)
    ensures Trimmed(Decimal(n)) && ParseInt(Decimal(n)) == Some(n)
  {
    ParseDecimal(n);
    var s := Decimal(n);
    assert IsDigit(s[0]) && IsDigit(s[|s| - 1]);
  }
}
