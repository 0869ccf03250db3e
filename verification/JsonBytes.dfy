/** The exact size of a string as JSON: `JSON.stringify` (string escapes of section 7 of RFC 8259, with lone surrogates
    escaped) followed by UTF-8 encoding (section 3 of RFC 3629), and a count that needs neither text. */
module JsonBytes {
  import opened CodeUnits

  type Byte = b: int | 0 <= b < 256

  predicate High(u: Unit) { 0xD800 <= u < 0xDC00 }
  predicate Low(u: Unit) { 0xDC00 <= u < 0xE000 }

  predicate Paired(s: Source) {
    |s| >= 2 && High(s[0]) && Low(s[1])
  }

  // ---- Encoding ----

  function Hex(n: int): Unit
    requires 0 <= n < 16
  {
    if n < 10 then 0x30 + n else 0x57 + n
  }

  function UnicodeEscape(u: Unit): Source {
    [BACKSLASH, 117, Hex(u / 0x1000), Hex(u / 0x100 % 0x10), Hex(u / 0x10 % 0x10), Hex(u % 0x10)]
  }

  function EscapeUnit(u: Unit): Source {
    if u == QUOTE || u == BACKSLASH then [BACKSLASH, u]
    else if u == 8 then [BACKSLASH, 98] else if u == TAB then [BACKSLASH, 116] else if u == LF then [BACKSLASH, 110]
    else if u == 12 then [BACKSLASH, 102] else if u == CR then [BACKSLASH, 114]
    else if u < 0x20 || High(u) || Low(u) then UnicodeEscape(u)
    else [u]
  }

  function Escaped(s: Source): Source {
    if s == [] then [] else if Paired(s) then s[..2] + Escaped(s[2..]) else EscapeUnit(s[0]) + Escaped(s[1..])
  }

  function Stringify(s: Source): Source {
    [QUOTE] + (Escaped(s) + [QUOTE])
  }

  function Utf8Code(code: int): seq<Byte>
    requires 0 <= code < 0x110000
  {
    if code < 0x80 then [code]
    else if code < 0x800 then [0xC0 + code / 0x40, 0x80 + code % 0x40]
    else if code < 0x10000 then [0xE0 + code / 0x1000, 0x80 + code / 0x40 % 0x40, 0x80 + code % 0x40]
    else [0xF0 + code / 0x40000, 0x80 + code / 0x1000 % 0x40, 0x80 + code / 0x40 % 0x40, 0x80 + code % 0x40]
  }

  function PairCode(high: int, low: int): int {
    0x10000 + (high - 0xD800) * 0x400 + (low - 0xDC00)
  }

  /** `TextEncoder.encode`: a lone surrogate would become the replacement character. */
  function Utf8(s: Source): seq<Byte> {
    if s == [] then []
    else if Paired(s) then Utf8Code(PairCode(s[0], s[1])) + Utf8(s[2..])
    else if High(s[0]) || Low(s[0]) then Utf8Code(0xFFFD) + Utf8(s[1..])
    else Utf8Code(s[0]) + Utf8(s[1..])
  }

  function MessageJsonBytes(message: Source): nat {
    |Utf8(Stringify(message))|
  }

  // ---- Counting ----

  function UnitCost(u: Unit): nat {
    if u == QUOTE || u == BACKSLASH || 8 <= u <= 10 || 12 <= u <= 13 then 2
    else if u < 0x20 || High(u) || Low(u) then 6
    else if u < 0x80 then 1 else if u < 0x800 then 2 else 3
  }

  function Cost(s: Source): nat {
    if s == [] then 0 else if Paired(s) then 4 + Cost(s[2..]) else UnitCost(s[0]) + Cost(s[1..])
  }

  predicate Ascii(s: Source) {
    forall i | 0 <= i < |s| :: s[i] < 0x80
  }

  lemma {:induction false} Utf8OfAscii(a: Source, rest: Source)
    requires Ascii(a)
    ensures |Utf8(a + rest)| == |a| + |Utf8(rest)|
  {
    if a == [] {
      assert a + rest == rest;
    } else {
      Utf8OfAscii(a[1..], rest);
      assert (a + rest)[1..] == a[1..] + rest;
    }
  }

  lemma Utf8OfUnit(u: Unit, rest: Source)
    requires !High(u) && !Low(u)
    ensures |Utf8([u] + rest)| == |Utf8Code(u)| + |Utf8(rest)|
  {
    assert ([u] + rest)[1..] == rest;
  }

  lemma Utf8OfPair(s: Source, rest: Source)
    requires Paired(s)
    ensures |Utf8(s[..2] + rest)| == 4 + |Utf8(rest)|
  {
    var t := s[..2] + rest;
    assert t[2..] == rest && t[0] == s[0] && t[1] == s[1];
  }

  lemma EscapeUnitSize(u: Unit, rest: Source)
    ensures |Utf8(EscapeUnit(u) + rest)| == UnitCost(u) + |Utf8(rest)|
  {
    if u < 0x80 || UnitCost(u) == 6 {
      Utf8OfAscii(EscapeUnit(u), rest);
    } else {
      Utf8OfUnit(u, rest);
    }
  }

  lemma {:induction false} EscapedSize(s: Source, rest: Source)
    ensures |Utf8(Escaped(s) + rest)| == Cost(s) + |Utf8(rest)|
    decreases |s|
  {
    if s == [] {
      assert Escaped(s) + rest == rest;
    } else if Paired(s) {
      var tail := Escaped(s[2..]);
      assert s[..2] + tail + rest == s[..2] + (tail + rest);
      EscapedSize(s[2..], rest);
      Utf8OfPair(s, tail + rest);
    } else {
      var tail := Escaped(s[1..]);
      assert EscapeUnit(s[0]) + tail + rest == EscapeUnit(s[0]) + (tail + rest);
      EscapedSize(s[1..], rest);
      EscapeUnitSize(s[0], tail + rest);
    }
  }

  /** A stringified text, with anything after it. */
  lemma StringifiedSize(s: Source, rest: Source)
    ensures |Utf8(Stringify(s) + rest)| == Cost(s) + 2 + |Utf8(rest)|
  {
    var closed := [QUOTE] + rest;
    assert Stringify(s) + rest == [QUOTE] + (Escaped(s) + closed);
    Utf8OfUnit(QUOTE, Escaped(s) + closed);
    EscapedSize(s, closed);
    Utf8OfUnit(QUOTE, rest);
  }

  /** The byte count of the encoded JSON is two quotes and the cost of the units. */
  lemma JsonBytesAreCost(message: Source)
    ensures MessageJsonBytes(message) == Cost(message) + 2
  {
    StringifiedSize(message, []);
    assert Stringify(message) + [] == Stringify(message);
  }

  // ---- Arithmetic of costs ----

  lemma {:induction false} CostConcat(a: Source, b: Source)
    requires b == [] || !Low(b[0])
    ensures Cost(a + b) == Cost(a) + Cost(b)
    decreases |a|
  {
    if a == [] {
      assert a + b == b;
    } else if Paired(a) {
      CostConcat(a[2..], b);
      assert (a + b)[2..] == a[2..] + b;
    } else {
      CostConcat(a[1..], b);
      assert (a + b)[1..] == a[1..] + b;
    }
  }

  lemma {:induction false} CostBounds(s: Source)
    ensures Cost(s) <= 6 * |s|
    ensures Cost(s) >= |s|
    decreases |s|
  {
    if s != [] {
      if Paired(s) { CostBounds(s[2..]); } else { CostBounds(s[1..]); }
    }
  }

  predicate Plain(s: Source) {
    forall i | 0 <= i < |s| :: 0x20 <= s[i] < 0x80 && s[i] != QUOTE && s[i] != BACKSLASH
  }

  lemma {:induction false} CostOfPlain(s: Source)
    requires Plain(s)
    ensures Cost(s) == |s|
  {
    if s != [] {
      CostOfPlain(s[1..]);
    }
  }
}
