/** The notify line the hook installer writes, an array stringified as JSON (scripts/lib/hook-config.mjs), is read back by
    the notify reader as exactly the strings written. */
module NotifyWritten {
  import opened Options
  import opened CodeUnits
  import opened JsonBytes
  import opened NotifyGrammar
  import opened NotifyRoundTrip
  import opened NotifyToml

  /** `JSON.stringify` of an array of strings, without its opening bracket. */
  function StringifiedItems(values: seq<Source>): Source {
    if values == [] then [RIGHT_SQUARE]
    else Stringify(values[0]) + (if |values| == 1 then [RIGHT_SQUARE] else [COMMA] + StringifiedItems(values[1..]))
  }

  /** `notify = [...]`. */
  function Replacement(values: seq<Source>): Source {
    NOTIFY + [SPACE, EQUALS, SPACE, LEFT_SQUARE] + StringifiedItems(values)
  }

  // ---- A stringified text as the atoms of a basic string ----

  function HexDigits(u: Unit): Source {
    [Hex(u / 0x1000), Hex(u / 0x100 % 0x10), Hex(u / 0x10 % 0x10), Hex(u % 0x10)]
  }

  function AtomFor(u: Unit): Atom {
    if u == QUOTE || u == BACKSLASH then Short(u)
    else if u == 8 then Short(98) else if u == TAB then Short(116) else if u == LF then Short(110)
    else if u == 12 then Short(102) else if u == CR then Short(114)
    else if u < 0x20 || High(u) || Low(u) then Code(HexDigits(u))
    else Plain(u)
  }

  function AtomsFor(s: Source): seq<Atom> {
    if s == [] then []
    else if Paired(s) then [Plain(s[0])] + ([Plain(s[1])] + AtomsFor(s[2..]))
    else [AtomFor(s[0])] + AtomsFor(s[1..])
  }

  lemma Nibbles(u: Unit)
    ensures ((u / 0x1000 * 16 + u / 0x100 % 0x10) * 16 + u / 0x10 % 0x10) * 16 + u % 0x10 == u
  {
    Nested(u);
    LastNibble(u / 0x100);
    LastNibble(u / 0x10);
    LastNibble(u);
  }

  lemma Nested(u: nat)
    ensures u / 0x10 / 0x10 == u / 0x100 && u / 0x100 / 0x10 == u / 0x1000
  {
  }

  lemma LastNibble(u: nat)
    ensures u == u / 0x10 * 16 + u % 0x10
  {
  }

  lemma FourDigits(a: Unit, b: Unit, c: Unit, d: Unit)
    requires HexDigit(a).Some? && HexDigit(b).Some? && HexDigit(c).Some? && HexDigit(d).Some?
    ensures AllHex([a, b, c, d])
    ensures HexValue([a, b, c, d]) ==
            ((HexDigit(a).value * 16 + HexDigit(b).value) * 16 + HexDigit(c).value) * 16 + HexDigit(d).value
  {
    OneMoreDigit([], a);
    OneMoreDigit([a], b);
    OneMoreDigit([a, b], c);
    OneMoreDigit([a, b, c], d);
    assert [] + [a] == [a] && [a] + [b] == [a, b] && [a, b] + [c] == [a, b, c] && [a, b, c] + [d] == [a, b, c, d];
  }

  lemma HexOf(n: nat)
    requires n < 16
    ensures HexDigit(Hex(n)) == Some(n)
  {
  }

  lemma HexDigitsValue(u: Unit)
    ensures AllHex(HexDigits(u)) && HexValue(HexDigits(u)) == u
  {
    HexOf(u / 0x1000);
    HexOf(u / 0x100 % 0x10);
    HexOf(u / 0x10 % 0x10);
    HexOf(u % 0x10);
    FourDigits(Hex(u / 0x1000), Hex(u / 0x100 % 0x10), Hex(u / 0x10 % 0x10), Hex(u % 0x10));
    Nibbles(u);
  }

  lemma AtomForUnit(u: Unit, rest: Source)
    ensures AtomOk(AtomFor(u)) && AtomValue(AtomFor(u)) == [u] && AtomText(AtomFor(u), rest) == EscapeUnit(u) + rest
  {
    if AtomFor(u).Code? {
      CodeForUnit(u, rest);
    }
  }

  lemma DigitsMean(digits: Source, u: Unit, rest: Source)
    requires |digits| == 4 && AllHex(digits) && HexValue(digits) == u
    ensures AtomOk(Code(digits)) && AtomValue(Code(digits)) == [u]
    ensures AtomText(Code(digits), rest) == ([BACKSLASH, 117] + digits) + rest
  {
  }

  lemma EscapeOfDigits(u: Unit)
    ensures UnicodeEscape(u) == [BACKSLASH, 117] + HexDigits(u)
  {
  }

  lemma CodeForUnit(u: Unit, rest: Source)
    ensures AtomOk(Code(HexDigits(u))) && AtomValue(Code(HexDigits(u))) == [u]
    ensures AtomText(Code(HexDigits(u)), rest) == UnicodeEscape(u) + rest
  {
    HexDigitsValue(u);
    EscapeOfDigits(u);
    DigitsMean(HexDigits(u), u, rest);
  }

  /** The atoms stand for the value, and are printed as the text. */
  ghost predicate Spell(atoms: seq<Atom>, value: Source, text: Source, rest: Source) {
    AtomsOk(atoms) && AtomsValue(atoms) == value && AtomsText(atoms, rest) == text + rest
  }

  lemma Reassociated(a: Source, b: Source, c: Source)
    ensures a + (b + c) == (a + b) + c
  {
  }

  lemma OneMoreAtom(a: Atom, u: Unit, escaped: Source, more: seq<Atom>, value: Source, text: Source, rest: Source)
    requires Spell(more, value, text, rest) && AtomOk(a) && AtomValue(a) == [u]
    requires AtomText(a, text + rest) == escaped + (text + rest)
    ensures Spell([a] + more, [u] + value, escaped + text, rest)
  {
    assert ([a] + more)[1..] == more;
    Reassociated(escaped, text, rest);
  }

  lemma {:induction false} AtomsForText(s: Source, rest: Source)
    ensures Spell(AtomsFor(s), s, Escaped(s), rest)
    decreases |s|
  {
    if s == [] {
      assert [] + rest == rest;
    } else if Paired(s) {
      AtomsForText(s[2..], rest);
      PairSpelled(s, rest);
    } else {
      AtomsForText(s[1..], rest);
      AtomForUnit(s[0], Escaped(s[1..]) + rest);
      OneMoreAtom(AtomFor(s[0]), s[0], EscapeUnit(s[0]), AtomsFor(s[1..]), s[1..], Escaped(s[1..]), rest);
      assert s == [s[0]] + s[1..];
    }
  }

  lemma PairSpelled(s: Source, rest: Source)
    requires Paired(s) && Spell(AtomsFor(s[2..]), s[2..], Escaped(s[2..]), rest)
    ensures Spell(AtomsFor(s), s, Escaped(s), rest)
  {
    var more, text := AtomsFor(s[2..]), Escaped(s[2..]);
    OneMoreAtom(Plain(s[1]), s[1], [s[1]], more, s[2..], text, rest);
    OneMoreAtom(Plain(s[0]), s[0], [s[0]], [Plain(s[1])] + more, [s[1]] + s[2..], [s[1]] + text, rest);
    assert s == [s[0]] + ([s[1]] + s[2..]) && Escaped(s) == [s[0]] + ([s[1]] + text);
  }

  // ---- The array and its line ----

  function ItemsFor(values: seq<Source>): (items: Items)
    ensures ItemsValues(items) == values
  {
    if values == [] then End([]) else
      AtomsForText(values[0], []);
      var literal: Literal := Basic(AtomsFor(values[0]));
      if |values| == 1 then Last([], literal, []) else More([], literal, [], ItemsFor(values[1..]))
  }

  lemma StringifiedLiteral(s: Source, rest: Source)
    ensures LiteralText(Basic(AtomsFor(s)), rest) == Stringify(s) + rest
  {
    AtomsForText(s, [QUOTE] + rest);
    assert [QUOTE] + (Escaped(s) + ([QUOTE] + rest)) == Stringify(s) + rest;
  }

  lemma {:induction false} ItemsForText(values: seq<Source>, remainder: Source)
    ensures ItemsText(ItemsFor(values), remainder) == StringifiedItems(values) + remainder
  {
    if |values| == 1 {
      StringifiedLiteral(values[0], [RIGHT_SQUARE] + remainder);
    } else if values != [] {
      var more := ItemsText(ItemsFor(values[1..]), remainder);
      ItemsForText(values[1..], remainder);
      StringifiedLiteral(values[0], [COMMA] + more);
      assert Stringify(values[0]) + ([COMMA] + more) == StringifiedItems(values) + remainder;
    }
  }

  /** Whatever strings the installer writes, after any one-line assignments and before anything at all, the reader returns
      exactly those strings. */
  lemma InstalledNotifyIsRead(lines: Lines, gap: Gap, values: seq<Source>, remainder: Source)
    ensures ReadRoot(LinesText(lines, GapText(gap, Replacement(values) + remainder))) == Strings(values)
  {
    var d := Document(lines, gap, [SPACE], [SPACE], [], ItemsFor(values), remainder);
    DocumentRoundTrip(d);
    ItemsForText(values, remainder);
    LineText(NOTIFY, StringifiedItems(values), remainder);
  }

  lemma LineText(key: Source, items: Source, remainder: Source)
    ensures KeyText(key, [SPACE], [SPACE], GapText([], [LEFT_SQUARE] + (items + remainder))) ==
            key + [SPACE, EQUALS, SPACE, LEFT_SQUARE] + items + remainder
  {
    var marks: Source := [SPACE, EQUALS, SPACE, LEFT_SQUARE];
    assert [SPACE] + ([EQUALS] + ([SPACE] + ([LEFT_SQUARE] + (items + remainder)))) == marks + (items + remainder);
    assert key + (marks + (items + remainder)) == key + marks + items + remainder;
  }
}
