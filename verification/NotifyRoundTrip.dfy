/** What the notify reader accepts and returns: printing then reading gives the strings back, and whatever it reads is
    the printed form of what it returns. */
module NotifyRoundTrip {
  import opened Options
  import opened CodeUnits
  import opened BalancedLine
  import opened NotifyGrammar

  predicate Solid(t: Source) {
    t == [] || (!White(t[0]) && t[0] != HASH)
  }

  // ---- Gaps ----

  lemma {:induction false} SkipComment(body: Source, rest: Source)
    requires LF !in body
    ensures Skip(body + ([LF] + rest), true) == Skip(rest, false)
  {
    var t := body + ([LF] + rest);
    if body == [] {
      assert t[1..] == rest;
    } else {
      assert t[1..] == body[1..] + ([LF] + rest);
      SkipComment(body[1..], rest);
    }
  }

  lemma SkipSpace(p: Space, rest: Source)
    requires SpaceOk(p)
    ensures Skip(SpaceText(p, rest), false) == Skip(rest, false)
  {
    match p
    case Blank(u) => assert ([u] + rest)[1..] == rest;
    case Comment(body) =>
      assert SpaceText(p, rest)[1..] == body + ([LF] + rest);
      SkipComment(body, rest);
  }

  lemma {:induction false} SkipGap(gap: Gap, rest: Source)
    ensures Skip(GapText(gap, rest), false) == Skip(rest, false)
  {
    if gap != [] {
      SkipSpace(gap[0], GapText(gap[1..], rest));
      SkipGap(gap[1..], rest);
    }
  }

  lemma SkipToSolid(gap: Gap, rest: Source)
    requires Solid(rest)
    ensures Skip(GapText(gap, rest), false) == rest
  {
    SkipGap(gap, rest);
  }

  // ---- Strings ----

  lemma ReadCode(letter: Unit, digits: Source, rest: Source)
    requires ShortEscape(letter).None? && digits != [] && EscapeLength(letter) == |digits|
    requires AllHex(digits) && HexValue(digits) <= 0x10FFFF
    ensures ReadEscape([letter] + (digits + rest)) == Ok((FromCodePoint(HexValue(digits)), rest))
  {
    InThree(letter, digits, rest);
  }

  lemma InThree(letter: Unit, digits: Source, rest: Source)
    ensures var u := [letter] + (digits + rest);
            && |u| >= 1 + |digits| && u[0] == letter && u[1..1 + |digits|] == digits && u[1 + |digits|..] == rest
  {
  }

  lemma ReadAtom(a: Atom, rest: Source)
    requires AtomOk(a)
    ensures ReadString(AtomText(a, rest), QUOTE) == Prepend(AtomValue(a), ReadString(rest, QUOTE))
  {
    match a
    case Plain(u) => assert AtomText(a, rest)[1..] == rest;
    case Short(letter) =>
      assert AtomText(a, rest)[1..] == [letter] + rest && ([letter] + rest)[1..] == rest;
    case Code(digits) =>
      assert AtomText(a, rest)[1..] == [EscapeLetter(|digits|)] + (digits + rest);
      ReadCode(EscapeLetter(|digits|), digits, rest);
  }

  lemma {:induction false} ReadAtoms(atoms: seq<Atom>, rest: Source)
    requires forall i | 0 <= i < |atoms| :: AtomOk(atoms[i])
    ensures ReadString(AtomsText(atoms, [QUOTE] + rest), QUOTE) == Ok((AtomsValue(atoms), rest))
  {
    if atoms == [] {
      assert ([QUOTE] + rest)[1..] == rest;
    } else {
      ReadAtom(atoms[0], AtomsText(atoms[1..], [QUOTE] + rest));
      ReadAtoms(atoms[1..], rest);
    }
  }

  lemma {:induction false} ReadVerbatim(body: Source, rest: Source)
    requires QuotationOk(Verbatim(body))
    ensures ReadString(body + ([APOSTROPHE] + rest), APOSTROPHE) == Ok((body, rest))
  {
    var t := body + ([APOSTROPHE] + rest);
    if body == [] {
      assert t[1..] == rest;
    } else {
      assert t[1..] == body[1..] + ([APOSTROPHE] + rest);
      ReadVerbatim(body[1..], rest);
      assert [body[0]] + body[1..] == body;
    }
  }

  lemma ReadLiteral(q: Literal, rest: Source)
    ensures ReadString(InsideText(q, rest), Delimiter(q)) == Ok((LiteralValue(q), rest))
  {
    match q
    case Basic(atoms) => ReadAtoms(atoms, rest);
    case Verbatim(body) => ReadVerbatim(body, rest);
  }

  predicate Unquoted(t: Source) {
    t == [] || !Quoting(t[0])
  }

  lemma NotMultiline(q: Literal, after: Source)
    requires Unquoted(after)
    ensures !Triple(LiteralText(q, after))
  {
    var t := InsideText(q, after);
    match q
    case Basic(atoms) =>
      if atoms != [] { assert AtomOk(atoms[0]); } else { assert t[1..] == after; }
    case Verbatim(body) =>
      if body == [] { assert t[1..] == after; } else { assert t[0] == body[0]; }
  }

  lemma UnquotedGap(gap: Gap, then': Source)
    requires Unquoted(then')
    ensures Unquoted(GapText(gap, then'))
  {
    if gap != [] {
      assert SpaceOk(gap[0]);
    }
  }

  // ---- The array ----

  /** One element, up to the mark after it. */
  lemma ReadElement(before: Gap, q: Literal, after: Gap, mark: Unit, rest: Source)
    requires mark == COMMA || mark == RIGHT_SQUARE
    ensures ReadElements(ElementText(before, q, after, [mark] + rest)) ==
            if mark == RIGHT_SQUARE then Strings([LiteralValue(q)]) else
              match ReadElements(rest)
              case Strings(values) => Strings([LiteralValue(q)] + values)
              case other => other
  {
    var marked := [mark] + rest;
    var tail := GapText(after, marked);
    var s := LiteralText(q, tail);
    SkipToSolid(before, s);
    UnquotedGap(after, marked);
    NotMultiline(q, tail);
    assert s[1..] == InsideText(q, tail);
    ReadLiteral(q, tail);
    SkipToSolid(after, marked);
    assert marked[1..] == rest;
  }

  lemma {:induction false} ItemsRoundTrip(items: Items, remainder: Source)
    ensures ReadElements(ItemsText(items, remainder)) == Strings(ItemsValues(items))
  {
    match items
    case End(gap) => SkipToSolid(gap, [RIGHT_SQUARE] + remainder);
    case Last(before, q, after) => ReadElement(before, q, after, RIGHT_SQUARE, remainder);
    case More(before, q, after, rest) =>
      ReadElement(before, q, after, COMMA, ItemsText(rest, remainder));
      ItemsRoundTrip(rest, remainder);
  }

  // ---- Root assignments ----

  lemma SpanOf(run: Source, rest: Source, p: Unit -> bool)
    requires (forall i | 0 <= i < |run| :: p(run[i])) && (rest == [] || !p(rest[0]))
    ensures Span(run + rest, p) == |run| && (run + rest)[|run|..] == rest && (run + rest)[..|run|] == run
  {
    assert forall i | 0 <= i < |run| :: p((run + rest)[i]);
    assert rest != [] ==> (run + rest)[|run|] == rest[0];
  }

  lemma {:induction false} SpanSplit(run: Source, rest: Source, p: Unit -> bool)
    requires forall i | 0 <= i < |run| :: p(run[i])
    ensures Span(run + rest, p) == |run| + Span(rest, p)
    ensures (run + rest)[Span(run + rest, p)..] == rest[Span(rest, p)..]
  {
    if run == [] {
      assert run + rest == rest;
    } else {
      SpanSplit(run[1..], rest, p);
      assert (run + rest)[1..] == run[1..] + rest;
    }
  }

  lemma ReadKeyOf(key: Source, before: Source, after: Source, rest: Source)
    requires Key(key) && Blanks(before) && Blanks(after)
    ensures ReadKey(KeyText(key, before, after, rest)) == Some((key, rest[Span(rest, BlankUnit)..]))
  {
    var w := after + rest;
    SpanOf(key, before + ([EQUALS] + w), KeyUnit);
    SpanOf(before, [EQUALS] + w, BlankUnit);
    assert ([EQUALS] + w)[1..] == w;
    SpanSplit(after, rest, BlankUnit);
  }

  lemma KeyRead(gap: Gap, key: Source, before: Source, after: Source, rest: Source)
    requires Key(key) && Blanks(before) && Blanks(after)
    ensures var s := Skip(GapText(gap, KeyText(key, before, after, rest)), false);
            s != [] && s[0] != LEFT_SQUARE && ReadKey(s) == Some((key, rest[Span(rest, BlankUnit)..]))
  {
    var s := KeyText(key, before, after, rest);
    assert KeyUnit(key[0]) && s[0] == key[0];
    SkipToSolid(gap, s);
    ReadKeyOf(key, before, after, rest);
  }

  lemma RootStep(t: Source, key: Source, rest: Source)
    requires var s := Skip(t, false); s != [] && s[0] != LEFT_SQUARE && ReadKey(s) == Some((key, rest))
    ensures key == NOTIFY ==> ReadRoot(t) == ReadArray(rest)
    ensures key != NOTIFY && !Scan(rest[..Span(rest, NotLineFeed)], None, false, []) ==> ReadRoot(t) == Refused(MultilineRoot)
    ensures key != NOTIFY && Scan(rest[..Span(rest, NotLineFeed)], None, false, []) ==>
              ReadRoot(t) == ReadRoot(AfterLine(rest))
  {
  }

  function AfterLine(t: Source): Source {
    if Span(t, NotLineFeed) == |t| then [] else t[Span(t, NotLineFeed) + 1..]
  }

  lemma LineRead(value: Source, rest: Source)
    requires LF !in value && (value != [] ==> !BlankUnit(value[0]))
    ensures var v := value + ([LF] + rest);
            v[Span(v, BlankUnit)..] == v && v[..Span(v, NotLineFeed)] == value && AfterLine(v) == rest
  {
    var v := value + ([LF] + rest);
    assert v[0] == if value == [] then LF else value[0];
    SpanOf(value, [LF] + rest, NotLineFeed);
    assert v[|value| + 1..] == rest;
  }

  lemma AssignmentRead(a: Assignment, rest: Source)
    requires AssignmentOk(a)
    ensures ReadRoot(AssignmentText(a, rest)) == ReadRoot(rest)
  {
    var v := a.value + ([LF] + rest);
    KeyRead(a.gap, a.key, a.before, a.after, v);
    LineRead(a.value, rest);
    RootStep(AssignmentText(a, rest), a.key, v);
  }

  lemma {:induction false} LinesRead(lines: Lines, rest: Source)
    ensures ReadRoot(LinesText(lines, rest)) == ReadRoot(rest)
  {
    if lines != [] {
      AssignmentRead(lines[0], LinesText(lines[1..], rest));
      LinesRead(lines[1..], rest);
    }
  }

  lemma {:induction false} SkipPastBlanks(t: Source)
    ensures Skip(t[Span(t, BlankUnit)..], false) == Skip(t, false)
  {
    if t != [] && BlankUnit(t[0]) {
      SkipPastBlanks(t[1..]);
      assert t[Span(t, BlankUnit)..] == t[1..][Span(t[1..], BlankUnit)..];
    } else {
      assert t[0..] == t;
    }
  }

  lemma ArrayRead(d: Document)
    ensures ReadArray(ArrayText(d)[Span(ArrayText(d), BlankUnit)..]) == Strings(ItemsValues(d.items))
  {
    var s := [LEFT_SQUARE] + ItemsText(d.items, d.remainder);
    SkipPastBlanks(ArrayText(d));
    SkipToSolid(d.opening, s);
    assert s[1..] == ItemsText(d.items, d.remainder);
    ItemsRoundTrip(d.items, d.remainder);
  }

  lemma NotifyRead(gap: Gap, key: Source, before: Source, after: Source, rest: Source)
    requires key == NOTIFY && Blanks(before) && Blanks(after)
    ensures ReadRoot(GapText(gap, KeyText(key, before, after, rest))) == ReadArray(rest[Span(rest, BlankUnit)..])
  {
    assert forall i | 0 <= i < |key| :: KeyUnit(key[i]);
    KeyRead(gap, key, before, after, rest);
    RootStep(GapText(gap, KeyText(key, before, after, rest)), key, rest[Span(rest, BlankUnit)..]);
  }

  /** Printing any list of strings as the root notify array, in any quoting, escapes, comments and line breaks, after any
      one-line root assignments, and reading it returns exactly that list. */
  lemma DocumentRoundTrip(d: Document)
    requires DocumentOk(d)
    ensures ReadRoot(DocumentText(d)) == Strings(ItemsValues(d.items))
  {
    LinesRead(d.lines, GapText(d.gap, KeyText(NOTIFY, d.before, d.after, ArrayText(d))));
    NotifyRead(d.gap, NOTIFY, d.before, d.after, ArrayText(d));
    ArrayRead(d);
  }

  // ---- Every list can be printed ----

  function UnitAtom(u: Unit): (a: Atom)
    ensures AtomOk(a) && AtomValue(a) == [u]
  {
    if u == QUOTE then Short(QUOTE) else if u == BACKSLASH then Short(BACKSLASH)
    else if u == LF then Short(110) else if u == CR then Short(114) else Plain(u)
  }

  lemma {:induction false} StringHasLiteral(value: Source) returns (atoms: seq<Atom>)
    ensures (forall i | 0 <= i < |atoms| :: AtomOk(atoms[i])) && AtomsValue(atoms) == value
  {
    if value == [] { return []; }
    var more := StringHasLiteral(value[1..]);
    atoms := [UnitAtom(value[0])] + more;
    assert atoms[1..] == more;
  }

  /** No list of strings, whatever their units, is out of reach of the round trip. */
  lemma {:induction false} ListHasItems(values: seq<Source>) returns (items: Items)
    ensures ItemsValues(items) == values
  {
    if values == [] { return End([]); }
    var atoms := StringHasLiteral(values[0]);
    var rest := ListHasItems(values[1..]);
    items := More([], Basic(atoms), [], rest);
  }
}
