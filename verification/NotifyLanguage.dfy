/** The converse of the round trip: every text the reader accepts is a printed document, and it finds no notify exactly
    where the grammar has none. */
module NotifyLanguage {
  import opened Options
  import opened CodeUnits
  import opened BalancedLine
  import opened NotifyGrammar
  import opened NotifyRoundTrip

  predicate Ends(t: Source) {
    t == [] || t[|t| - 1] == LF
  }

  // ---- Gaps ----

  lemma {:induction false} CommentRead(t: Source) returns (body: Source, rest: Source)
    requires t != [] && (Skip(t, true) != [] || Ends(t))
    ensures LF !in body && t == body + ([LF] + rest) && Skip(rest, false) == Skip(t, true)
  {
    if t[0] == LF { return [], t[1..]; }
    var more;
    more, rest := CommentRead(t[1..]);
    body := [t[0]] + more;
  }

  /** What was skipped before the remaining text is a gap. */
  lemma {:induction false} GapSkipped(t: Source) returns (gap: Gap)
    requires Skip(t, false) != [] || Ends(t)
    ensures t == GapText(gap, Skip(t, false))
    decreases |t|
  {
    if t == [] { return []; }
    if White(t[0]) {
      var more := GapSkipped(t[1..]);
      gap := [Blank(t[0])] + more;
      assert gap[1..] == more;
    } else if t[0] == HASH {
      var body, rest := CommentRead(t[1..]);
      LastOf(t[1..], body, rest);
      var more := GapSkipped(rest);
      gap := [Comment(body)] + more;
      assert gap[1..] == more;
    } else {
      return [];
    }
  }

  lemma LastOf(t: Source, head: Source, rest: Source)
    requires t == head + ([LF] + rest)
    ensures Ends(t) ==> Ends(rest)
  {
  }

  // ---- Strings and the array ----

  lemma {:induction false} VerbatimOf(t: Source, value: Source, rest: Source)
    requires ReadString(t, APOSTROPHE) == Ok((value, rest))
    ensures QuotationOk(Verbatim(value)) && t == value + ([APOSTROPHE] + rest)
    decreases |t|
  {
    if t[0] != APOSTROPHE {
      VerbatimOf(t[1..], value[1..], rest);
    }
  }

  lemma EscapeOf(t: Source) returns (a: Atom)
    requires t != [] && t[0] == BACKSLASH && ReadEscape(t[1..]).Ok?
    ensures AtomOk(a) && t == AtomText(a, ReadEscape(t[1..]).value.1) && AtomValue(a) == ReadEscape(t[1..]).value.0
  {
    var u := t[1..];
    if ShortEscape(u[0]).Some? {
      a := Short(u[0]);
    } else {
      var length := EscapeLength(u[0]);
      a := Code(u[1..1 + length]);
      assert u == [u[0]] + (u[1..1 + length] + u[1 + length..]);
    }
  }

  lemma {:induction false} AtomsOf(t: Source, value: Source, rest: Source) returns (atoms: seq<Atom>)
    requires ReadString(t, QUOTE) == Ok((value, rest))
    ensures (forall i | 0 <= i < |atoms| :: AtomOk(atoms[i])) && t == AtomsText(atoms, [QUOTE] + rest) && AtomsValue(atoms) == value
    decreases |t|
  {
    if t[0] == QUOTE { return []; }
    var a, after := Plain(t[0]), t[1..];
    if t[0] == BACKSLASH {
      a := EscapeOf(t);
      after := ReadEscape(t[1..]).value.1;
    }
    var tail := ReadString(after, QUOTE).value.0;
    var more := AtomsOf(after, tail, rest);
    atoms := [a] + more;
    assert atoms[1..] == more;
  }

  lemma LiteralOf(t: Source, delimiter: Unit, value: Source, rest: Source) returns (q: Literal)
    requires Quoting(delimiter) && ReadString(t, delimiter) == Ok((value, rest))
    ensures Delimiter(q) == delimiter && t == InsideText(q, rest) && LiteralValue(q) == value
  {
    if delimiter == QUOTE {
      var atoms := AtomsOf(t, value, rest);
      q := Basic(atoms);
    } else {
      VerbatimOf(t, value, rest);
      q := Verbatim(value);
    }
  }

  lemma ElementOf(t: Source) returns (before: Gap, q: Literal, after: Gap, marked: Source)
    requires ReadElements(t).Strings? && Skip(t, false)[..1] != [RIGHT_SQUARE]
    ensures marked != [] && t == ElementText(before, q, after, marked)
    ensures ReadElements(t) == if marked[0] == RIGHT_SQUARE then Strings([LiteralValue(q)])
                               else match ReadElements(marked[1..])
                                    case Strings(values) => Strings([LiteralValue(q)] + values)
                                    case other => other
    ensures marked[0] == RIGHT_SQUARE || (marked[0] == COMMA && ReadElements(marked[1..]).Strings?)
  {
    var s := Skip(t, false);
    assert s != [] && Quoting(s[0]);
    before := GapSkipped(t);
    var (value, tail) := ReadString(s[1..], s[0]).value;
    q := LiteralOf(s[1..], s[0], value, tail);
    marked := Skip(tail, false);
    after := GapSkipped(tail);
    assert s == [s[0]] + s[1..];
  }

  lemma {:induction false} ItemsOf(t: Source) returns (items: Items, remainder: Source)
    requires ReadElements(t).Strings?
    ensures t == ItemsText(items, remainder) && ReadElements(t) == Strings(ItemsValues(items))
    decreases |t|
  {
    var s := Skip(t, false);
    if s[..1] == [RIGHT_SQUARE] {
      var gap := GapSkipped(t);
      items, remainder := End(gap), s[1..];
      assert s == [RIGHT_SQUARE] + remainder;
    } else {
      var before, q, after, marked := ElementOf(t);
      ElementShrinks(before, q, after, marked);
      assert marked == [marked[0]] + marked[1..];
      if marked[0] == RIGHT_SQUARE {
        items, remainder := Last(before, q, after), marked[1..];
      } else {
        var more;
        more, remainder := ItemsOf(marked[1..]);
        items := More(before, q, after, more);
      }
    }
  }

  lemma {:induction false} GapGrows(gap: seq<Space>, rest: Source)
    ensures |GapText(gap, rest)| >= |rest|
    ensures rest != [] ==> GapText(gap, rest) != [] && GapText(gap, rest)[|GapText(gap, rest)| - 1] == rest[|rest| - 1]
  {
    if gap != [] {
      GapGrows(gap[1..], rest);
    }
  }

  lemma {:induction false} AtomsGrow(atoms: seq<Atom>, rest: Source)
    ensures |AtomsText(atoms, rest)| >= |rest|
  {
    if atoms != [] {
      AtomsGrow(atoms[1..], rest);
    }
  }

  lemma ElementShrinks(before: Gap, q: Quotation, after: Gap, marked: Source)
    ensures |ElementText(before, q, after, marked)| > |marked|
  {
    var tail := GapText(after, marked);
    GapGrows(before, LiteralText(q, tail));
    GapGrows(after, marked);
    if q.Basic? { AtomsGrow(q.atoms, [QUOTE] + tail); }
  }

  // ---- Root assignments ----

  lemma KeyAssembles(s: Source, n: nat, u: Source, m: nat, w: Source, k: nat)
    requires n <= |s| && u == s[n..] && m < |u| && u[m] == EQUALS && w == u[m..][1..] && k <= |w|
    ensures s == KeyText(s[..n], u[..m], w[..k], w[k..])
  {
    assert w == w[..k] + w[k..];
    assert u[m..] == [EQUALS] + w;
    assert u == u[..m] + u[m..];
    assert s == s[..n] + u;
  }

  lemma BlankRun(t: Source)
    ensures Blanks(t[..Span(t, BlankUnit)])
  {
  }

  lemma KeyRun(t: Source)
    ensures Span(t, KeyUnit) > 0 ==> Key(t[..Span(t, KeyUnit)])
  {
  }

  lemma KeyOf(s: Source, key: Source, rest: Source) returns (before: Source, after: Source)
    requires ReadKey(s) == Some((key, rest))
    ensures Key(key) && Blanks(before) && Blanks(after) && s == KeyText(key, before, after, rest)
    ensures rest != [] ==> !BlankUnit(rest[0])
  {
    var n := Span(s, KeyUnit);
    var u := s[n..];
    var m := Span(u, BlankUnit);
    var w := u[m..][1..];
    var k := Span(w, BlankUnit);
    before, after := u[..m], w[..k];
    KeyRun(s);
    BlankRun(u);
    BlankRun(w);
    assert key == s[..n] && rest == w[k..];
    KeyAssembles(s, n, u, m, w, k);
  }

  lemma KeyShrinks(key: Source, before: Source, after: Source, rest: Source)
    requires Key(key) && Blanks(before) && Blanks(after)
    ensures var s := KeyText(key, before, after, rest);
            |s| > |rest| && (Ends(s) ==> rest != [] && Ends(rest))
  {
    var s := KeyText(key, before, after, rest);
    if rest == [] {
      var last := s[|s| - 1];
      assert last == if after == [] then EQUALS else after[|after| - 1];
    } else {
      assert s[|s| - 1] == rest[|rest| - 1];
    }
  }

  lemma SplitAt(t: Source, n: nat)
    requires n < |t|
    ensures t == t[..n] + ([t[n]] + t[n + 1..])
  {
  }

  lemma LineOf(rest: Source)
    requires Span(rest, NotLineFeed) < |rest|
    ensures LF !in rest[..Span(rest, NotLineFeed)]
    ensures rest == rest[..Span(rest, NotLineFeed)] + ([LF] + AfterLine(rest))
    ensures |AfterLine(rest)| < |rest|
  {
    var n := Span(rest, NotLineFeed);
    assert !NotLineFeed(rest[n]);
    SplitAt(rest, n);
    forall i | 0 <= i < n ensures rest[i] != LF {
      assert NotLineFeed(rest[i]);
    }
  }

  /** The reader's next root item is an assignment of that key. */
  ghost predicate NextKey(t: Source, key: Source, rest: Source) {
    var s := Skip(t, false);
    s != [] && s[0] != LEFT_SQUARE && ReadKey(s) == Some((key, rest))
  }

  lemma AfterGap(gap: Gap, s: Source, rest: Source)
    requires s != [] && |rest| < |s| && (Ends(s) ==> rest != [] && Ends(rest))
    ensures |rest| < |GapText(gap, s)| && (Ends(GapText(gap, s)) ==> rest != [] && Ends(rest))
  {
    GapGrows(gap, s);
  }

  lemma NextKeyText(t: Source, key: Source, rest: Source) returns (gap: Gap, before: Source, after: Source)
    requires NextKey(t, key, rest)
    ensures Key(key) && Blanks(before) && Blanks(after) && (rest != [] ==> !BlankUnit(rest[0]))
    ensures t == GapText(gap, KeyText(key, before, after, rest))
    ensures |rest| < |t| && (Ends(t) ==> rest != [] && Ends(rest))
  {
    gap := GapSkipped(t);
    before, after := KeyOf(Skip(t, false), key, rest);
    KeyShrinks(key, before, after, rest);
    AfterGap(gap, KeyText(key, before, after, rest), rest);
  }

  /** A step over one root assignment that ends in a line feed. */
  lemma AssignmentOf(t: Source, key: Source, tail: Source) returns (a: Assignment, rest: Source)
    requires NextKey(t, key, tail) && key != NOTIFY && Span(tail, NotLineFeed) < |tail|
    requires Scan(tail[..Span(tail, NotLineFeed)], None, false, [])
    ensures AssignmentOk(a) && t == AssignmentText(a, rest) && rest == AfterLine(tail)
    ensures |rest| < |t| && (Ends(t) ==> Ends(rest))
  {
    var gap, before, after := NextKeyText(t, key, tail);
    LineOf(tail);
    var line := tail[..Span(tail, NotLineFeed)];
    rest := AfterLine(tail);
    a := Assignment(gap, key, before, after, line);
    LastOf(tail, line, rest);
  }

  /** At the end of a closed text no assignment lacks its line feed. */
  lemma ClosedLines(tail: Source)
    requires tail != [] && Ends(tail)
    ensures Span(tail, NotLineFeed) < |tail|
  {
    assert !NotLineFeed(tail[|tail| - 1]);
  }

  /** How the reader goes on, by the kind of its result. */
  lemma RootContinues(t: Source) returns (key: Source, rest: Source)
    requires !ReadRoot(t).Refused?
    ensures NextKey(t, key, rest) || (ReadRoot(t) == Absent && (Skip(t, false) == [] || Skip(t, false)[0] == LEFT_SQUARE))
    ensures NextKey(t, key, rest) && key == NOTIFY ==> ReadRoot(t) == ReadArray(rest)
    ensures NextKey(t, key, rest) && key != NOTIFY ==>
              Scan(rest[..Span(rest, NotLineFeed)], None, false, []) && ReadRoot(t) == ReadRoot(AfterLine(rest))
  {
    key, rest := [], [];
    var s := Skip(t, false);
    if s != [] && s[0] != LEFT_SQUARE {
      key, rest := ReadKey(s).value.0, ReadKey(s).value.1;
      RootStep(t, key, rest);
    }
  }

  lemma ConsLine(a: Assignment, lines: Lines, then': Source)
    requires AssignmentOk(a)
    ensures var all: Lines := [a] + lines; LinesText(all, then') == AssignmentText(a, LinesText(lines, then'))
  {
    assert ([a] + lines)[1..] == lines;
  }

  lemma BracketOf(rest: Source) returns (opening: Gap, items: Items, remainder: Source)
    requires ReadArray(rest).Strings?
    ensures rest == GapText(opening, [LEFT_SQUARE] + ItemsText(items, remainder))
    ensures ReadArray(rest) == Strings(ItemsValues(items))
  {
    opening := GapSkipped(rest);
    var bracket := Skip(rest, false);
    assert bracket == [LEFT_SQUARE] + bracket[1..];
    items, remainder := ItemsOf(bracket[1..]);
  }

  lemma ArrayOf(t: Source, key: Source, rest: Source) returns (d: Document)
    requires NextKey(t, key, rest) && key == NOTIFY && ReadArray(rest).Strings?
    ensures DocumentOk(d) && t == DocumentText(d) && ReadArray(rest) == Strings(ItemsValues(d.items))
  {
    var gap, before, after := NextKeyText(t, key, rest);
    var opening, items, remainder := BracketOf(rest);
    d := Assembled(gap, key, before, after, opening, items, remainder);
  }

  lemma Assembled(gap: Gap, key: Source, before: Source, after: Source, opening: Gap, items: Items, remainder: Source)
    returns (d: Document)
    requires key == NOTIFY && Blanks(before) && Blanks(after)
    ensures DocumentOk(d) && d.items == items
    ensures DocumentText(d) == GapText(gap, KeyText(key, before, after, GapText(opening, [LEFT_SQUARE] + ItemsText(items, remainder))))
  {
    d := Document([], gap, before, after, opening, items, remainder);
  }

  lemma ConsDocument(a: Assignment, e: Document) returns (d: Document)
    requires AssignmentOk(a) && DocumentOk(e)
    ensures DocumentOk(d) && d.items == e.items && DocumentText(d) == AssignmentText(a, DocumentText(e))
  {
    d := e.(lines := [a] + e.lines);
    assert ArrayText(d) == ArrayText(e);
    ConsLine(a, e.lines, GapText(e.gap, KeyText(NOTIFY, e.before, e.after, ArrayText(e))));
  }

  /** Whatever strings are read, the text is a printed document of exactly those strings. */
  lemma {:induction false} DocumentOf(t: Source) returns (d: Document)
    requires ReadRoot(t).Strings?
    ensures DocumentOk(d) && t == DocumentText(d) && ReadRoot(t) == Strings(ItemsValues(d.items))
    decreases |t|
  {
    var key, rest := RootContinues(t);
    if key == NOTIFY {
      d := ArrayOf(t, key, rest);
    } else {
      LineWithFinal(rest);
      EmptyIsAbsent();
      var a, more := AssignmentOf(t, key, rest);
      var e := DocumentOf(more);
      d := ConsDocument(a, e);
    }
  }

  lemma EmptyIsAbsent()
    ensures ReadRoot([]) == Absent
  {
  }

  lemma ConsNoNotify(a: Assignment, rest: Source)
    requires AssignmentOk(a) && NoRootNotify(rest)
    ensures NoRootNotify(AssignmentText(a, rest))
  {
    var lines: Lines, gap: Gap, remainder: Source :|
      rest == LinesText(lines, GapText(gap, remainder)) && (remainder == [] || remainder[0] == LEFT_SQUARE);
    ConsLine(a, lines, GapText(gap, remainder));
    var all: Lines := [a] + lines;
    assert AssignmentText(a, rest) == LinesText(all, GapText(gap, remainder));
  }

  lemma GapIsNoNotify(t: Source)
    requires Ends(t) && (Skip(t, false) == [] || Skip(t, false)[0] == LEFT_SQUARE)
    ensures NoRootNotify(t)
  {
    var gap := GapSkipped(t);
    var none: Lines := [];
    assert t == LinesText(none, GapText(gap, Skip(t, false)));
  }

  lemma {:induction false} LinesOf(t: Source)
    requires Ends(t) && ReadRoot(t) == Absent
    ensures NoRootNotify(t)
    decreases |t|
  {
    var key, rest := RootContinues(t);
    if NextKey(t, key, rest) {
      var gap, before, after := NextKeyText(t, key, rest);
      ClosedLines(rest);
      var a, more := AssignmentOf(t, key, rest);
      LinesOf(more);
      ConsNoNotify(a, more);
    } else {
      GapIsNoNotify(t);
    }
  }

  // ---- A final line feed changes nothing ----

  lemma {:induction false} SkipWithFinal(t: Source, inComment: bool)
    ensures Skip(t + [LF], inComment) == if Skip(t, inComment) == [] then [] else Skip(t, inComment) + [LF]
    decreases |t|
  {
    if t == [] {
      assert t + [LF] == [LF];
    } else {
      assert (t + [LF])[1..] == t[1..] + [LF];
      if inComment {
        SkipWithFinal(t[1..], t[0] != LF);
      } else if White(t[0]) {
        SkipWithFinal(t[1..], false);
      } else if t[0] == HASH {
        SkipWithFinal(t[1..], true);
      }
    }
  }

  lemma {:induction false} SpanWithFinal(t: Source, p: Unit -> bool)
    requires !p(LF)
    ensures Span(t + [LF], p) == Span(t, p)
    ensures (t + [LF])[Span(t, p)..] == t[Span(t, p)..] + [LF] && (t + [LF])[..Span(t, p)] == t[..Span(t, p)]
  {
    if t == [] {
      assert t + [LF] == [LF];
    } else {
      assert (t + [LF])[1..] == t[1..] + [LF];
      SpanWithFinal(t[1..], p);
    }
  }

  lemma KeyWithFinal(s: Source)
    ensures ReadKey(s + [LF]) == match ReadKey(s)
                                 case None => None
                                 case Some((key, rest)) => Some((key, rest + [LF]))
  {
    SpanWithFinal(s, KeyUnit);
    var u := s[Span(s, KeyUnit)..];
    SpanWithFinal(u, BlankUnit);
    var v := u[Span(u, BlankUnit)..];
    if v != [] {
      assert (v + [LF])[1..] == v[1..] + [LF];
      SpanWithFinal(v[1..], BlankUnit);
    }
  }

  lemma LineWithFinal(rest: Source)
    ensures (rest + [LF])[..Span(rest + [LF], NotLineFeed)] == rest[..Span(rest, NotLineFeed)]
    ensures AfterLine(rest + [LF]) == if Span(rest, NotLineFeed) == |rest| then [] else AfterLine(rest) + [LF]
    ensures |AfterLine(rest)| <= |rest|
  {
    SpanWithFinal(rest, NotLineFeed);
    var n := Span(rest, NotLineFeed);
    if n < |rest| {
      assert (rest + [LF])[n + 1..] == rest[n + 1..] + [LF];
    }
  }

  lemma {:induction false} RootWithFinal(t: Source)
    ensures ReadRoot(t + [LF]).Absent? <==> ReadRoot(t).Absent?
    decreases |t|
  {
    SkipWithFinal(t, false);
    var s := Skip(t, false);
    if s != [] && s[0] != LEFT_SQUARE {
      KeyWithFinal(s);
      if ReadKey(s).Some? {
        var (key, rest) := ReadKey(s).value;
        RootStep(t, key, rest);
        RootStep(t + [LF], key, rest + [LF]);
        LineWithFinal(rest);
        if key != NOTIFY && Span(rest, NotLineFeed) < |rest| {
          RootWithFinal(AfterLine(rest));
        }
      }
    }
  }

  // ---- What the reader decides ----

  /** Strings are returned exactly for the printed documents of those strings. */
  lemma StringsExactly(t: Source, values: seq<Source>)
    ensures ReadRoot(t) == Strings(values) <==>
              exists d :: DocumentOk(d) && DocumentText(d) == t && ItemsValues(d.items) == values
  {
    if ReadRoot(t) == Strings(values) {
      var d := DocumentOf(t);
    }
    forall d | DocumentOk(d) && DocumentText(d) == t && ItemsValues(d.items) == values
      ensures ReadRoot(t) == Strings(values)
    {
      DocumentRoundTrip(d);
    }
  }

  /** No notify is reported exactly when everything before the first table header, or the end, is space, comments and
      one-line assignments to other keys. */
  lemma AbsentExactly(t: Source)
    ensures ReadRoot(t) == Absent <==> NoRootNotify(t + [LF])
  {
    RootWithFinal(t);
    if ReadRoot(t) == Absent {
      LinesOf(t + [LF]);
    }
    if NoRootNotify(t + [LF]) {
      var lines: Lines, gap: Gap, remainder: Source :|
        t + [LF] == LinesText(lines, GapText(gap, remainder)) && (remainder == [] || remainder[0] == LEFT_SQUARE);
      LinesRead(lines, GapText(gap, remainder));
      SkipToSolid(gap, remainder);
    }
  }
}
