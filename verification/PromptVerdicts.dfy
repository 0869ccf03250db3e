/** Exactly which rows are recognized as an input area, and exactly which verdict a printed screen gets. */
module PromptVerdicts {
  import opened Options
  import opened Characters
  import opened Text
  import opened PromptArea
  import opened PromptLayouts

  // ---- Recognition ----

  /** Below the area: one empty row, then one to three rows that are not, then only empty ones. */
  ghost predicate FooterBelow(below: seq<string>) {
    exists k :: 1 <= k <= 3 && FooterOf(below, k)
  }

  predicate FooterOf(below: seq<string>, k: nat) {
    && k < |below| && below[0] == "" && (forall i | 1 <= i <= k :: below[i] != "") && forall i | k < i < |below| :: below[i] == ""
  }

  /** Under a rule the area ends at the next row identical to it, otherwise at a footer. */
  ghost predicate Framed(above: seq<string>, area: seq<string>, below: seq<string>) {
    if above != [] && RuleRow(above[|above| - 1])
    then below != [] && below[0] == above[|above| - 1] && above[|above| - 1] !in area
    else FooterBelow(below)
  }

  /** Some way to cut the rows: a prompt row, indented rows after it, no prompt row below, and a frame. */
  ghost predicate Shows(rows: seq<string>, above: seq<string>, area: seq<string>, below: seq<string>) {
    && rows == above + area + below && area != [] && PromptRow(area[0])
    && (forall i | 1 <= i < |area| :: area[i] == "" || (|area[i]| >= 2 && area[i][..2] == "  "))
    && (forall i | 0 <= i < |below| :: !PromptRow(below[i])) && Framed(above, area, below)
  }

  lemma RuledFrame(above: seq<string>, area: seq<string>, below: seq<string>)
    requires above != [] && RuleRow(above[|above| - 1]) && area != [] && Framed(above, area, below)
    ensures Area(above + area + below, |above|) == Some(area)
  {
    var rule := above[|above| - 1];
    assert above[..|above| - 1] + [rule] == above && [rule] + below[1..] == below;
    RuledArea(above[..|above| - 1], rule, area, below[1..]);
  }

  lemma FootedFrame(above: seq<string>, area: seq<string>, below: seq<string>)
    requires !(above != [] && RuleRow(above[|above| - 1])) && area != [] && Framed(above, area, below)
    ensures Area(above + area + below, |above|) == Some(area)
  {
    var k :| 1 <= k <= 3 && FooterOf(below, k);
    FooterArea(above, area, below, k);
  }

  lemma AreaIndented(area: seq<string>)
    requires forall i | 1 <= i < |area| :: area[i] == "" || (|area[i]| >= 2 && area[i][..2] == "  ")
    ensures Indented(area) && PlainRows(if area == [] then [] else area[1..])
  {
    assert forall i | 1 <= i < |area| && |area[i]| >= 2 && area[i][..2] == "  " :: area[i][..2][0] == ' ' && area[i][..2][1] == ' ';
  }

  lemma ShownIsRecognized(rows: seq<string>, above: seq<string>, area: seq<string>, below: seq<string>)
    requires Shows(rows, above, area, below)
    ensures InputRowsOf(rows) == Some(area)
  {
    AreaIndented(area);
    StartFound(above, area, below);
    if above != [] && RuleRow(above[|above| - 1]) {
      RuledFrame(above, area, below);
    } else {
      FootedFrame(above, area, below);
    }
    RecognizedAs(rows, |above|, area);
  }

  lemma RuledIsFramed(rows: seq<string>, start: nat, end: nat)
    requires 0 < start < |rows| && RuleRow(rows[start - 1]) && PromptRow(rows[start])
    requires IndexFrom(rows, rows[start - 1], start + 1) == Some(end)
    ensures start < end < |rows| && Framed(rows[..start], rows[start..end], rows[end..])
  {
    var rule := rows[start - 1];
    assert rows[..start][|rows[..start]| - 1] == rule;
    assert rule != rows[start];
    assert forall i | 0 <= i < end - start :: rows[start..end][i] == rows[start + i];
  }

  lemma FootedIsFramed(rows: seq<string>, start: nat, blank: nat, last: nat)
    requires start < blank < last < |rows| && last - blank <= 3
    requires rows[blank] == "" && (forall i | blank < i <= last :: rows[i] != "") && forall i | last < i < |rows| :: rows[i] == ""
    requires start > 0 ==> !RuleRow(rows[start - 1])
    ensures Framed(rows[..start], rows[start..blank], rows[blank..])
  {
    assert FooterOf(rows[blank..], last - blank);
  }

  lemma RecognizedIsShown(rows: seq<string>, area: seq<string>)
    requires InputRowsOf(rows) == Some(area)
    ensures Showing(rows, area)
  {
    var start := Bottom(rows, PromptRow, -1, |rows| - 1);
    var end := start + |area|;
    AreaIsFramed(rows, start, area);
    PlainBelow(rows, start, end);
    CutInThree(rows, start, end);
    IndentedRows(area);
    assert Shows(rows, rows[..start], area, rows[end..]);
  }

  lemma IndentedRows(area: seq<string>)
    requires Indented(area)
    ensures forall i | 1 <= i < |area| :: area[i] == "" || (|area[i]| >= 2 && area[i][..2] == "  ")
  {
    assert forall i | 1 <= i < |area| && |area[i]| >= 2 && area[i][0] == ' ' && area[i][1] == ' ' :: area[i][..2] == "  ";
  }

  lemma CutInThree(rows: seq<string>, start: nat, end: nat)
    requires start <= end <= |rows|
    ensures rows == rows[..start] + rows[start..end] + rows[end..]
  {
  }

  lemma PlainBelow(rows: seq<string>, start: nat, end: nat)
    requires start < end <= |rows| && Bottom(rows, PromptRow, -1, |rows| - 1) == start
    ensures forall i | 0 <= i < |rows[end..]| :: !PromptRow(rows[end..][i])
  {
    assert forall i | 0 <= i < |rows| - end :: rows[end..][i] == rows[end + i];
  }

  lemma AreaIsFramed(rows: seq<string>, start: nat, area: seq<string>)
    requires start < |rows| && PromptRow(rows[start]) && Area(rows, start) == Some(area)
    ensures var end := start + |area|;
            && area != [] && end <= |rows| && area == rows[start..end] && Framed(rows[..start], area, rows[end..])
  {
    if start > 0 && RuleRow(rows[start - 1]) {
      RuledIsFramed(rows, start, IndexFrom(rows, rows[start - 1], start + 1).value);
    } else {
      var last := Bottom(rows, Filled, start, |rows| - 1);
      var blank := Bottom(rows, Empty, start, last);
      FootedIsFramed(rows, start, blank, last);
    }
  }

  ghost predicate Showing(rows: seq<string>, area: seq<string>) {
    exists above, below :: Shows(rows, above, area, below)
  }

  lemma RowsRecognizedExactly(rows: seq<string>, area: seq<string>)
    ensures InputRowsOf(rows) == Some(area) <==> Showing(rows, area)
  {
    if InputRowsOf(rows) == Some(area) {
      RecognizedIsShown(rows, area);
    }
    if Showing(rows, area) {
      var above, below :| Shows(rows, above, area, below);
      ShownIsRecognized(rows, above, area, below);
    }
  }

  /** The rows of a screen are recognized as an area if and only if they show it; no other layout is ever taken for one. */
  lemma RecognizedExactly(screen: string, area: seq<string>)
    ensures InputRows(screen) == Some(area) <==> Showing(Trimmed(Split(screen, '\n')), area)
  {
    RowsRecognizedExactly(Trimmed(Split(screen, '\n')), area);
  }

  // ---- Verdicts ----

  function BlankRowsIn(rows: seq<string>): set<int> {
    set i | 0 <= i < |rows| && Blank(rows[i])
  }

  lemma {:induction false} BlankRowsCounted(rows: seq<string>)
    ensures BlankCount(rows) == |BlankRowsIn(rows)|
    decreases |rows|
  {
    if rows != [] {
      var init, last := rows[..|rows| - 1], rows[|rows| - 1];
      BlankRowsCounted(init);
      BlankPieces(init, [last]);
      assert rows == init + [last] && BlankCount([last]) == (if Blank(last) then 1 else 0) + BlankCount([last][1..]);
      BlankRowAdded(init, last);
    }
  }

  lemma BlankRowAdded(init: seq<string>, last: string)
    ensures |BlankRowsIn(init + [last])| == |BlankRowsIn(init)| + if Blank(last) then 1 else 0
  {
    var rows := init + [last];
    assert forall i | 0 <= i < |init| :: rows[i] == init[i];
    assert BlankRowsIn(rows) == BlankRowsIn(init) + if Blank(last) then {|init|} else {};
  }

  /** A multi-line command shown as one paste token. */
  ghost predicate PastedAs(d: Draft, typed: string) {
    '\n' in typed && exists inner :: Content(d) == "[Pasted" + inner + "]" && ']' !in inner
  }

  /** The draft is the command up to whitespace, its first character right after the prompt, and it has as many blank rows as
      the command has blank lines. */
  ghost predicate JustTheCommand(d: Draft, typed: string)
    requires d.pieces != []
  {
    && Content(d) == Squeeze(typed)
    && (exists k :: 0 <= k < |typed| && Blank(typed[..k]) && !IsSpace(typed[k]) && d.pieces[0] != "" && d.pieces[0][0] == typed[k])
    && |BlankRowsIn(d.pieces[1..])| == |BlankRowsIn(Split(typed, '\n'))|
  }

  ghost predicate ShowsCommand(d: Draft, typed: string) {
    exists before, after :: Content(d) == before + Squeeze(typed) + after
  }

  lemma TokenIsPaste(shown: string)
    ensures PasteToken(shown) <==> exists inner :: shown == "[Pasted" + inner + "]" && ']' !in inner
  {
    var n := |shown|;
    if PasteToken(shown) {
      assert shown == shown[..7] + shown[7..n - 1] + [shown[n - 1]];
      assert shown == "[Pasted" + shown[7..n - 1] + "]";
    }
    forall inner | shown == "[Pasted" + inner + "]" && ']' !in inner
      ensures PasteToken(shown)
    {
      assert shown[..7] == "[Pasted" && shown[7..n - 1] == inner;
    }
  }

  lemma ContainedBetween(shown: string, mine: string)
    ensures Contains(shown, mine) <==> exists before, after :: shown == before + mine + after
  {
    if Contains(shown, mine) {
      var i :| 0 <= i <= |shown| && mine <= shown[i..];
      assert shown == shown[..i] + mine + shown[i..][|mine|..];
    }
    forall before, after | shown == before + mine + after
      ensures Contains(shown, mine)
    {
      assert shown[|before|..] == mine + after;
    }
  }

  lemma {:induction false} FirstVisible(typed: string, c: char)
    ensures TrimStart(typed) != "" && TrimStart(typed)[0] == c <==>
              exists k :: 0 <= k < |typed| && Blank(typed[..k]) && !IsSpace(typed[k]) && typed[k] == c
  {
    if typed != "" && IsSpace(typed[0]) {
      FirstVisible(typed[1..], c);
      forall k | 0 <= k < |typed| && Blank(typed[..k]) && !IsSpace(typed[k])
        ensures k > 0 && Blank(typed[1..][..k - 1]) && typed[1..][k - 1] == typed[k]
      {
        assert k > 0 ==> typed[1..][..k - 1] == typed[..k][1..];
      }
      forall k | 0 <= k < |typed[1..]| && Blank(typed[1..][..k])
        ensures Blank(typed[..k + 1]) && typed[k + 1] == typed[1..][k]
      {
        assert typed[..k + 1] == [typed[0]] + typed[1..][..k];
      }
    } else if typed != "" {
      assert Blank(typed[..0]);
      assert forall k | 0 < k < |typed| :: typed[..k][0] == typed[0];
    }
  }

  lemma CommandDecides(d: Draft, typed: string)
    requires Displayable(d)
    ensures JustTheCommand(d, typed) <==>
              && Content(d) == Squeeze(typed) && d.pieces[0] != "" && TrimStart(typed) != "" && d.pieces[0][0] == TrimStart(typed)[0]
              && BlankCount(d.pieces[1..]) == BlankCount(Split(typed, '\n'))
  {
    BlankRowsCounted(d.pieces[1..]);
    BlankRowsCounted(Split(typed, '\n'));
    if d.pieces[0] != "" {
      FirstVisible(typed, d.pieces[0][0]);
    }
  }

  lemma JustIsShown(d: Draft, typed: string)
    requires Displayable(d) && JustTheCommand(d, typed)
    ensures ShowsCommand(d, typed)
  {
    assert Content(d) == "" + Squeeze(typed) + "";
  }

  /** `only` is exactly a paste token for a multi-line command, or the command and nothing else. */
  lemma OnlyIsJustTheCommand(l: Layout, d: Draft, typed: string)
    requires LayoutOk(l) && Displayable(d)
    ensures InputAfterTyping(Screen(l, d), typed) == Only <==>
              Squeeze(typed) != "" && (PastedAs(d, typed) || JustTheCommand(d, typed))
  {
    VerdictExactly(l, d, typed);
  }

  /** The verdict on any screen printed in either layout: `only` for a paste token or just the command, `mixed` when the
      command is shown among other text, and `unreadable` exactly otherwise. */
  lemma VerdictExactly(l: Layout, d: Draft, typed: string)
    requires LayoutOk(l) && Displayable(d)
    ensures var verdict := InputAfterTyping(Screen(l, d), typed);
            && (verdict == Only <==> Squeeze(typed) != "" && (PastedAs(d, typed) || JustTheCommand(d, typed)))
            && (verdict == Mixed <==> Squeeze(typed) != "" && !PastedAs(d, typed) && !JustTheCommand(d, typed) && ShowsCommand(d, typed))
            && (verdict == Unreadable <==> Squeeze(typed) == "" || (!PastedAs(d, typed) && !ShowsCommand(d, typed)))
  {
    ScreenVerdictIsDraftVerdict(l, d, typed);
    TokenIsPaste(Content(d));
    ContainedBetween(Content(d), Squeeze(typed));
    CommandDecides(d, typed);
    if JustTheCommand(d, typed) {
      JustIsShown(d, typed);
    }
  }

  /** What is shown as the command alone has no whitespace after the prompt. */
  lemma CommandStartsVisibly(d: Draft, typed: string)
    requires Displayable(d) && JustTheCommand(d, typed)
    ensures d.pieces[0] != "" && !IsSpace(d.pieces[0][0]) && Squeeze(typed) != ""
  {
    CommandDecides(d, typed);
    VisibleStart(typed);
    SqueezedBlank(typed);
  }

  /** The deletion count is the length of the draft's rows with their prompt and indentation, and a line break between two. */
  lemma EraseCountsRows(l: Layout, d: Draft)
    requires LayoutOk(l) && Displayable(d)
    ensures InputEraseCount(Screen(l, d)) == Some(|Join(Trimmed(DraftRows(d)), '\n')|)
  {
    PrintedDraftIsRecognized(l, d);
  }

  // ---- The rows themselves ----

  /** A prompt row is one of the three prompt symbols, alone or before whitespace; a rule is three or more lines. */
  lemma PromptAndRuleRows(row: string)
    ensures PromptRow(row) <==> exists symbol, rest :: row == [symbol] + rest && symbol in ['>', '\U{203A}', '\U{276F}']
                                                       && (rest == "" || IsSpace(rest[0]))
    ensures RuleRow(row) <==> |row| >= 3 && row == seq(|row|, _ => '\U{2500}')
  {
    if PromptRow(row) {
      assert row == [row[0]] + row[1..];
    }
    if RuleRow(row) {
      assert row == seq(|row|, _ => '\U{2500}');
    }
  }
}
