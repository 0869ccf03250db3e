/** Recognition of an agent's input area on a captured terminal screen, and what it holds after the controller typed a
    command. Characters are Unicode scalar values, which is what the source counts with `Array.from`. */
module PromptArea {
  import opened Options
  import opened Characters
  import opened Text

  const FOOTER_ROWS := 3

  function TrimEnd(s: string): string {
    if s == "" || !IsSpace(s[|s| - 1]) then s else TrimEnd(s[..|s| - 1])
  }

  function Squeeze(s: string): string {
    if s == "" then "" else (if IsSpace(s[0]) then "" else [s[0]]) + Squeeze(s[1..])
  }

  predicate PromptSymbol(c: char) {
    c == '>' || c == '\U{203A}' || c == '\U{276F}'
  }

  predicate PromptRow(row: string) {
    row != "" && PromptSymbol(row[0]) && (|row| == 1 || IsSpace(row[1]))
  }

  predicate RuleRow(row: string) {
    |row| >= 3 && forall i | 0 <= i < |row| :: row[i] == '\U{2500}'
  }

  predicate Filled(row: string) { row != "" }
  predicate Empty(row: string) { row == "" }

  /** The last index in (lo, hi] whose row satisfies p, or lo. */
  function Bottom(rows: seq<string>, p: string -> bool, lo: int, hi: int): (r: int)
    requires -1 <= lo <= hi < |rows|
    ensures lo <= r <= hi && (r > lo ==> p(rows[r])) && forall i | r < i <= hi :: !p(rows[i])
    decreases hi - lo
  {
    if hi == lo || p(rows[hi]) then hi else Bottom(rows, p, lo, hi - 1)
  }

  /** The first index from lo on that holds exactly this row. */
  function IndexFrom(rows: seq<string>, row: string, lo: nat): (r: Option<nat>)
    ensures match r
            case None => forall i | lo <= i < |rows| :: rows[i] != row
            case Some(k) => lo <= k < |rows| && rows[k] == row && forall i | lo <= i < k :: rows[i] != row
    decreases |rows| - lo
  {
    if lo >= |rows| then None else if rows[lo] == row then Some(lo) else IndexFrom(rows, row, lo + 1)
  }

  function Area(rows: seq<string>, start: nat): Option<seq<string>>
    requires start < |rows|
  {
    var above := if start > 0 then rows[start - 1] else "";
    if RuleRow(above) then
      var end := IndexFrom(rows, above, start + 1);
      if end.None? then None else Some(rows[start..end.value])
    else
      var last := Bottom(rows, Filled, start, |rows| - 1);
      var blank := Bottom(rows, Empty, start, last);
      if blank <= start || last - blank > FOOTER_ROWS then None else Some(rows[start..blank])
  }

  function Trimmed(rows: seq<string>): (r: seq<string>)
    ensures |r| == |rows| && forall i | 0 <= i < |rows| :: r[i] == TrimEnd(rows[i])
  {
    seq(|rows|, i requires 0 <= i < |rows| => TrimEnd(rows[i]))
  }

  predicate Continuation(row: string) {
    row == "" || (|row| >= 2 && row[0] == ' ' && row[1] == ' ')
  }

  predicate Indented(area: seq<string>) {
    forall i | 1 <= i < |area| :: Continuation(area[i])
  }

  /** The area that begins at the prompt row `start`; there is none at -1. */
  function AreaAt(rows: seq<string>, start: int): Option<seq<string>>
    requires -1 <= start < |rows|
  {
    var area := if start < 0 then None else Area(rows, start);
    if area.None? || !Indented(area.value) then None else area
  }

  function InputRowsOf(rows: seq<string>): Option<seq<string>> {
    AreaAt(rows, Bottom(rows, PromptRow, -1, |rows| - 1))
  }

  function InputRows(screen: string): Option<seq<string>> {
    InputRowsOf(Trimmed(Split(screen, '\n')))
  }

  // ---- As the source computes it ----

  method FindArea(rows: seq<string>, start: nat) returns (area: Option<seq<string>>)
    requires start < |rows|
    ensures area == Area(rows, start)
  {
    var above := if start > 0 then rows[start - 1] else "";
    if RuleRow(above) {
      var end := IndexFrom(rows, above, start + 1);
      return if end.None? then None else Some(rows[start..end.value]);
    }
    var last := |rows| - 1;
    while last > start && rows[last] == ""
      invariant start <= last < |rows|
      invariant Bottom(rows, Filled, start, |rows| - 1) == Bottom(rows, Filled, start, last)
    {
      last := last - 1;
    }
    var blank := last;
    while blank > start && rows[blank] != ""
      invariant start <= blank <= last
      invariant Bottom(rows, Empty, start, last) == Bottom(rows, Empty, start, blank)
    {
      blank := blank - 1;
    }
    if blank <= start || last - blank > FOOTER_ROWS { return None; }
    return Some(rows[start..blank]);
  }

  /** The lowest prompt row, or -1. */
  method FindPrompt(rows: seq<string>) returns (start: int)
    ensures start == Bottom(rows, PromptRow, -1, |rows| - 1)
  {
    start := |rows| - 1;
    while start >= 0 && !PromptRow(rows[start])
      invariant -1 <= start < |rows|
      invariant Bottom(rows, PromptRow, -1, |rows| - 1) == Bottom(rows, PromptRow, -1, start)
    {
      start := start - 1;
    }
  }

  method CheckArea(rows: seq<string>, start: int) returns (result: Option<seq<string>>)
    requires -1 <= start < |rows|
    ensures result == AreaAt(rows, start)
  {
    if start < 0 { return None; }
    var area := FindArea(rows, start);
    if area.None? || !Indented(area.value) { return None; }
    return area;
  }

  method FindInputRows(screen: string) returns (result: Option<seq<string>>)
    ensures result == InputRows(screen)
  {
    var rows := Trimmed(Split(screen, '\n'));
    var start := FindPrompt(rows);
    result := CheckArea(rows, start);
  }

  /** Characters to delete so that nothing of a mixed draft can remain. */
  function InputEraseCount(screen: string): Option<nat> {
    match InputRows(screen)
    case Some(area) => if area == [] then Some(0) else Some(|Join(area, '\n')|)
    case None => None
  }

  datatype Verdict = Only | Mixed | Unreadable

  /** The row after its prompt symbol and the whitespace that follows it. */
  function AfterPrompt(row: string): string {
    if |row| >= 2 then row[2..] else ""
  }

  predicate PasteToken(shown: string) {
    var n := |shown|;
    n >= 8 && shown[..7] == "[Pasted" && shown[n - 1] == ']' && ']' !in shown[7..n - 1]
  }

  function TrimStart(s: string): string {
    if s == "" || !IsSpace(s[0]) then s else TrimStart(s[1..])
  }

  function BlankCount(rows: seq<string>): nat {
    if rows == [] then 0 else (if Blank(rows[0]) then 1 else 0) + BlankCount(rows[1..])
  }

  predicate Contains(s: string, part: string) {
    exists i | 0 <= i <= |s| :: part <= s[i..]
  }

  /** The verdict on what an area shows: its first row after the prompt, its squeezed content and its blank rows. */
  function Decide(first: string, shown: string, blankRows: nat, typed: string): Verdict {
    var mine, visible := Squeeze(typed), TrimStart(typed);
    if mine == "" then Unreadable
    else if '\n' in typed && PasteToken(shown) then Only
    else if shown == mine && first != "" && visible != "" && first[0] == visible[0]
            && blankRows == BlankCount(Split(typed, '\n')) then Only
    else if Contains(shown, mine) then Mixed else Unreadable
  }

  function InputAfterTyping(screen: string, typed: string): Verdict {
    var area := InputRows(screen);
    if area.None? || area.value == [] then Unreadable else
      var first := AfterPrompt(area.value[0]);
      Decide(first, Squeeze(Concat([first] + area.value[1..])), BlankCount(area.value), typed)
  }
}

/** The two documented layouts as printers of a draft, and what recognition makes of what they print. */
module PromptLayouts {
  import opened Options
  import opened Characters
  import opened Text
  import opened PromptArea

  /** A draft as displayed: the pieces of its rows, after the prompt symbol or the indentation. */
  datatype Draft = Draft(symbol: char, separator: char, pieces: seq<string>)

  ghost predicate Displayable(d: Draft) {
    PromptSymbol(d.symbol) && IsSpace(d.separator) && d.separator != '\n' && d.pieces != []
    && forall i | 0 <= i < |d.pieces| :: '\n' !in d.pieces[i]
  }

  function DraftRow(d: Draft, i: nat): string
    requires i < |d.pieces|
  {
    if i == 0 then [d.symbol, d.separator] + d.pieces[0] else "  " + d.pieces[i]
  }

  function DraftRows(d: Draft): (rows: seq<string>)
    ensures |rows| == |d.pieces| && forall i | 0 <= i < |rows| :: rows[i] == DraftRow(d, i)
  {
    seq(|d.pieces|, i requires 0 <= i < |d.pieces| => DraftRow(d, i))
  }

  ghost predicate Printable(rows: seq<string>) {
    forall i | 0 <= i < |rows| :: '\n' !in rows[i]
  }

  ghost predicate NoPrompts(rows: seq<string>) {
    forall i | 0 <= i < |rows| :: !PromptRow(TrimEnd(rows[i]))
  }

  /** Claude Code: the draft between two identical full rules, whatever is above and below. */
  datatype Layout =
    | Claude(scrollback: seq<string>, rule: string, footer: seq<string>)
    | Codex(scrollback: seq<string>, gap: string, footer: seq<string>, below: seq<string>)

  ghost predicate LayoutOk(l: Layout) {
    match l
    case Claude(scrollback, rule, footer) =>
      Printable(scrollback) && Printable(footer) && RuleRow(rule) && NoPrompts(footer)
    case Codex(scrollback, gap, footer, below) =>
      Printable(scrollback) && Printable([gap]) && Printable(footer) && Printable(below) && NoPrompts(footer)
      && Blank(gap) && (forall i | 0 <= i < |below| :: Blank(below[i]))
      && 1 <= |footer| <= FOOTER_ROWS && (forall i | 0 <= i < |footer| :: !Blank(footer[i]))
      && (scrollback != [] ==> !RuleRow(TrimEnd(scrollback[|scrollback| - 1])))
  }

  function Above(l: Layout): seq<string> {
    match l
    case Claude(scrollback, rule, _) => scrollback + [rule]
    case Codex(scrollback, _, _, _) => scrollback
  }

  function Below(l: Layout): seq<string> {
    match l
    case Claude(_, rule, footer) => [rule] + footer
    case Codex(_, gap, footer, below) => [gap] + footer + below
  }

  function ScreenRows(l: Layout, d: Draft): seq<string> {
    Above(l) + DraftRows(d) + Below(l)
  }

  function Screen(l: Layout, d: Draft): string
    requires d.pieces != []
  {
    Join(ScreenRows(l, d), '\n')
  }

  // ---- Trimming ----

  lemma {:induction false} TrimEndOf(s: string)
    ensures TrimEnd(s) <= s && (TrimEnd(s) == "" <==> Blank(s))
    ensures TrimEnd(s) != "" ==> !IsSpace(TrimEnd(s)[|TrimEnd(s)| - 1])
    ensures forall i | |TrimEnd(s)| <= i < |s| :: IsSpace(s[i])
    decreases |s|
  {
    if s != "" && IsSpace(s[|s| - 1]) {
      TrimEndOf(s[..|s| - 1]);
    }
  }

  lemma {:induction false} SqueezeOfTrimmed(s: string)
    ensures Squeeze(TrimEnd(s)) == Squeeze(s)
    decreases |s|
  {
    if s != "" && IsSpace(s[|s| - 1]) {
      var t := s[..|s| - 1];
      SqueezeOfTrimmed(t);
      SqueezeConcat(t, [s[|s| - 1]]);
      assert t + [s[|s| - 1]] == s;
    }
  }

  lemma {:induction false} SqueezeConcat(a: string, b: string)
    ensures Squeeze(a + b) == Squeeze(a) + Squeeze(b)
  {
    if a == "" {
      assert a + b == b;
    } else {
      SqueezeConcat(a[1..], b);
      assert (a + b)[0] == a[0] && (a + b)[1..] == a[1..] + b;
      Regrouped(if IsSpace(a[0]) then "" else [a[0]], Squeeze(a[1..]), Squeeze(b));
    }
  }

  lemma Regrouped(a: string, b: string, c: string)
    ensures (a + b) + c == a + (b + c)
  {
  }

  lemma {:induction false} TrimEndKeepsHead(head: string, s: string)
    requires !Blank(s)
    ensures TrimEnd(head + s) == head + TrimEnd(s)
    decreases |s|
  {
    var t := head + s;
    assert t[|t| - 1] == s[|s| - 1];
    if IsSpace(s[|s| - 1]) {
      assert t[..|t| - 1] == head + s[..|s| - 1];
      TrimEndKeepsHead(head, s[..|s| - 1]);
    }
  }

  /** The first row shows the symbol, and after it exactly the trimmed first piece. */
  lemma FirstRow(d: Draft)
    requires Displayable(d)
    ensures var row := TrimEnd(DraftRow(d, 0));
            PromptRow(row) && AfterPrompt(row) == TrimEnd(d.pieces[0]) && !RuleRow(row) && row != "" && !Blank(row)
  {
    var s := DraftRow(d, 0);
    TrimEndOf(s);
    TrimEndOf(d.pieces[0]);
    assert s[0] == d.symbol && !IsSpace(s[0]);
    if Blank(d.pieces[0]) {
      forall i | 1 <= i < |s| ensures IsSpace(s[i]) {
        assert s[i] == if i == 1 then d.separator else d.pieces[0][i - 2];
      }
      assert |TrimEnd(s)| <= 1;
    } else {
      TrimEndKeepsHead([d.symbol, d.separator], d.pieces[0]);
    }
  }

  lemma LaterRow(d: Draft, i: nat)
    requires Displayable(d) && 1 <= i < |d.pieces|
    ensures var row := TrimEnd(DraftRow(d, i));
            Continuation(row) && !PromptRow(row) && !RuleRow(row) && Squeeze(row) == Squeeze(d.pieces[i])
            && (Blank(row) <==> Blank(d.pieces[i])) && (row == "" <==> Blank(d.pieces[i]))
  {
    var s := DraftRow(d, i);
    TrimEndOf(s);
    SqueezeOfTrimmed(s);
    SqueezeConcat("  ", d.pieces[i]);
    if Blank(d.pieces[i]) {
      forall k | 0 <= k < |s| ensures IsSpace(s[k]) {
        assert s[k] == if k < 2 then ' ' else d.pieces[i][k - 2];
      }
    } else {
      var k :| 0 <= k < |d.pieces[i]| && !IsSpace(d.pieces[i][k]);
      assert s[k + 2] == d.pieces[i][k];
      TrimEndKeepsHead("  ", d.pieces[i]);
      TrimEndOf(d.pieces[i]);
    }
  }

  // ---- Recognition ----

  lemma DraftRowsArePrintable(d: Draft)
    requires Displayable(d)
    ensures Printable(DraftRows(d))
  {
    assert '\n' !in [d.symbol, d.separator];
  }

  lemma ScreenSplits(l: Layout, d: Draft)
    requires LayoutOk(l) && Displayable(d)
    ensures InputRows(Screen(l, d)) == InputRowsOf(Trimmed(ScreenRows(l, d)))
  {
    DraftRowsArePrintable(d);
    assert l.Claude? ==> '\n' !in l.rule;
    assert l.Codex? ==> '\n' !in [l.gap][0];
    SplitOfJoin(ScreenRows(l, d), '\n');
  }

  /** What recognition finds in trimmed rows laid out as a prompt area with its surroundings. */
  lemma StartFound(above: seq<string>, area: seq<string>, below: seq<string>)
    requires area != [] && PromptRow(area[0])
    requires PlainRows(area[1..]) && PlainRows(below)
    ensures var rows := above + area + below; Bottom(rows, PromptRow, -1, |rows| - 1) == |above|
  {
    var rows := above + area + below;
    assert rows[|above|] == area[0];
    forall k | |above| < k < |rows|
      ensures !PromptRow(rows[k])
    {
      var i := k - |above|;
      assert rows[k] == if i < |area| then area[1..][i - 1] else below[i - |area|];
    }
  }

  lemma RuledArea(above: seq<string>, rule: string, area: seq<string>, footer: seq<string>)
    requires area != [] && RuleRow(rule) && forall i | 0 <= i < |area| :: area[i] != rule
    ensures Area(above + [rule] + area + ([rule] + footer), |above| + 1) == Some(area)
  {
    var rows := above + [rule] + area + ([rule] + footer);
    var start := |above| + 1;
    assert rows[start - 1] == rule;
    var end := IndexFrom(rows, rule, start + 1);
    var expected := start + |area|;
    assert rows[expected] == rule;
    assert forall i | start <= i < expected :: rows[i] == area[i - start];
    assert end == Some(expected);
    assert rows[start..expected] == area;
  }

  lemma LastFilled(rows: seq<string>, start: nat, last: nat)
    requires start < last < |rows| && rows[last] != "" && forall i | last < i < |rows| :: rows[i] == ""
    ensures Bottom(rows, Filled, start, |rows| - 1) == last
  {
  }

  lemma LastEmpty(rows: seq<string>, start: nat, gap: nat, last: nat)
    requires start < gap < last < |rows| && rows[gap] == "" && forall i | gap < i <= last :: rows[i] != ""
    ensures Bottom(rows, Empty, start, last) == gap
  {
  }

  lemma FooterTail(footer: seq<string>, blanks: seq<string>)
    ensures var tail := [""] + footer + blanks;
            && tail[0] == "" && (forall k | 1 <= k <= |footer| :: tail[k] == footer[k - 1])
            && forall k | |footer| < k < |tail| :: tail[k] == blanks[k - 1 - |footer|]
  {
  }

  lemma AreaToBlank(rows: seq<string>, start: nat, gap: nat, last: nat)
    requires start < gap < last < |rows| && rows[gap] == "" && last - gap <= FOOTER_ROWS
    requires (forall i | gap < i <= last :: rows[i] != "") && forall i | last < i < |rows| :: rows[i] == ""
    requires start > 0 ==> !RuleRow(rows[start - 1])
    ensures Area(rows, start) == Some(rows[start..gap])
  {
    LastFilled(rows, start, last);
    LastEmpty(rows, start, gap, last);
  }

  lemma Stacked(above: seq<string>, area: seq<string>, tail: seq<string>)
    ensures var rows := above + area + tail;
            && rows[|above|..|above| + |area|] == area && rows[|above| + |area|..] == tail
            && (above != [] ==> rows[|above| - 1] == above[|above| - 1])
  {
  }

  lemma FooterArea(above: seq<string>, area: seq<string>, tail: seq<string>, last: nat)
    requires area != [] && (above != [] ==> !RuleRow(above[|above| - 1]))
    requires 1 <= last <= FOOTER_ROWS && last < |tail|
    requires tail[0] == "" && (forall k | 1 <= k <= last :: tail[k] != "") && forall k | last < k < |tail| :: tail[k] == ""
    ensures Area(above + area + tail, |above|) == Some(area)
  {
    var rows := above + area + tail;
    Stacked(above, area, tail);
    var gap := |above| + |area|;
    forall i | gap <= i < |rows| ensures rows[i] == tail[i - gap] {
      assert rows[i] == rows[gap..][i - gap];
    }
    AreaToBlank(rows, |above|, gap, gap + last);
  }

  lemma RuleKeepsTrim(rule: string)
    requires RuleRow(rule)
    ensures TrimEnd(rule) == rule
  {
    assert rule[|rule| - 1] == '\U{2500}';
  }

  lemma TrimmedConcat(a: seq<string>, b: seq<string>)
    ensures Trimmed(a + b) == Trimmed(a) + Trimmed(b)
  {
  }

  lemma TrimmedBlank(rows: seq<string>)
    ensures (forall i | 0 <= i < |rows| :: Blank(rows[i])) ==> forall i | 0 <= i < |rows| :: Trimmed(rows)[i] == ""
    ensures (forall i | 0 <= i < |rows| :: !Blank(rows[i])) ==> forall i | 0 <= i < |rows| :: Trimmed(rows)[i] != ""
  {
    forall i | 0 <= i < |rows| ensures TrimEnd(rows[i]) == "" <==> Blank(rows[i]) {
      TrimEndOf(rows[i]);
    }
  }

  ghost predicate PlainRows(rows: seq<string>) {
    forall i | 0 <= i < |rows| :: !PromptRow(rows[i])
  }

  lemma BelowHasNoPrompts(l: Layout)
    requires LayoutOk(l)
    ensures PlainRows(Trimmed(Below(l)))
  {
    var below := Below(l);
    forall i | 0 <= i < |below| ensures !PromptRow(TrimEnd(below[i])) {
      if l.Claude? {
        RuleKeepsTrim(l.rule);
        assert below[i] == if i == 0 then l.rule else l.footer[i - 1];
      } else {
        TrimEndOf(below[i]);
        assert below[i] == if i == 0 then l.gap else if i <= |l.footer| then l.footer[i - 1] else l.below[i - 1 - |l.footer|];
      }
    }
  }

  /** The draft's own rows: one prompt, then continuations. */
  lemma DraftRowsShape(d: Draft)
    requires Displayable(d)
    ensures var area := Trimmed(DraftRows(d));
            PromptRow(area[0]) && PlainRows(area[1..]) && Indented(area)
  {
    var area := Trimmed(DraftRows(d));
    FirstRow(d);
    forall i | 1 <= i < |area| ensures !PromptRow(area[i]) && Continuation(area[i]) {
      LaterRow(d, i);
    }
  }

  lemma TrimmedScreen(l: Layout, d: Draft)
    ensures Trimmed(ScreenRows(l, d)) == Trimmed(Above(l)) + Trimmed(DraftRows(d)) + Trimmed(Below(l))
  {
    TrimmedConcat(Above(l) + DraftRows(d), Below(l));
    TrimmedConcat(Above(l), DraftRows(d));
  }

  lemma RecognizedAs(rows: seq<string>, start: nat, area: seq<string>)
    requires start < |rows| && Bottom(rows, PromptRow, -1, |rows| - 1) == start
    requires Area(rows, start) == Some(area) && Indented(area)
    ensures InputRowsOf(rows) == Some(area)
  {
  }

  lemma ClaudeArea(l: Layout, d: Draft)
    requires l.Claude? && LayoutOk(l) && Displayable(d)
    ensures Area(Trimmed(ScreenRows(l, d)), |Above(l)|) == Some(Trimmed(DraftRows(d)))
  {
    var area := Trimmed(DraftRows(d));
    TrimmedScreen(l, d);
    RuleKeepsTrim(l.rule);
    forall i | 0 <= i < |area| ensures area[i] != l.rule {
      if i == 0 { FirstRow(d); } else { LaterRow(d, i); }
    }
    TrimmedConcat(l.scrollback, [l.rule]);
    TrimmedConcat([l.rule], l.footer);
    assert Trimmed([l.rule]) == [l.rule];
    RuledArea(Trimmed(l.scrollback), l.rule, area, Trimmed(l.footer));
  }

  lemma TrimmedBelow(l: Layout)
    requires l.Codex? && LayoutOk(l)
    ensures Trimmed(Below(l)) == [""] + Trimmed(l.footer) + Trimmed(l.below)
  {
    TrimmedConcat([l.gap] + l.footer, l.below);
    TrimmedConcat([l.gap], l.footer);
    TrimEndOf(l.gap);
    assert Trimmed([l.gap]) == [""];
  }

  /** Below Codex's draft: one empty row, the footer's rows, then only empty ones. */
  lemma CodexTail(l: Layout)
    requires l.Codex? && LayoutOk(l)
    ensures var tail := Trimmed(Below(l));
            && |l.footer| < |tail| && tail[0] == "" && (forall k | 1 <= k <= |l.footer| :: tail[k] != "")
            && forall k | |l.footer| < k < |tail| :: tail[k] == ""
  {
    TrimmedBelow(l);
    TrimmedBlank(l.footer);
    TrimmedBlank(l.below);
    FooterTail(Trimmed(l.footer), Trimmed(l.below));
  }

  lemma CodexArea(l: Layout, d: Draft)
    requires l.Codex? && LayoutOk(l) && Displayable(d)
    ensures Area(Trimmed(ScreenRows(l, d)), |Above(l)|) == Some(Trimmed(DraftRows(d)))
  {
    TrimmedScreen(l, d);
    CodexTail(l);
    FooterArea(Trimmed(l.scrollback), Trimmed(DraftRows(d)), Trimmed(Below(l)), |l.footer|);
  }

  lemma AreaFound(l: Layout, d: Draft)
    requires LayoutOk(l) && Displayable(d)
    ensures Area(Trimmed(ScreenRows(l, d)), |Above(l)|) == Some(Trimmed(DraftRows(d)))
  {
    if l.Claude? { ClaudeArea(l, d); } else { CodexArea(l, d); }
  }

  /** A screen printed in either layout, over any scrollback, is recognized as exactly the draft's rows. */
  lemma PrintedDraftIsRecognized(l: Layout, d: Draft)
    requires LayoutOk(l) && Displayable(d)
    ensures InputRows(Screen(l, d)) == Some(Trimmed(DraftRows(d)))
  {
    ScreenSplits(l, d);
    var area := Trimmed(DraftRows(d));
    DraftRowsShape(d);
    BelowHasNoPrompts(l);
    TrimmedScreen(l, d);
    StartFound(Trimmed(Above(l)), area, Trimmed(Below(l)));
    AreaFound(l, d);
    RecognizedAs(Trimmed(ScreenRows(l, d)), |Above(l)|, area);
  }

  // ---- What the draft holds ----

  function Content(d: Draft): string {
    Squeeze(Concat(d.pieces))
  }

  /** The verdict on a draft, told without the screen. */
  function Judge(d: Draft, typed: string): Verdict
    requires d.pieces != []
  {
    Decide(d.pieces[0], Content(d), BlankCount(d.pieces[1..]), typed)
  }

  lemma {:induction false} SqueezedRows(rows: seq<string>, pieces: seq<string>)
    requires |rows| == |pieces| && forall i | 0 <= i < |rows| :: Squeeze(rows[i]) == Squeeze(pieces[i])
    ensures Squeeze(Concat(rows)) == Squeeze(Concat(pieces))
  {
    if rows != [] {
      SqueezedRows(rows[1..], pieces[1..]);
      SqueezeConcat(rows[0], Concat(rows[1..]));
      SqueezeConcat(pieces[0], Concat(pieces[1..]));
    }
  }

  lemma {:induction false} BlankRows(rows: seq<string>, pieces: seq<string>)
    requires |rows| == |pieces| && forall i | 0 <= i < |rows| :: Blank(rows[i]) <==> Blank(pieces[i])
    ensures BlankCount(rows) == BlankCount(pieces)
  {
    if rows != [] {
      BlankRows(rows[1..], pieces[1..]);
    }
  }

  lemma ShownIsContent(d: Draft)
    requires Displayable(d)
    ensures var area := Trimmed(DraftRows(d));
            && Squeeze(Concat([AfterPrompt(area[0])] + area[1..])) == Content(d)
            && BlankCount(area) == BlankCount(d.pieces[1..])
  {
    var area := Trimmed(DraftRows(d));
    FirstRow(d);
    SqueezeOfTrimmed(d.pieces[0]);
    var shown := [AfterPrompt(area[0])] + area[1..];
    forall i | 1 <= i < |area|
      ensures Squeeze(shown[i]) == Squeeze(d.pieces[i]) && (Blank(area[1..][i - 1]) <==> Blank(d.pieces[1..][i - 1]))
    {
      LaterRow(d, i);
    }
    SqueezedRows(shown, d.pieces);
    BlankRows(area[1..], d.pieces[1..]);
  }

  lemma {:induction false} VisibleStart(s: string)
    ensures TrimStart(s) != "" ==> !IsSpace(TrimStart(s)[0])
  {
    if s != "" && IsSpace(s[0]) {
      VisibleStart(s[1..]);
    }
  }

  lemma TrimmedFirstDecides(first: string, shown: string, blankRows: nat, typed: string)
    ensures Decide(TrimEnd(first), shown, blankRows, typed) == Decide(first, shown, blankRows, typed)
  {
    TrimEndOf(first);
    VisibleStart(typed);
  }

  /** Whatever the layout, scrollback and wrapping, the verdict on a printed screen is the verdict on its draft. */
  lemma ScreenVerdictIsDraftVerdict(l: Layout, d: Draft, typed: string)
    requires LayoutOk(l) && Displayable(d)
    ensures InputAfterTyping(Screen(l, d), typed) == Judge(d, typed)
  {
    PrintedDraftIsRecognized(l, d);
    FirstRow(d);
    ShownIsContent(d);
    TrimmedFirstDecides(d.pieces[0], Content(d), BlankCount(d.pieces[1..]), typed);
  }

  // ---- A command typed alone ----

  /** The pieces one line of a command is shown as: one blank row for a blank line, else nonblank pieces whose text is
      the line's up to whitespace lost at the wraps. */
  ghost predicate WrapsLine(line: string, pieces: seq<string>) {
    if Blank(line) then |pieces| == 1 && Blank(pieces[0])
    else pieces != [] && (forall i | 0 <= i < |pieces| :: !Blank(pieces[i])) && Squeeze(Concat(pieces)) == Squeeze(line)
  }

  ghost predicate Wraps(lines: seq<string>, wrapped: seq<seq<string>>) {
    |wrapped| == |lines| && forall i | 0 <= i < |lines| :: WrapsLine(lines[i], wrapped[i])
  }

  lemma {:induction false} BlankPieces(a: seq<string>, b: seq<string>)
    ensures BlankCount(a + b) == BlankCount(a) + BlankCount(b)
  {
    if a == [] {
      assert a + b == b;
    } else {
      BlankPieces(a[1..], b);
      assert (a + b)[1..] == a[1..] + b;
    }
  }

  lemma {:induction false} NoBlankPieces(pieces: seq<string>)
    requires forall i | 0 <= i < |pieces| :: !Blank(pieces[i])
    ensures BlankCount(pieces) == 0
  {
    if pieces != [] {
      NoBlankPieces(pieces[1..]);
    }
  }

  lemma {:induction false} SqueezedBlank(s: string)
    ensures Blank(s) <==> Squeeze(s) == ""
  {
    if s != "" {
      SqueezedBlank(s[1..]);
      assert Blank(s) <==> IsSpace(s[0]) && Blank(s[1..]);
    }
  }

  lemma WrappedLine(line: string, pieces: seq<string>)
    requires WrapsLine(line, pieces)
    ensures Squeeze(Concat(pieces)) == Squeeze(line) && BlankCount(pieces) == if Blank(line) then 1 else 0
  {
    if Blank(line) {
      SqueezedBlank(line);
      SqueezedBlank(pieces[0]);
      assert Concat(pieces) == pieces[0] + Concat(pieces[1..]) == pieces[0];
    } else {
      NoBlankPieces(pieces);
    }
  }

  lemma {:induction false} WrappedCommand(lines: seq<string>, wrapped: seq<seq<string>>)
    requires Wraps(lines, wrapped)
    ensures Squeeze(Concat(Concat(wrapped))) == Squeeze(Concat(lines))
    ensures BlankCount(Concat(wrapped)) == BlankCount(lines)
  {
    if lines != [] {
      WrappedCommand(lines[1..], wrapped[1..]);
      WrappedLine(lines[0], wrapped[0]);
      ConcatAppend(wrapped[0], Concat(wrapped[1..]));
      BlankPieces(wrapped[0], Concat(wrapped[1..]));
      SqueezeConcat(Concat(wrapped[0]), Concat(Concat(wrapped[1..])));
      SqueezeConcat(lines[0], Concat(lines[1..]));
    }
  }

  lemma HeadCharacter(c: char, parts: seq<string>)
    requires parts != []
    ensures Concat([[c] + parts[0]] + parts[1..]) == [c] + Concat(parts)
  {
    var longer := [[c] + parts[0]] + parts[1..];
    assert longer[1..] == parts[1..];
    assert [c] + parts[0] + Concat(parts[1..]) == [c] + (parts[0] + Concat(parts[1..]));
  }

  lemma {:induction false} SqueezedLines(s: string)
    ensures Squeeze(Concat(Split(s, '\n'))) == Squeeze(s)
  {
    if s != "" {
      SqueezedLines(s[1..]);
      var rest := Split(s[1..], '\n');
      if s[0] == '\n' {
        assert ([[]] + rest)[1..] == rest;
        assert [] + Concat(rest) == Concat(rest);
      } else {
        HeadCharacter(s[0], rest);
        assert ([s[0]] + Concat(rest))[1..] == Concat(rest);
      }
    }
  }

  /** A command typed alone, with no leading whitespace, is always recognized as such, however its lines are wrapped. */
  lemma CommandAloneIsOnly(l: Layout, d: Draft, typed: string, wrapped: seq<seq<string>>)
    requires LayoutOk(l) && Displayable(d)
    requires typed != "" && !IsSpace(typed[0]) && Wraps(Split(typed, '\n'), wrapped) && d.pieces == Concat(wrapped)
    requires d.pieces[0] != "" && d.pieces[0][0] == typed[0]
    ensures InputAfterTyping(Screen(l, d), typed) == Only
  {
    ScreenVerdictIsDraftVerdict(l, d, typed);
    WrappedCommand(Split(typed, '\n'), wrapped);
    SqueezedLines(typed);
    SqueezedBlank(typed);
    assert !Blank(d.pieces[0]);
  }

  /** The deletion count covers every visible character and row break of the draft. */
  lemma EraseCoversDraft(l: Layout, d: Draft)
    requires LayoutOk(l) && Displayable(d)
    ensures InputEraseCount(Screen(l, d)).Some?
    ensures InputEraseCount(Screen(l, d)).value >= |Join(Trimmed(d.pieces), '\n')|
  {
    PrintedDraftIsRecognized(l, d);
    var area := Trimmed(DraftRows(d));
    forall i | 0 <= i < |area|
      ensures |area[i]| >= |TrimEnd(d.pieces[i])|
    {
      RowCoversPiece(d, i);
    }
    LongerRows(area, Trimmed(d.pieces));
  }

  lemma RowCoversPiece(d: Draft, i: nat)
    requires Displayable(d) && i < |DraftRows(d)|
    ensures i < |d.pieces| && |TrimEnd(DraftRows(d)[i])| >= |TrimEnd(d.pieces[i])|
  {
    if i == 0 {
      FirstRow(d);
    } else if Blank(d.pieces[i]) {
      TrimEndOf(d.pieces[i]);
    } else {
      TrimEndKeepsHead("  ", d.pieces[i]);
    }
  }

  lemma {:induction false} LongerRows(a: seq<string>, b: seq<string>)
    requires |a| == |b| >= 1 && forall i | 0 <= i < |a| :: |a[i]| >= |b[i]|
    ensures |Join(a, '\n')| >= |Join(b, '\n')|
  {
    if |a| > 1 {
      LongerRows(a[1..], b[1..]);
    }
  }
}
