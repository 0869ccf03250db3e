/** The reader of the root `notify` array, as functions from the remaining text to what was read and what remains; and
    the texts it is for: root assignments, gaps, strings in either quoting, and the array. */
module NotifyGrammar {
  import opened Options
  import opened CodeUnits
  import opened BalancedLine

  datatype Reason = TopLevelSyntax | MultilineRoot | NotAnArray | NonString | MultilineString | UnsupportedEscape
                  | InvalidEscape | Unclosed | Malformed
  datatype Outcome = Absent | Strings(values: seq<Source>) | Refused(reason: Reason)

  // ---- Reading ----

  /** Whitespace and comments; a comment runs up to its line feed, which is whitespace itself. */
  function Skip(t: Source, inComment: bool): (rest: Source)
    ensures |rest| <= |t|
    ensures rest != [] ==> !White(rest[0]) && rest[0] != HASH
  {
    if t == [] then []
    else if inComment then Skip(t[1..], t[0] != LF)
    else if White(t[0]) then Skip(t[1..], false)
    else if t[0] == HASH then Skip(t[1..], true)
    else t
  }

  predicate KeyUnit(u: Unit) {
    0x41 <= u <= 0x5A || 0x61 <= u <= 0x7A || 0x30 <= u <= 0x39 || u == 0x5F || u == 0x2D
  }

  predicate BlankUnit(u: Unit) {
    u == SPACE || u == TAB
  }

  /** Length of the longest prefix of units satisfying p. */
  function Span(t: Source, p: Unit -> bool): (n: nat)
    ensures n <= |t| && (forall i | 0 <= i < n :: p(t[i])) && (n < |t| ==> !p(t[n]))
  {
    if t == [] || !p(t[0]) then 0 else 1 + Span(t[1..], p)
  }

  predicate NotLineFeed(u: Unit) {
    u != LF
  }

  /** A bare key, an equals sign, and the blanks around it. */
  function ReadKey(t: Source): (r: Option<(Source, Source)>)
    ensures r.Some? ==> |r.value.1| < |t|
  {
    var n := Span(t, KeyUnit);
    if n == 0 then None else
      var u := t[n..];
      var v := u[Span(u, BlankUnit)..];
      if v == [] || v[0] != EQUALS then None else
        var w := v[1..];
        Some((t[..n], w[Span(w, BlankUnit)..]))
  }

  const NOTIFY: Source := [110, 111, 116, 105, 102, 121]

  function ReadRoot(t: Source): Outcome
    decreases |t|
  {
    var s := Skip(t, false);
    if s == [] || s[0] == LEFT_SQUARE then Absent
    else match ReadKey(s)
      case None => Refused(TopLevelSyntax)
      case Some((key, rest)) =>
        if key == NOTIFY then ReadArray(rest) else
          var end := Span(rest, NotLineFeed);
          if !Scan(rest[..end], None, false, []) then Refused(MultilineRoot)
          else ReadRoot(if end == |rest| then [] else rest[end + 1..])
  }

  function ReadArray(t: Source): (r: Outcome)
    ensures r != Absent
  {
    var s := Skip(t, false);
    if s == [] || s[0] != LEFT_SQUARE then Refused(NotAnArray) else ReadElements(s[1..])
  }

  function ReadElements(t: Source): (r: Outcome)
    ensures r != Absent
    decreases |t|
  {
    var s := Skip(t, false);
    if s != [] && s[0] == RIGHT_SQUARE then Strings([])
    else match ReadValue(s)
      case Err(reason) => Refused(reason)
      case Ok((value, v)) =>
        if v != [] && v[0] == RIGHT_SQUARE then Strings([value])
        else if v == [] || v[0] != COMMA then Refused(Malformed)
        else
          var more := v[1..];
          match ReadElements(more)
          case Strings(values) => Strings([value] + values)
          case other => other
  }

  /** One string and the space after it. */
  function ReadValue(s: Source): (r: Result<(Source, Source), Reason>)
    ensures r.Ok? ==> |r.value.1| < |s|
  {
    if s == [] || !Quoting(s[0]) then Err(NonString)
    else if Triple(s) then Err(MultilineString)
    else match ReadString(s[1..], s[0])
      case Err(reason) => Err(reason)
      case Ok((value, after)) => Ok((value, Skip(after, false)))
  }

  function ShortEscape(u: Unit): Option<Unit> {
    if u == 98 then Some(8) else if u == 116 then Some(9) else if u == 110 then Some(10) else if u == 102 then Some(12)
    else if u == 114 then Some(13) else if u == QUOTE then Some(QUOTE) else if u == BACKSLASH then Some(BACKSLASH) else None
  }

  function HexDigit(u: Unit): Option<nat> {
    if 0x30 <= u <= 0x39 then Some(u - 0x30) else if 0x41 <= u <= 0x46 then Some(u - 0x37)
    else if 0x61 <= u <= 0x66 then Some(u - 0x57) else None
  }

  predicate AllHex(digits: Source) {
    forall i | 0 <= i < |digits| :: HexDigit(digits[i]).Some?
  }

  function HexValue(digits: Source): nat
    requires AllHex(digits)
  {
    if digits == [] then 0 else HexValue(digits[..|digits| - 1]) * 16 + HexDigit(digits[|digits| - 1]).value
  }

  /** Number of digits after `\u` and `\U`; zero for any other letter. */
  function EscapeLength(u: Unit): nat {
    if u == 117 then 4 else if u == 85 then 8 else 0
  }

  /** After a backslash in a basic string: the units it stands for and what remains. */
  function ReadEscape(t: Source): (r: Result<(Source, Source), Reason>)
    ensures r.Ok? ==> |r.value.1| < |t|
  {
    if t == [] then Err(UnsupportedEscape)
    else if ShortEscape(t[0]).Some? then Ok(([ShortEscape(t[0]).value], t[1..]))
    else
      var length := EscapeLength(t[0]);
      if length == 0 || |t| < 1 + length || !AllHex(t[1..1 + length]) then Err(UnsupportedEscape)
      else
        var code := HexValue(t[1..1 + length]);
        if code > 0x10FFFF then Err(InvalidEscape) else Ok((FromCodePoint(code), t[1 + length..]))
  }

  function ReadString(t: Source, delimiter: Unit): (r: Result<(Source, Source), Reason>)
    ensures r.Ok? ==> |r.value.1| < |t|
    decreases |t|
  {
    if t == [] then Err(Unclosed)
    else if t[0] == delimiter then Ok(([], t[1..]))
    else if t[0] == LF || t[0] == CR then Err(Unclosed)
    else if t[0] != BACKSLASH || delimiter == APOSTROPHE then Prepend([t[0]], ReadString(t[1..], delimiter))
    else match ReadEscape(t[1..])
      case Err(reason) => Err(reason)
      case Ok((units, rest)) => Prepend(units, ReadString(rest, delimiter))
  }

  function Prepend(units: Source, r: Result<(Source, Source), Reason>): Result<(Source, Source), Reason> {
    match r
    case Err(reason) => Err(reason)
    case Ok((value, rest)) => Ok((units + value, rest))
  }

  // ---- Printing ----
  // Each printer takes the text that follows.

  datatype Space = Blank(u: Unit) | Comment(body: Source)

  predicate SpaceOk(p: Space) {
    match p
    case Blank(u) => White(u)
    case Comment(body) => LF !in body
  }

  function SpaceText(p: Space, then': Source): Source {
    match p
    case Blank(u) => [u] + then'
    case Comment(body) => [HASH] + (body + ([LF] + then'))
  }

  type Gap = gap: seq<Space> | forall i | 0 <= i < |gap| :: SpaceOk(gap[i])

  function GapText(gap: seq<Space>, then': Source): Source {
    if gap == [] then then' else SpaceText(gap[0], GapText(gap[1..], then'))
  }

  datatype Atom = Plain(u: Unit) | Short(letter: Unit) | Code(digits: Source)
  datatype Quotation = Basic(atoms: seq<Atom>) | Verbatim(body: Source)

  predicate AtomOk(a: Atom) {
    match a
    case Plain(u) => u != QUOTE && u != BACKSLASH && u != LF && u != CR
    case Short(letter) => ShortEscape(letter).Some?
    case Code(digits) => (|digits| == 4 || |digits| == 8) && AllHex(digits) && HexValue(digits) <= 0x10FFFF
  }

  predicate QuotationOk(q: Quotation) {
    match q
    case Basic(atoms) => forall i | 0 <= i < |atoms| :: AtomOk(atoms[i])
    case Verbatim(body) => APOSTROPHE !in body && LF !in body && CR !in body
  }

  type Literal = q: Quotation | QuotationOk(q) witness Verbatim([])

  function EscapeLetter(length: nat): Unit {
    if length == 4 then 117 else 85
  }

  function AtomText(a: Atom, then': Source): Source {
    match a
    case Plain(u) => [u] + then'
    case Short(letter) => [BACKSLASH] + ([letter] + then')
    case Code(digits) => [BACKSLASH] + ([EscapeLetter(|digits|)] + (digits + then'))
  }

  function AtomValue(a: Atom): Source
    requires AtomOk(a)
  {
    match a
    case Plain(u) => [u]
    case Short(letter) => [ShortEscape(letter).value]
    case Code(digits) => FromCodePoint(HexValue(digits))
  }

  function AtomsText(atoms: seq<Atom>, then': Source): Source {
    if atoms == [] then then' else AtomText(atoms[0], AtomsText(atoms[1..], then'))
  }

  function AtomsValue(atoms: seq<Atom>): Source
    requires forall i | 0 <= i < |atoms| :: AtomOk(atoms[i])
  {
    if atoms == [] then [] else AtomValue(atoms[0]) + AtomsValue(atoms[1..])
  }

  function Delimiter(q: Quotation): Unit {
    if q.Basic? then QUOTE else APOSTROPHE
  }

  /** The rest of a string after its opening delimiter. */
  function InsideText(q: Quotation, then': Source): Source {
    match q
    case Basic(atoms) => AtomsText(atoms, [QUOTE] + then')
    case Verbatim(body) => body + ([APOSTROPHE] + then')
  }

  function LiteralText(q: Quotation, then': Source): Source {
    [Delimiter(q)] + InsideText(q, then')
  }

  function LiteralValue(q: Literal): Source {
    match q
    case Basic(atoms) => AtomsValue(atoms)
    case Verbatim(body) => body
  }

  function ElementText(before: Gap, q: Quotation, after: Gap, then': Source): Source {
    GapText(before, LiteralText(q, GapText(after, then')))
  }

  /** What follows the opening bracket: elements, commas, an optional trailing comma, and the closing bracket. */
  datatype Items = End(gap: Gap) | Last(before: Gap, literal: Literal, after: Gap)
                 | More(before: Gap, literal: Literal, after: Gap, rest: Items)

  function ItemsText(items: Items, then': Source): Source {
    match items
    case End(gap) => GapText(gap, [RIGHT_SQUARE] + then')
    case Last(before, q, after) => ElementText(before, q, after, [RIGHT_SQUARE] + then')
    case More(before, q, after, rest) => ElementText(before, q, after, [COMMA] + ItemsText(rest, then'))
  }

  function ItemsValues(items: Items): seq<Source> {
    match items
    case End(_) => []
    case Last(_, q, _) => [LiteralValue(q)]
    case More(_, q, _, rest) => [LiteralValue(q)] + ItemsValues(rest)
  }

  /** A root assignment of a one-line value. */
  datatype Assignment = Assignment(gap: Gap, key: Source, before: Source, after: Source, value: Source)

  predicate Blanks(t: Source) {
    forall i | 0 <= i < |t| :: BlankUnit(t[i])
  }

  predicate Key(t: Source) {
    t != [] && forall i | 0 <= i < |t| :: KeyUnit(t[i])
  }

  predicate AssignmentOk(a: Assignment) {
    Key(a.key) && a.key != NOTIFY && Blanks(a.before) && Blanks(a.after) && LF !in a.value
    && (a.value != [] ==> !BlankUnit(a.value[0])) && Scan(a.value, None, false, [])
  }

  type Lines = lines: seq<Assignment> | forall i | 0 <= i < |lines| :: AssignmentOk(lines[i])

  function KeyText(key: Source, before: Source, after: Source, then': Source): Source {
    key + (before + ([EQUALS] + (after + then')))
  }

  function AssignmentText(a: Assignment, then': Source): Source {
    GapText(a.gap, KeyText(a.key, a.before, a.after, a.value + ([LF] + then')))
  }

  function LinesText(lines: seq<Assignment>, then': Source): Source {
    if lines == [] then then' else AssignmentText(lines[0], LinesText(lines[1..], then'))
  }

  /** A configuration with a root notify; everything after its array is free. */
  datatype Document = Document(lines: Lines, gap: Gap, before: Source, after: Source, opening: Gap, items: Items, remainder: Source)

  predicate DocumentOk(d: Document) {
    Blanks(d.before) && Blanks(d.after)
  }

  function ArrayText(d: Document): Source {
    GapText(d.opening, [LEFT_SQUARE] + ItemsText(d.items, d.remainder))
  }

  function DocumentText(d: Document): Source {
    LinesText(d.lines, GapText(d.gap, KeyText(NOTIFY, d.before, d.after, ArrayText(d))))
  }

  /** A configuration, closed by a line feed, with nothing but one-line assignments to other keys before its first table
      header or its end. */
  ghost predicate NoRootNotify(t: Source) {
    exists lines: Lines, gap: Gap, remainder: Source ::
      t == LinesText(lines, GapText(gap, remainder)) && (remainder == [] || remainder[0] == LEFT_SQUARE)
  }
}
