/** The reader as the source has it: one index shared by its loops, advanced over the text. */
module RootNotify {
  import opened Options
  import opened CodeUnits
  import opened BalancedLine
  import opened NotifyGrammar
  import opened NotifyRoundTrip

  function After(values: seq<Source>, r: Outcome): Outcome {
    if r.Strings? then Strings(values + r.values) else r
  }

  /** After one element of an array: the array's outcome, or the element of one that goes on. */
  datatype Progress = Finished(outcome: Outcome) | Continues(value: Source)

  class Reader {
    const text: Source
    var i: nat

    constructor (text: Source)
      ensures this.text == text && i == 0
    {
      this.text, i := text, 0;
    }

    ghost predicate Valid()
      reads this
    {
      i <= |text|
    }

    ghost function Left(): Source
      requires Valid()
      reads this
    {
      text[i..]
    }

    method SkipComment()
      requires Valid()
      modifies this
      ensures Valid() && Skip(Left(), false) == Skip(old(Left()), true)
      ensures old(i) <= i && (Left() == [] || Left()[0] == LF)
    {
      while i < |text| && text[i] != LF
        invariant Valid() && old(i) <= i && Skip(Left(), true) == Skip(old(Left()), true)
      {
        assert text[i..][1..] == text[i + 1..];
        i := i + 1;
      }
      if i < |text| { assert White(Left()[0]); }
    }

    method Space()
      requires Valid()
      modifies this
      ensures Valid() && Left() == Skip(old(Left()), false)
    {
      while i < |text| && (White(text[i]) || text[i] == HASH)
        invariant Valid() && Skip(Left(), false) == Skip(old(Left()), false)
        decreases |text| - i
      {
        assert text[i..][1..] == text[i + 1..];
        if White(text[i]) {
          i := i + 1;
        } else {
          i := i + 1;
          SkipComment();
        }
      }
    }

    /** After a backslash: the units of one escape. */
    method Escape() returns (r: Result<Source, Reason>)
      requires Valid()
      modifies this
      ensures Valid() && old(i) <= i
      ensures match ReadEscape(old(Left()))
              case Ok((units, rest)) => r == Ok(units) && Left() == rest
              case Err(reason) => r == Err(reason)
    {
      if i == |text| { return Err(UnsupportedEscape); }
      ghost var t := Left();
      var escape := text[i];
      assert t[0] == escape && t[1..] == text[i + 1..];
      i := i + 1;
      if ShortEscape(escape).Some? { return Ok([ShortEscape(escape).value]); }
      var length := EscapeLength(escape);
      if length == 0 || i + length > |text| { return Err(UnsupportedEscape); }
      var digits := text[i..i + length];
      assert digits == t[1..1 + length] && t[1 + length..] == text[i + length..];
      if !AllHex(digits) { return Err(UnsupportedEscape); }
      var code := HexValue(digits);
      if code > 0x10FFFF { return Err(InvalidEscape); }
      i := i + length;
      return Ok(FromCodePoint(code));
    }

    /** One unit of a string's content, or one escape of a basic string. */
    method Piece(delimiter: Unit) returns (r: Result<Source, Reason>)
      requires Valid() && Quoting(delimiter) && i < |text| && text[i] != delimiter && text[i] != LF && text[i] != CR
      modifies this
      ensures Valid() && old(i) < i
      ensures match r
              case Ok(piece) => ReadString(old(Left()), delimiter) == Prepend(piece, ReadString(Left(), delimiter))
              case Err(reason) => ReadString(old(Left()), delimiter) == Err(reason)
    {
      ghost var t := Left();
      var c := text[i];
      assert t[0] == c && t[1..] == text[i + 1..];
      i := i + 1;
      if c != BACKSLASH || delimiter == APOSTROPHE { return Ok([c]); }
      r := Escape();
    }

    /** After the opening delimiter: the string's value, leaving the index past its closing delimiter. */
    method StringBody(delimiter: Unit) returns (r: Result<Source, Reason>)
      requires Valid() && Quoting(delimiter)
      modifies this
      ensures Valid() && old(i) <= i
      ensures match ReadString(old(Left()), delimiter)
              case Ok((value, rest)) => r == Ok(value) && Left() == rest
              case Err(reason) => r == Err(reason)
    {
      ghost var start := Left();
      var value: Source := [];
      var closed := false;
      Nothing(ReadString(start, delimiter));
      while i < |text|
        invariant Valid() && old(i) <= i
        invariant ReadString(start, delimiter) == Prepend(value, ReadString(Left(), delimiter))
      {
        var c := text[i];
        if c == delimiter {
          assert Left()[1..] == text[i + 1..] && value + [] == value;
          i := i + 1;
          closed := true;
          break;
        }
        if c == LF || c == CR { break; }
        var piece := Piece(delimiter);
        if piece.Err? { return Err(piece.error); }
        Together(value, piece.value, ReadString(Left(), delimiter));
        value := value + piece.value;
      }
      if !closed { return Err(Unclosed); }
      return Ok(value);
    }

    /** One string at the index, and the space after it. */
    method Value() returns (r: Result<Source, Reason>)
      requires Valid()
      modifies this
      ensures Valid() && old(i) <= i
      ensures match ReadValue(old(Left()))
              case Ok((value, rest)) => r == Ok(value) && Left() == rest
              case Err(reason) => r == Err(reason)
    {
      ghost var s := Left();
      if i == |text| || !Quoting(text[i]) { return Err(NonString); }
      assert s[0] == text[i] && s[1..] == text[i + 1..];
      var delimiter := text[i];
      i := i + 1;
      if i + 1 < |text| && text[i] == delimiter && text[i + 1] == delimiter { return Err(MultilineString); }
      r := StringBody(delimiter);
      if r.Ok? { Space(); }
    }

    /** One element and the comma after it, or the end of the array. */
    method Element() returns (r: Progress)
      requires Valid()
      modifies this
      ensures Valid()
      ensures match r
              case Finished(outcome) => ReadElements(old(Left())) == outcome
              case Continues(value) => old(i) < i && ReadElements(old(Left())) == After([value], ReadElements(Left()))
    {
      Space();
      if i < |text| && text[i] == RIGHT_SQUARE { return Finished(Strings([])); }
      var value := Value();
      if value.Err? { return Finished(Refused(value.error)); }
      if i < |text| && text[i] == RIGHT_SQUARE { return Finished(Strings([value.value])); }
      if i == |text| || text[i] != COMMA { return Finished(Refused(Malformed)); }
      assert Left()[1..] == text[i + 1..];
      i := i + 1;
      r := Continues(value.value);
    }

    /** After the opening bracket. */
    method Elements() returns (r: Outcome)
      requires Valid()
      modifies this
      ensures Valid() && r == ReadElements(old(Left()))
    {
      ghost var start := Left();
      var values: seq<Source> := [];
      while true
        invariant Valid() && ReadElements(start) == After(values, ReadElements(Left()))
        decreases |text| - i
      {
        var next := Element();
        match next
        case Finished(outcome) => return After(values, outcome);
        case Continues(value) =>
          Appended(values, value, ReadElements(Left()));
          values := values + [value];
      }
    }

    /** One bare key and its equals sign. */
    method KeyName() returns (name: Option<Source>)
      requires Valid()
      modifies this
      ensures Valid()
      ensures match ReadKey(old(Left()))
              case Some((key, rest)) => name == Some(key) && Left() == rest && old(i) < i
              case None => name == None
    {
      match ReadKey(text[i..])
      case None => return None;
      case Some((key, rest)) =>
        KeyLeaves(text, i);
        i := |text| - |rest|;
        return Some(key);
    }

    /** The value of another root key, to the end of its line. */
    method StepOver() returns (ok: bool)
      requires Valid()
      modifies this
      ensures Valid() && old(i) <= i
      ensures ok <==> Scan(old(Left())[..Span(old(Left()), NotLineFeed)], None, false, [])
      ensures ok ==> Left() == AfterLine(old(Left()))
    {
      ghost var rest := Left();
      var end := Span(text[i..], NotLineFeed);
      var line := text[i..i + end];
      assert line == rest[..end];
      ok := Balanced(line);
      if ok {
        if i + end < |text| { assert rest[end + 1..] == text[i + end + 1..]; }
        i := if i + end == |text| then |text| else i + end + 1;
      }
    }

    /** The notify array, after its key. */
    method NotifyArray() returns (r: Outcome)
      requires Valid()
      modifies this
      ensures Valid() && r == ReadArray(old(Left()))
    {
      Space();
      if i == |text| || text[i] != LEFT_SQUARE { return Refused(NotAnArray); }
      assert Left()[1..] == text[i + 1..];
      i := i + 1;
      r := Elements();
    }

    /** Null is Absent; a thrown CLI_CONFIG error is a refusal. */
    method RootNotify() returns (r: Outcome)
      requires i == 0
      modifies this
      ensures r == ReadRoot(text)
    {
      assert text[0..] == text;
      while true
        invariant Valid() && ReadRoot(text) == ReadRoot(Left())
        decreases |text| - i
      {
        ghost var t, s := Left(), Skip(Left(), false);
        Space();
        if i == |text| || text[i] == LEFT_SQUARE { return Absent; }
        var key := KeyName();
        if key.None? { return Refused(TopLevelSyntax); }
        RootStep(t, key.value, Left());
        if key.value == NOTIFY { break; }
        var ok := StepOver();
        if !ok { return Refused(MultilineRoot); }
      }
      r := NotifyArray();
    }
  }

  lemma Nothing(r: Result<(Source, Source), Reason>)
    ensures Prepend([], r) == r
  {
    if r.Ok? {
      assert [] + r.value.0 == r.value.0;
    }
  }

  lemma Together(value: Source, units: Source, r: Result<(Source, Source), Reason>)
    ensures Prepend(value, Prepend(units, r)) == Prepend(value + units, r)
  {
    if r.Ok? {
      assert value + (units + r.value.0) == value + units + r.value.0;
    }
  }

  lemma Appended(values: seq<Source>, value: Source, r: Outcome)
    ensures After(values + [value], r) == After(values, After([value], r))
  {
    if r.Strings? {
      assert values + ([value] + r.values) == values + [value] + r.values;
    }
  }

  /** What follows a key is a suffix of the whole text. */
  lemma KeyLeaves(text: Source, i: nat)
    requires i <= |text| && ReadKey(text[i..]).Some?
    ensures var rest := ReadKey(text[i..]).value.1; |rest| < |text| - i && rest == text[|text| - |rest|..]
  {
    var t := text[i..];
    var n := Span(t, KeyUnit);
    var m := Span(t[n..], BlankUnit);
    var k := Span(t[n..][m..][1..], BlankUnit);
    SuffixAfterMark(t, n, m, k);
    SuffixOfSuffix(text, i, n + m + 1 + k);
  }

  lemma SuffixAfterMark(t: Source, n: nat, m: nat, k: nat)
    requires n + m + 1 + k <= |t|
    ensures t[n..][m..][1..][k..] == t[n + m + 1 + k..]
  {
    SuffixOfSuffix(t, n, m);
    SuffixOfSuffix(t, n + m, 1);
    SuffixOfSuffix(t, n + m + 1, k);
  }

  lemma SuffixOfSuffix(t: Source, a: nat, b: nat)
    requires a + b <= |t|
    ensures t[a..][b..] == t[a + b..]
  {
  }
}
