/** The strings the notify reader accepts against those of TOML v1.0.0 (section "String"): it reads every one-line TOML
    string, and besides these exactly the bodies with a raw control character or an escaped surrogate. */
module NotifyToml {
  import opened Options
  import opened CodeUnits
  import opened NotifyGrammar
  import opened NotifyLanguage
  import opened NotifyRoundTrip

  /** Tab, and whatever is not a control character. A decoded file has no lone surrogate. */
  predicate TomlUnit(u: Unit) {
    u == TAB || 0x20 <= u <= 0x7E || u >= 0x80
  }

  predicate Scalar(code: nat) {
    code < 0xD800 || 0xE000 <= code <= 0x10FFFF
  }

  /** The short escapes: backspace, tab, line feed, form feed, carriage return, the quote and the backslash. */
  const TomlEscapes: map<Unit, Unit> := map[98 := 8, 116 := 9, 110 := 10, 102 := 12, 114 := 13, 34 := 34, 92 := 92]

  /** The text between the quotes of a basic string: characters, short escapes, and codes of Unicode scalar values. */
  predicate TomlBasic(body: Source)
    decreases |body|
  {
    if body == [] then true
    else if body[0] != BACKSLASH then body[0] != QUOTE && TomlUnit(body[0]) && TomlBasic(body[1..])
    else if |body| < 2 then false
    else if body[1] in TomlEscapes then TomlBasic(body[2..])
    else
      var n := if body[1] == 117 then 4 else if body[1] == 85 then 8 else 0;
      n > 0 && TomlCode(body[2..], n) && TomlBasic(body[2 + n..])
  }

  /** The value TOML gives such a body. */
  function TomlValue(body: Source): Source
    requires TomlBasic(body)
    decreases |body|
  {
    if body == [] then []
    else if body[0] != BACKSLASH then [body[0]] + TomlValue(body[1..])
    else if body[1] in TomlEscapes then [TomlEscapes[body[1]]] + TomlValue(body[2..])
    else
      var n := if body[1] == 117 then 4 else 8;
      FromCodePoint(HexValue(body[2..][..n])) + TomlValue(body[2 + n..])
  }

  /** Hexadecimal digits in either case, each with its value. */
  lemma HexDigitsAreStandard(u: Unit, v: nat)
    ensures HexDigit(u) == Some(v) <==>
            v < 16 && (u == "0123456789abcdef"[v] as int || u == "0123456789ABCDEF"[v] as int)
  {
    assert "0123456789abcdef" == ['0', '1', '2', '3', '4', '5', '6', '7', '8', '9', 'a', 'b', 'c', 'd', 'e', 'f'];
    assert "0123456789ABCDEF" == ['0', '1', '2', '3', '4', '5', '6', '7', '8', '9', 'A', 'B', 'C', 'D', 'E', 'F'];
  }

  predicate TomlCode(t: Source, n: nat) {
    |t| >= n && AllHex(t[..n]) && Scalar(HexValue(t[..n]))
  }

  predicate TomlLiteral(body: Source) {
    forall i | 0 <= i < |body| :: TomlUnit(body[i]) && body[i] != APOSTROPHE
  }

  /** What TOML allows of an atom the reader accepts: no raw control character, no escaped surrogate. */
  predicate TomlAtom(a: Atom) {
    match a
    case Plain(u) => (u >= 0x20 && u != 0x7F) || u == TAB
    case Short(_) => true
    case Code(digits) => AllHex(digits) && !(0xD800 <= HexValue(digits) < 0xE000)
  }

  predicate AtomsOk(atoms: seq<Atom>) {
    forall i | 0 <= i < |atoms| :: AtomOk(atoms[i])
  }

  predicate TomlAtoms(atoms: seq<Atom>) {
    forall i | 0 <= i < |atoms| :: TomlAtom(atoms[i])
  }

  lemma {:induction false} TextThen(atoms: seq<Atom>, rest: Source)
    ensures AtomsText(atoms, rest) == AtomsText(atoms, []) + rest
  {
    if atoms != [] {
      TextThen(atoms[1..], rest);
      AtomThen(atoms[0], AtomsText(atoms[1..], []), rest);
    }
  }

  lemma AtomThen(a: Atom, more: Source, rest: Source)
    ensures AtomText(a, more + rest) == AtomText(a, more) + rest
  {
  }

  /** One atom at the head of a body is what TOML allows, or spoils it. */
  lemma AtomDecides(a: Atom, more: Source)
    requires AtomOk(a)
    ensures TomlBasic(AtomText(a, more)) <==> TomlAtom(a) && TomlBasic(more)
  {
    var t := AtomText(a, more);
    match a
    case Plain(u) => assert t[1..] == more;
    case Short(letter) => assert t[1] == letter && t[2..] == more;
    case Code(digits) =>
      assert t[1] == EscapeLetter(|digits|) && t[2..] == digits + more;
      assert t[2..][..|digits|] == digits && t[2 + |digits|..] == more;
  }

  lemma {:induction false} AtomsDecide(atoms: seq<Atom>)
    requires AtomsOk(atoms)
    ensures TomlBasic(AtomsText(atoms, [])) <==> TomlAtoms(atoms)
  {
    if atoms != [] {
      AtomsDecide(atoms[1..]);
      AtomDecides(atoms[0], AtomsText(atoms[1..], []));
    }
  }

  lemma CodeMeans(digits: Source, more: Source)
    requires AtomOk(Code(digits)) && TomlAtom(Code(digits)) && TomlBasic(more)
    ensures var t := AtomText(Code(digits), more);
            TomlBasic(t) && TomlValue(t) == FromCodePoint(HexValue(digits)) + TomlValue(more)
  {
    AtomDecides(Code(digits), more);
    var t := AtomText(Code(digits), more);
    assert t[1] == EscapeLetter(|digits|) && t[2..] == digits + more;
    assert t[2..][..|digits|] == digits && t[2 + |digits|..] == more;
  }

  lemma AtomMeans(a: Atom, more: Source)
    requires AtomOk(a) && TomlAtom(a) && TomlBasic(more)
    ensures TomlBasic(AtomText(a, more)) && TomlValue(AtomText(a, more)) == AtomValue(a) + TomlValue(more)
  {
    AtomDecides(a, more);
    var t := AtomText(a, more);
    match a
    case Plain(u) => assert t[1..] == more;
    case Short(letter) => assert t[1] == letter && t[2..] == more;
    case Code(digits) => CodeMeans(digits, more);
  }

  /** What the atoms of a TOML body stand for is the value TOML gives it. */
  lemma {:induction false} AtomsMean(atoms: seq<Atom>)
    requires AtomsOk(atoms) && TomlAtoms(atoms)
    ensures TomlBasic(AtomsText(atoms, [])) && TomlValue(AtomsText(atoms, [])) == AtomsValue(atoms)
  {
    if atoms != [] {
      AtomsMean(atoms[1..]);
      AtomMeans(atoms[0], AtomsText(atoms[1..], []));
    }
  }

  /** Whatever basic string is read, its body is TOML if and only if it has no raw control character and no escaped
      surrogate. */
  lemma BasicIsTomlExactly(t: Source, value: Source, rest: Source) returns (atoms: seq<Atom>, body: Source)
    requires ReadString(t, QUOTE) == Ok((value, rest))
    ensures AtomsOk(atoms) && body == AtomsText(atoms, []) && value == AtomsValue(atoms) && t == body + ([QUOTE] + rest)
    ensures TomlBasic(body) <==> TomlAtoms(atoms)
    ensures TomlBasic(body) ==> value == TomlValue(body)
  {
    atoms := AtomsOf(t, value, rest);
    body := AtomsText(atoms, []);
    TextThen(atoms, [QUOTE] + rest);
    AtomsDecide(atoms);
    if TomlAtoms(atoms) {
      AtomsMean(atoms);
    }
  }

  /** The same for a literal string, whose body is its value. */
  lemma LiteralIsTomlExactly(t: Source, value: Source, rest: Source)
    requires ReadString(t, APOSTROPHE) == Ok((value, rest))
    ensures t == value + ([APOSTROPHE] + rest)
    ensures TomlLiteral(value) <==> forall i | 0 <= i < |value| :: TomlAtom(Plain(value[i]))
  {
    VerbatimOf(t, value, rest);
  }

  /** The atoms of a TOML body. */
  lemma {:induction false} TomlAtomsOf(body: Source) returns (atoms: seq<Atom>)
    requires TomlBasic(body)
    ensures AtomsOk(atoms) && AtomsText(atoms, []) == body
    decreases |body|
  {
    if body == [] { return []; }
    var a, rest := HeadAtom(body);
    var more := TomlAtomsOf(rest);
    atoms := [a] + more;
    assert atoms[1..] == more;
  }

  lemma HeadAtom(body: Source) returns (a: Atom, rest: Source)
    requires TomlBasic(body) && body != []
    ensures AtomOk(a) && body == AtomText(a, rest) && TomlBasic(rest) && |rest| < |body|
  {
    if body[0] != BACKSLASH {
      a, rest := Plain(body[0]), body[1..];
    } else if ShortEscape(body[1]).Some? {
      a, rest := Short(body[1]), body[2..];
    } else {
      var n := EscapeLength(body[1]);
      a, rest := HeadCode(body, n);
    }
  }

  lemma HeadCode(body: Source, n: nat) returns (a: Atom, rest: Source)
    requires (n == 4 || n == 8) && |body| >= 2 && body[0] == BACKSLASH && body[1] == EscapeLetter(n)
    requires TomlCode(body[2..], n) && TomlBasic(body[2 + n..])
    ensures AtomOk(a) && body == AtomText(a, rest) && TomlBasic(rest) && |rest| < |body|
  {
    a, rest := Code(body[2..][..n]), body[2 + n..];
    assert body[2..] == body[2..][..n] + rest;
    assert body == [body[0]] + ([body[1]] + body[2..]);
  }

  /** Every one-line TOML string is read, up to its closing delimiter, as the value TOML gives it. */
  lemma TomlStringsAreRead(body: Source, rest: Source)
    ensures TomlBasic(body) ==> ReadString(body + ([QUOTE] + rest), QUOTE) == Ok((TomlValue(body), rest))
    ensures TomlLiteral(body) ==> ReadString(body + ([APOSTROPHE] + rest), APOSTROPHE) == Ok((body, rest))
  {
    if TomlBasic(body) {
      var atoms := TomlAtomsOf(body);
      ReadAtoms(atoms, rest);
      TextThen(atoms, [QUOTE] + rest);
      AtomsDecide(atoms);
      AtomsMean(atoms);
    }
    if TomlLiteral(body) {
      ReadVerbatim(body, rest);
    }
  }

  // ---- The reader does accept more ----

  const SurrogateEscape: Source := [BACKSLASH, 117, 68, 56, 48, 48]

  /** `\uD800` is read as a lone surrogate, and a raw NUL as itself; TOML forbids both. */
  lemma ForbiddenStringsAreRead(rest: Source)
    ensures ReadString(SurrogateEscape + ([QUOTE] + rest), QUOTE) == Ok(([0xD800], rest)) && !TomlBasic(SurrogateEscape)
    ensures ReadString([0] + ([QUOTE] + rest), QUOTE) == Ok(([0], rest)) && !TomlBasic([0])
  {
    var digits: Source := [] + [68] + [56] + [48] + [48];
    OneMoreDigit([], 68);
    OneMoreDigit([] + [68], 56);
    OneMoreDigit([] + [68] + [56], 48);
    OneMoreDigit([] + [68] + [56] + [48], 48);
    ForbiddenAtom(Code(digits), [0xD800], rest);
    ForbiddenAtom(Plain(0), [0], rest);
    assert AtomText(Code(digits), []) == SurrogateEscape;
    assert AtomText(Plain(0), []) == [0];
  }

  lemma OneMoreDigit(digits: Source, u: Unit)
    requires AllHex(digits) && HexDigit(u).Some?
    ensures AllHex(digits + [u]) && HexValue(digits + [u]) == HexValue(digits) * 16 + HexDigit(u).value
  {
    assert (digits + [u])[..|digits|] == digits;
  }

  lemma ForbiddenAtom(a: Atom, value: Source, rest: Source)
    requires AtomOk(a) && !TomlAtom(a) && AtomValue(a) == value
    ensures ReadString(AtomText(a, []) + ([QUOTE] + rest), QUOTE) == Ok((value, rest)) && !TomlBasic(AtomText(a, []))
  {
    ReadAtoms([a], rest);
    TextThen([a], [QUOTE] + rest);
    AtomDecides(a, []);
    assert [a][1..] == [] && AtomsText([a], []) == AtomText(a, []);
    assert AtomsValue([a]) == value + [] == value;
  }

  // ---- Keys ----

  /** The characters of a key that is read are those of TOML's bare keys, and the key sought is `notify`. */
  lemma BareKeysAreToml(u: Unit)
    ensures KeyUnit(u) <==> 'A' as int <= u <= 'Z' as int || 'a' as int <= u <= 'z' as int || '0' as int <= u <= '9' as int
                            || u == '_' as int || u == '-' as int
    ensures |NOTIFY| == 6 && forall k :: 0 <= k < 6 ==> NOTIFY[k] == "notify"[k] as int
  {
  }
}
