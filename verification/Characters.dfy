/** Characters as Unicode scalar values: the whitespace of ECMAScript's `\s` and `trim`, and encoded lengths. */
module Characters {
  predicate IsSpace(c: char) {
    '\t' <= c <= '\r' || c == ' ' || c == '\U{00A0}' || c == '\U{1680}' || '\U{2000}' <= c <= '\U{200A}'
    || c == '\U{2028}' || c == '\U{2029}' || c == '\U{202F}' || c == '\U{205F}' || c == '\U{3000}' || c == '\U{FEFF}'
  }

  predicate Blank(s: string) {
    forall i | 0 <= i < |s| :: IsSpace(s[i])
  }

  /** Length in UTF-16 code units, the `length` of a JavaScript string. */
  function Units(s: string): nat {
    if s == [] then 0 else (if s[0] as int < 0x10000 then 1 else 2) + Units(s[1..])
  }

  /** Length in UTF-8 bytes (section 3 of RFC 3629). */
  function Utf8Length(s: string): nat {
    if s == [] then 0 else
      (if s[0] as int < 0x80 then 1 else if s[0] as int < 0x800 then 2 else if s[0] as int < 0x10000 then 3 else 4) + Utf8Length(s[1..])
  }
}
