/** JavaScript strings as sequences of UTF-16 code units, with the units that scanners test for. */
module CodeUnits {
  type Unit = u: int | 0 <= u < 0x10000
  type Source = seq<Unit>

  const TAB: Unit := 9
  const LF: Unit := 10
  const CR: Unit := 13
  const SPACE: Unit := 32
  const QUOTE: Unit := 34
  const HASH: Unit := 35
  const APOSTROPHE: Unit := 39
  const COMMA: Unit := 44
  const EQUALS: Unit := 61
  const LEFT_SQUARE: Unit := 91
  const BACKSLASH: Unit := 92
  const RIGHT_SQUARE: Unit := 93
  const LEFT_CURLY: Unit := 123
  const RIGHT_CURLY: Unit := 125

  /** The class `\s`. */
  predicate White(u: Unit) {
    9 <= u <= 13 || u == 32 || u == 0xA0 || u == 0x1680 || 0x2000 <= u <= 0x200A || u == 0x2028 || u == 0x2029
    || u == 0x202F || u == 0x205F || u == 0x3000 || u == 0xFEFF
  }

  /** `String.fromCodePoint`, surrogate code points included. */
  function FromCodePoint(code: nat): (units: Source)
    requires code <= 0x10FFFF
    ensures code < 0x10000 ==> units == [code]
    ensures code >= 0x10000 ==> |units| == 2 && 0xD800 <= units[0] < 0xDC00 <= units[1] < 0xE000
    ensures code >= 0x10000 ==> code == 0x10000 + (units[0] as int - 0xD800) * 0x400 + (units[1] as int - 0xDC00)
  {
    if code < 0x10000 then [code] else
      var high, low := (code - 0x10000) / 0x400, (code - 0x10000) % 0x400;
      assert 0 <= high < 0x400 && 0 <= low < 0x400 && code == 0x10000 + high * 0x400 + low;
      [0xD800 + high, 0xDC00 + low]
  }
}
