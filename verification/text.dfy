/** Decimal rendering and parsing of integers and Rust's `Debug` quoting of strings: the
    conversions the library borrows from the Rust standard library (`i64::to_string`,
    `str::parse::<i64>`, `{:?}`). */
module Text {

  /** The range of Rust's `i64`. */
  const I64Min: int := -0x8000_0000_0000_0000
  const I64Max: int := 0x7FFF_FFFF_FFFF_FFFF

  predicate IsDigit(c: char) {
    '0' <= c <= '9'
  }

  predicate AllDigits(s: string) {
    forall i :: 0 <= i < |s| ==> IsDigit(s[i])
  }

  function DigitOf(d: nat): (c: char)
    requires d < 10
    ensures IsDigit(c) && c as int - '0' as int == d
  {
    ['0', '1', '2', '3', '4', '5', '6', '7', '8', '9'][d]
  }

  /** The value of a run of decimal digits, most significant first. */
  function DigitsValue(s: string): nat
    requires AllDigits(s)
  {
    if s == [] then 0 else 10 * DigitsValue(s[..|s| - 1]) + (s[|s| - 1] as int - '0' as int)
  }

  /** `n.to_string()` for an unsigned integer: shortest decimal rendering, no sign. */
  function NatToDecimal(n: nat): (s: string)
    ensures |s| > 0 && AllDigits(s)
    ensures DigitsValue(s) == n
    ensures |s| > 1 ==> s[0] != '0'
  {
    if n < 10 then [DigitOf(n)]
    else
      var prefix := NatToDecimal(n / 10);
      var s := prefix + [DigitOf(n % 10)];
      assert s[..|s| - 1] == prefix;
      s
  }

  /** `i.to_string()` for a signed integer. */
  function IntToDecimal(i: int): (s: string)
    ensures |s| > 0
    ensures i < 0 <==> s[0] == '-'
  {
    if i < 0 then "-" + NatToDecimal(-i) else NatToDecimal(i)
  }

  /** Parsing a rendering back recovers the integer (the round trip of `to_string` and
      `parse`). */
  lemma IntToDecimalRoundTrip(i: int)
    ensures var s := IntToDecimal(i);
      if s[0] == '-' then AllDigits(s[1..]) && i == -(DigitsValue(s[1..]) as int)
      else AllDigits(s) && DigitsValue(s) == i
  {
    if i < 0 {
      assert IntToDecimal(i)[1..] == NatToDecimal(-i);
    }
  }

  /** Rendering is injective, so looking an object key up by `i.to_string()` can only ever
      meet one integer. */
  lemma IntToDecimalInjective(i: int, j: int)
    requires IntToDecimal(i) == IntToDecimal(j)
    ensures i == j
  {
    IntToDecimalRoundTrip(i);
    IntToDecimalRoundTrip(j);
  }

  predicate IsHexDigit(c: char) {
    '0' <= c <= '9' || 'a' <= c <= 'f'
  }

  predicate AllHex(s: string) {
    forall i :: 0 <= i < |s| ==> IsHexDigit(s[i])
  }

  function HexDigitValue(c: char): (d: nat)
    requires IsHexDigit(c)
    ensures d < 16
  {
    if c <= '9' then c as int - '0' as int else c as int - 'a' as int + 10
  }

  function HexDigit(d: nat): (c: char)
    requires d < 16
    ensures IsHexDigit(c) && HexDigitValue(c) == d
  {
    ['0', '1', '2', '3', '4', '5', '6', '7', '8', '9', 'a', 'b', 'c', 'd', 'e', 'f'][d]
  }

  /** The value of a run of lower-case hexadecimal digits, most significant first. */
  function HexValue(s: string): nat
    requires AllHex(s)
  {
    if s == [] then 0 else 16 * HexValue(s[..|s| - 1]) + HexDigitValue(s[|s| - 1])
  }

  /** `{:x}` of an unsigned integer: shortest lower-case hexadecimal rendering. */
  function NatToHex(n: nat): (s: string)
    ensures |s| > 0 && AllHex(s)
    ensures HexValue(s) == n
    ensures |s| > 1 ==> s[0] != '0'
  {
    if n < 16 then [HexDigit(n)]
    else
      var prefix := NatToHex(n / 16);
      var s := prefix + [HexDigit(n % 16)];
      assert s[..|s| - 1] == prefix;
      s
  }

  /** The length of the run of hexadecimal digits that `s` starts with. */
  function HexRun(s: string): (n: nat)
    ensures n <= |s| && (forall i :: 0 <= i < n ==> IsHexDigit(s[i]))
    ensures n < |s| ==> !IsHexDigit(s[n])
  {
    if s == [] || !IsHexDigit(s[0]) then 0 else 1 + HexRun(s[1..])
  }

  /** A run of hexadecimal digits ends at the first character that is not one. */
  lemma {:induction false} HexRunStops(h: string, t: string)
    requires AllHex(h) && t != [] && !IsHexDigit(t[0])
    ensures HexRun(h + t) == |h|
  {
    if h != [] {
      assert (h + t)[1..] == h[1..] + t;
      HexRunStops(h[1..], t);
    }
  }

  /** The characters `{:?}` gives a two-character escape: backslash, double quote, line feed,
      carriage return, tab and NUL. */
  predicate HasShortEscape(c: char) {
    c == '\\' || c == '"' || c == '\n' || c == '\r' || c == '\t' || c == '\0'
  }

  /** The letter that follows the backslash in a two-character escape. */
  function ShortLetter(c: char): (d: char)
    requires HasShortEscape(c)
    ensures d != 'u' && LetterChar(d) == c
  {
    match c
    case '\n' => 'n'
    case '\r' => 'r'
    case '\t' => 't'
    case '\0' => '0'
    case _ => c
  }

  /** The character a backslash followed by `d` stands for, when `d` is not `u`. */
  function LetterChar(d: char): char
  {
    match d
    case 'n' => '\n'
    case 'r' => '\r'
    case 't' => '\t'
    case '0' => '\0'
    case _ => d
  }

  /** The characters `{:?}` prints as `\\u{…}`: the control characters without a short escape
      (U+0001 to U+001F other than tab, line feed and carriage return, and U+007F to U+009F). */
  predicate UnicodeEscaped(c: char) {
    (c as int < 0x20 && !HasShortEscape(c)) || 0x7F <= c as int <= 0x9F
  }

  /** The escape sequence `{:?}` prints for one character of a string. */
  function EscapeChar(c: char): (r: string)
    ensures |r| >= 1
    ensures |r| == 1 <==> !HasShortEscape(c) && !UnicodeEscaped(c)
    ensures |r| == 1 ==> r[0] == c
    ensures HasShortEscape(c) ==> |r| == 2 && r[0] == '\\' && r[1] != 'u' && LetterChar(r[1]) == c
    ensures UnicodeEscaped(c) ==>
      |r| >= 5 && r[..3] == "\\u{" && r[|r| - 1] == '}' && AllHex(r[3..|r| - 1])
      && HexValue(r[3..|r| - 1]) == c as int
  {
    if HasShortEscape(c) then ['\\', ShortLetter(c)]
    else if UnicodeEscaped(c) then
      var h := NatToHex(c as int);
      var r := "\\u{" + h + "}";
      assert r[3..|r| - 1] == h;
      r
    else [c]
  }

  function EscapeChars(s: string): string
  {
    if s == [] then [] else EscapeChar(s[0]) + EscapeChars(s[1..])
  }

  /** `format!("{:?}", s)` for a string: quoted, with the escapes above. */
  function DebugString(s: string): (r: string)
    ensures |r| >= 2 && r[0] == '"' && r[|r| - 1] == '"'
  {
    "\"" + EscapeChars(s) + "\""
  }

  /** The length of the `{hex}` that follows `\\u` at the start of `t`: non-empty lower-case
      hexadecimal digits of a code point below the surrogates, closed by `}`; 0 when `t` does
      not start with one. */
  function UnicodeEscapeLength(t: string): (n: nat)
    ensures n == 0 || (3 <= n <= |t| && t[0] == '{' && t[n - 1] == '}')
  {
    if t == [] || t[0] != '{' then 0
    else
      var h := HexRun(t[1..]);
      if 0 < h && 1 + h < |t| && t[1 + h] == '}' && HexValue(t[1..1 + h]) < 0xD800 then 2 + h else 0
  }

  /** The character a `{hex}` escape stands for. */
  function UnicodeEscapeValue(t: string): char
    requires UnicodeEscapeLength(t) > 0
  {
    var h := HexRun(t[1..]);
    HexValue(t[1..1 + h]) as char
  }

  /** Reads back the body of a `{:?}`-quoted string: the inverse of `EscapeChars`. */
  function UnescapeChars(s: string): string
  {
    if s == [] then []
    else if s[0] == '\\' && |s| >= 2 then
      if s[1] == 'u' && UnicodeEscapeLength(s[2..]) > 0 then
        [UnicodeEscapeValue(s[2..])] + UnescapeChars(s[2 + UnicodeEscapeLength(s[2..])..])
      else
        [LetterChar(s[1])] + UnescapeChars(s[2..])
    else [s[0]] + UnescapeChars(s[1..])
  }

  /** The `{hex}` part of a `\\u{…}` escape reads back to its character, whatever follows it. */
  lemma ReadUnicodeEscape(c: char, rest: string)
    requires UnicodeEscaped(c)
    ensures var e := EscapeChar(c);
      UnicodeEscapeLength(e[2..] + rest) == |e| - 2 && UnicodeEscapeValue(e[2..] + rest) == c
  {
    var e := EscapeChar(c);
    var h := e[3..|e| - 1];
    var t := e[2..] + rest;
    assert t[0] == '{';
    assert t[1..] == h + ("}" + rest);
    HexRunStops(h, "}" + rest);
    assert t[1..1 + |h|] == h;
  }

  /** Reading back a `\\u{…}` escape followed by more text. */
  lemma UnescapeUnicode(c: char, rest: string)
    requires UnicodeEscaped(c)
    ensures UnescapeChars(EscapeChar(c) + rest) == [c] + UnescapeChars(rest)
  {
    var e := EscapeChar(c);
    var s := e + rest;
    ReadUnicodeEscape(c, rest);
    assert s[2..] == e[2..] + rest;
    assert s[2 + (|e| - 2)..] == rest;
  }

  /** Reading back a two-character escape followed by more text. */
  lemma UnescapeShort(c: char, rest: string)
    requires HasShortEscape(c)
    ensures UnescapeChars(EscapeChar(c) + rest) == [c] + UnescapeChars(rest)
  {
    var s := EscapeChar(c) + rest;
    assert s[2..] == rest;
  }

  /** Reading back one escape sequence followed by more text. */
  lemma UnescapeOne(c: char, rest: string)
    ensures UnescapeChars(EscapeChar(c) + rest) == [c] + UnescapeChars(rest)
  {
    if UnicodeEscaped(c) {
      UnescapeUnicode(c, rest);
    } else if HasShortEscape(c) {
      UnescapeShort(c, rest);
    } else {
      assert (EscapeChar(c) + rest)[1..] == rest;
    }
  }

  lemma {:induction false} EscapeRoundTrip(s: string)
    ensures UnescapeChars(EscapeChars(s)) == s
  {
    if s != [] {
      UnescapeOne(s[0], EscapeChars(s[1..]));
      EscapeRoundTrip(s[1..]);
    }
  }

  /** The `Debug` rendering of a string never collides with another string's. */
  lemma DebugStringInjective(s: string, t: string)
    requires DebugString(s) == DebugString(t)
    ensures s == t
  {
    var ds, dt := DebugString(s), DebugString(t);
    assert ds[1..|ds| - 1] == EscapeChars(s);
    assert dt[1..|dt| - 1] == EscapeChars(t);
    EscapeRoundTrip(s);
    EscapeRoundTrip(t);
  }
}
