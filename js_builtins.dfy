/** The JavaScript built-ins the share service leans on, written out as
    functions on strings: white space as `String.prototype.trim` and
    `parseInt` see it, ASCII lower-casing for the `.json` suffix test,
    `parseInt` with no radix, decimal rendering of a natural number, and the
    JSON value space with JavaScript truthiness. */
module JsBuiltins {
  import opened Wrappers

  // ---------------------------------------------------------------------------
  // White space and trimming

  /** WhiteSpace or LineTerminator in the sense of ECMAScript (sections 12.2
      and 12.3 of ECMA-262): the characters `trim` removes and `parseInt`
      skips. */
  predicate IsJsWhitespace(c: char) {
    || c == '\t' || c == '\n' || c == '\U{000B}' || c == '\U{000C}' || c == '\r'
    || c == ' ' || c == '\U{00A0}' || c == '\U{1680}'
    || ('\U{2000}' <= c <= '\U{200A}')
    || c == '\U{2028}' || c == '\U{2029}' || c == '\U{202F}' || c == '\U{205F}'
    || c == '\U{3000}' || c == '\U{FEFF}'
  }

  predicate IsBlank(s: string) {
    forall i :: 0 <= i < |s| ==> IsJsWhitespace(s[i])
  }

  /** Drops the leading white space: what remains is a suffix of `s` that is
      empty or starts with a non-blank character, and everything dropped is
      blank. */
  function TrimStart(s: string): (r: string)
    ensures |r| <= |s| && r == s[|s| - |r|..]
    ensures IsBlank(s[..|s| - |r|])
    ensures r != [] ==> !IsJsWhitespace(r[0])
  {
    if s != [] && IsJsWhitespace(s[0]) then
      var r := TrimStart(s[1..]);
      assert s[1..][|s| - 1 - |r|..] == s[|s| - |r|..];
      assert forall i :: 0 <= i < |s| - 1 - |r| ==> IsJsWhitespace(s[1..][i]);
      assert forall i :: 0 <= i < |s| - |r| ==> IsJsWhitespace(s[i]);
      r
    else s
  }

  /** Drops the trailing white space: what remains is a prefix of `s` that is
      empty or ends with a non-blank character, and everything dropped is
      blank. */
  function TrimEnd(s: string): (r: string)
    ensures |r| <= |s| && r == s[..|r|]
    ensures IsBlank(s[|r|..])
    ensures r != [] ==> !IsJsWhitespace(r[|r| - 1])
  {
    if s != [] && IsJsWhitespace(s[|s| - 1]) then TrimEnd(s[..|s| - 1]) else s
  }

  /** `String.prototype.trim`. */
  function Trim(s: string): string {
    TrimEnd(TrimStart(s))
  }

  /** `!s.trim()` holds exactly for the strings made only of white space. */
  lemma TrimEmptyIffBlank(s: string)
    ensures Trim(s) == [] <==> IsBlank(s)
  {
    var t := TrimStart(s);
    assert s == s[..|s| - |t|] + t;
    assert t != [] ==> t[0] == s[|s| - |t|];
    assert t != [] ==> TrimEnd(t) != [] by {
      assert t != [] ==> !IsBlank(t[0..]);
    }
  }

  // ---------------------------------------------------------------------------
  // String length

  /** A character outside the Basic Multilingual Plane, which UTF-16 stores
      as a surrogate pair. */
  predicate IsAstral(c: char) {
    c > '\U{FFFF}'
  }

  /** `s.length`: the number of UTF-16 code units, two for an astral
      character and one for any other. It is the number of characters
      exactly when none is astral. */
  function Utf16Length(s: string): (n: nat)
    ensures |s| <= n <= 2 * |s|
    ensures n == |s| <==> forall i :: 0 <= i < |s| ==> !IsAstral(s[i])
  {
    if s == [] then 0
    else
      var rest := Utf16Length(s[1..]);
      assert forall i :: 1 <= i < |s| ==> s[i] == s[1..][i - 1];
      (if IsAstral(s[0]) then 2 else 1) + rest
  }

  /** The length of a concatenation is the sum of the lengths. */
  lemma {:induction false} Utf16LengthAppend(a: string, b: string)
    ensures Utf16Length(a + b) == Utf16Length(a) + Utf16Length(b)
  {
    if a == [] {
      assert a + b == b;
    } else {
      assert (a + b)[1..] == a[1..] + b;
      Utf16LengthAppend(a[1..], b);
    }
  }

  // ---------------------------------------------------------------------------
  // Case folding and suffixes

  function LowerChar(c: char): char {
    if 'A' <= c <= 'Z' then (c as int + 32) as char else c
  }

  /** `toLowerCase`, restricted to the ASCII letters (see README). */
  function ToLowerAscii(s: string): (r: string)
    ensures |r| == |s|
  {
    seq(|s|, i requires 0 <= i < |s| => LowerChar(s[i]))
  }

  predicate EndsWith(s: string, suffix: string) {
    |suffix| <= |s| && s[|s| - |suffix|..] == suffix
  }

  /** `name.toLowerCase().endsWith('.json')`. */
  predicate HasJsonExtension(name: string) {
    EndsWith(ToLowerAscii(name), ".json")
  }

  lemma JsonExtensionAccepts()
    ensures HasJsonExtension("data.json") && HasJsonExtension("DATA.JSON")
  {
    assert ToLowerAscii("data.json") == "data.json";
    assert ToLowerAscii("DATA.JSON") == "data.json";
  }

  lemma JsonExtensionRejects()
    ensures !HasJsonExtension("data.txt") && !HasJsonExtension("json")
  {
    assert ToLowerAscii("data.txt")[3..] == "a.txt";
  }

  // ---------------------------------------------------------------------------
  // parseInt

  /** The value of `c` as a digit of radix up to 36, or 36 if it is none. */
  function DigitValue(c: char): (d: nat)
    ensures d <= 36
  {
    if '0' <= c <= '9' then c as int - '0' as int
    else if 'a' <= c <= 'z' then c as int - 'a' as int + 10
    else if 'A' <= c <= 'Z' then c as int - 'A' as int + 10
    else 36
  }

  predicate IsRadixDigit(c: char, radix: nat) {
    DigitValue(c) < radix
  }

  predicate IsDecimalDigit(c: char) {
    '0' <= c <= '9'
  }

  /** The longest prefix of `s` made of digits of `radix`. */
  function DigitPrefix(s: string, radix: nat): (r: string)
    ensures |r| <= |s| && r == s[..|r|]
    ensures forall i :: 0 <= i < |r| ==> IsRadixDigit(r[i], radix)
    ensures |r| < |s| ==> !IsRadixDigit(s[|r|], radix)
  {
    if s != [] && IsRadixDigit(s[0], radix) then [s[0]] + DigitPrefix(s[1..], radix) else []
  }

  /** The number that the digit string `ds` denotes in `radix`. */
  function DigitsValue(ds: string, radix: nat): nat
    decreases |ds|
  {
    if ds == [] then 0
    else DigitsValue(ds[..|ds| - 1], radix) * radix + DigitValue(ds[|ds| - 1]) % 36
  }

  /** `parseInt(s)` with no radix argument (section 19.2.5 of ECMA-262):
      skip leading white space, read an optional sign, switch to radix 16
      after a `0x`/`0X` prefix, then read the longest run of digits; `None`
      is `NaN`, which is what an empty run gives. */
  function ParseInt(s: string): Option<int> {
    ParseSigned(TrimStart(s))
  }

  function ParseSigned(t: string): Option<int> {
    if t != [] && t[0] == '-' then
      match ParseUnsigned(t[1..])
      case None => None
      case Some(m) => var v: int := m; Some(-v)
    else
      match ParseUnsigned(if t != [] && t[0] == '+' then t[1..] else t)
      case None => None
      case Some(m) => var v: int := m; Some(v)
  }

  predicate HasHexPrefix(u: string) {
    |u| >= 2 && u[0] == '0' && (u[1] == 'x' || u[1] == 'X')
  }

  function ParseUnsigned(u: string): Option<nat> {
    if HasHexPrefix(u) then ParseDigits(u[2..], 16) else ParseDigits(u, 10)
  }

  function ParseDigits(body: string, radix: nat): Option<nat> {
    var ds := DigitPrefix(body, radix);
    if ds == [] then None else Some(DigitsValue(ds, radix))
  }

  // ---------------------------------------------------------------------------
  // Decimal rendering (`String(n)` / template interpolation of a natural)

  function DecimalDigit(d: nat): (c: char)
    requires d < 10
    ensures IsDecimalDigit(c) && DigitValue(c) == d
  {
    ('0' as int + d) as char
  }

  function DecimalString(n: nat): (r: string)
    ensures r != []
    ensures forall i :: 0 <= i < |r| ==> IsDecimalDigit(r[i])
    ensures r[0] == '0' ==> n == 0
  {
    if n < 10 then [DecimalDigit(n)] else DecimalString(n / 10) + [DecimalDigit(n % 10)]
  }

  /** Reading back a rendered natural gives the natural. */
  lemma {:induction false} DecimalStringValue(n: nat)
    ensures DigitsValue(DecimalString(n), 10) == n
  {
    if n >= 10 {
      var s := DecimalString(n / 10);
      assert (s + [DecimalDigit(n % 10)])[..|s|] == s;
      DecimalStringValue(n / 10);
    }
  }

  /** The digit run of a digit string followed by a non-digit is that string. */
  lemma {:induction false} DigitPrefixOfDigits(ds: string, rest: string, radix: nat)
    requires forall i :: 0 <= i < |ds| ==> IsRadixDigit(ds[i], radix)
    requires rest == [] || !IsRadixDigit(rest[0], radix)
    ensures DigitPrefix(ds + rest, radix) == ds
  {
    if ds != [] {
      assert (ds + rest)[1..] == ds[1..] + rest;
      DigitPrefixOfDigits(ds[1..], rest, radix);
    } else {
      assert ds + rest == rest;
    }
  }

  /** A rendered natural followed by a tail that does not continue it reads
      back as that natural. */
  lemma {:induction false} ParseUnsignedOfRendered(n: nat, rest: string)
    requires rest == [] || !IsDecimalDigit(rest[0])
    requires n == 0 ==> rest == [] || (rest[0] != 'x' && rest[0] != 'X')
    ensures ParseUnsigned(DecimalString(n) + rest) == Some(n)
  {
    var ds := DecimalString(n);
    assert !HasHexPrefix(ds + rest) by {
      if |ds| >= 2 {
        assert (ds + rest)[0] == ds[0];
      } else if rest != [] {
        assert (ds + rest)[1] == rest[0];
      }
    }
    DigitPrefixOfDigits(ds, rest, 10);
    DecimalStringValue(n);
  }

  /** Reading a sign before a rendered natural applies the sign. */
  lemma {:induction false} ParseSignedOfRendered(sign: string, n: nat, rest: string)
    requires sign == "" || sign == "+" || sign == "-"
    requires rest == [] || !IsDecimalDigit(rest[0])
    requires n == 0 ==> rest == [] || (rest[0] != 'x' && rest[0] != 'X')
    ensures ParseSigned(sign + (DecimalString(n) + rest)) == Some(if sign == "-" then -(n as int) else n as int)
  {
    var u := DecimalString(n) + rest;
    ParseUnsignedOfRendered(n, rest);
    var t := sign + u;
    if sign == "" {
      assert t == u;
      assert u[0] == DecimalString(n)[0];
    } else {
      assert t[0] == sign[0];
      assert t[1..] == u;
    }
  }

  /** `parseInt` on blank space, an optional sign, a rendered natural and
      any tail that does not continue the number yields that natural with
      the sign applied: the prefix semantics the expiry field relies on. */
  lemma {:induction false} ParseIntOfRendered(blank: string, sign: string, n: nat, rest: string)
    requires IsBlank(blank)
    requires sign == "" || sign == "+" || sign == "-"
    requires rest == [] || !IsDecimalDigit(rest[0])
    requires n == 0 ==> rest == [] || (rest[0] != 'x' && rest[0] != 'X')
    ensures ParseInt(blank + sign + DecimalString(n) + rest) == Some(if sign == "-" then -(n as int) else n as int)
  {
    var u := DecimalString(n) + rest;
    var t := sign + u;
    assert blank + sign + DecimalString(n) + rest == blank + t;
    assert !IsJsWhitespace(t[0]) by {
      if sign == "" {
        assert t[0] == DecimalString(n)[0];
      } else {
        assert t[0] == sign[0];
      }
    }
    TrimStartSkipsBlank(blank, t);
    ParseSignedOfRendered(sign, n, rest);
  }

  lemma {:induction false} TrimStartSkipsBlank(blank: string, s: string)
    requires IsBlank(blank)
    requires s == [] || !IsJsWhitespace(s[0])
    ensures TrimStart(blank + s) == s
  {
    if blank == [] {
      assert blank + s == s;
    } else {
      assert (blank + s)[1..] == blank[1..] + s;
      TrimStartSkipsBlank(blank[1..], s);
    }
  }

  /** A string that starts with neither blank, sign nor digit is `NaN`. */
  lemma ParseIntWithoutDigits(s: string)
    requires s != [] ==> !IsDecimalDigit(s[0]) && !IsJsWhitespace(s[0]) && s[0] != '-' && s[0] != '+'
    ensures ParseInt(s) == None
  {
    assert TrimStart(s) == s;
    assert !HasHexPrefix(s);
    assert s != [] ==> !IsRadixDigit(s[0], 10);
  }

  /** A `0x` or `0X` prefix switches `parseInt` to hexadecimal: what follows
      is read as the longest run of hexadecimal digits, and there is a
      number exactly when it starts with one. */
  lemma ParseIntOfHexPrefix(x: char, rest: string)
    requires x == 'x' || x == 'X'
    ensures ParseInt(['0', x] + rest) == ParseDigits(rest, 16)
    ensures ParseInt(['0', x] + rest).Some? <==> rest != [] && IsRadixDigit(rest[0], 16)
  {
    var s := ['0', x] + rest;
    assert TrimStart(s) == s;
    assert HasHexPrefix(s) && s[2..] == rest;
  }

  // ---------------------------------------------------------------------------
  // JSON values

  /** A value `JSON.parse` can produce. */
  datatype JsonValue =
    | JNull
    | JBool(b: bool)
    | JNumber(n: real)
    | JString(s: string)
    | JArray(items: seq<JsonValue>)
    | JObject(members: seq<(string, JsonValue)>)

  /** JavaScript truthiness of a JSON value: `null`, `false`, `0` and `""`
      are falsy, every array and object is truthy. */
  predicate Truthy(v: JsonValue) {
    match v
    case JNull => false
    case JBool(b) => b
    case JNumber(n) => n != 0.0
    case JString(s) => s != ""
    case _ => true
  }

  /** `JSON.parse`: the parsed value, or the message of the `SyntaxError`. */
  type JsonParser = string -> Result<JsonValue, string>

  /** `JSON.parse("")` throws: the empty text is no JSON value. */
  predicate RejectsEmptyText(parse: JsonParser) {
    parse("").Failure?
  }
}
