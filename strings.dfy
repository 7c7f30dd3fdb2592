/** The JavaScript string primitives the application leans on: `trim`, `includes`,
    `toLowerCase`, `parseInt`, `parseFloat` and the digits of an integer. */
module Strings {
  import opened Wrappers

  /** The characters `String.prototype.trim` removes and the regular-expression
      class `\s` matches: ECMAScript's WhiteSpace and LineTerminator code points. */
  predicate IsWhitespace(c: char) {
    || c == '\t' || c == '\n' || c == '\U{000B}' || c == '\U{000C}' || c == '\r'
    || c == ' ' || c == '\U{00A0}' || c == '\U{1680}' || ('\U{2000}' <= c <= '\U{200A}')
    || c == '\U{2028}' || c == '\U{2029}' || c == '\U{202F}' || c == '\U{205F}'
    || c == '\U{3000}' || c == '\U{FEFF}'
  }

  predicate AllWhitespace(s: string) {
    forall i :: 0 <= i < |s| ==> IsWhitespace(s[i])
  }

  /** Drops the leading white space. */
  function TrimStart(s: string): (r: string)
    ensures |r| <= |s| && r == s[|s| - |r|..]
    ensures AllWhitespace(s[..|s| - |r|])
    ensures r == [] || !IsWhitespace(r[0])
  {
    if s != [] && IsWhitespace(s[0]) then
      var r := TrimStart(s[1..]);
      var k := |s| - 1 - |r|;
      assert r == s[1..][k..] == s[k + 1..];
      WhitespacePrefix(s, k);
      r
    else
      s
  }

  /** `String.prototype.trim`: the string without white space at either end.
      It is empty exactly when the whole string is white space. */
  function Trim(s: string): (r: string)
    ensures |r| <= |s|
    ensures r == [] || (!IsWhitespace(r[0]) && !IsWhitespace(r[|r| - 1]))
    ensures r == [] <==> AllWhitespace(s)
    decreases |s|
  {
    if s != [] && IsWhitespace(s[0]) then
      var r := Trim(s[1..]);
      assert AllWhitespace(s) <==> AllWhitespace(s[1..]) by {
        assert forall i :: 0 <= i < |s| - 1 ==> s[1..][i] == s[i + 1];
        if AllWhitespace(s[1..]) {
          forall i | 0 < i < |s| ensures IsWhitespace(s[i]) { assert s[i] == s[1..][i - 1]; }
        }
      }
      r
    else if s != [] && IsWhitespace(s[|s| - 1]) then
      var r := Trim(s[..|s| - 1]);
      assert AllWhitespace(s) <==> AllWhitespace(s[..|s| - 1]) by {
        assert forall i :: 0 <= i < |s| - 1 ==> s[..|s| - 1][i] == s[i];
      }
      r
    else
      s
  }

  /** `!s.trim()`: nothing is left after trimming, because `s` is all white space. */
  predicate IsBlank(s: string) {
    AllWhitespace(s)
  }

  /** Trimming a string twice is trimming it once. */
  lemma TrimIdempotent(s: string)
    ensures Trim(Trim(s)) == Trim(s)
  {
  }

  /** A string with no white space at either end is its own trim. */
  lemma TrimOfTrimmed(t: string)
    requires t == [] || (!IsWhitespace(t[0]) && !IsWhitespace(t[|t| - 1]))
    ensures Trim(t) == t
  {
  }

  /** The trimmed string is the block of `s` between a white-space prefix and a
      white-space suffix. */
  lemma {:induction false} TrimBounds(s: string) returns (a: nat, b: nat)
    ensures a <= b <= |s| && Trim(s) == s[a..b]
    ensures AllWhitespace(s[..a]) && AllWhitespace(s[b..])
    decreases |s|
  {
    if s != [] && IsWhitespace(s[0]) {
      var a', b' := TrimBounds(s[1..]);
      a, b := a' + 1, b' + 1;
      assert s[a..b] == s[1..][a'..b'];
      WhitespacePrefix(s, a');
      assert s[b..] == s[1..][b'..];
    } else if s != [] && IsWhitespace(s[|s| - 1]) {
      var init := s[..|s| - 1];
      a, b := TrimBounds(init);
      assert s[a..b] == init[a..b];
      assert s[..a] == init[..a];
      WhitespaceSuffix(s, b);
    } else {
      a, b := 0, |s|;
      assert s[0..|s|] == s;
    }
  }

  /** A white-space character before a white-space block gives a longer block. */
  lemma WhitespacePrefix(s: string, k: nat)
    requires k < |s| && IsWhitespace(s[0]) && AllWhitespace(s[1..][..k])
    ensures AllWhitespace(s[..k + 1])
  {
    forall i | 0 < i <= k ensures IsWhitespace(s[i]) {
      assert s[i] == s[1..][..k][i - 1];
    }
  }

  /** A white-space block before a final white-space character gives a longer block. */
  lemma WhitespaceSuffix(s: string, k: nat)
    requires s != [] && k <= |s| - 1 && IsWhitespace(s[|s| - 1]) && AllWhitespace(s[..|s| - 1][k..])
    ensures AllWhitespace(s[k..])
  {
    forall i | k <= i < |s| - 1 ensures IsWhitespace(s[i]) {
      assert s[i] == s[..|s| - 1][k..][i - k];
    }
  }

  predicate StartsWith(s: string, prefix: string) {
    |prefix| <= |s| && s[..|prefix|] == prefix
  }

  /** `s.includes(sub)`: `sub` occurs in `s` as a contiguous block. */
  predicate Contains(s: string, sub: string)
    decreases |s|
  {
    StartsWith(s, sub) || (s != [] && Contains(s[1..], sub))
  }

  /** An occurrence at a known position makes `Contains` hold. */
  lemma {:induction false} ContainsAt(s: string, sub: string, i: nat)
    requires i + |sub| <= |s| && s[i..i + |sub|] == sub
    ensures Contains(s, sub)
    decreases i
  {
    if i > 0 {
      assert s[1..][i - 1..i - 1 + |sub|] == s[i..i + |sub|];
      ContainsAt(s[1..], sub, i - 1);
    }
  }

  /** Every string contains itself. */
  lemma ContainsSelf(s: string)
    ensures Contains(s, s)
  {
    assert StartsWith(s, s);
  }

  /** `toLowerCase` on one character, for the ASCII letters. */
  function LowerChar(c: char): char {
    if 'A' <= c <= 'Z' then (c as int + 32) as char else c
  }

  /** `toLowerCase` restricted to the ASCII letters. */
  function ToLower(s: string): (r: string)
    ensures |r| == |s|
  {
    seq(|s|, i requires 0 <= i < |s| => LowerChar(s[i]))
  }

  /** A string without capital ASCII letters is its own lower-case form. */
  lemma ToLowerOfLower(s: string)
    requires forall i :: 0 <= i < |s| ==> !('A' <= s[i] <= 'Z')
    ensures ToLower(s) == s
  {
  }

  /** Lowering works character by character, so it distributes over concatenation and
      over slices, and a second pass changes nothing. */
  lemma ToLowerSlices(s: string, k: nat)
    requires k <= |s|
    ensures ToLower(s[..k]) == ToLower(s)[..k] && ToLower(s[k..]) == ToLower(s)[k..]
    ensures ToLower(ToLower(s)) == ToLower(s)
  {
  }

  lemma ToLowerAppend(a: string, b: string)
    ensures ToLower(a + b) == ToLower(a) + ToLower(b)
  {
  }

  predicate IsDigit(c: char) {
    '0' <= c <= '9'
  }

  predicate AllDigits(s: string) {
    forall i :: 0 <= i < |s| ==> IsDigit(s[i])
  }

  function DigitValue(c: char): nat
    requires IsDigit(c)
  {
    c as int - '0' as int
  }

  function DigitChar(d: nat): (c: char)
    requires d < 10
    ensures IsDigit(c) && DigitValue(c) == d
  {
    (d + '0' as int) as char
  }

  /** The number a string of decimal digits denotes (most significant first). */
  function DigitsValue(ds: string): nat
    requires AllDigits(ds)
    decreases |ds|
  {
    if ds == [] then 0 else DigitsValue(ds[..|ds| - 1]) * 10 + DigitValue(ds[|ds| - 1])
  }

  /** The decimal digits of `n`, as `String(n)` writes them; reading them back gives `n`. */
  function NatToString(n: nat): (r: string)
    ensures r != [] && AllDigits(r) && DigitsValue(r) == n
    ensures r[0] != '-' && !IsWhitespace(r[0])
    decreases n
  {
    if n < 10 then
      [DigitChar(n)]
    else
      var r := NatToString(n / 10) + [DigitChar(n % 10)];
      assert r[..|r| - 1] == NatToString(n / 10);
      r
  }

  /** `String(n)` for an integer `n`. */
  function IntToString(n: int): string {
    if n < 0 then "-" + NatToString(-n) else NatToString(n)
  }

  /** The longest prefix of `s` made of decimal digits. */
  function DigitPrefix(s: string): (r: string)
    ensures |r| <= |s| && r == s[..|r|] && AllDigits(r)
    ensures |r| == |s| || !IsDigit(s[|r|])
  {
    if s != [] && IsDigit(s[0]) then [s[0]] + DigitPrefix(s[1..]) else []
  }

  /** What `parseInt` and `parseFloat` look at after skipping leading white space:
      whether a minus sign was present, and the text after the optional sign. */
  function SplitSign(s: string): (bool, string) {
    var t := TrimStart(s);
    if t != [] && (t[0] == '-' || t[0] == '+') then (t[0] == '-', t[1..]) else (false, t)
  }

  /** `0x` or `0X`: with no radix given, `parseInt` then reads base 16. */
  predicate HasHexPrefix(t: string) {
    |t| >= 2 && t[0] == '0' && (t[1] == 'x' || t[1] == 'X')
  }

  predicate IsHexDigit(c: char) {
    IsDigit(c) || 'a' <= c <= 'f' || 'A' <= c <= 'F'
  }

  predicate AllHexDigits(s: string) {
    forall i :: 0 <= i < |s| ==> IsHexDigit(s[i])
  }

  function HexDigitValue(c: char): (v: nat)
    requires IsHexDigit(c)
    ensures v < 16
  {
    if IsDigit(c) then DigitValue(c)
    else if 'a' <= c <= 'f' then c as int - 'a' as int + 10
    else c as int - 'A' as int + 10
  }

  /** The number a string of hexadecimal digits denotes (most significant first). */
  function HexDigitsValue(ds: string): nat
    requires AllHexDigits(ds)
    decreases |ds|
  {
    if ds == [] then 0 else HexDigitsValue(ds[..|ds| - 1]) * 16 + HexDigitValue(ds[|ds| - 1])
  }

  /** The longest prefix of `s` made of hexadecimal digits. */
  function HexPrefix(s: string): (r: string)
    ensures |r| <= |s| && r == s[..|r|] && AllHexDigits(r)
    ensures |r| == |s| || !IsHexDigit(s[|r|])
  {
    if s != [] && IsHexDigit(s[0]) then [s[0]] + HexPrefix(s[1..]) else []
  }

  /** `parseInt(s)` with no radix: base 16 after a `0x` or `0X` prefix, base 10
      otherwise; `None` stands for NaN. */
  function ParseInt(s: string): (r: Option<int>)
    ensures var body := SplitSign(s).1;
      r.None? <==> if HasHexPrefix(body) then HexPrefix(body[2..]) == [] else DigitPrefix(body) == []
  {
    var (negative, body) := SplitSign(s);
    var magnitude :=
      if HasHexPrefix(body) then
        var hs := HexPrefix(body[2..]);
        if hs == [] then None else Some(HexDigitsValue(hs) as int)
      else
        var ds := DigitPrefix(body);
        if ds == [] then None else Some(DigitsValue(ds) as int);
    if magnitude.None? then None
    else Some(if negative then -magnitude.value else magnitude.value)
  }

  /** `0x2` is read in base 16 as 2. */
  lemma ParseIntHex()
    ensures ParseInt("0x2") == Some(2)
  {
    assert TrimStart("0x2") == "0x2";
    assert SplitSign("0x2") == (false, "0x2");
    assert "0x2"[2..] == "2";
    assert HexPrefix("2") == "2" by { assert "2"[1..] == ""; }
    assert HexDigitsValue("2") == 2 by { assert "2"[..0] == ""; }
  }

  /** The sign comes before the prefix, and capitals are hexadecimal digits too:
      `-0X1F` is -31. */
  lemma ParseIntSignedHex()
    ensures ParseInt("-0X1F") == Some(-31)
  {
    assert TrimStart("-0X1F") == "-0X1F";
    assert SplitSign("-0X1F") == (true, "0X1F");
    assert "0X1F"[2..] == "1F";
    assert HexPrefix("1F") == "1F" by {
      assert "1F"[1..] == "F";
      assert HexPrefix("F") == "F" by { assert "F"[1..] == ""; }
    }
    assert HexDigitsValue("1F") == 31 by {
      assert "1F"[..1] == "1";
      assert HexDigitsValue("1") == 1 by { assert "1"[..0] == ""; }
    }
  }

  /** A prefix with no hexadecimal digit after it is NaN. */
  lemma ParseIntBareHex()
    ensures ParseInt("0x") == None
  {
    assert TrimStart("0x") == "0x";
    assert SplitSign("0x") == (false, "0x");
    assert "0x"[2..] == "";
  }

  /** Reading back what `String(n)` wrote gives `n`. */
  lemma ParseIntRoundTrip(n: int)
    ensures ParseInt(IntToString(n)) == Some(n)
  {
    var digits := SignedDigits(n);
    DigitPrefixOfDigits(digits);
    assert !HasHexPrefix(digits) by {
      if |digits| >= 2 { assert IsDigit(digits[1]); }
    }
  }

  /** `String(n)` has no leading white space, its sign is `-` exactly for negative `n`,
      and all of it after the sign is the digits of `|n|`. */
  lemma SignedDigits(n: int) returns (digits: string)
    ensures digits == NatToString(if n < 0 then -n else n)
    ensures SplitSign(IntToString(n)) == (n < 0, digits)
  {
    digits := NatToString(if n < 0 then -n else n);
    if n < 0 {
      NegativeDigits(n);
    } else {
      NonNegativeDigits(n);
    }
  }

  lemma NegativeDigits(n: int)
    requires n < 0
    ensures SplitSign(IntToString(n)) == (true, NatToString(-n))
  {
    var t := IntToString(n);
    assert t[0] == '-';
    TrimStartNoLeadingSpace(t);
    assert t[1..] == NatToString(-n);
  }

  lemma NonNegativeDigits(n: int)
    requires n >= 0
    ensures SplitSign(IntToString(n)) == (false, NatToString(n))
  {
    var t := NatToString(n);
    TrimStartNoLeadingSpace(t);
    assert IsDigit(t[0]);
  }

  lemma TrimStartNoLeadingSpace(t: string)
    requires t != [] && !IsWhitespace(t[0])
    ensures TrimStart(t) == t
  {
  }

  lemma {:induction false} DigitPrefixOfDigits(s: string)
    requires AllDigits(s)
    ensures DigitPrefix(s) == s
  {
    if s != [] {
      DigitPrefixOfDigits(s[1..]);
    }
  }

  /** A JavaScript number: NaN or a finite value (infinities are not modelled). */
  datatype Number = NaN | Finite(value: real)

  function Pow10(k: nat): (r: nat)
    ensures r >= 1
  {
    if k == 0 then 1 else 10 * Pow10(k - 1)
  }

  /** `parseFloat(s)`: optional sign, digits, optional `.` and digits, read as an exact
      rational; NaN when neither whole nor fractional digits are present. */
  function ParseFloat(s: string): Number {
    var (negative, body) := SplitSign(s);
    var whole := DigitPrefix(body);
    var rest := body[|whole|..];
    var fraction := if rest != [] && rest[0] == '.' then DigitPrefix(rest[1..]) else [];
    if whole == [] && fraction == [] then NaN
    else
      var magnitude := DigitsValue(whole) as real + DigitsValue(fraction) as real / Pow10(|fraction|) as real;
      Finite(if negative then -magnitude else magnitude)
  }

  /** `parseFloat` reads an integer's decimal form back as that integer. */
  lemma ParseFloatOfInteger(n: int)
    ensures ParseFloat(IntToString(n)) == Finite(n as real)
  {
    var digits := SignedDigits(n);
    ParseFloatOfDigits(IntToString(n), n < 0, digits);
    assert DigitsValue(digits) as int == if n < 0 then -n else n;
  }

  /** When all of the text after the sign is digits, `parseFloat` reads their value. */
  lemma ParseFloatOfDigits(s: string, negative: bool, digits: string)
    requires SplitSign(s) == (negative, digits)
    requires digits != [] && AllDigits(digits)
    ensures ParseFloat(s) == Finite(if negative then -(DigitsValue(digits) as real) else DigitsValue(digits) as real)
  {
    DigitPrefixOfDigits(digits);
    assert digits[|digits|..] == [];
    var whole := DigitsValue(digits) as real;
    assert DigitsValue([]) as real / Pow10(0) as real == 0.0;
    assert whole + DigitsValue([]) as real / Pow10(0) as real == whole;
  }
}
