/** The JavaScript string built-ins the pages rely on: `toLowerCase`, `includes`, `trim`,
    `parseInt`, `String(n)` for an integer, and `split(sep).pop()`. */
module Text {
  import opened Nullable

  /** `toLowerCase` on one character (ASCII letters only). */
  function LowerChar(c: char): char {
    if 'A' <= c <= 'Z' then (c as int + 32) as char else c
  }

  /** `s.toLowerCase()`: same length, every ASCII capital replaced by its small letter, nothing else changed. */
  function ToLower(s: string): (r: string)
    ensures |r| == |s|
    ensures forall i :: 0 <= i < |r| ==> !('A' <= r[i] <= 'Z')
    ensures forall i :: 0 <= i < |r| ==> r[i] == s[i] || ('A' <= s[i] <= 'Z' && r[i] as int == s[i] as int + 32)
  {
    seq(|s|, i requires 0 <= i < |s| => LowerChar(s[i]))
  }

  /** `s.includes(q)`: `q` occurs in `s` as a contiguous run (the empty string occurs everywhere). */
  predicate Contains(s: string, q: string) {
    exists i :: 0 <= i <= |s| && q <= s[i..]
  }

  /** `s.length`: JavaScript counts UTF-16 code units, so a character outside the Basic Multilingual
      Plane (an emoji, say) counts twice. */
  function Utf16Length(s: string): (n: nat)
    ensures |s| <= n <= 2 * |s|
    ensures (forall i :: 0 <= i < |s| ==> s[i] as int < 0x1_0000) ==> n == |s|
    ensures (forall i :: 0 <= i < |s| ==> s[i] as int >= 0x1_0000) ==> n == 2 * |s|
    ensures |s| == 1 ==> n == (if s[0] as int < 0x1_0000 then 1 else 2)
    decreases |s|
  {
    if s == [] then 0
    else Utf16Length(s[..|s| - 1]) + (if s[|s| - 1] as int < 0x1_0000 then 1 else 2)
  }

  /** The length of a concatenation is the sum of the lengths, so each character adds its own one or
      two code units wherever it stands. */
  lemma {:induction false} Utf16LengthAppend(a: string, b: string)
    ensures Utf16Length(a + b) == Utf16Length(a) + Utf16Length(b)
    decreases |b|
  {
    if b == [] {
      assert a + b == a;
    } else {
      var b' := b[..|b| - 1];
      assert (a + b)[..|a + b| - 1] == a + b';
      assert (a + b)[|a + b| - 1] == b[|b| - 1];
      Utf16LengthAppend(a, b');
    }
  }

  /** The characters `trim` removes: JavaScript's white space and line terminators. */
  predicate IsSpace(c: char) {
    c == ' ' || c == '\t' || c == '\n' || c == '\r'
    || c as int == 0x0B || c as int == 0x0C || c as int == 0xA0 || c as int == 0xFEFF
    || c as int == 0x1680 || 0x2000 <= c as int <= 0x200A || c as int == 0x2028 || c as int == 0x2029
    || c as int == 0x202F || c as int == 0x205F || c as int == 0x3000
  }

  /** The index of the first character of `s` at or after `i` that is not white space (`|s|` if none). */
  function SkipSpaces(s: string, i: nat): (k: nat)
    requires i <= |s|
    ensures i <= k <= |s|
    ensures forall j :: i <= j < k ==> IsSpace(s[j])
    ensures k == |s| || !IsSpace(s[k])
    decreases |s| - i
  {
    if i < |s| && IsSpace(s[i]) then SkipSpaces(s, i + 1) else i
  }

  /** The index just past the last character of `s[..j]` that is not white space (0 if none). */
  function SkipSpacesBack(s: string, j: nat): (k: nat)
    requires j <= |s|
    ensures k <= j
    ensures forall i :: k <= i < j ==> IsSpace(s[i])
    ensures k == 0 || !IsSpace(s[k - 1])
  {
    if 0 < j && IsSpace(s[j - 1]) then SkipSpacesBack(s, j - 1) else j
  }

  /** `s.trimStart()`: the suffix of `s` left after dropping the leading white space. */
  function TrimStart(s: string): (r: string)
    ensures |r| <= |s| && forall i :: 0 <= i < |r| ==> r[i] == s[|s| - |r| + i]
    ensures forall i :: 0 <= i < |s| - |r| ==> IsSpace(s[i])
    ensures r == [] || !IsSpace(r[0])
  {
    s[SkipSpaces(s, 0)..]
  }

  /** `s.trimEnd()`: the prefix of `s` left after dropping the trailing white space. */
  function TrimEnd(s: string): (r: string)
    ensures |r| <= |s| && forall i :: 0 <= i < |r| ==> r[i] == s[i]
    ensures forall i :: |r| <= i < |s| ==> IsSpace(s[i])
    ensures r == [] || !IsSpace(r[|r| - 1])
  {
    s[..SkipSpacesBack(s, |s|)]
  }

  /** `s.trim()`. */
  function Trim(s: string): (r: string)
    ensures |r| <= |s|
    ensures r == [] || (!IsSpace(r[0]) && !IsSpace(r[|r| - 1]))
    ensures SkipSpaces(s, 0) + |r| <= |s| && r == s[SkipSpaces(s, 0)..SkipSpaces(s, 0) + |r|]
    ensures forall i :: SkipSpaces(s, 0) + |r| <= i < |s| ==> IsSpace(s[i])
  {
    TrimEnd(TrimStart(s))
  }

  /** `s.trim()` is empty (falsy) exactly when `s` consists of white space only. */
  lemma TrimEmptyIff(s: string)
    ensures Trim(s) == [] <==> forall i :: 0 <= i < |s| ==> IsSpace(s[i])
  {
    var t := TrimStart(s);
    if t != [] {
      assert !IsSpace(t[0]) && t[0] == s[|s| - |t|];
    }
  }

  /** The decimal digit character for `d`. */
  function DigitChar(d: nat): char
    requires d < 10
  {
    "0123456789"[d]
  }

  /** The value of `c` as a digit in base `radix` (10 or 16), or `radix` itself when it is not one. */
  function DigitValue(c: char, radix: nat): (v: nat)
    requires radix == 10 || radix == 16
    ensures v <= radix
  {
    var d :=
      if '0' <= c <= '9' then c as int - '0' as int
      else if 'a' <= c <= 'f' then c as int - 'a' as int + 10
      else if 'A' <= c <= 'F' then c as int - 'A' as int + 10
      else radix;
    if d < radix then d else radix
  }

  predicate IsDigit(c: char, radix: nat)
    requires radix == 10 || radix == 16
  {
    DigitValue(c, radix) < radix
  }

  /** The index of the first character of `s` at or after `i` that is not a digit of the radix. */
  function DigitsEnd(s: string, i: nat, radix: nat): (k: nat)
    requires i <= |s|
    requires radix == 10 || radix == 16
    ensures i <= k <= |s|
    ensures forall j :: i <= j < k ==> IsDigit(s[j], radix)
    ensures k == |s| || !IsDigit(s[k], radix)
    decreases |s| - i
  {
    if i < |s| && IsDigit(s[i], radix) then DigitsEnd(s, i + 1, radix) else i
  }

  /** The longest prefix of `s` made of digits of the given radix. */
  function LeadingDigits(s: string, radix: nat): (r: string)
    requires radix == 10 || radix == 16
    ensures |r| <= |s| && forall i :: 0 <= i < |r| ==> r[i] == s[i]
    ensures forall i :: 0 <= i < |r| ==> IsDigit(r[i], radix)
    ensures |r| == |s| || !IsDigit(s[|r|], radix)
  {
    s[..DigitsEnd(s, 0, radix)]
  }

  /** The number a run of digits denotes, most significant digit first. */
  function DigitsValue(d: string, radix: nat): nat
    requires radix == 10 || radix == 16
  {
    if d == [] then 0
    else DigitsValue(d[..|d| - 1], radix) * radix + (if IsDigit(d[|d| - 1], radix) then DigitValue(d[|d| - 1], radix) else 0)
  }

  /** The text after an optional leading sign. */
  function Unsigned(t: string): (u: string)
    ensures |u| <= |t| && forall i :: 0 <= i < |u| ==> u[i] == t[|t| - |u| + i]
  {
    if t != [] && (t[0] == '-' || t[0] == '+') then t[1..] else t
  }

  /** A `0x` or `0X` prefix, which switches `parseInt` to base 16. */
  predicate HexPrefixed(u: string) {
    |u| >= 2 && u[0] == '0' && (u[1] == 'x' || u[1] == 'X')
  }

  /** The value of the digits read, with the sign read before them; `None` (`NaN`) when no digit was read. */
  function SignedValue(negative: bool, digits: string, radix: nat): Option<int>
    requires radix == 10 || radix == 16
  {
    var magnitude: int := DigitsValue(digits, radix);
    if digits == [] then None else Some(if negative then -magnitude else magnitude)
  }

  /** `parseInt(s)` with no radix: leading white space skipped, an optional sign, a `0x`/`0X` prefix
      switching to base 16, then the longest run of digits; `None` stands for `NaN` (no digits). */
  function ParseInt(s: string): Option<int> {
    var t := TrimStart(s);
    var u := Unsigned(t);
    var radix := if HexPrefixed(u) then 16 else 10;
    SignedValue(t != [] && t[0] == '-', LeadingDigits(if HexPrefixed(u) then u[2..] else u, radix), radix)
  }

  /** `parseInt(s) || 0`: `NaN` (and `-0`) become `0`. */
  function ParseIntOrZero(s: string): int {
    match ParseInt(s)
    case None => 0
    case Some(v) => v
  }

  /** `parseFloat(s)` for whole numbers: leading white space skipped, an optional sign, then the longest
      run of decimal digits; `None` stands for `NaN`. A fraction or exponent after the digits is dropped. */
  function ParseFloat(s: string): Option<int> {
    var t := TrimStart(s);
    SignedValue(t != [] && t[0] == '-', LeadingDigits(Unsigned(t), 10), 10)
  }

  /** Text without a single decimal digit (the empty text included) parses to `NaN`, so
      `parseInt(s) || 0` yields 0. */
  lemma NoDigitsParsesToZero(s: string)
    requires forall i :: 0 <= i < |s| ==> !('0' <= s[i] <= '9')
    ensures ParseInt(s) == None && ParseIntOrZero(s) == 0
  {
    var t := TrimStart(s);
    var u := Unsigned(t);
    if u != [] {
      assert u[0] == t[|t| - |u|] == s[|s| - |t| + |t| - |u|];
      assert !IsDigit(u[0], 10);
    }
    assert !HexPrefixed(u);
    assert LeadingDigits(u, 10) == [];
  }

  /** `String(n)` for a natural number: its decimal digits, without leading zeros. */
  function NatToString(n: nat): (r: string)
    ensures r != []
    ensures forall i :: 0 <= i < |r| ==> '0' <= r[i] <= '9'
    ensures r[0] == '0' ==> n == 0
  {
    if n < 10 then [DigitChar(n)] else NatToString(n / 10) + [DigitChar(n % 10)]
  }

  /** `String(n)` for an integer: a minus sign before the digits of a negative number. */
  function IntToString(n: int): (r: string)
    ensures r != [] && (r[0] == '-' <==> n < 0)
  {
    if n < 0 then "-" + NatToString(-n) else NatToString(n)
  }

  /** Each digit character reads back as the digit it was written for. */
  lemma DigitCharValue(d: nat)
    requires d < 10
    ensures '0' <= DigitChar(d) <= '9' && IsDigit(DigitChar(d), 10) && DigitValue(DigitChar(d), 10) == d
  {
    assert DigitChar(d) as int == '0' as int + d;
  }

  lemma {:induction false} NatToStringValue(n: nat)
    ensures DigitsValue(NatToString(n), 10) == n
    decreases n
  {
    var r := NatToString(n);
    DigitCharValue(n % 10);
    if n >= 10 {
      NatToStringValue(n / 10);
      assert r[..|r| - 1] == NatToString(n / 10);
      assert r[|r| - 1] == DigitChar(n % 10);
    } else {
      assert r[..0] == [];
    }
  }

  /** How `String(n)` reads back: no white space to skip, a sign only for a negative number, no hex
      prefix, and digits that run to the end and denote the magnitude of `n`. */
  lemma IntToStringParts(n: int)
    ensures TrimStart(IntToString(n)) == IntToString(n)
    ensures Unsigned(IntToString(n)) == NatToString(if n < 0 then -n else n)
    ensures !HexPrefixed(Unsigned(IntToString(n)))
    ensures LeadingDigits(Unsigned(IntToString(n)), 10) == Unsigned(IntToString(n))
    ensures DigitsValue(Unsigned(IntToString(n)), 10) == (if n < 0 then -n else n)
  {
    var s := IntToString(n);
    var m: nat := if n < 0 then -n else n;
    var digits := NatToString(m);
    assert !IsSpace(s[0]);
    assert Unsigned(s) == digits;
    assert LeadingDigits(digits, 10) == digits by {
      assert forall i :: 0 <= i < |digits| ==> IsDigit(digits[i], 10);
    }
    NatToStringValue(m);
  }

  /** `parseInt(String(n))` gives `n` back, for every integer `n`. */
  lemma ParseIntRoundTrip(n: int)
    ensures ParseInt(IntToString(n)) == Some(n)
    ensures ParseIntOrZero(IntToString(n)) == n
  {
    var s := IntToString(n);
    IntToStringParts(n);
    var u := Unsigned(s);
    assert (s != [] && s[0] == '-') == (n < 0);
    assert SignedValue(n < 0, u, 10) == Some(n);
    assert ParseInt(s) == SignedValue(n < 0, LeadingDigits(u, 10), 10);
  }

  /** `parseFloat(String(n))` gives `n` back, for every integer `n`. */
  lemma ParseFloatRoundTrip(n: int)
    ensures ParseFloat(IntToString(n)) == Some(n)
  {
    var s := IntToString(n);
    IntToStringParts(n);
    var u := Unsigned(s);
    assert (s != [] && s[0] == '-') == (n < 0);
    assert SignedValue(n < 0, u, 10) == Some(n);
    assert ParseFloat(s) == SignedValue(n < 0, LeadingDigits(u, 10), 10);
  }

  /** The index just past the last `sep` in `name[..j]`, 0 when there is none. */
  function AfterLastSep(name: string, sep: char, j: nat): (k: nat)
    requires j <= |name|
    ensures k <= j
    ensures forall i :: k <= i < j ==> name[i] != sep
    ensures k == 0 || name[k - 1] == sep
  {
    if j == 0 then 0 else if name[j - 1] == sep then j else AfterLastSep(name, sep, j - 1)
  }

  /** `name.split(sep).pop()`: the text after the last `sep`, or all of `name` when it has none. */
  function AfterLast(name: string, sep: char): (r: string)
    ensures |r| <= |name| && forall i :: 0 <= i < |r| ==> r[i] == name[|name| - |r| + i]
    ensures sep !in r
    ensures |r| == |name| || name[|name| - |r| - 1] == sep
  {
    name[AfterLastSep(name, sep, |name|)..]
  }

  /** Whatever precedes the last separator does not matter: the text after it is what comes back. */
  lemma AfterLastOfJoin(prefix: string, sep: char, rest: string)
    requires sep !in rest
    ensures AfterLast(prefix + [sep] + rest, sep) == rest
  {
    var name := prefix + [sep] + rest;
    var k := AfterLastSep(name, sep, |name|);
    assert name[|prefix|] == sep;
    assert name[k..] == rest;
  }
}
