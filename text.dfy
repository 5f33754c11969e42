/**
 * String helpers with the semantics of the ECMAScript operations the code
 * relies on: `trim`, `includes`, `split`, `toLowerCase`/`toUpperCase`,
 * `parseInt(s, 10)`, `Number(s)` and number-to-string conversion.
 */
module Text {
  import opened Wrappers

  /** The WhiteSpace and LineTerminator code points that `String.prototype.trim` removes. */
  predicate IsSpace(c: char) {
    || c == ' ' || c == '\t' || c == '\n' || c == '\r'
    || c == '\U{000B}' || c == '\U{000C}' || c == '\U{00A0}' || c == '\U{1680}'
    || ('\U{2000}' <= c <= '\U{200A}')
    || c == '\U{2028}' || c == '\U{2029}' || c == '\U{202F}' || c == '\U{205F}'
    || c == '\U{3000}' || c == '\U{FEFF}'
  }

  /** A string made of whitespace only (the empty string included). */
  predicate IsBlank(s: string) {
    forall i :: 0 <= i < |s| ==> IsSpace(s[i])
  }

  function TrimStart(s: string): (r: string)
    ensures |r| <= |s| && r == s[|s| - |r|..]
    ensures r == [] || !IsSpace(r[0])
    ensures IsBlank(s[..|s| - |r|])
  {
    if s != [] && IsSpace(s[0]) then TrimStart(s[1..]) else s
  }

  function TrimEnd(s: string): (r: string)
    ensures |r| <= |s| && r == s[..|r|]
    ensures r == [] || !IsSpace(r[|r| - 1])
    ensures IsBlank(s[|r|..])
  {
    if s != [] && IsSpace(s[|s| - 1]) then TrimEnd(s[..|s| - 1]) else s
  }

  /** `s.trim()`. */
  function Trim(s: string): (r: string)
    ensures r == [] || (!IsSpace(r[0]) && !IsSpace(r[|r| - 1]))
    ensures |r| <= |s|
  {
    TrimEnd(TrimStart(s))
  }

  /** A string is blank exactly when trimming leaves nothing (`!s.trim()` in the code). */
  lemma {:induction false} TrimEmptyIffBlank(s: string)
    ensures Trim(s) == [] <==> IsBlank(s)
  {
    var a := TrimStart(s);
    var k := |s| - |a|;
    if Trim(s) == [] {
      assert a == [];
      assert s[..k] == s;
    } else {
      assert a != [] && !IsSpace(a[0]) && a[0] == s[k];
    }
  }

  /** Trimming a string that has no surrounding whitespace leaves it as it is. */
  lemma TrimOfTrimmed(s: string)
    requires s == [] || (!IsSpace(s[0]) && !IsSpace(s[|s| - 1]))
    ensures Trim(s) == s
  {
  }

  /** The ASCII part of `toLowerCase`. */
  function LowerChar(c: char): char {
    if 'A' <= c <= 'Z' then (c as int + 32) as char else c
  }

  /** The ASCII part of `toUpperCase`. */
  function UpperChar(c: char): char {
    if 'a' <= c <= 'z' then (c as int - 32) as char else c
  }

  /** `toLowerCase`, character by character. */
  function ToLower(s: string): string {
    seq(|s|, i requires 0 <= i < |s| => LowerChar(s[i]))
  }

  /** `toUpperCase`, character by character. */
  function ToUpper(s: string): string {
    seq(|s|, i requires 0 <= i < |s| => UpperChar(s[i]))
  }

  /** `sep` starts at index `i` of `s`. */
  predicate OccursAt(s: string, sep: string, i: int) {
    0 <= i && i + |sep| <= |s| && s[i..i + |sep|] == sep
  }

  /** The first occurrence of `sep` in `s` at or after `from`. */
  function IndexFrom(s: string, sep: string, from: nat): (r: Option<nat>)
    requires sep != []
    ensures r.Some? ==> from <= r.value && OccursAt(s, sep, r.value)
    ensures r.Some? ==> forall j :: from <= j < r.value ==> !OccursAt(s, sep, j)
    ensures r.None? ==> forall j :: from <= j ==> !OccursAt(s, sep, j)
    decreases |s| - from
  {
    if from + |sep| > |s| then None
    else if s[from..from + |sep|] == sep then Some(from)
    else IndexFrom(s, sep, from + 1)
  }

  /** `s.indexOf(sep)`, with `None` for -1. */
  function IndexOf(s: string, sep: string): (r: Option<nat>)
    requires sep != []
    ensures r.Some? ==> OccursAt(s, sep, r.value) && forall j :: 0 <= j < r.value ==> !OccursAt(s, sep, j)
    ensures r.None? ==> forall j :: 0 <= j ==> !OccursAt(s, sep, j)
  {
    IndexFrom(s, sep, 0)
  }

  /** `s.includes(sep)`. */
  predicate Contains(s: string, sep: string)
    requires sep != []
  {
    IndexOf(s, sep).Some?
  }

  /** The text before the first `sep`, or all of `s`: `s.split(sep)[0]`. */
  function Before(s: string, sep: string): (r: string)
    requires sep != []
    ensures |r| <= |s| && r == s[..|r|]
  {
    match IndexOf(s, sep)
    case None => s
    case Some(i) => s[..i]
  }

  /**
   * `s.split(sep, 2)`: at most the first two pieces. ECMAScript stops after two
   * pieces, so a second piece ends at the next `sep` and the rest is dropped.
   */
  function SplitTwo(s: string, sep: string): (parts: seq<string>)
    requires sep != []
    ensures 1 <= |parts| <= 2
    ensures |parts| == 1 <==> !Contains(s, sep)
  {
    match IndexOf(s, sep)
    case None => [s]
    case Some(i) => [s[..i], Before(s[i + |sep|..], sep)]
  }

  predicate IsDigit(c: char) {
    '0' <= c <= '9'
  }

  predicate AllDigits(s: string) {
    forall i :: 0 <= i < |s| ==> IsDigit(s[i])
  }

  function DigitChar(d: nat): (c: char)
    requires d < 10
    ensures IsDigit(c)
  {
    ('0' as int + d) as char
  }

  /** The value of a string of decimal digits. */
  function DigitsValue(ds: string): nat
    requires AllDigits(ds)
  {
    if ds == [] then 0 else DigitsValue(ds[..|ds| - 1]) * 10 + (ds[|ds| - 1] as int - '0' as int)
  }

  /** The decimal form of a natural number, as `String(n)` writes it. */
  function NatToString(n: nat): (r: string)
    ensures r != [] && AllDigits(r) && DigitsValue(r) == n
    ensures r[0] == '0' ==> n == 0
  {
    if n < 10 then [DigitChar(n)]
    else
      var r := NatToString(n / 10) + [DigitChar(n % 10)];
      assert r[..|r| - 1] == NatToString(n / 10);
      r
  }

  /** The decimal form of an integer (a template literal `${n}`). */
  function IntToString(i: int): (r: string)
    ensures r != []
  {
    if i < 0 then "-" + NatToString(-i) else NatToString(i)
  }

  /** The longest prefix of `s` made of decimal digits. */
  function DigitPrefix(s: string): (r: string)
    ensures AllDigits(r) && |r| <= |s| && r == s[..|r|]
    ensures |r| == |s| || !IsDigit(s[|r|])
  {
    if s != [] && IsDigit(s[0]) then
      var r := [s[0]] + DigitPrefix(s[1..]);
      assert s[1..][..|r| - 1] == s[1..|r|];
      r
    else []
  }

  /** An optional leading sign: the factor it stands for and what follows it. */
  function SplitSign(t: string): (int, string) {
    if t != [] && t[0] == '-' then (-1, t[1..])
    else if t != [] && t[0] == '+' then (1, t[1..])
    else (1, t)
  }

  /**
   * `parseInt(s, 10)`: leading whitespace is skipped, an optional sign is read,
   * then the longest run of decimal digits; `None` stands for `NaN` (no digits).
   * Whatever follows the digits is ignored.
   */
  function ParseInt(s: string): (r: Option<int>)
    ensures r.Some? <==> DigitPrefix(SplitSign(TrimStart(s)).1) != []
  {
    var (sign, body) := SplitSign(TrimStart(s));
    var ds := DigitPrefix(body);
    if ds == [] then None else Some(sign * DigitsValue(ds))
  }

  lemma DigitPrefixOfDigits(s: string, rest: string)
    requires AllDigits(s)
    requires rest == [] || !IsDigit(rest[0])
    ensures DigitPrefix(s + rest) == s
  {
    if s != [] {
      assert (s + rest)[1..] == s[1..] + rest;
      DigitPrefixOfDigits(s[1..], rest);
    }
  }

  /**
   * `parseInt` reads back the decimal form of a natural number, and ignores
   * anything after it that does not start with a digit.
   */
  lemma {:induction false} ParseIntOfDecimal(n: nat, rest: string)
    requires rest == [] || !IsDigit(rest[0])
    ensures ParseInt(NatToString(n) + rest) == Some(n)
  {
    var s := NatToString(n);
    var t := s + rest;
    assert t[0] == s[0] && IsDigit(t[0]);
    TrimStartOfUnpadded(t);
    assert SplitSign(t) == (1, t);
    DigitPrefixOfDigits(s, rest);
  }

  /** A string that starts with no whitespace is its own `trimStart`. */
  lemma TrimStartOfUnpadded(s: string)
    requires s != [] && !IsSpace(s[0])
    ensures TrimStart(s) == s
  {
  }

  /** `parseInt` reads a minus sign followed by a decimal number as the negated number. */
  lemma {:induction false} ParseIntOfNegated(n: nat)
    ensures ParseInt("-" + NatToString(n)) == Some(-(n as int))
  {
    var s := "-" + NatToString(n);
    assert !IsSpace(s[0]);
    assert TrimStart(s) == s;
    assert SplitSign(s) == (-1, NatToString(n));
    assert NatToString(n) + [] == NatToString(n);
    DigitPrefixOfDigits(NatToString(n), []);
  }

  /**
   * `Number(s)` for the decimal strings the model covers: surrounding whitespace
   * is ignored, the empty string is 0, an optional sign may precede digits, and
   * anything else is `NaN` (`None`).
   */
  function NumberOf(s: string): (r: Option<int>)
    ensures r.Some? && Trim(s) != [] ==> AllDigits(SplitSign(Trim(s)).1)
  {
    var t := Trim(s);
    if t == [] then Some(0)
    else
      var (sign, body) := SplitSign(t);
      if body != [] && AllDigits(body) then Some(sign * DigitsValue(body)) else None
  }

  /** `Number` reads back the decimal form of a natural number (as a query parameter carries it). */
  lemma NumberOfDecimal(n: nat)
    ensures NumberOf(NatToString(n)) == Some(n)
  {
    var s := NatToString(n);
    assert IsDigit(s[0]) && IsDigit(s[|s| - 1]);
    TrimOfTrimmed(s);
    assert SplitSign(s) == (1, s);
  }

  /**
   * String order by code point, a proper prefix first: the order `ORDER BY`
   * uses under the database's binary collation.
   */
  predicate StrLe(a: string, b: string) {
    a == [] || (b != [] && (a[0] < b[0] || (a[0] == b[0] && StrLe(a[1..], b[1..]))))
  }

  lemma {:induction false} StrLeTotal(a: string, b: string)
    ensures StrLe(a, b) || StrLe(b, a)
  {
    if a != [] && b != [] && a[0] == b[0] {
      StrLeTotal(a[1..], b[1..]);
    }
  }

  lemma {:induction false} StrLeTransitive(a: string, b: string, c: string)
    requires StrLe(a, b) && StrLe(b, c)
    ensures StrLe(a, c)
  {
    if a != [] && a[0] == b[0] && b[0] == c[0] {
      StrLeTransitive(a[1..], b[1..], c[1..]);
    }
  }

  lemma {:induction false} StrLeAntisymmetric(a: string, b: string)
    requires StrLe(a, b) && StrLe(b, a)
    ensures a == b
  {
    if a != [] {
      StrLeAntisymmetric(a[1..], b[1..]);
      assert a == [a[0]] + a[1..] && b == [b[0]] + b[1..];
    }
  }
}
