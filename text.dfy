/** String helpers shared by the models: decimal rendering and parsing,
    prefixes, JavaScript's whitespace class and lower-casing. */
module Text {
  import opened Wrappers

  predicate IsDigit(c: char) {
    '0' <= c <= '9'
  }

  predicate AllDigits(s: string) {
    forall i :: 0 <= i < |s| ==> IsDigit(s[i])
  }

  function DigitChar(n: nat): (c: char)
    requires n < 10
    ensures IsDigit(c) && c as int - '0' as int == n
  {
    ('0' as int + n) as char
  }

  function DigitValue(c: char): (n: nat)
    requires IsDigit(c)
    ensures n < 10
  {
    c as int - '0' as int
  }

  /** `String(n)` for a non-negative integer: decimal, no leading zeros. */
  function NatToString(n: nat): (s: string)
    ensures 1 <= |s| && AllDigits(s)
    ensures n < 10 <==> |s| == 1
    decreases n
  {
    if n < 10 then [DigitChar(n)] else NatToString(n / 10) + [DigitChar(n % 10)]
  }

  /** Reads a string of decimal digits back as a number. */
  function ParseNat(s: string): nat
    requires AllDigits(s)
  {
    if s == [] then 0 else ParseNat(s[..|s| - 1]) * 10 + DigitValue(s[|s| - 1])
  }

  lemma {:induction false} NatToStringRoundTrip(n: nat)
    ensures ParseNat(NatToString(n)) == n
    decreases n
  {
    var s := NatToString(n);
    if n >= 10 {
      NatToStringRoundTrip(n / 10);
      assert s[..|s| - 1] == NatToString(n / 10);
    }
  }

  lemma NatToStringInjective(m: nat, n: nat)
    requires NatToString(m) == NatToString(n)
    ensures m == n
  {
    NatToStringRoundTrip(m);
    NatToStringRoundTrip(n);
  }

  /** `String(i)` for any integer: a minus sign before the digits when negative. */
  function IntToString(i: int): (s: string)
    ensures 1 <= |s|
    ensures s[0] == '-' <==> i < 0
  {
    if i < 0 then "-" + NatToString(-i) else NatToString(i)
  }

  /** Parses what `IntToString` produces. */
  function ParseInt(s: string): Option<int>
  {
    if |s| >= 2 && s[0] == '-' && AllDigits(s[1..]) then var n: int := ParseNat(s[1..]); Some(-n)
    else if |s| >= 1 && AllDigits(s) then Some(ParseNat(s))
    else None
  }

  lemma IntToStringRoundTrip(i: int)
    ensures ParseInt(IntToString(i)) == Some(i)
  {
    if i < 0 {
      var m: nat := -i;
      var digits := NatToString(m);
      assert IntToString(i) == "-" + digits;
      NatToStringRoundTrip(m);
      ParseNegative(digits);
    } else {
      var digits := NatToString(i);
      assert IntToString(i) == digits;
      NatToStringRoundTrip(i);
      ParseDigits(digits);
    }
  }

  /** A minus sign before digits reads back as the negated number. */
  lemma ParseNegative(digits: string)
    requires 1 <= |digits| && AllDigits(digits)
    ensures ParseInt("-" + digits) == Some(-(ParseNat(digits) as int))
  {
    assert ("-" + digits)[0] == '-' && ("-" + digits)[1..] == digits;
  }

  /** Digits alone read back as the number. */
  lemma ParseDigits(digits: string)
    requires 1 <= |digits| && AllDigits(digits)
    ensures ParseInt(digits) == Some(ParseNat(digits) as int)
  {
    assert IsDigit(digits[0]);
  }

  /** `s.padStart(2, '0')`. */
  function PadStart2(s: string): (r: string)
    ensures |s| < 2 ==> |r| == 2
    ensures |s| >= 2 ==> r == s
  {
    if |s| < 2 then seq(2 - |s|, _ => '0') + s else s
  }

  /** `s || null` for a text value: an empty string becomes null. */
  function NullIfEmpty(s: string): (r: Option<string>)
    ensures r == None <==> s == ""
    ensures r.Some? ==> r.value == s
  {
    if s == "" then None else Some(s)
  }

  /** `s.startsWith(prefix)`. */
  predicate StartsWith(s: string, prefix: string) {
    |prefix| <= |s| && s[..|prefix|] == prefix
  }

  /** The characters matched by JavaScript's `\s`: the ECMAScript WhiteSpace
      and LineTerminator characters. */
  predicate IsJsWhitespace(c: char) {
    c == ' ' || c == '\t' || c == '\n' || c == '\r' || c == '\U{000B}' || c == '\U{000C}'
    || c == '\U{00A0}' || c == '\U{1680}' || ('\U{2000}' <= c <= '\U{200A}')
    || c == '\U{2028}' || c == '\U{2029}' || c == '\U{202F}' || c == '\U{205F}'
    || c == '\U{3000}' || c == '\U{FEFF}'
  }

  /** `s.replace(/\s/g, '')`. */
  function RemoveWhitespace(s: string): (r: string)
    ensures |r| <= |s|
    ensures forall i :: 0 <= i < |r| ==> !IsJsWhitespace(r[i])
    ensures (forall i :: 0 <= i < |s| ==> !IsJsWhitespace(s[i])) ==> r == s
  {
    if s == [] then []
    else (if IsJsWhitespace(s[0]) then [] else [s[0]]) + RemoveWhitespace(s[1..])
  }

  /** A single character is dropped exactly when it is `\s`. */
  lemma RemoveWhitespaceSingle(c: char)
    ensures RemoveWhitespace([c]) == if IsJsWhitespace(c) then [] else [c]
  {
    assert [c][1..] == [];
  }

  /** Removing whitespace works piece by piece, so every other character is
      kept, in order. */
  lemma {:induction false} RemoveWhitespaceAppend(a: string, b: string)
    ensures RemoveWhitespace(a + b) == RemoveWhitespace(a) + RemoveWhitespace(b)
    decreases |a|
  {
    if a == [] {
      assert a + b == b;
    } else {
      var head := if IsJsWhitespace(a[0]) then [] else [a[0]];
      calc {
        RemoveWhitespace(a + b);
      == { assert (a + b)[0] == a[0]; }
        head + RemoveWhitespace((a + b)[1..]);
      == { assert (a + b)[1..] == a[1..] + b; }
        head + RemoveWhitespace(a[1..] + b);
      == { RemoveWhitespaceAppend(a[1..], b); }
        head + (RemoveWhitespace(a[1..]) + RemoveWhitespace(b));
      ==
        (head + RemoveWhitespace(a[1..])) + RemoveWhitespace(b);
      }
    }
  }

  function LowerChar(c: char): char {
    if 'A' <= c <= 'Z' then (c as int + 32) as char else c
  }

  /** `s.toLowerCase()`, restricted to the ASCII letters. */
  function ToLower(s: string): (r: string)
    ensures |r| == |s|
    ensures forall i :: 0 <= i < |r| ==> r[i] == LowerChar(s[i]) && !('A' <= r[i] <= 'Z')
  {
    seq(|s|, i requires 0 <= i < |s| => LowerChar(s[i]))
  }

  lemma ToLowerIdempotent(s: string)
    ensures ToLower(ToLower(s)) == ToLower(s)
  {
  }
}
