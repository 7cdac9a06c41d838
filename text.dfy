/** Character and string helpers standing in for the Python string methods the sources call
    (`str.isdigit`, `int(...)`, `str(n)`, `str.lower`, `str.upper`, `str.strip`, `\w`).
    All of them are the ASCII restriction of their Python counterparts. */
module Text {

  predicate IsDigit(c: char) { '0' <= c <= '9' }

  /** `s.isdigit()`: non-empty and made of digits only. */
  predicate AllDigits(s: string) {
    |s| > 0 && forall i | 0 <= i < |s| :: IsDigit(s[i])
  }

  function DigitChar(d: nat): (c: char)
    requires d < 10
    ensures IsDigit(c) && c as int - '0' as int == d
  {
    ('0' as int + d) as char
  }

  /** `int(s)` for a string of decimal digits (leading zeros allowed). */
  function DigitsValue(s: string): nat
    requires forall i | 0 <= i < |s| :: IsDigit(s[i])
  {
    if s == [] then 0
    else
      assert IsDigit(s[|s| - 1]);
      DigitsValue(s[..|s| - 1]) * 10 + (s[|s| - 1] as int - '0' as int)
  }

  /** `str(n)` for a natural number: its shortest decimal spelling. */
  function NatToString(n: nat): (s: string)
    ensures AllDigits(s)
    ensures |s| > 1 ==> s[0] != '0'
    decreases n
  {
    if n < 10 then [DigitChar(n)] else NatToString(n / 10) + [DigitChar(n % 10)]
  }

  /** `int(str(n)) == n`: the decimal spelling reads back as the number. */
  lemma {:induction false} NatToStringRoundTrip(n: nat)
    ensures DigitsValue(NatToString(n)) == n
    decreases n
  {
    if n >= 10 {
      var s := NatToString(n);
      assert s[..|s| - 1] == NatToString(n / 10);
      NatToStringRoundTrip(n / 10);
    }
  }

  /** Distinct numbers have distinct spellings, so names built from a counter never repeat. */
  lemma NatToStringInjective(m: nat, n: nat)
    requires NatToString(m) == NatToString(n)
    ensures m == n
  {
    NatToStringRoundTrip(m);
    NatToStringRoundTrip(n);
  }

  /** The characters matched by the regular-expression class `\w`. */
  predicate IsWordChar(c: char) {
    ('a' <= c <= 'z') || ('A' <= c <= 'Z') || IsDigit(c) || c == '_'
  }

  /** `re.fullmatch(r'\w+', s)` succeeds. */
  predicate IsWord(s: string) {
    |s| > 0 && forall i | 0 <= i < |s| :: IsWordChar(s[i])
  }

  function LowerChar(c: char): char {
    if 'A' <= c <= 'Z' then (c as int + 32) as char else c
  }

  function UpperChar(c: char): char {
    if 'a' <= c <= 'z' then (c as int - 32) as char else c
  }

  /** `s.lower()` */
  function Lower(s: string): (r: string)
    ensures |r| == |s|
    ensures forall i | 0 <= i < |s| :: r[i] == LowerChar(s[i])
  {
    if s == [] then [] else [LowerChar(s[0])] + Lower(s[1..])
  }

  /** `s.upper()` */
  function Upper(s: string): (r: string)
    ensures |r| == |s|
    ensures forall i | 0 <= i < |s| :: r[i] == UpperChar(s[i])
  {
    if s == [] then [] else [UpperChar(s[0])] + Upper(s[1..])
  }

  /** Lower-casing is idempotent, so a lower-cased key looks itself up. */
  lemma LowerIdempotent(s: string)
    ensures Lower(Lower(s)) == Lower(s)
  {
    assert forall i | 0 <= i < |s| :: LowerChar(LowerChar(s[i])) == LowerChar(s[i]);
  }

  /** The ASCII characters that `str.strip()` and `str.split()` treat as whitespace: blank, tab,
      line feed, carriage return, vertical tab, form feed and the four separators 0x1C-0x1F. */
  predicate IsSpace(c: char) {
    c == ' ' || c == '\t' || c == '\n' || c == '\r' || c == '\U{B}' || c == '\U{C}'
    || '\U{1C}' <= c <= '\U{1F}'
  }

  function StripLeft(s: string): (r: string)
    ensures |r| <= |s|
    ensures r == s[|s| - |r|..]
    ensures r != [] ==> !IsSpace(r[0])
    ensures forall i | 0 <= i < |s| - |r| :: IsSpace(s[i])
  {
    if s != [] && IsSpace(s[0]) then StripLeft(s[1..]) else s
  }

  function StripRight(s: string): (r: string)
    ensures |r| <= |s|
    ensures r == s[..|r|]
    ensures r != [] ==> !IsSpace(r[|r| - 1])
    ensures forall i | |r| <= i < |s| :: IsSpace(s[i])
  {
    if s != [] && IsSpace(s[|s| - 1]) then StripRight(s[..|s| - 1]) else s
  }

  /** `r` is the slice of `s` starting at `i`, with nothing but blanks before and after it. */
  predicate TrimOf(s: string, r: string, i: nat) {
    i + |r| <= |s| && r == s[i..i + |r|]
    && (forall k | 0 <= k < i :: IsSpace(s[k]))
    && (forall k | i + |r| <= k < |s| :: IsSpace(s[k]))
  }

  /** `s.strip()`: the middle of `s`, with only the blanks at its two ends removed. */
  function Strip(s: string): (r: string)
    ensures |r| <= |s|
    ensures r != [] ==> !IsSpace(r[0]) && !IsSpace(r[|r| - 1])
    ensures exists i | 0 <= i <= |s| - |r| :: TrimOf(s, r, i)
  {
    var l := StripLeft(s);
    var r := StripRight(l);
    var i := |s| - |l|;
    assert r == s[i..i + |r|];
    assert forall k | i + |r| <= k < |s| :: s[k] == l[k - i];
    assert TrimOf(s, r, i);
    r
  }
}
