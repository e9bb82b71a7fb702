/**
 * The few C library string routines the firmware relies on, stated over
 * Dafny strings. A C string held in a buffer is a `seq<char>` that holds a
 * NUL; a string passed by value is the characters before its NUL.
 * `char` is unsigned on the target, so every character is in 0..255.
 */
module CText {

  const NUL: char := 0 as char

  /** `strlen`: the index of the first NUL, or the whole buffer if none. */
  function StrLen(s: seq<char>): (n: nat)
    ensures n <= |s|
    ensures forall i :: 0 <= i < n ==> s[i] != NUL
    ensures n < |s| ==> s[n] == NUL
  {
    if s == [] then 0 else if s[0] == NUL then 0 else 1 + StrLen(s[1..])
  }

  /** A buffer whose first n characters are not NUL and whose n-th is has
   *  length n as a C string. */
  lemma StrLenAt(b: seq<char>, n: nat)
    requires n <= |b| && (n < |b| ==> b[n] == NUL) && forall i :: 0 <= i < n ==> b[i] != NUL
    ensures StrLen(b) == n
  {
  }

  /** The C string held in a buffer: the characters before the first NUL. */
  function CStr(s: seq<char>): string
  {
    s[..StrLen(s)]
  }

  predicate IsDigit(c: char) { '0' <= c <= '9' }

  /** `isspace` in the C locale: space, tab, line feed, vertical tab, form feed, carriage return. */
  predicate IsSpace(c: char) { c == ' ' || ('\t' <= c <= '\r') }

  /** `ispunct` in the C locale: printable, not alphanumeric, not space. */
  predicate IsPunct(c: char)
  {
    (33 <= c as int <= 47) || (58 <= c as int <= 64) || (91 <= c as int <= 96) || (123 <= c as int <= 126)
  }

  /** Length of the run of decimal digits at the start of `s`. */
  function DigitRun(s: string): (n: nat)
    ensures n <= |s|
    ensures forall i :: 0 <= i < n ==> IsDigit(s[i])
    ensures n < |s| ==> !IsDigit(s[n])
  {
    if s != [] && IsDigit(s[0]) then 1 + DigitRun(s[1..]) else 0
  }

  /** Decimal value of a string of digits, most significant first. */
  function DecValue(d: string): nat
    requires forall i :: 0 <= i < |d| ==> IsDigit(d[i])
  {
    if d == [] then 0
    else
      var c := d[|d| - 1];
      assert IsDigit(c);
      DecValue(d[..|d| - 1]) * 10 + (c as int - '0' as int)
  }

  /** Length of the run of white space at the start of `s`. */
  function SpaceRun(s: string): (n: nat)
    ensures n <= |s|
    ensures n < |s| ==> !IsSpace(s[n])
  {
    if s != [] && IsSpace(s[0]) then 1 + SpaceRun(s[1..]) else 0
  }

  /** `atoi`: optional white space, an optional sign, then decimal digits.
   *  The value is exact; C leaves an overflowing `int` undefined. */
  function Atoi(s: string): int
  {
    var t := s[SpaceRun(s)..];
    var neg := t != [] && t[0] == '-';
    var u := if t != [] && (t[0] == '-' || t[0] == '+') then t[1..] else t;
    var v: int := DecValue(u[..DigitRun(u)]);
    if neg then -v else v
  }

  /** The character as `tolower` gives it in the C locale. */
  function ToLower(c: char): char
  {
    if 'A' <= c <= 'Z' then (c as int + 32) as char else c
  }

  /** `strcasecmp( a, b ) == 0`: equal after folding ASCII letters. */
  predicate StrCaseEq(a: string, b: string)
  {
    |a| == |b| && forall i :: 0 <= i < |a| ==> ToLower(a[i]) == ToLower(b[i])
  }

  /** Two decimal digits, as `%02u` prints a value below 100. */
  function Digits2(v: nat): (r: string)
    requires v < 100
    ensures |r| == 2 && IsDigit(r[0]) && IsDigit(r[1])
  {
    [(48 + v / 10) as char, (48 + v % 10) as char]
  }

  /** Four decimal digits, as `%04u` prints a value below 10000. */
  function Digits4(v: nat): (r: string)
    requires v < 10000
    ensures |r| == 4 && forall i :: 0 <= i < 4 ==> IsDigit(r[i])
  {
    Digits2(v / 100) + Digits2(v % 100)
  }

  lemma DecValueDigits2(v: nat)
    requires v < 100
    ensures DecValue(Digits2(v)) == v
  {
    var d := Digits2(v);
    assert d[..|d| - 1] == d[..1];
    assert d[..1][..0] == [];
    assert DecValue(d[..1]) == v / 10;
  }

  lemma DecValueDigits4(v: nat)
    requires v < 10000
    ensures DecValue(Digits4(v)) == v
  {
    var d := Digits4(v);
    var a, b := Digits2(v / 100), Digits2(v % 100);
    assert d[..3][..2] == a && d[..3][2] == b[0] && d[3] == b[1];
    assert d[..2] == a;
    assert d[..3][..|d[..3]| - 1] == a;
    assert d[..|d| - 1] == d[..3];
    DecValueDigits2(v / 100);
  }

  /** `atoi` reads back two printed digits when a non-digit follows them. */
  lemma {:induction false} AtoiDigits2(v: nat, rest: string)
    requires v < 100
    requires rest == [] || !IsDigit(rest[0])
    ensures Atoi(Digits2(v) + rest) == v
  {
    var s := Digits2(v) + rest;
    assert SpaceRun(s) == 0;
    assert s[0..] == s;
    assert DigitRun(s[1..][1..]) == 0 by { assert s[1..][1..] == rest; }
    assert DigitRun(s) == 2;
    assert s[..2] == Digits2(v);
    DecValueDigits2(v);
  }

  /** The same for four printed digits. */
  lemma {:induction false} AtoiDigits4(v: nat, rest: string)
    requires v < 10000
    requires rest == [] || !IsDigit(rest[0])
    ensures Atoi(Digits4(v) + rest) == v
  {
    var s := Digits4(v) + rest;
    assert SpaceRun(s) == 0;
    assert s[0..] == s;
    assert s[1..][1..][1..][1..] == rest;
    assert DigitRun(s) == 4;
    assert s[..4] == Digits4(v);
    DecValueDigits4(v);
  }
}
