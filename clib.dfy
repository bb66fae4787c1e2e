/**
 * The few C and C++ standard-library calls the exercises rely on, in the
 * "C" locale: the <cctype> classifications on ASCII characters, std::stoi,
 * and the built-in integer `/` and `%`, which truncate toward zero (unlike
 * Dafny's Euclidean operators).
 */
module CLib {

  /** The standard exceptions the exercises throw or let escape:
      std::invalid_argument, std::out_of_range and std::runtime_error. */
  datatype Error = InvalidArgument | OutOfRange | RuntimeError

  /** A value or the exception that replaced it. */
  datatype Result<T> = Ok(value: T) | Err(error: Error)

  /** A value, or none. */
  datatype Option<T> = None | Some(value: T)

  /** Bounds of a 32-bit `int`. */
  const INT_MIN: int := -0x8000_0000
  const INT_MAX: int := 0x7fff_ffff

  predicate IsDigit(c: char) { '0' <= c <= '9' }
  predicate IsUpper(c: char) { 'A' <= c <= 'Z' }
  predicate IsLower(c: char) { 'a' <= c <= 'z' }
  predicate IsAlnum(c: char) { IsDigit(c) || IsUpper(c) || IsLower(c) }

  /** `isspace` in the "C" locale. */
  predicate IsSpace(c: char) {
    c == ' ' || c == '\t' || c == '\n' || c == '\r' || c == '\U{B}' || c == '\U{C}'
  }

  /** `tolower`: upper-case ASCII letters map to lower case, all else is kept. */
  function ToLower(c: char): char {
    if IsUpper(c) then (c as int + 32) as char else c
  }

  function DigitValue(c: char): nat
    requires IsDigit(c)
  {
    c as int - '0' as int
  }

  predicate AllDigits(s: string) {
    forall i :: 0 <= i < |s| ==> IsDigit(s[i])
  }

  /** The decimal value of a run of digits, most significant first. */
  function DigitsValue(s: string): nat
    requires AllDigits(s)
  {
    if s == [] then 0 else DigitsValue(s[..|s| - 1]) * 10 + DigitValue(s[|s| - 1])
  }

  /** The length of the run of digits that starts `s`. */
  function DigitRun(s: string): (n: nat)
    ensures n <= |s|
  {
    if s != [] && IsDigit(s[0]) then 1 + DigitRun(s[1..]) else 0
  }

  /** The run is all digits and stops at the end or at a character that is not one. */
  lemma {:induction false} DigitRunStops(s: string)
    ensures AllDigits(s[..DigitRun(s)])
    ensures DigitRun(s) < |s| ==> !IsDigit(s[DigitRun(s)])
  {
    if s != [] && IsDigit(s[0]) {
      DigitRunStops(s[1..]);
      var n := DigitRun(s);
      assert s[..n] == [s[0]] + s[1..][..n - 1];
    }
  }

  /** `s` without its leading white space. */
  function SkipSpace(s: string): (t: string)
    ensures |t| <= |s|
  {
    if s != [] && IsSpace(s[0]) then SkipSpace(s[1..]) else s
  }

  /** What is skipped is white space, and what is left is the rest of `s`, starting at a character that is not. */
  lemma {:induction false} SkipSpaceSkips(s: string)
    ensures var t := SkipSpace(s);
      t == s[|s| - |t|..] && (t != [] ==> !IsSpace(t[0])) && forall i :: 0 <= i < |s| - |t| ==> IsSpace(s[i])
  {
    if s != [] && IsSpace(s[0]) {
      SkipSpaceSkips(s[1..]);
    }
  }

  /**
   * std::stoi in base 10: leading white space is skipped, then the number
   * that starts what is left is read.
   */
  function Stoi(s: string): Result<int> {
    if s != [] && IsSpace(s[0]) then Stoi(s[1..]) else LeadingNumber(s)
  }

  /**
   * One optional sign, then the longest run of digits; anything after it is
   * ignored. No digit at all throws std::invalid_argument, a value outside
   * `int` throws std::out_of_range.
   */
  function LeadingNumber(t: string): Result<int> {
    var signed := t != [] && (t[0] == '-' || t[0] == '+');
    var rest := if signed then t[1..] else t;
    var n := DigitRun(rest);
    DigitRunStops(rest);
    if n == 0 then Err(InvalidArgument)
    else
      var magnitude := DigitsValue(rest[..n]);
      var v: int := if signed && t[0] == '-' then 0 - magnitude as int else magnitude as int;
      if v < INT_MIN || v > INT_MAX then Err(OutOfRange) else Ok(v)
  }

  /** A digit string followed by something that is not a digit reads as its value. */
  lemma StoiOfDigits(d: string, rest: string)
    requires d != [] && AllDigits(d) && DigitsValue(d) <= INT_MAX
    requires rest == [] || !IsDigit(rest[0])
    ensures Stoi(d + rest) == Ok(DigitsValue(d))
  {
    var s := d + rest;
    assert s[0] == d[0];
    DigitRunOfDigits(d, rest);
    assert s[..|d|] == d;
  }

  lemma {:induction false} DigitRunOfDigits(d: string, rest: string)
    requires AllDigits(d)
    requires rest == [] || !IsDigit(rest[0])
    ensures DigitRun(d + rest) == |d|
  {
    if d != [] {
      assert (d + rest)[1..] == d[1..] + rest;
      DigitRunOfDigits(d[1..], rest);
    }
  }

  /** stoi of a string of digits alone: its value, or std::out_of_range when that exceeds `int`. */
  lemma StoiAllDigits(d: string)
    requires d != [] && AllDigits(d)
    ensures Stoi(d) == if DigitsValue(d) <= INT_MAX then Ok(DigitsValue(d) as int) else Err(OutOfRange)
  {
    DigitRunOfDigits(d, []);
    assert d + [] == d;
    assert d[..|d|] == d;
  }

  /** A string that starts with `k` digits has a run of at least `k`. */
  lemma {:induction false} DigitRunAtLeast(s: string, k: nat)
    requires k <= |s| && AllDigits(s[..k])
    ensures DigitRun(s) >= k
  {
    if k > 0 {
      assert s[0] == s[..k][0];
      assert s[1..][..k - 1] == s[..k][1..];
      DigitRunAtLeast(s[1..], k - 1);
    }
  }

  /** Appending a digit multiplies the value so far by ten and adds it. */
  lemma DigitsValueAppend(d: string, c: char)
    requires AllDigits(d) && IsDigit(c)
    ensures AllDigits(d + [c]) && DigitsValue(d + [c]) == DigitsValue(d) * 10 + DigitValue(c)
  {
    assert (d + [c])[..|d|] == d;
  }

  /** A longer run of digits never has a smaller value. */
  lemma {:induction false} DigitsValuePrefix(d: string, k: nat)
    requires AllDigits(d) && k <= |d|
    ensures AllDigits(d[..k]) && DigitsValue(d[..k]) <= DigitsValue(d)
  {
    if k < |d| {
      DigitsValuePrefix(d[..|d| - 1], k);
      assert d[..|d| - 1][..k] == d[..k];
    } else {
      assert d[..k] == d;
    }
  }

  function Abs(x: int): nat { if x < 0 then -x else x }

  /** C++ integer division: the quotient truncated toward zero. */
  function TruncDiv(a: int, b: int): (q: int)
    requires b != 0
    ensures Abs(q) == Abs(a) / Abs(b)
    ensures q != 0 ==> ((q > 0) <==> ((a > 0) == (b > 0)))
  {
    var m := Abs(a) / Abs(b);
    assert a == 0 ==> m == 0;
    if (a < 0) != (b < 0) then -m else m
  }

  /**
   * C++ `%`: what is left after truncating division, so that
   * `a == b * (a / b) + a % b`; it has the sign of `a` and is smaller than `b`
   * in magnitude.
   */
  function TruncRem(a: int, b: int): (r: int)
    requires b != 0
    ensures a == b * TruncDiv(a, b) + r
    ensures Abs(r) < Abs(b)
    ensures r != 0 ==> ((r > 0) <==> (a > 0))
  {
    a - b * TruncDiv(a, b)
  }
}
