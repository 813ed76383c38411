/** The part of Go's `strconv` package that node-id parsing relies on:
    `Atoi` (decimal string to `int`, 64-bit platform) and its inverse `Itoa`.
    `Atoi` accepts an optional `+` or `-` followed by one or more ASCII digits;
    anything else is a syntax error, and a value outside int64 is a range error. */
module Strconv {
  import opened GoTypes

  const MaxUint64: int := 0xFFFF_FFFF_FFFF_FFFF

  /** The `Err` field of Go's `*strconv.NumError`. */
  datatype NumErrorKind = ErrSyntax | ErrRange

  /** Go's `*strconv.NumError`: the offending input and what was wrong with it. */
  datatype NumError = NumError(num: string, err: NumErrorKind)

  predicate IsDigit(c: char) {
    '0' <= c <= '9'
  }

  predicate AllDigits(s: string) {
    forall i | 0 <= i < |s| :: IsDigit(s[i])
  }

  function DigitValue(c: char): (d: nat)
    requires IsDigit(c)
    ensures d < 10
  {
    c as int - '0' as int
  }

  function DigitChar(d: nat): (c: char)
    requires d < 10
    ensures IsDigit(c) && DigitValue(c) == d
  {
    ('0' as int + d) as char
  }

  /** The number a digit string denotes, most significant digit first. */
  function Value(s: string): nat
    requires AllDigits(s)
  {
    if s == [] then 0 else Value(s[..|s| - 1]) * 10 + DigitValue(s[|s| - 1])
  }

  /** The digit loop of Go's `ParseUint` for base 10, starting from the
      accumulated value `acc`: a non-digit is a syntax error at once, and a digit
      that would take the value past the largest uint64 is a range error at once. */
  function ScanDigits(s: string, acc: nat): Result<nat, NumErrorKind>
  {
    if s == [] then Ok(acc)
    else if !IsDigit(s[0]) then Err(ErrSyntax)
    else if acc * 10 + DigitValue(s[0]) > MaxUint64 then Err(ErrRange)
    else ScanDigits(s[1..], acc * 10 + DigitValue(s[0]))
  }

  /** `strconv.Atoi` on a 64-bit platform. Go takes a fast path for inputs shorter
      than 19 bytes and `ParseInt(s, 10, 0)` otherwise; the fast path never
      overflows, so both paths are this one definition. */
  function Atoi(s: string): Result<int64, NumError>
  {
    if s == [] then Err(NumError(s, ErrSyntax))
    else
      var neg := s[0] == '-';
      var digits := Unsigned(s);
      if digits == [] then Err(NumError(s, ErrSyntax))
      else match ScanDigits(digits, 0)
        case Err(kind) => Err(NumError(s, kind))
        case Ok(u) =>
          if !neg && u >= TwoTo63 then Err(NumError(s, ErrRange))
          else if neg && u > TwoTo63 then Err(NumError(s, ErrRange))
          else Ok(if neg then -(u as int) else u as int)
  }

  /** `s` without its leading sign, if it has one. */
  function Unsigned(s: string): (d: string)
    ensures |d| <= |s|
  {
    if s != [] && (s[0] == '-' || s[0] == '+') then s[1..] else s
  }

  /** Reference syntax for what `Atoi` accepts: an optional sign, then digits. */
  predicate IsDecimal(s: string) {
    s != [] && Unsigned(s) != [] && AllDigits(Unsigned(s))
  }

  /** The integer a decimal string denotes, ignoring every width limit. */
  function SignedValue(s: string): int
    requires IsDecimal(s)
  {
    if s[0] == '-' then -(Value(Unsigned(s)) as int) else Value(Unsigned(s))
  }

  /** `strconv.Itoa` for non-negative values: shortest decimal, no sign. */
  function Decimal(n: nat): (s: string)
    ensures s != [] && AllDigits(s) && Value(s) == n
  {
    if n < 10 then [DigitChar(n)]
    else
      var s := Decimal(n / 10) + [DigitChar(n % 10)];
      assert s[..|s| - 1] == Decimal(n / 10);
      s
  }

  /** `strconv.Itoa`. */
  function Itoa(i: int): string {
    if i < 0 then "-" + Decimal(-i) else Decimal(i)
  }

  /** Appending digits never makes a digit string denote less. */
  lemma {:induction false} ValueMonotone(p: string, q: string)
    requires AllDigits(p) && AllDigits(q)
    ensures AllDigits(p + q) && Value(p) <= Value(p + q)
    decreases |q|
  {
    if q == [] {
      assert p + q == p;
    } else {
      var q' := q[..|q| - 1];
      assert (p + q)[..|p + q| - 1] == p + q';
      ValueMonotone(p, q');
    }
  }

  /** The digit loop, started after the digits `p` were consumed, accepts the rest
      `s` exactly when `s` is all digits and the whole number fits a uint64, and
      then yields that number. */
  lemma {:induction false} ScanDigitsValue(p: string, s: string)
    requires AllDigits(p) && Value(p) <= MaxUint64
    ensures AllDigits(s) ==> AllDigits(p + s)
    ensures ScanDigits(s, Value(p)).Ok? ==> AllDigits(s) && ScanDigits(s, Value(p)).value == Value(p + s)
    ensures AllDigits(s) ==> (ScanDigits(s, Value(p)).Ok? <==> Value(p + s) <= MaxUint64)
    ensures AllDigits(s) && ScanDigits(s, Value(p)).Err? ==> ScanDigits(s, Value(p)).error == ErrRange
    decreases |s|
  {
    if s == [] {
      assert p + s == p;
    } else if IsDigit(s[0]) {
      var p' := p + [s[0]];
      assert p'[..|p'| - 1] == p;
      assert p' + s[1..] == p + s;
      if Value(p') > MaxUint64 {
        if AllDigits(s) {
          ValueMonotone(p', s[1..]);
        }
      } else {
        ScanDigitsValue(p', s[1..]);
      }
    }
  }

  /** `Atoi` succeeds exactly on decimal strings whose value fits int64, and then
      returns that value; a well-formed string that does not fit is a range error;
      every error names the whole input. */
  lemma AtoiMeaning(s: string)
    ensures Atoi(s).Ok? <==> IsDecimal(s) && -TwoTo63 <= SignedValue(s) < TwoTo63
    ensures Atoi(s).Ok? ==> Atoi(s).value == SignedValue(s)
    ensures IsDecimal(s) && Atoi(s).Err? ==> Atoi(s).error.err == ErrRange
    ensures Atoi(s).Err? ==> Atoi(s).error.num == s
  {
    if s != [] && Unsigned(s) != [] {
      assert [] + Unsigned(s) == Unsigned(s);
      ScanDigitsValue([], Unsigned(s));
    }
  }

  /** `Itoa` writes a decimal string that denotes its argument. */
  lemma ItoaDecimal(i: int)
    ensures IsDecimal(Itoa(i)) && SignedValue(Itoa(i)) == i
  {
  }

  /** `Atoi` inverts `Itoa` on every int64. */
  lemma AtoiItoa(i: int64)
    ensures Atoi(Itoa(i)) == Ok(i)
  {
    ItoaDecimal(i);
    AtoiMeaning(Itoa(i));
  }
}
