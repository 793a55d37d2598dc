/** Go's strconv.Atoi on a 64-bit platform: an optional '+' or '-' sign
    followed by one or more ASCII decimal digits, within the range of int64. */
module Strconv {

  const MaxInt64: int := 0x7fff_ffff_ffff_ffff
  const MinInt64: int := -0x8000_0000_0000_0000

  /** What Atoi reports: a value, a syntax error (Go returns 0 with it) or a
      range error (Go returns the nearest int64 bound with it). */
  datatype AtoiResult = Ok(value: int) | SyntaxError | RangeError(clamped: int)

  predicate IsDigit(c: char) {
    '0' <= c <= '9'
  }

  predicate AllDigits(s: string) {
    forall i :: 0 <= i < |s| ==> IsDigit(s[i])
  }

  /** The value of a string of decimal digits, most significant first. */
  function DigitsValue(s: string): nat
    requires AllDigits(s)
  {
    if s == [] then 0
    else DigitsValue(s[..|s| - 1]) * 10 + (s[|s| - 1] as int - '0' as int)
  }

  function Atoi(s: string): (r: AtoiResult)
    ensures r.Ok? ==> MinInt64 <= r.value <= MaxInt64
    ensures r.RangeError? ==> r.clamped == MaxInt64 || r.clamped == MinInt64
    ensures r.RangeError? ==> |s| > 0 && (r.clamped == MinInt64 <==> s[0] == '-')
    ensures s == [] ==> r == SyntaxError
    ensures !r.SyntaxError? ==> exists i :: 0 <= i < |s| && IsDigit(s[i])
  {
    if s == [] then SyntaxError
    else
      var negative := s[0] == '-';
      var digits := if s[0] == '-' || s[0] == '+' then s[1..] else s;
      if digits == [] || !AllDigits(digits) then SyntaxError
      else
        assert IsDigit(s[|s| - 1]) by { assert s[|s| - 1] == digits[|digits| - 1]; }
        var n: int := DigitsValue(digits);
        var v: int := if negative then -n else n;
        if v > MaxInt64 then RangeError(MaxInt64)
        else if v < MinInt64 then RangeError(MinInt64)
        else Ok(v)
  }

  /** The value Atoi returns when the caller discards its error (`v, _ := strconv.Atoi(s)`). */
  function AtoiIgnoringError(s: string): (v: int)
    ensures MinInt64 <= v <= MaxInt64
    ensures Atoi(s).SyntaxError? ==> v == 0
    ensures Atoi(s).Ok? ==> v == Atoi(s).value
    ensures Atoi(s).RangeError? ==> v == Atoi(s).clamped
  {
    match Atoi(s)
    case Ok(n) => n
    case SyntaxError => 0
    case RangeError(c) => c
  }

  /** The canonical decimal rendering of a natural number (Go's strconv.Itoa). */
  function Decimal(n: nat): (s: string)
    ensures |s| > 0 && AllDigits(s)
  {
    var d := ['0' + (n % 10) as char];
    if n < 10 then d else Decimal(n / 10) + d
  }

  lemma {:induction false} DecimalValue(n: nat)
    ensures DigitsValue(Decimal(n)) == n
  {
    var s := Decimal(n);
    if n >= 10 {
      DecimalValue(n / 10);
      assert s[..|s| - 1] == Decimal(n / 10);
    }
  }

  /** Atoi accepts every rendered int64 and returns it unchanged. */
  lemma AtoiDecimal(n: int)
    requires MinInt64 <= n <= MaxInt64
    ensures n >= 0 ==> Atoi(Decimal(n)) == Ok(n)
    ensures n < 0 ==> Atoi("-" + Decimal(-n)) == Ok(n)
  {
    if n >= 0 {
      DecimalValue(n);
      assert Decimal(n)[0] != '-' && Decimal(n)[0] != '+' by { assert IsDigit(Decimal(n)[0]); }
    } else {
      DecimalValue(-n);
      assert ("-" + Decimal(-n))[1..] == Decimal(-n);
    }
  }

  /** A string with a character that is neither a digit nor a leading sign is
      a syntax error, whatever else it contains. */
  lemma NonNumericIsSyntaxError(s: string, i: nat)
    requires i < |s| && !IsDigit(s[i])
    requires i > 0 || (s[0] != '+' && s[0] != '-')
    ensures Atoi(s) == SyntaxError
    ensures AtoiIgnoringError(s) == 0
  {
    var digits := if s[0] == '-' || s[0] == '+' then s[1..] else s;
    if s[0] == '-' || s[0] == '+' {
      assert digits[i - 1] == s[i];
    }
  }
}
