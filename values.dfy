/**
 * The cache's payload type (lru/src/value.rs): a closed sum of a boolean,
 * a machine integer and a text, with a canonical text rendering.
 * Rust's decimal integer formatting and `str::parse::<i64>` live here too,
 * since the command layer uses both.
 */
module Values {
  import opened Wrappers

  const I64Min: int := -0x8000_0000_0000_0000
  const I64Max: int := 0x7FFF_FFFF_FFFF_FFFF

  /** `isize` on a 64-bit target. */
  newtype isize = x: int | -0x8000_0000_0000_0000 <= x <= 0x7FFF_FFFF_FFFF_FFFF

  datatype Value = Bool(b: bool) | Int(n: isize) | Str(s: string)

  predicate IsDigit(c: char) { '0' <= c <= '9' }

  predicate AllDigits(s: string) { forall i :: 0 <= i < |s| ==> IsDigit(s[i]) }

  function DigitChar(d: nat): (c: char)
    requires d < 10
    ensures IsDigit(c) && c as int - '0' as int == d
  {
    ('0' as int + d) as char
  }

  /** The decimal digits of `n`, most significant first, without leading zeros. */
  function NatDigits(n: nat): (r: string)
    ensures |r| >= 1 && AllDigits(r)
    ensures r[0] == '0' <==> n == 0
    ensures n == 0 ==> r == "0"
  {
    if n < 10 then [DigitChar(n)] else NatDigits(n / 10) + [DigitChar(n % 10)]
  }

  /** The number a string of decimal digits denotes. */
  function DigitsValue(s: string): nat
    requires AllDigits(s)
  {
    if s == [] then 0
    else DigitsValue(s[..|s| - 1]) * 10 + (s[|s| - 1] as int - '0' as int)
  }

  lemma {:induction false} DigitsRoundTrip(n: nat)
    ensures DigitsValue(NatDigits(n)) == n
  {
    var r := NatDigits(n);
    if n >= 10 {
      DigitsRoundTrip(n / 10);
      assert r[..|r| - 1] == NatDigits(n / 10);
    }
  }

  /** Rust's `format!("{}", n)` for a signed integer. */
  function IntText(n: int): (r: string)
  {
    if n < 0 then "-" + NatDigits(-n) else NatDigits(n)
  }

  /**
   * Rust's `str::parse::<i64>`: an optional sign (`+` or `-`) followed by at
   * least one ASCII digit, and a value inside the 64-bit range.
   */
  function ParseI64(s: string): Option<isize>
  {
    if s == [] then None
    else
      var negative := s[0] == '-';
      var digits := if s[0] == '-' || s[0] == '+' then s[1..] else s;
      if digits == [] || !AllDigits(digits) then None
      else
        var m := if negative then -(DigitsValue(digits) as int) else DigitsValue(digits);
        if I64Min <= m <= I64Max then Some(m as isize) else None
  }

  /** `impl ToString for Value`. */
  function ToString(v: Value): string
  {
    match v
    case Bool(b) => if b then "true" else "false"
    case Int(n) => IntText(n as int)
    case Str(s) => s
  }

  /**
   * A signed integer's text is a '-' exactly for negatives, then its decimal
   * digits without a leading zero; zero is "0".
   */
  lemma IntTextShape(n: int)
    ensures var r := IntText(n);
      |r| >= 1 && (r[0] == '-' <==> n < 0) &&
      (n < 0 ==> |r| >= 2 && AllDigits(r[1..]) && r[1] != '0') &&
      (n >= 0 ==> AllDigits(r)) &&
      (n > 0 ==> r[0] != '0') && (n == 0 ==> r == "0")
  {
  }

  /** Every rendering of an `isize` parses back to the same `i64`. */
  lemma {:induction false} IntTextRoundTrip(n: isize)
    ensures ParseI64(IntText(n as int)) == Some(n)
  {
    var r := IntText(n as int);
    if n < 0 {
      var d := NatDigits(-(n as int));
      assert r == "-" + d && r[0] == '-' && r[1..] == d;
      DigitsRoundTrip(-(n as int));
    } else {
      var d := NatDigits(n as int);
      assert r == d && IsDigit(r[0]);
      DigitsRoundTrip(n as int);
    }
  }

  /** The three renderings, variant by variant; an `Int` can be read back from its text. */
  lemma {:induction false} ToStringCases(v: Value)
    ensures v.Bool? ==> ToString(v) == (if v.b then "true" else "false")
    ensures v.Int? ==> ParseI64(ToString(v)) == Some(v.n) && (ToString(v)[0] == '-' <==> v.n < 0)
    ensures v.Str? ==> ToString(v) == v.s
  {
    if v.Int? {
      IntTextRoundTrip(v.n);
      IntTextShape(v.n as int);
    }
  }

  /** A text that parses as an `i64` holds only a sign and digits, so never a NUL. */
  lemma ParsedHasNoNul(s: string)
    requires ParseI64(s).Some?
    ensures '\0' !in s
  {
    var signed := s[0] == '-' || s[0] == '+';
    var digits := if signed then s[1..] else s;
    forall i | 0 <= i < |s|
      ensures s[i] != '\0'
    {
      if signed && i > 0 {
        assert s[i] == digits[i - 1];
      } else if !signed {
        assert s[i] == digits[i];
      }
    }
  }
}
