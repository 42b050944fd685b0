/** Python's `round(x, d)` on exact rationals and the `f"{x:.2f}"` rendering of a value
    held in integer hundredths. */
module Decimal {

  /** `round(num / den)`: the nearest integer, ties to the even neighbour (Python's
      banker's rounding). */
  function RoundHalfEven(num: int, den: nat): (r: int)
    requires den > 0
    ensures -(den as int) <= 2 * (r * den - num) <= den
    ensures 2 * (r * den - num) == den ==> r % 2 == 0
    ensures 2 * (r * den - num) == -(den as int) ==> r % 2 == 0
  {
    var q := num / den;
    var rem := num % den;
    assert num == q * den + rem;
    assert (q + 1) * den - num == den - rem;
    if 2 * rem < den then q
    else if 2 * rem > den then q + 1
    else if q % 2 == 0 then q
    else q + 1
  }

  /** The postconditions of `RoundHalfEven` leave exactly one candidate. */
  lemma RoundHalfEvenUnique(num: int, den: nat, r: int)
    requires den > 0
    requires -(den as int) <= 2 * (r * den - num) <= den
    requires 2 * (r * den - num) == den ==> r % 2 == 0
    requires 2 * (r * den - num) == -(den as int) ==> r % 2 == 0
    ensures r == RoundHalfEven(num, den)
  {
    SameRounding(num, den, r, RoundHalfEven(num, den));
  }

  /** Two integers that both meet the rounding contract are equal. */
  lemma SameRounding(num: int, den: nat, r: int, e: int)
    requires den > 0
    requires -(den as int) <= 2 * (r * den - num) <= den
    requires 2 * (r * den - num) == den ==> r % 2 == 0
    requires 2 * (r * den - num) == -(den as int) ==> r % 2 == 0
    requires -(den as int) <= 2 * (e * den - num) <= den
    requires 2 * (e * den - num) == den ==> e % 2 == 0
    requires 2 * (e * den - num) == -(den as int) ==> e % 2 == 0
    ensures r == e
  {
    var d := r - e;
    var a, b := r * den - num, e * den - num;
    assert a - b == d * den by {
      assert r * den - e * den == (r - e) * den;
    }
    CancelBound(d, den);
    assert d == 1 ==> 2 * a == den && 2 * b == -(den as int);
    assert d == -1 ==> 2 * b == den && 2 * a == -(den as int);
    assert d != 1 && d != -1;
  }

  /** A multiple of a positive `den` lying within `den` of zero has a factor in [-1, 1]. */
  lemma CancelBound(d: int, den: nat)
    requires den > 0 && -(den as int) <= d * den <= den
    ensures -1 <= d <= 1
  {
  }

  predicate IsDigit(c: char) {
    '0' <= c <= '9'
  }

  function DigitChar(d: nat): (c: char)
    requires d < 10
    ensures IsDigit(c) && c as int - '0' as int == d
  {
    (d + '0' as int) as char
  }

  /** The number a string of decimal digits denotes. */
  function DecimalValue(s: string): nat
    requires forall i :: 0 <= i < |s| ==> IsDigit(s[i])
  {
    if s == [] then 0
    else
      assert IsDigit(s[|s| - 1]);
      DecimalValue(s[..|s| - 1]) * 10 + (s[|s| - 1] as int - '0' as int)
  }

  /** `str(n)` for a natural number: its shortest decimal digits. */
  function NatToDecimal(n: nat): (r: string)
    ensures |r| >= 1
    ensures forall i :: 0 <= i < |r| ==> IsDigit(r[i])
    ensures DecimalValue(r) == n
    ensures r[0] == '0' ==> r == "0"
  {
    if n < 10 then [DigitChar(n)]
    else
      var r := NatToDecimal(n / 10) + [DigitChar(n % 10)];
      assert r[..|r| - 1] == NatToDecimal(n / 10);
      r
  }

  /** `f"{h / 100:.2f}"` for a value `h` held in integer hundredths: an optional minus
      sign, the whole part (no leading zero unless it is "0"), a point and exactly two
      decimals. */
  function FormatHundredths(h: int): (r: string)
    ensures |r| >= 4 && r[|r| - 3] == '.'
    ensures IsDigit(r[|r| - 2]) && IsDigit(r[|r| - 1])
    ensures (r[0] == '-') <==> h < 0
    ensures var whole := if h < 0 then r[1..|r| - 3] else r[..|r| - 3];
            |whole| >= 1 && (whole[0] == '0' ==> whole == "0") &&
            (forall i :: 0 <= i < |whole| ==> IsDigit(whole[i])) &&
            DecimalValue(whole) * 100 + (r[|r| - 2] as int - '0' as int) * 10
              + (r[|r| - 1] as int - '0' as int) == if h < 0 then -h else h
  {
    var a: nat := if h < 0 then -h else h;
    var sign := if h < 0 then "-" else "";
    var whole := NatToDecimal(a / 100);
    var d1, d2 := DigitChar(a / 10 % 10), DigitChar(a % 10);
    var r := sign + whole + "." + [d1, d2];
    assert r[|r| - 3] == '.' && r[|r| - 2] == d1 && r[|r| - 1] == d2;
    assert r[|sign|..|r| - 3] == whole;
    assert r[0] == if h < 0 then '-' else whole[0];
    HundredthsDigits(a);
    r
  }

  /** A natural number is its hundreds, tens and units recombined. */
  lemma HundredthsDigits(a: nat)
    ensures a / 100 * 100 + a / 10 % 10 * 10 + a % 10 == a
  {
    assert a == a / 10 * 10 + a % 10;
    assert a / 10 == a / 10 / 10 * 10 + a / 10 % 10;
    assert a / 10 / 10 == a / 100;
  }
}
