/** Decimal job ids: what fmt.Sprintf("%v", i) writes and strconv.ParseInt(s, 10, 64) reads. */
module Decimals {
  import opened Prelude

  const MAX_INT64 := 0x7FFF_FFFF_FFFF_FFFF

  function Digit(d: nat): char
    requires d < 10
  {
    (d + '0' as int) as char
  }

  function Decimal(n: nat): (s: string)
    ensures s != [] && '0' <= s[0] <= '9'
  {
    if n < 10 then [Digit(n)] else Decimal(n / 10) + [Digit(n % 10)]
  }

  function Digits(s: string): Option<nat> {
    if s == [] then Some(0)
    else
      var front, last := Digits(s[..|s| - 1]), s[|s| - 1];
      if front.Some? && '0' <= last <= '9' then Some(front.value * 10 + (last as int - '0' as int)) else None
  }

  function ParseInt64(s: string): Option<int> {
    if s == [] then None
    else
      var signed := s[0] == '-' || s[0] == '+';
      var digits := if signed then s[1..] else s;
      var magnitude := if digits == [] then None else Digits(digits);
      if magnitude.None? then None
      else
        var value := if s[0] == '-' then -(magnitude.value as int) else magnitude.value;
        if -MAX_INT64 - 1 <= value <= MAX_INT64 then Some(value) else None
  }

  lemma {:induction false} DigitsOfDecimal(n: nat)
    ensures Digits(Decimal(n)) == Some(n)
  {
    if n < 10 {
      assert Decimal(n)[..0] == [] && Digits([]) == Some(0);
    } else {
      DigitsOfDecimal(n / 10);
      var s := Decimal(n);
      assert s[..|s| - 1] == Decimal(n / 10);
    }
  }

  /** An id is read back as the number it was written from exactly when that fits an int64. */
  lemma {:induction false} ParseReadsDecimal(n: nat)
    ensures ParseInt64(Decimal(n)) == if n <= MAX_INT64 then Some(n) else None
  {
    DigitsOfDecimal(n);
  }

  function Pow10(i: nat): nat {
    if i == 0 then 1 else 10 * Pow10(i - 1)
  }

  lemma {:induction false} DivideTwice(n: nat, p: nat)
    requires p > 0
    ensures 10 * p > 0 && n / 10 / p == n / (10 * p)
  {
    var m := n / 10;
    var q, r := m / p, m % p;
    assert m == q * p + r && n == 10 * m + n % 10;
    var rest := 10 * r + n % 10;
    assert n == q * (10 * p) + rest && 0 <= rest < 10 * p;
    QuotientIs(n, 10 * p, q, rest);
  }

  lemma {:induction false} QuotientIs(n: nat, d: nat, q: nat, rest: nat)
    requires d > 0 && n == q * d + rest && rest < d
    ensures n / d == q
  {
    var k := n / d;
    assert n == k * d + n % d;
    ProductsGrow(q, k, d);
    ProductsGrow(k, q, d);
  }

  lemma {:induction false} PowersArePositive(i: nat)
    ensures Pow10(i) > 0
  {
    if i > 0 {
      PowersArePositive(i - 1);
    }
  }

  /** The i-th character from the right is the digit of the i-th power of ten, and no zero leads. */
  lemma {:induction false} DecimalShowsDigits(n: nat, i: nat)
    requires i < |Decimal(n)|
    ensures Pow10(i) > 0
    ensures Decimal(n)[|Decimal(n)| - 1 - i] as int == '0' as int + n / Pow10(i) % 10
    ensures n > 0 ==> Decimal(n)[0] != '0'
  {
    PowersArePositive(i);
    if n >= 10 {
      if i == 0 {
        DecimalShowsDigits(n / 10, 0);
      } else {
        DecimalShowsDigits(n / 10, i - 1);
        PowersArePositive(i - 1);
        DivideTwice(n, Pow10(i - 1));
      }
    }
  }
}
