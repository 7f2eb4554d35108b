/** The source's `i32`: its range, Rust's truncating division, and the
    decimal grammar `str::parse::<i32>` accepts (an optional sign followed by
    one or more ASCII digits, whose value must fit the range). */
module Int32 {
  import opened Wrappers

  const MIN: int := -0x8000_0000
  const MAX: int := 0x7FFF_FFFF

  predicate InRange(n: int) {
    MIN <= n <= MAX
  }

  function Abs(n: int): nat {
    if n < 0 then -n else n
  }

  /** The product, as repeated addition: kept recursive so that unfolding
      one interpreter step does not confront the solver with a nonlinear
      term it has no use for. */
  function Mul(a: int, b: int): int
    decreases Abs(b)
  {
    if b == 0 then 0
    else if b > 0 then Mul(a, b - 1) + a
    else Mul(a, b + 1) - a
  }

  /** Repeated addition is multiplication. */
  lemma {:induction false} MulIsProduct(a: int, b: int)
    ensures Mul(a, b) == a * b
    decreases Abs(b)
  {
    if b > 0 {
      MulIsProduct(a, b - 1);
    } else if b < 0 {
      MulIsProduct(a, b + 1);
    }
  }

  /** Rust's `/` on integers: the quotient rounded toward zero. Dafny's own
      `/` is Euclidean and disagrees for a negative dividend. */
  function TruncDiv(y: int, x: int): int
    requires x != 0
  {
    var a := Abs(y) / Abs(x);
    if (y < 0) == (x < 0) then a else -(a as int)
  }

  /** The truncated quotient leaves a remainder smaller than the divisor in
      magnitude and carrying the dividend's sign, and its product with the
      divisor does not exceed the dividend in magnitude. */
  lemma TruncDivSpec(y: int, x: int)
    requires x != 0
    ensures Abs(y - TruncDiv(y, x) * x) < Abs(x)
    ensures y - TruncDiv(y, x) * x == 0 || (y - TruncDiv(y, x) * x < 0 <==> y < 0)
    ensures Abs(TruncDiv(y, x) * x) <= Abs(y)
  {
    var a := Abs(y) / Abs(x);
    var q := if (y < 0) == (x < 0) then a else -(a as int);
    assert TruncDiv(y, x) == q;
    TruncDivSplit(y, x, a, q);
  }

  /** The quotient's magnitude is that of the Euclidean quotient of the
      magnitudes; its sign follows the operands' signs. */
  lemma TruncDivSplit(y: int, x: int, a: nat, q: int)
    requires x != 0 && a == Abs(y) / Abs(x)
    requires q == if (y < 0) == (x < 0) then a else -(a as int)
    ensures Abs(y - q * x) < Abs(x)
    ensures y - q * x == 0 || (y - q * x < 0 <==> y < 0)
    ensures Abs(q * x) <= Abs(y)
  {
    var ax: int := Abs(x);
    var m := a * ax;
    assert Abs(y) == m + Abs(y) % ax && 0 <= Abs(y) % ax < ax && m >= 0;
    ProductSign(y, x, a, q);
  }

  /** The product `q * x` has the magnitude `a * |x|` and the sign of `y`. */
  lemma ProductSign(y: int, x: int, a: nat, q: int)
    requires x != 0
    requires q == if (y < 0) == (x < 0) then a else -(a as int)
    ensures q * x == (if y < 0 then -(a * Abs(x)) else a * Abs(x))
  {
    var ax: int := Abs(x);
    var ai: int := a;
    if x < 0 {
      assert x == -ax;
      if y < 0 {
        assert ai * -ax == -(ai * ax);
      } else {
        assert -ai * -ax == ai * ax;
      }
    } else if y < 0 {
      assert -ai * ax == -(ai * ax);
    }
  }

  /** Truncating and Euclidean division agree for a non-negative dividend
      and a positive divisor. */
  lemma TruncDivNonNegative(y: nat, x: int)
    requires x > 0
    ensures TruncDiv(y, x) == y / x
  {
  }

  predicate IsDigit(c: char) {
    '0' <= c <= '9'
  }

  predicate AllDigits(s: string) {
    forall i :: 0 <= i < |s| ==> IsDigit(s[i])
  }

  function DigitValue(c: char): nat
    requires IsDigit(c)
  {
    c as int - '0' as int
  }

  function DigitChar(d: nat): (c: char)
    requires d < 10
    ensures IsDigit(c) && DigitValue(c) == d
  {
    (d + '0' as int) as char
  }

  /** The value of a string of decimal digits, most significant first. */
  function DigitsValue(s: string): nat
    requires AllDigits(s)
  {
    if |s| == 0 then 0
    else DigitsValue(s[..|s| - 1]) * 10 + DigitValue(s[|s| - 1])
  }

  /** The shortest decimal spelling of `n`. */
  function ShowNat(n: nat): (s: string)
    ensures |s| > 0 && AllDigits(s)
  {
    if n < 10 then [DigitChar(n)]
    else ShowNat(n / 10) + [DigitChar(n % 10)]
  }

  function ShowInt(n: int): (s: string)
    ensures |s| > 0
  {
    if n < 0 then "-" + ShowNat(-n) else ShowNat(n)
  }

  /** A numeral without its sign, if it has one. */
  function Magnitude(s: string): string
    requires |s| > 0
  {
    if s[0] == '+' || s[0] == '-' then s[1..] else s
  }

  /** A magnitude with the sign character `c` applied. */
  function WithSign(c: char, n: nat): int {
    if c == '-' then -(n as int) else n
  }

  /** `str::parse::<i32>`: `+` or `-` at most once in front, then at least one
      digit and nothing else; the value must lie in the `i32` range. */
  function ParseI32(s: string): (r: Option<int>)
    ensures r.Some? ==> InRange(r.value)
    ensures r.Some? ==> |s| > 0 && |Magnitude(s)| > 0 && AllDigits(Magnitude(s))
    ensures r.Some? ==> r.value == WithSign(s[0], DigitsValue(Magnitude(s)))
  {
    if |s| == 0 then None
    else
      var ds := Magnitude(s);
      if |ds| == 0 || !AllDigits(ds) then None
      else
        var v := WithSign(s[0], DigitsValue(ds));
        if InRange(v) then Some(v) else None
  }

  lemma {:induction false} ShowNatValue(n: nat)
    ensures DigitsValue(ShowNat(n)) == n
  {
    var s := ShowNat(n);
    if n >= 10 {
      ShowNatValue(n / 10);
      assert s[..|s| - 1] == ShowNat(n / 10);
    }
  }

  /** Printing an in-range integer and parsing it back gives the integer. */
  lemma ParseShow(n: int)
    requires InRange(n)
    ensures ParseI32(ShowInt(n)) == Some(n)
  {
    if n < 0 {
      ShowNatValue(-n);
      assert ShowInt(n) == ['-'] + ShowNat(-n);
      ParseSigned('-', ShowNat(-n));
    } else {
      ShowNatValue(n);
      ParseUnsigned(ShowNat(n));
    }
  }

  /** The parser accepts every unsigned numeral whose value is in range. */
  lemma ParseUnsigned(ds: string)
    requires |ds| > 0 && AllDigits(ds) && InRange(DigitsValue(ds))
    ensures ParseI32(ds) == Some(DigitsValue(ds) as int)
  {
    assert IsDigit(ds[0]);
    assert Magnitude(ds) == ds;
  }

  /** The parser accepts every numeral with a `+` or `-` in front whose
      value is in range. */
  lemma ParseSigned(c: char, ds: string)
    requires (c == '+' || c == '-') && |ds| > 0 && AllDigits(ds)
    requires InRange(WithSign(c, DigitsValue(ds)))
    ensures ParseI32([c] + ds) == Some(WithSign(c, DigitsValue(ds)))
  {
    var s := [c] + ds;
    assert s[0] == c;
    assert Magnitude(s) == ds by {
      assert s[1..] == ds;
    }
  }

  /** Every value the parser accepts has a canonical spelling the parser
      maps to the same value; so the parser's image is exactly the range. */
  lemma ParseImage(s: string)
    requires ParseI32(s).Some?
    ensures ParseI32(ShowInt(ParseI32(s).value)) == ParseI32(s)
  {
    ParseShow(ParseI32(s).value);
  }
}
