/** The IEEE 754 binary64 arithmetic behind `int(c * 0.7)`, in integers.
    A positive double is an integer significand of at most 53 bits times a
    power of two; a product of two doubles is the exact product rounded to
    53 significant bits, ties to the even neighbour. Values are kept as
    integers scaled by 2^53, which leaves the significant bits unchanged. */
module Binary64 {
  import opened Arith

  function Pow2(n: nat): (p: nat)
    ensures p >= 1
  {
    if n == 0 then 1 else 2 * Pow2(n - 1)
  }

  lemma {:induction false} Pow2Monotone(a: nat, b: nat)
    requires a <= b
    ensures Pow2(a) <= Pow2(b)
    decreases b
  {
    if a < b {
      Pow2Monotone(a, b - 1);
    }
  }

  lemma {:induction false} Pow2Add(a: nat, b: nat)
    ensures Pow2(a + b) == Pow2(a) * Pow2(b)
  {
    if a > 0 {
      Pow2Add(a - 1, b);
    }
  }

  /** The position of the highest set bit of a positive integer. */
  function Log2Floor(x: nat): nat
    requires x >= 1
  {
    if x == 1 then 0 else 1 + Log2Floor(x / 2)
  }

  lemma {:induction false} Log2FloorBounds(x: nat)
    requires x >= 1
    ensures Pow2(Log2Floor(x)) <= x < Pow2(Log2Floor(x) + 1)
  {
    if x > 1 {
      Log2FloorBounds(x / 2);
    }
  }

  lemma Log2FloorUnique(x: nat, e: nat)
    requires Pow2(e) <= x < Pow2(e + 1)
    ensures Log2Floor(x) == e
  {
    Log2FloorBounds(x);
    var f := Log2Floor(x);
    if f < e {
      Pow2Monotone(f + 1, e);
    } else if f > e {
      Pow2Monotone(e + 1, f);
    }
  }

  /** `x` rounded to the nearest multiple of `u`; a tie goes to the even
      multiple. */
  function RoundToEven(x: nat, u: nat): nat
    requires u >= 1
  {
    var q, rem := x / u, x % u;
    if 2 * rem < u || (2 * rem == u && q % 2 == 0) then q * u else (q + 1) * u
  }

  /** The rounding moves `x` by at most half a unit. */
  lemma RoundToEvenNear(x: nat, u: nat)
    requires u >= 1
    ensures x <= RoundToEven(x, u) + u / 2 + u % 2 && RoundToEven(x, u) <= x + u / 2
  {
    var q, rem := x / u, x % u;
    assert x == q * u + rem;
    assert (q + 1) * u == q * u + u;
  }

  /** `x` rounded to 53 significant bits. */
  function RoundToPrecision(x: nat): nat
  {
    if x == 0 || Log2Floor(x) <= 52 then x else RoundToEven(x, Pow2(Log2Floor(x) - 52))
  }

  /** The double nearest 0.7, scaled by 2^53: its 53-bit significand. */
  const Point7: nat := 6305039478318694

  const Two53: nat := 9007199254740992

  lemma Two53IsPow2()
    ensures Pow2(53) == Two53
  {
    assert Pow2(8) == 256;
    assert Pow2(5) == 32;
    Pow2Add(8, 8);
    Pow2Add(16, 16);
    Pow2Add(32, 16);
    Pow2Add(48, 5);
  }

  /** `int(c * 0.7)` for a natural number `c` below 2^53: the binary64
      product, truncated toward zero. */
  function MulPoint7Trunc(c: nat): nat
  {
    RoundToPrecision(c * Point7) / Two53
  }

  lemma Pow2Above53(t: nat)
    ensures Pow2(53 + t) == 9007199254740992 * Pow2(t)
  {
    Two53IsPow2();
    Pow2Add(53, t);
  }

  lemma Pow2Of61()
    ensures Pow2(61) == 256 * Two53
  {
    Pow2Above53(8);
    assert Pow2(8) == 256;
  }

  /** Below 2^61 a number's highest bit is at most bit 60. */
  lemma ExponentBelow61(x: nat)
    requires 1 <= x < 256 * Two53
    ensures Log2Floor(x) <= 60
  {
    var e := Log2Floor(x);
    Log2FloorBounds(x);
    if e > 60 {
      Pow2Monotone(61, e);
      Pow2Of61();
    }
  }

  /** Below 2^61, rounding to 53 significant bits moves a number by at
      most 128. */
  lemma RoundToPrecisionNear(x: nat)
    requires x < 256 * Two53
    ensures x <= RoundToPrecision(x) + 128 && RoundToPrecision(x) <= x + 128
  {
    if x > 0 && Log2Floor(x) > 52 {
      var e := Log2Floor(x);
      ExponentBelow61(x);
      var u := Pow2(e - 52);
      Pow2Monotone(e - 52, 8);
      assert Pow2(8) == 256;
      assert u <= 256;
      RoundToEvenNear(x, u);
      assert RoundToPrecision(x) == RoundToEven(x, u);
    }
  }

  /** Off the multiples of ten, `c * 0.7` lies more than 128 units of
      2^-53 away from every integer. */
  lemma OffTenMargin(c: nat)
    requires 1 <= c <= 255 && c % 10 != 0
    ensures (c * 7 / 10) * 9007199254740992 + 128 < c * 6305039478318694
    ensures c * 6305039478318694 + 128 < (c * 7 / 10 + 1) * 9007199254740992
  {
    var k, r := c * 7 / 10, c * 7 % 10;
    assert 7 * c == 10 * k + r;
    assert 1 <= r <= 9;
  }

  /** Off the multiples of ten the rounding error cannot reach an integer,
      so `int(c * 0.7)` is the floor of the real product. */
  lemma TruncOffTen(c: nat)
    requires 1 <= c <= 255 && c % 10 != 0
    ensures MulPoint7Trunc(c) == c * 7 / 10
  {
    var k := c * 7 / 10;
    var y := RoundToPrecision(c * Point7);
    assert c * Point7 == c * 6305039478318694;
    RoundToPrecisionNear(c * Point7);
    OffTenMargin(c);
    DivModUnique(y, Two53, k, y - k * 9007199254740992);
  }

  lemma MulSubOne(m: int, b: int)
    ensures (m - 1) * b == m * b - b
  {
  }

  lemma Regroup(a: int, v: int, b: int)
    ensures (2 * (a * v)) * b == a * (b * (2 * v))
  {
  }

  /** The rounding at a multiple of ten, for a unit `b` that divides 2^53
      with an even cofactor `2 * v`, and exceeds `7 * j`. */
  lemma RoundAtTen(j: nat, b: nat, v: nat)
    requires 1 <= j <= 25 && 7 * j < b <= 256
    requires b * (2 * v) == 9007199254740992
    ensures RoundToEven(7 * j * 9007199254740992 - 4 * j, b) / 9007199254740992
            == 7 * j - (if b < 8 * j then 1 else 0)
  {
    var x := 7 * j * 9007199254740992 - 4 * j;
    var m := 2 * (7 * j * v);
    Regroup(7 * j, v, b);
    MulSubOne(m, b);
    assert m * b == 7 * j * 9007199254740992;
    DivModUnique(x, b, m - 1, b - 4 * j);
    if b < 8 * j {
      DivModUnique(RoundToEven(x, b), 9007199254740992, 7 * j - 1, 9007199254740992 - b);
    } else {
      DivModUnique(RoundToEven(x, b), 9007199254740992, 7 * j, 0);
    }
  }

  /** For `7 * j` in (2^h, 2^(h + 1)), the exact product at `c = 10 * j`
      has its highest bit at 53 + h. */
  lemma ExponentAtTen(j: nat, h: nat)
    requires 1 <= j <= 25 && Pow2(h) < 7 * j < Pow2(h + 1)
    ensures Log2Floor(7 * j * 9007199254740992 - 4 * j) == 53 + h
  {
    Pow2Above53(h);
    Pow2Above53(h + 1);
    Log2FloorUnique(7 * j * 9007199254740992 - 4 * j, 53 + h);
  }

  /** The last-place unit 2^(h + 1) of such a product divides 2^53 with an
      even cofactor. */
  lemma UnitAtTen(h: nat)
    requires h <= 7
    ensures Pow2(h + 1) * (2 * Pow2(51 - h)) == 9007199254740992
    ensures Pow2(h + 1) <= 256
  {
    Two53IsPow2();
    Pow2Add(h + 1, 52 - h);
    assert Pow2(52 - h) == 2 * Pow2(51 - h);
    Pow2Monotone(h + 1, 8);
    assert Pow2(8) == 256;
  }

  /** At a multiple of ten, `c * 0.7` is an integer `7 * j` in the reals,
      but the double nearest 0.7 lies 0.4 units of 2^-53 below 0.7, so the
      exact product falls `4 * j` units short of it. Rounding restores the
      integer unless that shortfall exceeds half a unit of the result's
      last place, the unit being `Pow2(h + 1)` for `7 * j` in
      (2^h, 2^(h + 1)). */
  lemma TruncAtTen(j: nat, h: nat)
    requires 1 <= j <= 25 && h <= 7 && Pow2(h) < 7 * j < Pow2(h + 1)
    ensures MulPoint7Trunc(10 * j) == 7 * j - (if Pow2(h + 1) < 8 * j then 1 else 0)
  {
    var x := 10 * j * Point7;
    assert x == 7 * j * 9007199254740992 - 4 * j;
    ExponentAtTen(j, h);
    UnitAtTen(h);
    assert RoundToPrecision(x) == RoundToEven(x, Pow2(h + 1));
    RoundAtTen(j, Pow2(h + 1), Pow2(51 - h));
  }

  lemma SmallPowers()
    ensures Pow2(2) == 4 && Pow2(3) == 8 && Pow2(4) == 16 && Pow2(5) == 32
    ensures Pow2(6) == 64 && Pow2(7) == 128 && Pow2(8) == 256
  {
  }

  /** `int(c * 0.7)` at the multiples of ten: exactly `7 * j`, except at 90,
      170 and 180, which come out one lower. */
  lemma TruncTens(j: nat)
    requires 1 <= j <= 25
    ensures MulPoint7Trunc(10 * j) == 7 * j - (if j == 9 || j == 17 || j == 18 then 1 else 0)
  {
    SmallPowers();
    if j == 1 {
      TruncAtTen(j, 2);
    } else if j == 2 {
      TruncAtTen(j, 3);
    } else if j <= 4 {
      TruncAtTen(j, 4);
    } else if j <= 9 {
      TruncAtTen(j, 5);
    } else if j <= 18 {
      TruncAtTen(j, 6);
    } else {
      TruncAtTen(j, 7);
    }
  }
}
