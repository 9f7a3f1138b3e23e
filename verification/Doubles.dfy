/** The conversion of integers to doubles yields a nearest double. */
module Doubles {
  import opened Division
  import opened J = Json

  function Pow2(k: nat): nat {
    if k == 0 then 1 else 2 * Pow2(k - 1)
  }

  /** A number with a significand of at most 53 bits. */
  ghost predicate IsDouble(x: real) {
    exists c: int, k: nat :: HasSignificand(x, c, k)
  }

  ghost predicate HasSignificand(x: real, c: int, k: nat) {
    -EXACT <= c <= EXACT && (x == (c * Pow2(k)) as real || x * (Pow2(k) as real) == c as real)
  }

  function Distance(x: real, y: real): real {
    if x <= y then y - x else x - y
  }

  // ---------------------------------------------------------------------
  // Spacing
  // ---------------------------------------------------------------------

  /** The power of two that a spacing is. */
  function Exponent(n: nat): nat {
    if n < EXACT then 0 else 1 + Exponent(n / 2)
  }

  lemma {:induction false} SpacingIsPower(n: nat)
    ensures Spacing(n) == Pow2(Exponent(n))
  {
    if n >= EXACT {
      SpacingIsPower(n / 2);
    }
  }

  lemma {:induction false} QuotientIsShort(n: nat)
    ensures n / Spacing(n) < EXACT
  {
    if n >= EXACT {
      QuotientIsShort(n / 2);
      HalveThenDivide(n, Spacing(n / 2));
    }
  }

  /** A rounded number is a multiple that no other multiple is nearer than, and of
      two equally near ones the even multiple. */
  lemma RoundToNearest(n: nat, d: nat, j: int)
    requires d >= 1
    ensures exists q :: n / d <= q <= n / d + 1 && RoundTo(n, d) == q * d && (2 * (n % d) == d ==> q % 2 == 0)
    ensures Distance(RoundTo(n, d) as real, n as real) <= Distance((j * d) as real, n as real)
  {
    var q, r := n / d, n % d;
    assert n == q * d + r;
    assert (q + 1) * d == q * d + d;
    if j <= q {
      if j < q {
        Multiples(q, j, d);
      }
    } else {
      if j > q + 1 {
        Multiples(j, q + 1, d);
      }
    }
    var up := !(2 * r < d || (2 * r == d && q % 2 == 0));
    assert RoundTo(n, d) == (if up then q + 1 else q) * d;
  }

  // ---------------------------------------------------------------------
  // Nearest among all doubles
  // ---------------------------------------------------------------------

  lemma {:induction false} PowersDivide(k: nat, e: nat)
    requires k <= e
    ensures Pow2(e) == Pow2(e - k) * Pow2(k)
    decreases e
  {
    if k < e {
      PowersDivide(k, e - 1);
    }
  }

  lemma {:induction false} PowersGrow(k: nat, e: nat)
    requires k <= e
    ensures 1 <= Pow2(k) <= Pow2(e)
    decreases e
  {
    if k < e {
      PowersGrow(k, e - 1);
    } else if k > 0 {
      PowersGrow(k - 1, e - 1);
    }
  }

  lemma Larger(a: int, b: int, c: int)
    requires a <= b && c >= 0
    ensures a * c <= b * c
  {
  }

  lemma MultipleOfPower(c: int, k: nat, e: nat)
    requires k >= e
    ensures c * Pow2(k) == c * Pow2(k - e) * Pow2(e)
  {
    PowersDivide(e, k);
  }

  /** With a smaller power of two a number stays below half of the significands. */
  lemma BelowSpacing(c: int, half: nat, k: nat, e: nat)
    requires c <= 2 * half && k < e
    ensures c * Pow2(k) <= half * Pow2(e)
  {
    PowersGrow(k, e - 1);
    Larger(c, 2 * half, Pow2(k));
    Larger(Pow2(k), Pow2(e - 1), 2 * half);
    assert 2 * half * Pow2(e - 1) == half * Pow2(e) by {
      Regroup(half, Pow2(e - 1));
    }
  }

  lemma Regroup(half: int, p: int)
    ensures 2 * half * p == half * (2 * p)
  {
  }

  lemma RealGrows(x: real, p: real)
    requires x >= 0.0 && p >= 1.0
    ensures x * p >= x
  {
  }

  lemma AtMostSignificand(x: real, c: int, p: nat, top: nat)
    requires p >= 1 && x * (p as real) == c as real && c <= top
    ensures x <= top as real
  {
    if x >= 0.0 {
      RealGrows(x, p as real);
    }
  }

  /** A double is a multiple of the spacing, or at most the smallest number that has
      that spacing. */
  lemma DoubleIsMultiple(x: real, c: int, k: nat, e: nat, half: nat)
    requires HasSignificand(x, c, k) && e >= 1 && EXACT == 2 * half
    ensures x <= (half * Pow2(e)) as real || exists j: int :: x == (j * Pow2(e)) as real
  {
    hide Pow2;
    if x == (c * Pow2(k)) as real {
      if k >= e {
        MultipleOfPower(c, k, e);
        assert x == (c * Pow2(k - e) * Pow2(e)) as real;
      } else {
        BelowSpacing(c, half, k, e);
      }
    } else {
      PowersGrow(0, k);
      AtMostSignificand(x, c, Pow2(k), EXACT);
      BelowSpacing(2 * half, half, 0, e);
      assert Pow2(0) == 1 by {
        NoPower();
      }
      assert 2 * half * Pow2(0) == 2 * half;
    }
  }

  lemma NoPower()
    ensures Pow2(0) == 1
  {
  }

  lemma NearestOfLarge(n: nat, x: real)
    requires n >= EXACT && IsDouble(x)
    ensures IsDouble(RoundTo(n, Spacing(n)) as real)
    ensures Distance(RoundTo(n, Spacing(n)) as real, n as real) <= Distance(x, n as real)
  {
    hide Spacing, RoundTo, HasSignificand, Exponent, Pow2, Distance;
    var d, e, half := Spacing(n), Exponent(n), EXACT / 2;
    SpacingIsPower(n);
    SpacingIsCoarse(n);
    QuotientIsShort(n);
    RoundToNearest(n, d, half);
    var q :| n / d <= q <= n / d + 1 && RoundTo(n, d) == q * d;
    Significand(q, e);
    assert HasSignificand(RoundTo(n, d) as real, q, e);
    var c, k :| HasSignificand(x, c, k);
    LargeExponent(n);
    DoubleIsMultiple(x, c, k, e, half);
    if j: int :| x == (j * d) as real {
      RoundToNearest(n, d, j);
    } else {
      StartOfSpacing(n, d, half);
      FartherBelow(x, half * d, n);
    }
  }

  lemma StartOfSpacing(n: nat, d: nat, half: nat)
    requires d >= 1 && n / d >= half
    ensures half * d <= n
  {
    Larger(half, n / d, d);
  }

  lemma FartherBelow(x: real, low: int, n: int)
    requires x <= low as real && low <= n
    ensures Distance(low as real, n as real) <= Distance(x, n as real)
  {
  }

  lemma Significand(q: int, e: nat)
    requires -EXACT <= q <= EXACT
    ensures HasSignificand((q * Pow2(e)) as real, q, e)
  {
  }

  lemma LargeExponent(n: nat)
    requires n >= EXACT
    ensures Exponent(n) >= 1
  {
  }

  lemma Mirrored(x: real)
    requires IsDouble(x)
    ensures IsDouble(-x)
  {
    var c, k :| HasSignificand(x, c, k);
    assert (-c) * Pow2(k) == -(c * Pow2(k));
    assert HasSignificand(-x, -c, k);
  }

  /** The double of an integer is a double, no double is nearer to the integer, and
      below 2^53 it is the integer itself. */
  lemma NearestDouble(n: int, x: real)
    requires IsDouble(x)
    ensures IsDouble(ToDouble(n))
    ensures Distance(ToDouble(n), n as real) <= Distance(x, n as real)
    ensures -EXACT < n < EXACT ==> ToDouble(n) == n as real
  {
    hide RoundTo, HasSignificand, Spacing, IsDouble;
    if -EXACT < n < EXACT {
      SmallIsExact(n);
      Significand(n, 0);
      IntegerIsDouble(n);
    } else if n > 0 {
      NearestOfLarge(n, x);
    } else {
      Mirrored(x);
      NearestOfLarge(-n, -x);
      Mirrored(RoundTo(-n, Spacing(-n)) as real);
    }
  }

  lemma IntegerIsDouble(n: int)
    requires -EXACT <= n <= EXACT
    ensures IsDouble(n as real)
  {
    Significand(n, 0);
    assert n * Pow2(0) == n;
  }

  /** Of two doubles that are equally near, the one with the even significand. */
  lemma TiesToEven(n: nat)
    requires n >= EXACT && 2 * (n % Spacing(n)) == Spacing(n)
    ensures exists q :: ToDouble(n) == (q * Spacing(n)) as real && q % 2 == 0 && EXACT / 2 <= q <= EXACT
    ensures ToDouble(-(n as int)) == -ToDouble(n)
  {
    hide Spacing, RoundTo;
    SpacingIsCoarse(n);
    QuotientIsShort(n);
    RoundToNearest(n, Spacing(n), 0);
  }
}
