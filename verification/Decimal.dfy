/** Decimal numbers as the engine uses them (`utils/ut_decimal.c`).

  A decimal is an exact `real`. A precision `p` is the grid of multiples of ten to the minus `p`,
  reached by multiplying by ten `p` times. The library context rounds down, that is, toward zero. */
module Decimal {

  type Dec = real

  /** `mpd_mul`, exact as long as the result fits the 34 digits of the context. */
  function Mul(x: Dec, y: Dec): Dec {
    x * y
  }

  predicate IsInt(x: Dec) {
    x.Floor as real == x
  }

  /** `x` has at most `p` digits after the point. */
  predicate OnGrid(x: Dec, p: nat)
    decreases p
  {
    if p == 0 then IsInt(x) else OnGrid(x * 10.0, p - 1)
  }

  /** The distance between neighbours on the grid of precision `p`. */
  function Unit(p: nat): (u: Dec)
    ensures u > 0.0
  {
    if p == 0 then 1.0 else Unit(p - 1) / 10.0
  }

  function TruncateNonNeg(x: Dec, p: nat): Dec
    decreases p
  {
    if p == 0 then x.Floor as real else TruncateNonNeg(x * 10.0, p - 1) / 10.0
  }

  /** `mpd_rescale` to precision `p`: drop the digits beyond `p`. */
  function Truncate(x: Dec, p: nat): Dec {
    if x >= 0.0 then TruncateNonNeg(x, p) else -TruncateNonNeg(-x, p)
  }

  /** The least grid point at or above `x`; what a truncated subtraction of `x` takes away. */
  function RoundUp(x: Dec, p: nat): Dec
    decreases p
  {
    if p == 0 then -((-x).Floor as real) else RoundUp(x * 10.0, p - 1) / 10.0
  }

  /** `decimal(str, prec)`: precision zero means that the parsed number is kept as it is. */
  function Parse(x: Dec, prec: nat): Dec {
    if prec == 0 then x else Truncate(x, prec)
  }

  lemma {:induction false} UnitOnGrid(p: nat)
    ensures OnGrid(Unit(p), p)
  {
    if p > 0 {
      UnitOnGrid(p - 1);
      assert Unit(p) * 10.0 == Unit(p - 1);
    }
  }

  function Times(n: int, x: Dec): Dec {
    n as real * x
  }

  /** A grid is made of the whole multiples of its unit, and ten units of a precision make one of the next coarser. */
  lemma {:induction false} GridIsMultiples(x: Dec, p: nat)
    ensures OnGrid(x, p) <==> exists n :: Times(n, Unit(p)) == x
    ensures Unit(0) == 1.0 && Unit(p + 1) * 10.0 == Unit(p)
    decreases p
  {
    if p == 0 {
      var u := Unit(0);
      if OnGrid(x, 0) { assert Times(x.Floor, u) == x; }
      if n :| Times(n, u) == x {
        IntIsInt(n);
        assert x == n as real && IsInt(x);
      }
    } else {
      GridIsMultiples(x * 10.0, p - 1);
      var u, coarse := Unit(p), Unit(p - 1);
      forall n ensures Times(n, u) * 10.0 == Times(n, coarse) {
        TimesTen(n, u);
      }
      if n :| Times(n, u) == x { assert Times(n, coarse) == x * 10.0; }
      if n :| Times(n, coarse) == x * 10.0 { assert Times(n, u) == x; }
    }
  }

  lemma TimesTen(n: int, u: Dec)
    ensures Times(n, u) * 10.0 == Times(n, u * 10.0)
  {
  }

  lemma IntIsInt(n: int)
    ensures IsInt(n as real)
  {
  }

  lemma {:induction false} OnGridAdd(x: Dec, y: Dec, p: nat)
    requires OnGrid(x, p) && OnGrid(y, p)
    ensures OnGrid(x + y, p) && OnGrid(x - y, p)
    decreases p
  {
    if p == 0 {
      IntIsInt(x.Floor + y.Floor);
      IntIsInt(x.Floor - y.Floor);
    } else {
      OnGridAdd(x * 10.0, y * 10.0, p - 1);
      assert x * 10.0 + y * 10.0 == (x + y) * 10.0;
      assert x * 10.0 - y * 10.0 == (x - y) * 10.0;
    }
  }

  lemma {:induction false} OnGridFiner(x: Dec, p: nat, q: nat)
    requires OnGrid(x, p) && p <= q
    ensures OnGrid(x, q)
    decreases q
  {
    if p > 0 {
      OnGridFiner(x * 10.0, p - 1, q - 1);
    } else if q > 0 {
      IntIsInt(x.Floor * 10);
      OnGridFiner(x * 10.0, 0, q - 1);
    }
  }

  lemma {:induction false} OnGridMul(x: Dec, p: nat, y: Dec, q: nat, z: Dec)
    requires OnGrid(x, p) && OnGrid(y, q) && z == x * y
    ensures OnGrid(z, p + q)
    decreases p + q
  {
    if p > 0 {
      OnGridMul(x * 10.0, p - 1, y, q, z * 10.0);
    } else if q > 0 {
      OnGridMul(x, 0, y * 10.0, q - 1, z * 10.0);
    } else {
      IntProduct(x.Floor, y.Floor, z);
    }
  }

  lemma IntProduct(a: int, b: int, z: Dec)
    requires z == a as real * b as real
    ensures IsInt(z)
  {
    IntMul(a, b);
    IntIsInt(a * b);
  }

  lemma IntMul(a: int, b: int)
    ensures (a * b) as real == a as real * b as real
  {
  }

  lemma GridMul(x: Dec, p: nat, y: Dec, q: nat)
    requires OnGrid(x, p) && OnGrid(y, q)
    ensures OnGrid(Mul(x, y), p + q)
  {
    OnGridMul(x, p, y, q, x * y);
  }

  // ----- Multiplication, for proofs that do not look inside it

  lemma MulMono(a: Dec, a': Dec, b: Dec, b': Dec)
    requires 0.0 <= a <= a' && 0.0 <= b <= b'
    ensures 0.0 <= Mul(a, b) <= Mul(a', b')
  {
    assert (a' - a) * b >= 0.0;
    assert a' * (b' - b) >= 0.0;
  }

  lemma MulPos(a: Dec, b: Dec)
    requires a > 0.0 && b > 0.0
    ensures Mul(a, b) > 0.0
  {
  }

  lemma MulStrict(a: Dec, b: Dec, b': Dec)
    requires a > 0.0 && b < b'
    ensures Mul(a, b) < Mul(a, b')
  {
    assert a * (b' - b) > 0.0;
  }

  lemma MulSplit(a: Dec, b: Dec, c: Dec)
    ensures Mul(a, b + c) == Mul(a, b) + Mul(a, c)
    ensures Mul(a, b - c) == Mul(a, b) - Mul(a, c)
  {
  }

  lemma MulZero(a: Dec)
    ensures Mul(a, 0.0) == 0.0
  {
  }

  lemma MulCommutes(a: Dec, b: Dec)
    ensures Mul(a, b) == Mul(b, a)
  {
  }

  lemma PartOf(x: Dec, rate: Dec)
    requires x >= 0.0 && 0.0 <= rate <= 1.0
    ensures 0.0 <= Mul(x, rate) <= x
  {
    MulMono(x, x, rate, 1.0);
  }

  /** `mpd_div`, rounded down; the same reading of the 34 digits applies. */
  function Div(x: Dec, y: Dec): Dec
    requires y != 0.0
  {
    x / y
  }

  lemma DivMul(x: Dec, y: Dec)
    requires x >= 0.0 && y > 0.0
    ensures Mul(y, Div(x, y)) == x && Div(x, y) >= 0.0
  {
  }

  /** Truncation lands on the grid, at or below the number, and nothing on the grid lies between. */
  lemma {:induction false} TruncateIsFloor(x: Dec, p: nat)
    requires x >= 0.0
    ensures OnGrid(Truncate(x, p), p)
    ensures 0.0 <= Truncate(x, p) <= x < Truncate(x, p) + Unit(p)
    decreases p
  {
    if p == 0 {
      assert Truncate(x, p) == x.Floor as real;
    } else {
      TruncateIsFloor(x * 10.0, p - 1);
    }
  }

  /** Two grid points are equal or at least one unit apart. */
  lemma {:induction false} GridGap(x: Dec, y: Dec, p: nat)
    requires OnGrid(x, p) && OnGrid(y, p) && x < y
    ensures x + Unit(p) <= y
    decreases p
  {
    if p == 0 {
      assert x.Floor < y.Floor;
    } else {
      GridGap(x * 10.0, y * 10.0, p - 1);
    }
  }

  lemma TruncateGreatest(x: Dec, y: Dec, p: nat)
    requires 0.0 <= y <= x && OnGrid(y, p)
    ensures y <= Truncate(x, p)
  {
    TruncateIsFloor(x, p);
    if Truncate(x, p) < y {
      GridGap(Truncate(x, p), y, p);
    }
  }

  lemma TruncateExact(x: Dec, p: nat)
    requires OnGrid(x, p)
    ensures Truncate(x, p) == x
  {
    if x >= 0.0 {
      TruncateIsFloor(x, p);
      TruncateGreatest(x, x, p);
    } else {
      OnGridNegate(x, p);
      TruncateIsFloor(-x, p);
      TruncateGreatest(-x, -x, p);
    }
  }

  lemma OnGridNegate(x: Dec, p: nat)
    requires OnGrid(x, p)
    ensures OnGrid(-x, p)
  {
    OnGridZero(p);
    OnGridAdd(0.0, x, p);
    assert 0.0 - x == -x;
  }

  lemma {:induction false} OnGridZero(p: nat)
    ensures OnGrid(0.0, p)
  {
    OnGridFiner(0.0, 0, p);
  }

  lemma {:induction false} RoundUpIsCeiling(x: Dec, p: nat)
    ensures OnGrid(RoundUp(x, p), p)
    ensures RoundUp(x, p) - Unit(p) < x <= RoundUp(x, p)
    decreases p
  {
    if p == 0 {
      var n := (-x).Floor;
      assert RoundUp(x, 0) == (-n) as real;
    } else {
      RoundUpIsCeiling(x * 10.0, p - 1);
    }
  }

  lemma RoundUpExact(x: Dec, p: nat)
    requires OnGrid(x, p)
    ensures RoundUp(x, p) == x
  {
    RoundUpIsCeiling(x, p);
    if x < RoundUp(x, p) {
      GridGap(x, RoundUp(x, p), p);
    }
  }

  lemma RoundUpLeast(x: Dec, y: Dec, p: nat)
    requires x <= y && OnGrid(y, p)
    ensures RoundUp(x, p) <= y
  {
    RoundUpIsCeiling(x, p);
    if y < RoundUp(x, p) {
      GridGap(y, RoundUp(x, p), p);
    }
  }

  /** Subtracting and truncating takes the amount rounded up to the next unit. */
  lemma TruncatedSub(a: Dec, f: Dec, p: nat)
    requires OnGrid(a, p) && a >= f
    ensures Truncate(a - f, p) == a - RoundUp(f, p)
    ensures OnGrid(a - RoundUp(f, p), p)
    ensures a - RoundUp(f, p) >= 0.0
  {
    RoundUpIsCeiling(f, p);
    RoundUpLeast(f, a, p);
    var r := a - RoundUp(f, p);
    OnGridAdd(a, RoundUp(f, p), p);
    TruncateIsFloor(a - f, p);
    TruncateGreatest(a - f, r, p);
    var t := Truncate(a - f, p);
    if r < t {
      GridGap(r, t, p);
    }
  }

  /** Adding and truncating gives the amount truncated to a unit. */
  lemma TruncatedAdd(a: Dec, x: Dec, p: nat)
    requires OnGrid(a, p) && a >= 0.0 && x >= 0.0
    ensures Truncate(a + x, p) == a + Truncate(x, p)
    ensures OnGrid(a + Truncate(x, p), p)
  {
    TruncateIsFloor(x, p);
    TruncateIsFloor(a + x, p);
    var t, r := Truncate(a + x, p), a + Truncate(x, p);
    OnGridAdd(a, Truncate(x, p), p);
    TruncateGreatest(a + x, r, p);
    if r < t {
      GridGap(r, t, p);
    }
  }
}
