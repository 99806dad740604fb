/** Checked integer arithmetic of any width (checked_math.h). */
module CheckedMath {
  import opened Core

  /** A C++ integer type: two's complement when signed. */
  datatype IntType = IntType(signed: bool, width: nat) {
    /** `std::numeric_limits<T>::digits` */
    function Digits(): nat { if signed && width > 0 then width - 1 else width }
    function Min(): int { if signed then -Pow2(Digits()) else 0 }
    function Max(): int { Pow2(Digits()) - 1 }
    predicate Has(n: int) { Min() <= n <= Max() }
    predicate Valid() { width >= 2 }
  }

  const INT32 := IntType(true, 32)
  const INT64 := IntType(true, 64)
  const UINT64 := IntType(false, 64)

  function Pow2(n: nat): (p: int)
    ensures p >= 1 && (n > 0 ==> p % 2 == 0)
  {
    if n == 0 then 1 else 2 * Pow2(n - 1)
  }

  lemma {:induction false} Pow2Grows(a: nat, b: nat)
    requires a <= b
    ensures Pow2(a) <= Pow2(b)
  {
    if a < b { Pow2Grows(a, b - 1); }
  }

  /** The powers of two, by the law of exponents. */
  lemma {:induction false} Pow2Adds(a: nat, b: nat)
    ensures Pow2(0) == 1 && Pow2(1) == 2
    ensures Pow2(a + b) == Pow2(a) * Pow2(b)
  {
    if b > 0 {
      Pow2Adds(a, b - 1);
      TwiceProduct(Pow2(a), Pow2(b - 1));
    }
  }

  lemma TwiceProduct(a: int, b: int)
    ensures 2 * (a * b) == a * (2 * b)
  {
  }

  /** A type of `width` bits has 2^width values: from 0 on if it is unsigned, and symmetric to -1/2 if it is signed. */
  lemma WidthIsExact(T: IntType)
    requires T.Valid()
    ensures T.Max() - T.Min() + 1 == Pow2(T.width)
    ensures T.Min() == if T.signed then -T.Max() - 1 else 0
  {
    assert Pow2(T.width) == 2 * Pow2(T.width - 1);
  }

  lemma Pow2Literals()
    ensures Pow2(31) == 0x8000_0000 && Pow2(32) == 0x1_0000_0000
    ensures Pow2(63) == 0x8000_0000_0000_0000 && Pow2(64) == 0x1_0000_0000_0000_0000
  {
    hide Pow2;
    Pow2Adds(1, 1);
    Pow2Adds(2, 2);
    Pow2Adds(4, 4);
    Pow2Adds(8, 8);
    Pow2Adds(31, 1);
    Pow2Adds(63, 1);
    Pow2Adds(16, 16);
    Pow2Adds(32, 32);
  }

  /** The limits of the types that the rest of the model uses. */
  lemma Limits()
    ensures INT32.Min() == -0x8000_0000 && INT32.Max() == 0x7FFF_FFFF
    ensures INT64.Min() == -0x8000_0000_0000_0000 && INT64.Max() == 0x7FFF_FFFF_FFFF_FFFF
    ensures UINT64.Min() == 0 && UINT64.Max() == SIZE_MAX == 0xFFFF_FFFF_FFFF_FFFF
  {
    hide Pow2;
    Pow2Literals();
  }

  /** Division of C++: the quotient is truncated towards zero. */
  function TruncDiv(a: int, b: int): int
    requires b != 0
  {
    if a >= 0 then (if b > 0 then a / b else -(a / -b))
    else (if b > 0 then -(-a / b) else -a / -b)
  }

  // The operators of the type: calling them is only defined where the exact result fits.

  function Add(T: IntType, a: int, b: int): int requires T.Has(a + b) { a + b }
  function Sub(T: IntType, a: int, b: int): int requires T.Has(a - b) { a - b }
  function Mul(T: IntType, a: int, b: int): int requires T.Has(a * b) { a * b }
  function Div(T: IntType, a: int, b: int): int requires b != 0 && T.Has(TruncDiv(a, b)) { TruncDiv(a, b) }

  /** `checked_add` */
  function CheckedAdd(T: IntType, lhs: int, rhs: int): (r: Result<int>)
    requires T.Valid() && T.Has(lhs) && T.Has(rhs)
    ensures r == if T.Has(lhs + rhs) then Ok(lhs + rhs) else Err(Overflow)
  {
    if !T.signed then
      if lhs > Sub(T, T.Max(), rhs) then Err(Overflow) else Ok(Add(T, lhs, rhs))
    else if (rhs > 0 && lhs > Sub(T, T.Max(), rhs)) || (rhs < 0 && lhs < Sub(T, T.Min(), rhs)) then Err(Overflow)
    else Ok(Add(T, lhs, rhs))
  }

  /** `checked_multiply` */
  function CheckedMultiply(T: IntType, lhs: int, rhs: int): (r: Result<int>)
    requires T.Valid() && T.Has(lhs) && T.Has(rhs)
    ensures r == if T.Has(lhs * rhs) then Ok(lhs * rhs) else Err(Overflow)
  {
    DivisionTestsAreExact(T, lhs, rhs);
    if lhs == 0 || rhs == 0 then Ok(0)
    else if !T.signed then
      if lhs > Div(T, T.Max(), rhs) then Err(Overflow) else Ok(Mul(T, lhs, rhs))
    else if (lhs == -1 && rhs == T.Min()) || (rhs == -1 && lhs == T.Min()) then Err(Overflow)
    else if TooLarge(T, lhs, rhs) then Err(Overflow)
    else Ok(Mul(T, lhs, rhs))
  }

  /** The four division tests of the signed case. */
  predicate TooLarge(T: IntType, lhs: int, rhs: int)
    requires T.Valid() && T.signed && T.Has(lhs) && T.Has(rhs)
  {
    DivisionsFit(T, lhs, rhs);
    || (lhs > 0 && rhs > 0 && lhs > Div(T, T.Max(), rhs))
    || (lhs > 0 && rhs < 0 && rhs < Div(T, T.Min(), lhs))
    || (lhs < 0 && rhs > 0 && lhs < Div(T, T.Min(), rhs))
    || (lhs < 0 && rhs < 0 && lhs < Div(T, T.Max(), rhs))
  }

  /** Dividing by a positive number, or the maximum by anything, stays inside the type. */
  lemma DivisionsFit(T: IntType, lhs: int, rhs: int)
    requires T.Valid() && T.Has(lhs) && T.Has(rhs)
    ensures lhs > 0 ==> T.Has(TruncDiv(T.Min(), lhs))
    ensures rhs > 0 ==> T.Has(TruncDiv(T.Min(), rhs))
    ensures rhs != 0 && (T.signed || rhs > 0) ==> T.Has(TruncDiv(T.Max(), rhs))
  {
    if lhs > 0 { QuotientShrinks(-T.Min(), lhs); }
    if rhs > 0 { QuotientShrinks(-T.Min(), rhs); QuotientShrinks(T.Max(), rhs); }
    if rhs < 0 { QuotientShrinks(T.Max(), -rhs); }
  }

  lemma QuotientShrinks(a: nat, b: nat)
    requires b > 0
    ensures 0 <= a / b <= a
  {
    QuotientBounds(a, b);
    var q := a / b;
    if q < 0 { MulMono(b, q, -1); } else { MulMono(q, 1, b); }
  }

  lemma QuotientBounds(a: int, b: int)
    requires b > 0
    ensures b * (a / b) <= a < b * (a / b) + b
  {
  }

  lemma MulMono(k: int, a: int, b: int)
    requires k >= 0 && a <= b
    ensures k * a <= k * b
  {
  }

  /** A number exceeds a truncated quotient exactly if its product exceeds the dividend. */
  lemma QuotientTest(limit: nat, x: nat, y: nat)
    requires y > 0
    ensures x > limit / y <==> x * y > limit
  {
    QuotientBounds(limit, y);
    if x > limit / y { MulMono(y, limit / y + 1, x); } else { MulMono(y, x, limit / y); }
  }

  /** The division tests decide exactly whether the product fits. */
  lemma DivisionTestsAreExact(T: IntType, lhs: int, rhs: int)
    requires T.Valid() && T.Has(lhs) && T.Has(rhs)
    ensures !T.signed && rhs > 0 ==>
              T.Has(TruncDiv(T.Max(), rhs)) && (lhs > TruncDiv(T.Max(), rhs) <==> !T.Has(lhs * rhs))
    ensures T.signed && lhs != 0 && rhs != 0 ==> (TooLarge(T, lhs, rhs) <==> !T.Has(lhs * rhs))
    ensures T.signed && lhs != 0 && rhs != 0 && ((lhs == -1 && rhs == T.Min()) || (rhs == -1 && lhs == T.Min()))
        ==> !T.Has(lhs * rhs)
  {
    DivisionsFit(T, lhs, rhs);
    var x, y := if lhs < 0 then -lhs else lhs, if rhs < 0 then -rhs else rhs;
    if lhs != 0 && rhs != 0 {
      QuotientTest(T.Max(), x, y);
      QuotientTest(-T.Min(), y, x);
      QuotientTest(-T.Min(), x, y);
      Signs(lhs, rhs, x, y);
    }
  }

  lemma Signs(lhs: int, rhs: int, x: nat, y: nat)
    requires x == (if lhs < 0 then -lhs else lhs) && y == (if rhs < 0 then -rhs else rhs)
    ensures lhs * rhs == if (lhs < 0) == (rhs < 0) then x * y else -(x * y)
    ensures x * y >= 0
  {
    if (lhs < 0) == (rhs < 0) { assert lhs * rhs == x * y; }
  }

  /** The test for -1 and the minimum is implied by the division tests that follow it. */
  lemma MinusOneGuardIsImplied(T: IntType, lhs: int, rhs: int)
    requires T.Valid() && T.signed && T.Has(lhs) && T.Has(rhs)
    requires (lhs == -1 && rhs == T.Min()) || (rhs == -1 && lhs == T.Min())
    ensures TooLarge(T, lhs, rhs)
  {
    DivisionTestsAreExact(T, lhs, rhs);
  }
}
