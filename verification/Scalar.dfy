/** Exact conversion of scalars to integers and to bool (scalar.h). */
module Scalars {
  import opened Core
  import opened CheckedMath

  /**
   A floating-point number: a finite value is the dyadic rational `mant` * 2^`exp`, as in section 3.4
   of IEEE 754-2019. The results below hold for every mantissa and exponent, so for binary64 and for
   the wider format the source converts it to.
   */
  datatype Float = NaN | Infinity(negative: bool) | Finite(mant: int, exp: int)

  /** The value of a finite number compared with the integer `n`, scaled to integers: its sign decides. */
  function Difference(v: Float, n: int): int
    requires v.Finite?
  {
    if v.exp >= 0 then v.mant * Pow2(v.exp) - n else v.mant - n * Pow2(-v.exp)
  }

  predicate Equals(v: Float, n: int) { v.Finite? && Difference(v, n) == 0 }

  predicate Less(v: Float, n: int) requires v.Finite? { Difference(v, n) < 0 }

  /** `std::trunc` */
  function Trunc(v: Float): int
    requires v.Finite?
  {
    if v.exp >= 0 then v.mant * Pow2(v.exp) else TruncDiv(v.mant, Pow2(-v.exp))
  }

  /** `detail::floating_to_integer`; 2^digits is a floating-point number without rounding. */
  function FloatingToInteger(T: IntType, v: Float): Result<int> {
    if !v.Finite? then Err(OutOfRange)
    else if !Equals(v, Trunc(v)) then Err(InvalidArgument)
    else
      var upper := Pow2(T.Digits());
      if T.signed then
        if Less(v, -upper) || !Less(v, upper) then Err(OutOfRange) else Ok(Trunc(v))
      else
        if Less(v, 0) || !Less(v, upper) then Err(OutOfRange) else Ok(Trunc(v))
  }

  /** `Scalar`: the kind and the widened value. */
  datatype Scalar =
    | Boolean(b: bool)
    | Signed(i: int)
    | Unsigned(u: int)
    | Floating(x: Float)
    | Complex(re: Float, im: Float)
  {
    predicate Valid() { (Signed? ==> INT64.Has(i)) && (Unsigned? ==> UINT64.Has(u)) }
  }

  /** The constructors from integer types of up to 64 bits. */
  function FromInteger(T: IntType, n: int): Scalar { if T.signed then Signed(n) else Unsigned(n) }

  /** `Scalar::to_integer` */
  function ToInteger(T: IntType, s: Scalar): Result<int> {
    match s
    case Boolean(b) => Ok(if b then 1 else 0)
    case Signed(i) => if T.Has(i) then Ok(i) else Err(OutOfRange)
    case Unsigned(u) => if T.Has(u) then Ok(u) else Err(OutOfRange)
    case Floating(x) => FloatingToInteger(T, x)
    case Complex(re, im) => if !Equals(im, 0) then Err(InvalidArgument) else FloatingToInteger(T, re)
  }

  /** `Scalar::to_bool` */
  function ToBool(s: Scalar): Result<bool> {
    match s
    case Boolean(b) => Ok(b)
    case Signed(i) => if i == 0 || i == 1 then Ok(i == 1) else Err(InvalidArgument)
    case Unsigned(u) => if u == 0 || u == 1 then Ok(u == 1) else Err(InvalidArgument)
    case Floating(x) => if Equals(x, 0) || Equals(x, 1) then Ok(Equals(x, 1)) else Err(InvalidArgument)
    case Complex(re, im) =>
      if Equals(im, 0) && (Equals(re, 0) || Equals(re, 1)) then Ok(Equals(re, 1)) else Err(InvalidArgument)
  }

  // ----- What a scalar denotes

  /** The stored value is real and equal to the integer `n`. */
  predicate Denotes(s: Scalar, n: int) {
    match s
    case Boolean(b) => n == if b then 1 else 0
    case Signed(i) => n == i
    case Unsigned(u) => n == u
    case Floating(x) => Equals(x, n)
    case Complex(re, im) => Equals(im, 0) && Equals(re, n)
  }

  /** Comparing with a value that equals `n` is comparing with `n`, and truncating it gives `n`. */
  lemma EqualsExact(v: Float, n: int, k: int)
    requires Equals(v, n)
    ensures Trunc(v) == n
    ensures Less(v, k) <==> n < k
    ensures Equals(v, k) <==> n == k
  {
    if v.exp < 0 {
      var p := Pow2(-v.exp);
      ScaledOrder(n, k, p);
      ScaledOrder(k, n, p);
      if n >= 0 { ExactQuotient(n, p); } else { ExactQuotient(-n, p); }
    }
  }

  lemma ScaledOrder(n: int, k: int, p: int)
    requires p >= 1
    ensures n < k <==> n * p < k * p
  {
    if n < k { MulMono(p, n + 1, k); } else { MulMono(p, k, n); }
  }

  lemma ExactQuotient(n: int, p: int)
    requires n >= 0 && p >= 1
    ensures (n * p) / p == n && n * p >= 0 && -(n * p) == (-n) * p
    ensures n > 0 ==> n * p > 0
  {
    QuotientBounds(n * p, p);
    var q := (n * p) / p;
    if q < n { MulMono(p, q + 1, n); }
    if n < q { MulMono(p, n + 1, q); }
    MulMono(n, 1, p);
  }

  lemma FloatingExact(T: IntType, v: Float, n: int)
    requires T.Valid()
    ensures FloatingToInteger(T, v) == Ok(n) <==> Equals(v, n) && T.Has(n)
    ensures Equals(v, n) && !T.Has(n) ==> FloatingToInteger(T, v) == Err(OutOfRange)
    ensures v.Finite? && (forall k :: !Equals(v, k)) ==> FloatingToInteger(T, v) == Err(InvalidArgument)
  {
    if v.Finite? {
      var upper := Pow2(T.Digits());
      if Equals(v, n) {
        EqualsExact(v, n, upper);
        EqualsExact(v, n, -upper);
        EqualsExact(v, n, 0);
      }
      var k := Trunc(v);
      if Equals(v, k) {
        EqualsExact(v, k, upper);
        EqualsExact(v, k, -upper);
        EqualsExact(v, k, 0);
      }
    }
  }

  /** Conversion to an integer type succeeds exactly on real integral values in range, and is exact. */
  lemma ToIntegerIff(T: IntType, s: Scalar, n: int)
    requires T.Valid()
    ensures ToInteger(T, s) == Ok(n) <==> Denotes(s, n) && T.Has(n)
  {
    assert T.Has(0) && T.Has(1) by { assert Pow2(T.Digits()) == 2 * Pow2(T.Digits() - 1); }
    match s
    case Floating(x) => FloatingExact(T, x, n);
    case Complex(re, _) => FloatingExact(T, re, n);
    case _ =>
  }

  /** The error of a failing conversion: out of range, or no integer at all. */
  lemma ToIntegerErrors(T: IntType, s: Scalar)
    requires T.Valid() && ToInteger(T, s).Err?
    ensures (exists n :: Denotes(s, n)) ==> ToInteger(T, s) == Err(OutOfRange)
    ensures (forall n :: !Denotes(s, n)) ==>
              ToInteger(T, s) == Err(if s.Complex? && !Equals(s.im, 0) then InvalidArgument
                                     else if s.Complex? && !s.re.Finite? then OutOfRange
                                     else if s.Floating? && !s.x.Finite? then OutOfRange
                                     else InvalidArgument)
  {
    if n :| Denotes(s, n) {
      ToIntegerIff(T, s, n);
      match s
      case Floating(x) => FloatingExact(T, x, n);
      case Complex(re, _) => FloatingExact(T, re, n);
      case _ =>
    } else {
      NoInteger(s);
      match s
      case Floating(x) => FloatingExact(T, x, 0);
      case Complex(re, im) =>
        if Equals(im, 0) {
          forall k ensures !Equals(re, k) { assert !Denotes(s, k); }
          FloatingExact(T, re, 0);
        }
    }
  }

  /** Only floating-point kinds can hold something else than an integer. */
  lemma NoInteger(s: Scalar)
    requires forall n :: !Denotes(s, n)
    ensures s.Floating? || s.Complex?
    ensures s.Floating? ==> forall k :: !Equals(s.x, k)
  {
    match s
    case Boolean(b) => assert Denotes(s, if b then 1 else 0);
    case Signed(i) => assert Denotes(s, i);
    case Unsigned(u) => assert Denotes(s, u);
    case Floating(x) => forall k ensures !Equals(x, k) { assert !Denotes(s, k); }
    case Complex(_, _) =>
  }

  /** Conversion to bool succeeds exactly on 0 and 1. */
  lemma ToBoolIff(s: Scalar, b: bool)
    ensures ToBool(s) == Ok(b) <==> Denotes(s, if b then 1 else 0)
    ensures ToBool(s).Err? ==> ToBool(s) == Err(InvalidArgument)
  {
    match s
    case Floating(x) => if Equals(x, 1) { EqualsExact(x, 1, 0); }
    case Complex(re, _) => if Equals(re, 1) { EqualsExact(re, 1, 0); }
    case _ =>
  }

  /** Integers of every width round-trip. */
  lemma IntegerRoundTrip(T: IntType, n: int)
    requires T.Valid() && T.width <= 64 && T.Has(n)
    ensures FromInteger(T, n).Valid() && ToInteger(T, FromInteger(T, n)) == Ok(n)
  {
    Widens(T);
  }

  lemma Widens(T: IntType)
    requires T.Valid() && T.width <= 64
    ensures T.signed ==> Pow2(T.Digits()) <= Pow2(63)
    ensures Pow2(T.Digits()) <= Pow2(64)
  {
    Pow2Grows(T.Digits(), 64);
    if T.signed { Pow2Grows(T.Digits(), 63); }
  }

  /** Conversion to an integer type sees nothing of a scalar but the integer it denotes. */
  lemma SameInteger(U: IntType, s: Scalar, n: int)
    requires U.Valid() && Denotes(s, n)
    ensures ToInteger(U, s) == if U.Has(n) then Ok(n) else Err(OutOfRange)
  {
    hide ToInteger;
    ToIntegerIff(U, s, n);
    if ToInteger(U, s).Ok? {
      var k := ToInteger(U, s).value;
      ToIntegerIff(U, s, k);
      Denoted(s, n, k);
    } else {
      ToIntegerErrors(U, s);
    }
  }

  /** So does conversion to bool. */
  lemma SameBool(s: Scalar, n: int)
    requires Denotes(s, n)
    ensures ToBool(s) == if n == 0 || n == 1 then Ok(n == 1) else Err(InvalidArgument)
  {
    ToBoolIff(s, true);
    ToBoolIff(s, false);
    Denoted(s, n, 0);
    Denoted(s, n, 1);
  }

  /**
   A successful conversion loses nothing: going on from its result gives the same value or the same
   error as going on from the scalar itself, for every integer type and for bool.
   */
  lemma ConversionIsTransparent(T: IntType, U: IntType, s: Scalar, n: int)
    requires T.Valid() && U.Valid() && T.width <= 64 && ToInteger(T, s) == Ok(n)
    ensures FromInteger(T, n).Valid()
    ensures ToInteger(U, FromInteger(T, n)) == ToInteger(U, s)
    ensures ToBool(FromInteger(T, n)) == ToBool(s)
  {
    hide ToInteger, ToBool;
    Widens(T);
    ToIntegerIff(T, s, n);
    var s' := FromInteger(T, n);
    SameInteger(U, s, n);
    SameInteger(U, s', n);
    SameBool(s, n);
    SameBool(s', n);
  }

  /** A scalar denotes at most one integer. */
  lemma Denoted(s: Scalar, n: int, k: int)
    requires Denotes(s, n)
    ensures Denotes(s, k) <==> n == k
  {
    match s
    case Floating(x) => EqualsExact(x, n, k);
    case Complex(re, _) => EqualsExact(re, n, k);
    case _ =>
  }

  // ----- Conversion without the notion of denoting

  /** Numbers with the same value: a number may be given with one more or one less power of two. */
  lemma SameNumber(m: int, e: int, n: int)
    ensures Equals(Finite(m, e + 1), n) <==> Equals(Finite(2 * m, e), n)
    ensures Equals(Finite(m, 0), n) <==> m == n
    ensures e < 0 && m % 2 == 1 ==> !Equals(Finite(m, e), n)
  {
    if e >= 0 {
      assert Pow2(e + 1) == 2 * Pow2(e);
      Regroup(m, Pow2(e));
    } else {
      var p := Pow2(-e - 1);
      assert Pow2(-e) == 2 * p;
      Regroup(n, p);
      if m % 2 == 1 { assert m != 2 * (n * p); }
    }
  }

  lemma Regroup(m: int, p: int)
    ensures m * (2 * p) == 2 * (m * p) == (2 * m) * p
  {
  }

  /**
   Floating-point numbers: integers convert if they fit, the position of the binary point does not
   matter, and numbers with a fraction, infinities and NaN do not convert.
   */
  lemma FloatingConversion(T: IntType, m: int, e: int)
    requires T.Valid()
    ensures ToInteger(T, Floating(Finite(m, 0))) == if T.Has(m) then Ok(m) else Err(OutOfRange)
    ensures ToInteger(T, Floating(Finite(m, e + 1))) == ToInteger(T, Floating(Finite(2 * m, e)))
    ensures e < 0 && m % 2 == 1 ==> ToInteger(T, Floating(Finite(m, e))) == Err(InvalidArgument)
    ensures ToInteger(T, Floating(NaN)) == ToInteger(T, Floating(Infinity(true))) == Err(OutOfRange)
    ensures ToInteger(T, Floating(Infinity(false))) == Err(OutOfRange)
  {
    hide Trunc, Less, Equals;
    SameNumber(m, 0, m);
    FloatingExact(T, Finite(m, 0), m);
    var v, w := Finite(m, e + 1), Finite(2 * m, e);
    forall n ensures Equals(v, n) <==> Equals(w, n) { SameNumber(m, e, n); }
    if n :| Equals(v, n) {
      FloatingExact(T, v, n);
      FloatingExact(T, w, n);
    } else {
      FloatingExact(T, v, 0);
      FloatingExact(T, w, 0);
    }
    if e < 0 && m % 2 == 1 {
      forall n ensures !Equals(Finite(m, e), n) { SameNumber(m, e, n); }
      FloatingExact(T, Finite(m, e), 0);
    }
  }

  /** The other kinds, and the conversion to bool, in terms of it. */
  lemma OtherConversions(T: IntType, b: bool, i: int, x: Float, y: Float)
    requires T.Valid()
    ensures ToInteger(T, Boolean(b)) == Ok(if b then 1 else 0) && ToBool(Boolean(b)) == Ok(b)
    ensures ToInteger(T, Signed(i)) == ToInteger(T, Unsigned(i)) == if T.Has(i) then Ok(i) else Err(OutOfRange)
    ensures ToInteger(T, Complex(x, y))
         == if y.Finite? && y.mant == 0 then ToInteger(T, Floating(x)) else Err(InvalidArgument)
    ensures ToBool(Complex(x, y)) == if y.Finite? && y.mant == 0 then ToBool(Floating(x)) else Err(InvalidArgument)
    ensures ToBool(Signed(i)) == ToBool(Unsigned(i))
         == if i == 0 then Ok(false) else if i == 1 then Ok(true) else Err(InvalidArgument)
    ensures ToBool(Floating(x))
         == var r := ToInteger(INT64, Floating(x));
            if r == Ok(0) then Ok(false) else if r == Ok(1) then Ok(true) else Err(InvalidArgument)
  {
    hide FloatingToInteger;
    if y.Finite? { ZeroNumber(y); }
    assert INT64.Has(0) && INT64.Has(1) by { Limits(); }
    FloatingExact(INT64, x, 0);
    FloatingExact(INT64, x, 1);
    if Equals(x, 1) { EqualsExact(x, 1, 0); }
  }

  lemma ZeroNumber(v: Float)
    requires v.Finite?
    ensures Equals(v, 0) <==> v.mant == 0
  {
    if v.exp >= 0 && v.mant != 0 {
      var p := Pow2(v.exp);
      if v.mant > 0 { MulMono(p, 1, v.mant); } else { MulMono(p, v.mant, -1); }
    }
  }
}
