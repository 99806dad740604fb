/** Shapes, element counts and contiguous strides (shape.cc). */
module Shapes {
  import opened Core
  import opened CheckedMath

  /** A `Shape` holds validated dimensions: non-negative values of `std::int64_t`. */
  datatype Shape = Shape(dims: seq<int>) {
    predicate Valid() { forall i | 0 <= i < |dims| :: 0 <= dims[i] <= INT64.Max() }
  }

  /** `Shape::from_dims` with its `validate_dims`. */
  function FromDims(dims: seq<int>): (r: Result<Shape>)
    requires forall i | 0 <= i < |dims| :: INT64.Min() <= dims[i] <= INT64.Max()
    ensures r.Ok? <==> forall i | 0 <= i < |dims| :: dims[i] >= 0
    ensures r.Ok? ==> r.value.dims == dims && r.value.Valid()
    ensures r.Err? ==> r.code == InvalidArgument
  {
    if exists i | 0 <= i < |dims| :: dims[i] < 0 then Err(InvalidArgument) else Ok(Shape(dims))
  }

  // ----- Products of extents

  predicate ZeroFree(dims: seq<int>) { forall i | 0 <= i < |dims| :: dims[i] >= 1 }

  function Max(a: int, b: int): int { if a >= b then a else b }

  /** The factor of one dimension; padded, an extent of 0 counts as 1. */
  function Factor(d: int, padded: bool): int { if padded then Max(d, 1) else d }

  function Product(dims: seq<int>, padded: bool): int {
    if dims == [] then 1 else Factor(dims[0], padded) * Product(dims[1..], padded)
  }

  /** The number of elements, padded: what `contiguous_strides` has to represent. */
  function Span(dims: seq<int>): int { Product(dims, true) }

  lemma MulOrder(a: int, b: int, c: int)
    requires a <= b && c >= 0
    ensures a * c <= b * c
  {
  }

  lemma {:induction false} ProductPositive(dims: seq<int>, padded: bool)
    requires padded || ZeroFree(dims)
    ensures Product(dims, padded) >= 1
  {
    if dims != [] {
      ProductPositive(dims[1..], padded);
      MulOrder(1, Factor(dims[0], padded), Product(dims[1..], padded));
    }
  }

  lemma {:induction false} ProductConcat(a: seq<int>, b: seq<int>, padded: bool)
    ensures Product(a + b, padded) == Product(a, padded) * Product(b, padded)
  {
    if a == [] {
      assert a + b == b;
    } else {
      assert (a + b)[1..] == a[1..] + b;
      ProductConcat(a[1..], b, padded);
      Associative(Factor(a[0], padded), Product(a[1..], padded), Product(b, padded));
    }
  }

  lemma Associative(a: int, b: int, c: int)
    ensures a * (b * c) == (a * b) * c
  {
  }

  function Without(s: seq<int>, k: nat): seq<int> requires k < |s| { s[..k] + s[k + 1..] }

  lemma WithoutOne(s: seq<int>, k: nat)
    requires k < |s|
    ensures multiset(Without(s, k)) == multiset(s) - multiset{s[k]}
  {
    assert s == s[..k] + ([s[k]] + s[k + 1..]);
  }

  /** The first extent of one order has a place in the other. */
  lemma Place(a: seq<int>, b: seq<int>) returns (k: nat)
    requires a != [] && multiset(a) == multiset(b)
    ensures k < |b| && b[k] == a[0] && multiset(Without(b, k)) == multiset(a[1..])
  {
    hide Without;
    assert a[0] in multiset(b);
    k :| 0 <= k < |b| && b[k] == a[0];
    WithoutOne(a, 0);
    WithoutOne(b, k);
    assert Without(a, 0) == a[1..] by { FirstGone(a); }
  }

  lemma FirstGone(s: seq<int>)
    requires s != []
    ensures Without(s, 0) == s[1..]
  {
  }

  /** Any factor may be taken out of the product. */
  lemma ProductWithout(s: seq<int>, k: nat, padded: bool)
    requires k < |s|
    ensures Product(s, padded) == Factor(s[k], padded) * Product(Without(s, k), padded)
  {
    hide Product;
    var l, r := s[..k], s[k + 1..];
    assert s == l + ([s[k]] + r);
    ProductConcat(l, [s[k]] + r, padded);
    ProductConcat(l, r, padded);
    ProductConcat([s[k]], r, padded);
    SingleProduct(s[k], padded);
    Exchange(Product(l, padded), Factor(s[k], padded), Product(r, padded));
  }

  /** The product does not depend on the order of the axes. */
  lemma {:induction false} ProductPermutes(a: seq<int>, b: seq<int>, padded: bool)
    requires multiset(a) == multiset(b)
    ensures Product(a, padded) == Product(b, padded)
  {
    hide Product, Without;
    if a == [] {
      assert |multiset(b)| == 0;
    } else {
      var k := Place(a, b);
      ProductPermutes(a[1..], Without(b, k), padded);
      ProductWithout(a, 0, padded);
      ProductWithout(b, k, padded);
      FirstGone(a);
    }
  }

  lemma Exchange(a: int, b: int, c: int)
    ensures a * (b * c) == b * (a * c)
  {
  }

  lemma {:induction false} PaddingIsIdle(dims: seq<int>)
    requires ZeroFree(dims)
    ensures Span(dims) == Product(dims, false)
  {
    if dims != [] { PaddingIsIdle(dims[1..]); }
  }

  /** A prefix or suffix of padded extents has at most the product of all of them. */
  lemma PartAtMost(a: seq<int>, b: seq<int>, padded: bool)
    requires padded || ZeroFree(a + b)
    ensures Product(a, padded) <= Product(a + b, padded) && Product(b, padded) <= Product(a + b, padded)
  {
    hide Product;
    if ZeroFree(a + b) {
      forall i | 0 <= i < |a| ensures a[i] >= 1 { assert a[i] == (a + b)[i]; }
      forall i | 0 <= i < |b| ensures b[i] >= 1 { assert b[i] == (a + b)[|a| + i]; }
    }
    ProductConcat(a, b, padded);
    ProductPositive(a, padded);
    ProductPositive(b, padded);
    MulOrder(1, Product(b, padded), Product(a, padded));
    MulOrder(1, Product(a, padded), Product(b, padded));
  }

  // ----- Multi-indices

  /** `index` is a multi-index of the shape. */
  predicate InBox(index: seq<int>, dims: seq<int>) {
    |index| == |dims| && forall i | 0 <= i < |dims| :: 0 <= index[i] < dims[i]
  }

  /** All multi-indices of the shape. */
  function Box(dims: seq<int>): set<seq<int>> {
    if dims == [] then {[]} else Layers(dims[0], Box(dims[1..]))
  }

  /** The first component is below `n`, the others form an element of `rest`. */
  function Layers(n: int, rest: set<seq<int>>): set<seq<int>> {
    set i, index | 0 <= i < n && index in rest :: [i] + index
  }

  lemma {:induction false} BoxIff(index: seq<int>, dims: seq<int>)
    ensures index in Box(dims) <==> InBox(index, dims)
  {
    if dims == [] {
      assert InBox(index, dims) <==> index == [];
    } else if index != [] {
      BoxIff(index[1..], dims[1..]);
      assert index == [index[0]] + index[1..];
      if index[1..] in Box(dims[1..]) && 0 <= index[0] < dims[0] {
        BoxCons(index, dims);
      }
    }
  }

  lemma BoxCons(index: seq<int>, dims: seq<int>)
    requires |index| == |dims| && dims != [] && 0 <= index[0] < dims[0] && InBox(index[1..], dims[1..])
    ensures InBox(index, dims)
  {
    forall i | 0 < i < |dims| ensures 0 <= index[i] < dims[i] {
      assert index[i] == index[1..][i - 1] && dims[i] == dims[1..][i - 1];
    }
  }

  /** A shape has as many multi-indices as the product of its extents says. */
  lemma {:induction false} BoxCount(dims: seq<int>)
    requires forall i | 0 <= i < |dims| :: dims[i] >= 0
    ensures |Box(dims)| == Product(dims, false)
  {
    if dims != [] {
      BoxCount(dims[1..]);
      LayersCount(dims[0], Box(dims[1..]));
    }
  }

  lemma {:induction false} LayersCount(n: nat, rest: set<seq<int>>)
    ensures |Layers(n, rest)| == n * |rest|
  {
    hide Layers, Layer;
    if n == 0 {
      NoLayers(rest);
    } else {
      LayersCount(n - 1, rest);
      LayerCount(n - 1, rest);
      TopLayer(n, rest);
      assert |Layers(n, rest)| == |Layers(n - 1, rest)| + |Layer(n - 1, rest)|;
      OneMore(n - 1, |rest|);
    }
  }

  lemma NoLayers(rest: set<seq<int>>)
    ensures Layers(0, rest) == {}
  {
  }

  lemma OneMore(n: int, c: int)
    ensures (n + 1) * c == n * c + c
  {
  }

  lemma TopLayer(n: nat, rest: set<seq<int>>)
    requires n > 0
    ensures Layers(n, rest) == Layers(n - 1, rest) + Layer(n - 1, rest)
    ensures Layers(n - 1, rest) * Layer(n - 1, rest) == {}
  {
    assert Layers(n, rest) == Layers(n - 1, rest) + Layer(n - 1, rest);
    var both := Layers(n - 1, rest) * Layer(n - 1, rest);
    assert both == {} by {
      assert forall index | index in both :: index[0] < n - 1;
      assert forall index | index in both :: index[0] == n - 1;
    }
  }

  function Layer(i: int, rest: set<seq<int>>): set<seq<int>> { set index | index in rest :: [i] + index }

  lemma {:induction false} LayerCount(i: int, rest: set<seq<int>>)
    ensures |Layer(i, rest)| == |rest|
  {
    if rest == {} {
      assert Layer(i, rest) == {};
    } else {
      var index :| index in rest;
      LayerCount(i, rest - {index});
      assert Layer(i, rest) == Layer(i, rest - {index}) + {[i] + index};
      assert [i] + index !in Layer(i, rest - {index}) by {
        forall other | other in rest - {index} ensures [i] + other != [i] + index {
          assert ([i] + other)[1..] == other && ([i] + index)[1..] == index;
        }
      }
    }
  }

  // ----- numel

  /** What `Shape::numel` returns. */
  function NumelOf(dims: seq<int>): Result<int> {
    if 0 in dims then Ok(0)
    else if Product(dims, false) <= UINT64.Max() then Ok(Product(dims, false))
    else Err(Overflow)
  }

  /** `Shape::numel` */
  method Numel(shape: Shape) returns (r: Result<int>)
    requires shape.Valid()
    ensures r == NumelOf(shape.dims)
    ensures var n := |Box(shape.dims)|; r == if n <= 0xFFFF_FFFF_FFFF_FFFF then Ok(n) else Err(Overflow)
    ensures 0 in shape.dims ==> r == Ok(0)
  {
    var dims := shape.dims;
    hide Box, Pow2, Product;
    Limits();
    NumelCounts(dims);
    if 0 in dims { return Ok(0); }
    assert dims[..|dims|] == dims;
    var count := 1;
    assert count == Product(dims[..0], false) by { EmptyProduct(false); }
    for i := 0 to |dims|
      invariant count == Product(dims[..i], false) && 1 <= count <= UINT64.Max()
    {
      NumelStep(dims, i);
      var next := CheckedMultiply(UINT64, count, dims[i]);
      if next.Err? { return Err(next.code); }
      count := next.value;
    }
    return Ok(count);
  }

  /** `numel` is the number of multi-indices, or fails because it does not fit `std::uint64_t`. */
  lemma NumelCounts(dims: seq<int>)
    requires forall i | 0 <= i < |dims| :: dims[i] >= 0
    ensures NumelOf(dims) == if |Box(dims)| <= 0xFFFF_FFFF_FFFF_FFFF then Ok(|Box(dims)|) else Err(Overflow)
    ensures |Box(dims)| == 0 <==> 0 in dims
  {
    hide Box, Product, Pow2;
    Limits();
    BoxCount(dims);
    if 0 in dims { ZeroProduct(dims); } else { ProductPositive(dims, false); }
  }

  lemma {:induction false} ZeroProduct(dims: seq<int>)
    requires 0 in dims
    ensures Product(dims, false) == 0
  {
    if dims[0] != 0 {
      assert dims == [dims[0]] + dims[1..];
      ZeroProduct(dims[1..]);
    }
  }

  lemma EmptyProduct(padded: bool)
    ensures Product([], padded) == 1
  {
  }

  lemma SingleProduct(d: int, padded: bool)
    ensures Product([d], padded) == Factor(d, padded)
  {
    assert [d][1..] == [];
  }

  /** What one turn of the loop of `numel` computes. */
  lemma NumelStep(dims: seq<int>, i: nat)
    requires i < |dims| && ZeroFree(dims)
    ensures Product(dims[..i + 1], false) == Product(dims[..i], false) * dims[i]
    ensures 1 <= Product(dims[..i + 1], false) <= Product(dims, false)
  {
    hide Product;
    var prefix := dims[..i + 1];
    assert prefix == dims[..i] + [dims[i]];
    SingleProduct(dims[i], false);
    ProductConcat(dims[..i], [dims[i]], false);
    assert dims == prefix + dims[i + 1..];
    PartAtMost(prefix, dims[i + 1..], false);
    ProductPositive(prefix, false);
  }

  /** Value and success of `numel` do not depend on the order of the axes. */
  lemma NumelPermutes(a: seq<int>, b: seq<int>)
    requires multiset(a) == multiset(b)
    ensures NumelOf(a) == NumelOf(b)
  {
    ProductPermutes(a, b, false);
    assert 0 in a <==> 0 in multiset(a);
    assert 0 in b <==> 0 in multiset(b);
  }

  // ----- contiguous_strides

  /** The canonical strides: each is the padded product of the extents to its right. */
  function Canon(dims: seq<int>): (s: seq<int>)
    ensures |s| == |dims|
  {
    if dims == [] then [] else [Span(dims[1..])] + Canon(dims[1..])
  }

  /** What `contiguous_strides` returns. */
  function StridesOf(dims: seq<int>): Result<seq<int>> {
    if Span(dims) <= INT64.Max() then Ok(Canon(dims)) else Err(Overflow)
  }

  /** `contiguous_strides` */
  method ContiguousStrides(shape: Shape) returns (r: Result<seq<int>>)
    requires shape.Valid()
    ensures r == StridesOf(shape.dims)
    ensures r.Ok? <==> |Box(Padded(shape.dims))| <= 0x7FFF_FFFF_FFFF_FFFF
    ensures r.Err? ==> r.code == Overflow
  {
    hide Product, Canon, Box, Pow2;
    SpanCounts(shape.dims);
    Limits();
    var dims := shape.dims;
    assert dims[0..] == dims && dims[|dims|..] == [];
    EmptyProduct(true);
    var strides := new int[|dims|](_ => 1);
    var nextStride := 1;
    var axis := |dims|;
    while axis > 0
      invariant 0 <= axis <= |dims|
      invariant nextStride == Span(dims[axis..]) && 1 <= nextStride <= INT64.Max()
      invariant strides[axis..] == Canon(dims[axis..])
    {
      var index := axis - 1;
      ghost var done := strides[axis..];
      strides[index] := nextStride;
      var extent := Max(dims[index], 1);
      StrideStep(dims, index);
      assert strides[axis..] == done;
      assert strides[index..] == [strides[index]] + strides[axis..];
      var next := CheckedMultiply(INT64, nextStride, extent);
      if next.Err? { return Err(next.code); }
      nextStride := next.value;
      axis := index;
    }
    return Ok(strides[..]);
  }

  /** The shape with extents of 1 in place of the extents of 0. */
  function Padded(dims: seq<int>): (r: seq<int>)
    ensures |r| == |dims|
  {
    seq(|dims|, i requires 0 <= i < |dims| => if dims[i] == 0 then 1 else dims[i])
  }

  /** The span is the number of multi-indices of the padded shape. */
  lemma SpanCounts(dims: seq<int>)
    requires forall i | 0 <= i < |dims| :: dims[i] >= 0
    ensures Span(dims) == |Box(Padded(dims))|
  {
    PaddedProduct(dims);
    BoxCount(Padded(dims));
  }

  lemma {:induction false} PaddedProduct(dims: seq<int>)
    requires forall i | 0 <= i < |dims| :: dims[i] >= 0
    ensures Span(dims) == Product(Padded(dims), false)
  {
    if dims != [] {
      PaddedProduct(dims[1..]);
      assert Padded(dims)[1..] == Padded(dims[1..]);
    }
  }

  /** An axis of extent 0 has a stride, but the other strides are as if it was not there. */
  lemma {:induction false} ZeroAxis(dims: seq<int>, k: nat)
    requires k < |dims| && dims[k] == 0
    ensures Span(dims) == Span(Without(dims, k))
    ensures Without(Canon(dims), k) == Canon(Without(dims, k))
  {
    if k == 0 {
      FirstGone(dims);
      FirstGone(Canon(dims));
    } else {
      var rest := dims[1..];
      ZeroAxis(rest, k - 1);
      assert Without(dims, k) == [dims[0]] + Without(rest, k - 1);
      assert Without(dims, k)[1..] == Without(rest, k - 1);
      assert Without(Canon(dims), k) == [Span(rest)] + Without(Canon(rest), k - 1);
    }
  }

  /** What one turn of the loop of `contiguous_strides` computes. */
  lemma StrideStep(dims: seq<int>, index: nat)
    requires index < |dims|
    ensures Span(dims[index..]) == Span(dims[index + 1..]) * Max(dims[index], 1)
    ensures 1 <= Span(dims[index..]) <= Span(dims)
    ensures Canon(dims[index..]) == [Span(dims[index + 1..])] + Canon(dims[index + 1..])
  {
    assert dims[index..][1..] == dims[index + 1..];
    ProductPositive(dims[index..], true);
    PartAtMost(dims[..index], dims[index..], true);
    assert dims == dims[..index] + dims[index..];
  }

  /** Stride `i` is the product of max(d, 1) over the axes to the right of `i`. */
  lemma {:induction false} CanonAt(dims: seq<int>, i: nat)
    requires i < |dims|
    ensures Canon(dims)[i] == Span(dims[i + 1..]) >= 1
  {
    ProductPositive(dims[i + 1..], true);
    if i > 0 {
      CanonAt(dims[1..], i - 1);
      assert dims[1..][i..] == dims[i + 1..];
    }
  }

  /** Whether the strides exist does not depend on the order of the axes. */
  lemma StridesPermute(a: seq<int>, b: seq<int>)
    requires multiset(a) == multiset(b)
    ensures StridesOf(a).Ok? <==> StridesOf(b).Ok?
  {
    ProductPermutes(a, b, true);
  }

  /** On a zero-free shape with strides, the element count is the first extent times the first stride. */
  lemma NumelFromStrides(dims: seq<int>)
    requires dims != [] && ZeroFree(dims) && StridesOf(dims).Ok?
    ensures NumelOf(dims) == Ok(dims[0] * StridesOf(dims).value[0])
  {
    PaddingIsIdle(dims);
    PaddingIsIdle(dims[1..]);
    WiderMax();
  }

  lemma WiderMax()
    ensures INT64.Max() <= UINT64.Max()
  {
    assert Pow2(64) == 2 * Pow2(63);
    assert Pow2(63) >= 1;
  }

  // ----- Row-major addressing

  /** The address of a multi-index: the sum of index[i] * stride[i]. */
  function Offset(index: seq<int>, strides: seq<int>): int
    requires |index| == |strides|
  {
    if index == [] then 0 else index[0] * strides[0] + Offset(index[1..], strides[1..])
  }

  predicate LexLess(a: seq<int>, b: seq<int>)
    requires |a| == |b|
  {
    a != [] && (a[0] < b[0] || (a[0] == b[0] && LexLess(a[1..], b[1..])))
  }

  /** The multi-index at a given address: component `i` is (offset / stride[i]) mod dim[i]. */
  function Unravel(k: nat, dims: seq<int>): (index: seq<int>)
    requires ZeroFree(dims)
    ensures |index| == |dims|
  {
    CanonPositive(dims);
    seq(|dims|, i requires 0 <= i < |dims| => (k / Canon(dims)[i]) % dims[i])
  }

  lemma CanonPositive(dims: seq<int>)
    ensures forall i | 0 <= i < |dims| :: Canon(dims)[i] >= 1
  {
    forall i | 0 <= i < |dims| ensures Canon(dims)[i] >= 1 { CanonAt(dims, i); }
  }

  lemma {:induction false} OffsetInRange(index: seq<int>, dims: seq<int>)
    requires InBox(index, dims)
    ensures ZeroFree(dims) && 0 <= Offset(index, Canon(dims)) < Product(dims, false)
  {
    assert forall i | 0 <= i < |dims| :: 0 <= index[i] < dims[i];
    if dims != [] {
      OffsetInRange(index[1..], dims[1..]);
      PaddingIsIdle(dims[1..]);
      var s := Span(dims[1..]);
      MulOrder(0, index[0], s);
      MulOrder(index[0], dims[0] - 1, s);
      assert (dims[0] - 1) * s == dims[0] * s - s;
    }
  }

  /** Addresses increase strictly with the row-major order of the multi-indices. */
  lemma {:induction false} OffsetIncreases(a: seq<int>, b: seq<int>, dims: seq<int>)
    requires InBox(a, dims) && InBox(b, dims)
    ensures Offset(a, Canon(dims)) < Offset(b, Canon(dims)) <==> LexLess(a, b)
    ensures Offset(a, Canon(dims)) == Offset(b, Canon(dims)) <==> a == b
  {
    if dims != [] {
      OffsetIncreases(a[1..], b[1..], dims[1..]);
      OffsetInRange(a[1..], dims[1..]);
      OffsetInRange(b[1..], dims[1..]);
      PaddingIsIdle(dims[1..]);
      OffsetCons(a, dims);
      OffsetCons(b, dims);
      CompareDigits(a[0], Offset(a[1..], Canon(dims[1..])), b[0], Offset(b[1..], Canon(dims[1..])), Span(dims[1..]));
      assert a == [a[0]] + a[1..] && b == [b[0]] + b[1..];
    }
  }

  lemma OffsetCons(index: seq<int>, dims: seq<int>)
    requires |index| == |dims| && dims != []
    ensures Offset(index, Canon(dims)) == index[0] * Span(dims[1..]) + Offset(index[1..], Canon(dims[1..]))
  {
    assert Canon(dims)[1..] == Canon(dims[1..]);
  }

  lemma CompareDigits(a: int, x: int, b: int, y: int, s: int)
    requires 0 <= x < s && 0 <= y < s
    ensures a * s + x < b * s + y <==> a < b || (a == b && x < y)
    ensures a * s + x == b * s + y <==> a == b && x == y
  {
    if a < b { Apart(a, b, s); }
    if b < a { Apart(b, a, s); }
  }

  lemma Apart(x: int, y: int, s: int)
    requires x < y && s >= 0
    ensures x * s + s <= y * s
  {
    MulOrder(x + 1, y, s);
  }

  /** The quotient and the remainder by `s` determine a number. */
  lemma SplitUnique(k: int, s: int, q: int, r: int)
    requires s > 0 && k == q * s + r && 0 <= r < s
    ensures k / s == q && k % s == r
  {
    QuotientBounds(k, s);
    var q' := k / s;
    if q' < q { Apart(q', q, s); } else if q < q' { Apart(q, q', s); }
  }

  lemma UnravelAt(k: nat, dims: seq<int>, i: nat)
    requires ZeroFree(dims) && i < |dims|
    ensures Canon(dims)[i] == Span(dims[i + 1..]) >= 1
    ensures Unravel(k, dims)[i] == (k / Canon(dims)[i]) % dims[i]
  {
    CanonAt(dims, i);
  }

  /** `Unravel` of a rest only looks at the remainder. */
  lemma UnravelTail(k: nat, dims: seq<int>)
    requires dims != [] && ZeroFree(dims)
    ensures Span(dims[1..]) >= 1 && Unravel(k, dims)[1..] == Unravel(k % Span(dims[1..]), dims[1..])
  {
    ProductPositive(dims[1..], true);
    forall i | 0 <= i < |dims| - 1
      ensures Unravel(k, dims)[i + 1] == Unravel(k % Span(dims[1..]), dims[1..])[i]
    {
      UnravelTailAt(k, dims, i);
    }
  }

  lemma UnravelTailAt(k: nat, dims: seq<int>, i: nat)
    requires ZeroFree(dims) && i + 1 < |dims|
    ensures Span(dims[1..]) >= 1 && Unravel(k, dims)[i + 1] == Unravel(k % Span(dims[1..]), dims[1..])[i]
  {
    var rest, s := dims[1..], Span(dims[1..]);
    ProductPositive(rest, true);
    UnravelAt(k, dims, i + 1);
    UnravelAt(k % s, rest, i);
    assert dims[i + 2..] == rest[i + 1..];
    assert rest == rest[..i] + rest[i..] && rest[i..][1..] == rest[i + 1..];
    ProductConcat(rest[..i], rest[i..], true);
    ProductPositive(rest[..i], true);
    DigitOfRemainder(k, Span(rest[i + 1..]), rest[i], Product(rest[..i], true), s);
  }

  /** A digit of `k` at position `c` is the digit of `k` mod s if s is a multiple of c * d. */
  lemma DigitOfRemainder(k: nat, c: int, d: int, m: int, s: int)
    requires c >= 1 && d >= 1 && m >= 1 && s == m * (d * c) && s >= 1
    ensures ((k % s) / c) % d == (k / c) % d
  {
    var r, q := k % s, k / s;
    QuotientBounds(k, s);
    var rc, rr := r / c, r % c;
    QuotientBounds(r, c);
    var qm := q * m;
    assert q * s == (qm * d) * c by {
      Associative(q, m, d * c);
      Associative(qm, d, c);
    }
    assert k == (qm * d + rc) * c + rr by {
      assert k == q * s + r;
      assert (qm * d + rc) * c == (qm * d) * c + rc * c;
    }
    SplitUnique(k, c, qm * d + rc, rr);
    var dd, dr := rc / d, rc % d;
    QuotientBounds(rc, d);
    assert qm * d + rc == (qm + dd) * d + dr by {
      assert (qm + dd) * d == qm * d + dd * d;
    }
    SplitUnique(qm * d + rc, d, qm + dd, dr);
  }

  /** The first component is the quotient by the first stride. */
  lemma FirstDigit(k: nat, dims: seq<int>)
    requires dims != [] && ZeroFree(dims) && k < Product(dims, false)
    ensures Span(dims[1..]) >= 1 && Unravel(k, dims)[0] == k / Span(dims[1..]) && 0 <= k / Span(dims[1..]) < dims[0]
  {
    PaddingIsIdle(dims[1..]);
    UnravelAt(k, dims, 0);
    var s := Span(dims[1..]);
    QuotientBounds(k, s);
    if k / s >= dims[0] { MulOrder(dims[0], k / s, s); }
    if k / s < 0 { MulOrder(k / s, -1, s); }
    SplitUnique(k / s, dims[0], 0, k / s);
  }

  /** Every address of the shape is the address of the multi-index that `Unravel` computes. */
  lemma {:induction false} UnravelThenOffset(k: nat, dims: seq<int>)
    requires ZeroFree(dims) && k < Product(dims, false)
    ensures InBox(Unravel(k, dims), dims) && Offset(Unravel(k, dims), Canon(dims)) == k
  {
    hide Unravel;
    if dims != [] {
      var s, index := Span(dims[1..]), Unravel(k, dims);
      FirstDigit(k, dims);
      UnravelTail(k, dims);
      PaddingIsIdle(dims[1..]);
      QuotientBounds(k, s);
      UnravelThenOffset(k % s, dims[1..]);
      OffsetCons(index, dims);
      BoxCons(index, dims);
    }
  }

  /**
   Row-major addressing is a bijection from the multi-indices of a zero-free shape onto [0, numel),
   with `Unravel` as its inverse, and no address and no partial sum of one leaves `std::int64_t`.
   */
  lemma AddressingIsBijective(dims: seq<int>)
    requires ZeroFree(dims) && StridesOf(dims).Ok?
    ensures NumelOf(dims) == Ok(Product(dims, false))
    ensures forall index | InBox(index, dims) ::
              var k := Offset(index, StridesOf(dims).value);
              0 <= k < Product(dims, false) && Unravel(k, dims) == index
    ensures forall k: nat | k < Product(dims, false) ::
              InBox(Unravel(k, dims), dims) && Offset(Unravel(k, dims), StridesOf(dims).value) == k
    ensures forall index, j | InBox(index, dims) && 0 <= j <= |dims| ::
              INT64.Has(Offset(index[..j], StridesOf(dims).value[..j]))
  {
    PaddingIsIdle(dims);
    WiderMax();
    var strides := Canon(dims);
    forall index | InBox(index, dims)
      ensures 0 <= Offset(index, strides) < Product(dims, false) && Unravel(Offset(index, strides), dims) == index
    {
      OffsetInRange(index, dims);
      var k := Offset(index, strides);
      UnravelThenOffset(k, dims);
      OffsetIncreases(Unravel(k, dims), index, dims);
    }
    forall k: nat | k < Product(dims, false)
      ensures InBox(Unravel(k, dims), dims) && Offset(Unravel(k, dims), strides) == k
    {
      UnravelThenOffset(k, dims);
    }
    forall index, j | InBox(index, dims) && 0 <= j <= |dims|
      ensures INT64.Has(Offset(index[..j], strides[..j]))
    {
      OffsetInRange(index, dims);
      CanonPositive(dims);
      PartialSum(index, strides, j);
    }
  }

  /** Partial sums of non-negative terms lie between 0 and the total. */
  lemma {:induction false} PartialSum(index: seq<int>, strides: seq<int>, j: nat)
    requires |index| == |strides| && j <= |index|
    requires forall i | 0 <= i < |index| :: index[i] >= 0 && strides[i] >= 1
    ensures 0 <= Offset(index[..j], strides[..j]) <= Offset(index, strides)
  {
    if index != [] {
      MulOrder(0, index[0], strides[0]);
      if j == 0 {
        PartialSum(index[1..], strides[1..], 0);
      } else {
        PartialSum(index[1..], strides[1..], j - 1);
        assert index[..j][1..] == index[1..][..j - 1] && strides[..j][1..] == strides[1..][..j - 1];
      }
    }
  }

  // ----- is_contiguous

  /** `is_contiguous` */
  method IsContiguous(shape: Shape, strides: seq<int>) returns (r: Result<bool>)
    requires shape.Valid()
    ensures |shape.dims| != |strides| ==> r == Err(InvalidArgument)
    ensures |shape.dims| == |strides| && StridesOf(shape.dims).Err? ==> r == Err(Overflow)
    ensures |shape.dims| == |strides| && StridesOf(shape.dims).Ok? ==>
              r == Ok(StridesOf(shape.dims).value == strides)
  {
    if |shape.dims| != |strides| { return Err(InvalidArgument); }
    var expected := ContiguousStrides(shape);
    if expected.Err? { return Err(expected.code); }
    return Ok(expected.value == strides);
  }

  /** The strides send the k-th multi-index in row-major order to k, for every k. */
  ghost predicate Dense(dims: seq<int>, strides: seq<int>)
    requires |dims| == |strides| && ZeroFree(dims)
  {
    forall k: nat | k < Product(dims, false) :: Offset(Unravel(k, dims), strides) == k
  }

  /** Strides are dense exactly if they are canonical on every axis of extent 2 or more. */
  lemma DenseIff(dims: seq<int>, strides: seq<int>)
    requires |dims| == |strides| && ZeroFree(dims)
    ensures Dense(dims, strides) <==> forall i | 0 <= i < |dims| && dims[i] >= 2 :: strides[i] == Canon(dims)[i]
  {
    if Dense(dims, strides) {
      forall i | 0 <= i < |dims| && dims[i] >= 2 ensures strides[i] == Canon(dims)[i] {
        var e := Unit(|dims|, i);
        OffsetInRange(e, dims);
        var k := Offset(e, Canon(dims));
        UnravelThenOffset(k, dims);
        OffsetIncreases(Unravel(k, dims), e, dims);
        assert Offset(Unravel(k, dims), strides) == k;
        OffsetUnit(strides, i);
        OffsetUnit(Canon(dims), i);
      }
    }
    if forall i | 0 <= i < |dims| && dims[i] >= 2 :: strides[i] == Canon(dims)[i] {
      forall k: nat | k < Product(dims, false) ensures Offset(Unravel(k, dims), strides) == k {
        UnravelThenOffset(k, dims);
        OffsetAgrees(Unravel(k, dims), dims, strides, Canon(dims));
      }
    }
  }

  /** The multi-index with a single 1. */
  function Unit(n: nat, i: nat): (e: seq<int>)
    ensures |e| == n
  {
    seq(n, j => if j == i then 1 else 0)
  }

  lemma {:induction false} OffsetUnit(strides: seq<int>, i: nat)
    requires i < |strides|
    ensures Offset(Unit(|strides|, i), strides) == strides[i]
  {
    var e := Unit(|strides|, i);
    if i == 0 {
      OffsetZero(e[1..], strides[1..]);
    } else {
      assert e[1..] == Unit(|strides| - 1, i - 1);
      OffsetUnit(strides[1..], i - 1);
    }
  }

  lemma {:induction false} OffsetZero(index: seq<int>, strides: seq<int>)
    requires |index| == |strides| && forall i | 0 <= i < |index| :: index[i] == 0
    ensures Offset(index, strides) == 0
  {
    if index != [] { OffsetZero(index[1..], strides[1..]); }
  }

  lemma {:induction false} OffsetAgrees(index: seq<int>, dims: seq<int>, a: seq<int>, b: seq<int>)
    requires InBox(index, dims) && |a| == |b| == |dims|
    requires forall i | 0 <= i < |dims| && dims[i] >= 2 :: a[i] == b[i]
    ensures Offset(index, a) == Offset(index, b)
  {
    if dims != [] {
      OffsetAgrees(index[1..], dims[1..], a[1..], b[1..]);
      if dims[0] < 2 { assert index[0] == 0; }
    }
  }

  /** What `is_contiguous` accepts: dense strides that also match literally on axes of extent 1. */
  lemma ContiguousMeansDense(dims: seq<int>, strides: seq<int>)
    requires |dims| == |strides| && ZeroFree(dims) && StridesOf(dims).Ok?
    ensures StridesOf(dims).value == strides
       <==> Dense(dims, strides) && forall i | 0 <= i < |dims| && dims[i] == 1 :: strides[i] == Canon(dims)[i]
  {
    DenseIff(dims, strides);
    if forall i | 0 <= i < |dims| :: strides[i] == Canon(dims)[i] { assert strides == Canon(dims); }
  }

  /** Dense strides that are rejected: one element, with a stride that is never used. */
  lemma DenseButRejected()
    ensures Dense([1], [5]) && StridesOf([1]) == Ok([1])
  {
    DenseIff([1], [5]);
    assert [1][1..] == [];
    assert Span([1]) == Max(1, 1) * Span([]) == 1;
    assert Canon([1]) == [Span([])] + Canon([]) == [1];
    assert Pow2(63) == 2 * Pow2(62);
  }
}
