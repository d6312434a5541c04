/** Row-major layout arithmetic of a dense N-dimensional array: the extents of
    the axes (the shape), the element count, the strides derived from the
    shape, and the conversion between a coordinate and a flat buffer offset.
    Everything here is a pure function of the shape. */
module Layout {

  /** Every extent is non-negative. */
  predicate NonNegative(s: seq<int>)
  {
    forall d :: 0 <= d < |s| ==> s[d] >= 0
  }

  /** Every extent after the first is positive. The first extent never enters
      a stride, so this is exactly what makes every stride non-zero. */
  predicate TailPositive(s: seq<int>)
  {
    forall d :: 1 <= d < |s| ==> s[d] > 0
  }

  /** The all-zero shape of a default-constructed array of rank n. */
  function Zeros(n: nat): seq<int>
  {
    seq(n, _ => 0)
  }

  /** Element count of a shape: the extents multiplied left to right, starting
      from 1. */
  function Product(s: seq<int>): int
    decreases |s|
  {
    if s == [] then 1 else Product(s[..|s| - 1]) * s[|s| - 1]
  }

  /** A coordinate is valid when it has one component per axis and each
      component lies in [0, extent). */
  predicate IsIndex(s: seq<int>, c: seq<int>)
  {
    |c| == |s| && forall d :: 0 <= d < |s| ==> 0 <= c[d] < s[d]
  }

  /** The same, for the components c of axes i, i+1, ... only. */
  predicate IsIndexFrom(s: seq<int>, c: seq<int>, i: nat)
  {
    i + |c| == |s| && forall k :: 0 <= k < |c| ==> 0 <= c[k] < s[i + k]
  }

  // ---------------------------------------------------------------------
  // Products

  lemma MulLeft(a: int, b: int, k: int)
    requires a <= b && k >= 0
    ensures a * k <= b * k
  {
  }

  lemma {:induction false} ProductAppend(a: seq<int>, b: seq<int>)
    ensures Product(a + b) == Product(a) * Product(b)
    decreases |b|
  {
    if b == [] {
      assert a + b == a;
    } else {
      var init, last := b[..|b| - 1], b[|b| - 1];
      assert (a + b)[..|a + b| - 1] == a + init;
      assert (a + b)[|a + b| - 1] == last;
      ProductAppend(a, init);
      calc {
        Product(a + b);
        Product(a + init) * last;
        Product(a) * Product(init) * last;
        Product(a) * (Product(init) * last);
        Product(a) * Product(b);
      }
    }
  }

  /** For non-negative extents the element count is non-negative, and it is
      positive exactly when no extent is zero. */
  lemma {:induction false} ProductSign(s: seq<int>)
    requires NonNegative(s)
    ensures Product(s) >= 0
    ensures Product(s) > 0 <==> forall d :: 0 <= d < |s| ==> s[d] > 0
    decreases |s|
  {
    if s != [] {
      var init, last := s[..|s| - 1], s[|s| - 1];
      assert NonNegative(init);
      ProductSign(init);
      if Product(init) > 0 && last > 0 {
        assert Product(s) > 0;
      } else if last == 0 {
        assert Product(s) == 0;
      } else {
        assert Product(init) == 0;
        assert Product(s) == 0;
        var d :| 0 <= d < |init| && init[d] <= 0;
        assert s[d] <= 0;
      }
    }
  }

  /** A default-constructed array holds no element. */
  lemma ZerosProduct(n: nat)
    requires n >= 1
    ensures Product(Zeros(n)) == 0
  {
    assert Zeros(n)[n - 1] == 0;
  }

  // ---------------------------------------------------------------------
  // Strides

  /** stride(d): 1 for the last axis, otherwise the stride of the next axis
      times that axis's extent. It is derived on demand and never stored; it
      equals the number of elements spanned by the axes after d. */
  function Stride(s: seq<int>, d: int): (r: int)
    requires 0 <= d < |s|
    ensures r == Product(s[d + 1..])
    decreases |s| - d
  {
    if d == |s| - 1 then
      assert s[d + 1..] == [];
      1
    else
      var next := Stride(s, d + 1);
      assert s[d + 1..] == [s[d + 1]] + s[d + 2..];
      assert [s[d + 1]][..0] == [];
      ProductAppend([s[d + 1]], s[d + 2..]);
      next * s[d + 1]
  }

  /** The elements spanned by axes i, i+1, ... are the extent of axis i
      times the stride of axis i. */
  lemma ProductFrom(s: seq<int>, i: nat)
    requires i < |s|
    ensures Product(s[i..]) == s[i] * Stride(s, i)
  {
    assert s[i..] == [s[i]] + s[i + 1..];
    assert [s[i]][..0] == [];
    ProductAppend([s[i]], s[i + 1..]);
  }

  /** size == shape[0] * stride(0). */
  lemma SizeIsFirstExtentTimesStride(s: seq<int>)
    requires |s| >= 1
    ensures Product(s) == s[0] * Stride(s, 0)
  {
    assert s[0..] == s;
    ProductFrom(s, 0);
  }

  lemma StridePositive(s: seq<int>, d: nat)
    requires TailPositive(s) && d < |s|
    ensures Stride(s, d) > 0
  {
    var t := s[d + 1..];
    assert forall k :: 0 <= k < |t| ==> t[k] == s[d + 1 + k];
    ProductSign(t);
  }

  /** For non-negative extents no stride is negative. */
  lemma StrideNonNegative(s: seq<int>, d: nat)
    requires NonNegative(s) && d < |s|
    ensures Stride(s, d) >= 0
  {
    var t := s[d + 1..];
    assert forall k :: 0 <= k < |t| ==> t[k] == s[d + 1 + k];
    ProductSign(t);
  }

  /** The strides of the default (all-zero) shape: 1 on the last axis, 0 on
      every other axis. */
  lemma DefaultStrides(n: nat)
    requires n >= 1
    ensures Stride(Zeros(n), n - 1) == 1
    ensures forall d :: 0 <= d < n - 1 ==> Stride(Zeros(n), d) == 0
  {
    forall d | 0 <= d < n - 1
      ensures Stride(Zeros(n), d) == 0
    {
      assert Zeros(n)[d + 1] == 0;
    }
  }

  /** The five-dimensional shape (2,3,4,5,6): 720 elements, strides
      (360,120,30,6,1). */
  lemma FiveDimensionalExample()
    ensures Product([2, 3, 4, 5, 6]) == 720
    ensures Stride([2, 3, 4, 5, 6], 0) == 360
    ensures Stride([2, 3, 4, 5, 6], 1) == 120
    ensures Stride([2, 3, 4, 5, 6], 2) == 30
    ensures Stride([2, 3, 4, 5, 6], 3) == 6
    ensures Stride([2, 3, 4, 5, 6], 4) == 1
  {
    assert [2][..0] == [];
    assert Product([2]) == 2;
    assert [2, 3][..1] == [2];
    assert Product([2, 3]) == 6;
    assert [2, 3, 4][..2] == [2, 3];
    assert Product([2, 3, 4]) == 24;
    assert [2, 3, 4, 5][..3] == [2, 3, 4];
    assert Product([2, 3, 4, 5]) == 120;
    assert [2, 3, 4, 5, 6][..4] == [2, 3, 4, 5];
  }

  // ---------------------------------------------------------------------
  // Coordinate <-> flat offset

  /** The offset contributed by the components c of axes i, i+1, ...: the sum
      of c[k] * stride(i + k). */
  function FlattenFrom(s: seq<int>, c: seq<int>, i: nat): int
    requires i + |c| == |s|
    decreases |c|
  {
    if c == [] then 0 else c[0] * Stride(s, i) + FlattenFrom(s, c[1..], i + 1)
  }

  /** The flat offset of coordinate c: the weighted sum of its components
      against the strides. */
  function Flatten(s: seq<int>, c: seq<int>): int
    requires |c| == |s|
  {
    FlattenFrom(s, c, 0)
  }

  /** The components of axes i, i+1, ... recovered from the remaining offset
      rem: divide by the axis's stride, carry the remainder to the next axis. */
  function UnflattenFrom(s: seq<int>, i: nat, rem: int): (c: seq<int>)
    requires i <= |s| && TailPositive(s) && rem >= 0
    ensures |c| == |s| - i
    decreases |s| - i
  {
    if i == |s| then []
    else
      StridePositive(s, i);
      var st := Stride(s, i);
      [rem / st] + UnflattenFrom(s, i + 1, rem % st)
  }

  /** The coordinate of flat offset f, recovered by successive division and
      remainder by each axis's stride, axis 0 first. */
  function Unflatten(s: seq<int>, f: int): seq<int>
    requires TailPositive(s) && f >= 0
  {
    UnflattenFrom(s, 0, f)
  }

  lemma IndexIsIndexFrom(s: seq<int>, c: seq<int>)
    ensures IsIndex(s, c) <==> IsIndexFrom(s, c, 0)
  {
    if IsIndexFrom(s, c, 0) {
      forall d | 0 <= d < |s| ensures 0 <= c[d] < s[d] {
        assert 0 + d == d;
      }
    }
  }

  lemma IndexFromTail(s: seq<int>, c: seq<int>, i: nat)
    requires IsIndexFrom(s, c, i) && c != []
    ensures i < |s| && 0 <= c[0] < s[i]
    ensures IsIndexFrom(s, c[1..], i + 1)
  {
    assert 0 <= c[0] < s[i + 0];
    forall k | 0 <= k < |c[1..]| ensures 0 <= c[1..][k] < s[i + 1 + k] {
      assert c[1..][k] == c[k + 1];
      assert 0 <= c[k + 1] < s[i + (k + 1)];
    }
  }

  lemma IndexFromCons(s: seq<int>, x: int, c: seq<int>, i: nat)
    requires i < |s| && 0 <= x < s[i] && IsIndexFrom(s, c, i + 1)
    ensures IsIndexFrom(s, [x] + c, i)
  {
    var e := [x] + c;
    forall k | 0 <= k < |e| ensures 0 <= e[k] < s[i + k] {
      if k > 0 {
        assert e[k] == c[k - 1];
        assert 0 <= c[k - 1] < s[i + 1 + (k - 1)];
      }
    }
  }

  lemma DivModUnique(a: int, st: int, q: int, r: int)
    requires st > 0 && 0 <= r < st && a == q * st + r
    ensures a / st == q && a % st == r
  {
    var q', r' := a / st, a % st;
    assert a == q' * st + r' && 0 <= r' < st;
    if q' < q {
      MulLeft(q' + 1, q, st);
      assert false;
    } else if q < q' {
      MulLeft(q + 1, q', st);
      assert false;
    }
  }

  /** The offset of the valid components of axes i, i+1, ... lies in
      [0, elements spanned by those axes). */
  lemma {:induction false} FlattenFromBounds(s: seq<int>, c: seq<int>, i: nat)
    requires IsIndexFrom(s, c, i)
    ensures 0 <= FlattenFrom(s, c, i) < Product(s[i..])
    decreases |c|
  {
    if c == [] {
      assert s[i..] == [];
    } else {
      IndexFromTail(s, c, i);
      FlattenFromBounds(s, c[1..], i + 1);
      var st := Stride(s, i);
      var rest := FlattenFrom(s, c[1..], i + 1);
      assert FlattenFrom(s, c, i) == c[0] * st + rest;
      assert 0 <= rest < st;
      ProductFrom(s, i);
      MulLeft(0, c[0], st);
      MulLeft(c[0] + 1, s[i], st);
      assert (c[0] + 1) * st == c[0] * st + st;
    }
  }

  /** Every valid coordinate flattens into [0, size). */
  lemma FlattenInRange(s: seq<int>, c: seq<int>)
    requires IsIndex(s, c)
    ensures 0 <= Flatten(s, c) < Product(s)
  {
    IndexIsIndexFrom(s, c);
    FlattenFromBounds(s, c, 0);
    assert s[0..] == s;
  }

  lemma {:induction false} FlattenUnflattenFrom(s: seq<int>, i: nat, rem: int)
    requires TailPositive(s) && i < |s| && rem >= 0
    ensures FlattenFrom(s, UnflattenFrom(s, i, rem), i) == rem
    decreases |s| - i
  {
    StridePositive(s, i);
    var st := Stride(s, i);
    var u := UnflattenFrom(s, i, rem);
    assert u[0] == rem / st;
    assert u[1..] == UnflattenFrom(s, i + 1, rem % st);
    if i + 1 == |s| {
      assert st == 1;
    } else {
      FlattenUnflattenFrom(s, i + 1, rem % st);
    }
  }

  /** n2one(one2n(f)) == f: re-flattening the recovered coordinate gives back
      the offset, for every non-negative offset once the strides are non-zero. */
  lemma FlattenUnflatten(s: seq<int>, f: int)
    requires |s| >= 1 && TailPositive(s) && f >= 0
    ensures Flatten(s, Unflatten(s, f)) == f
  {
    FlattenUnflattenFrom(s, 0, f);
  }

  lemma {:induction false} UnflattenFlattenFrom(s: seq<int>, c: seq<int>, i: nat)
    requires TailPositive(s) && IsIndexFrom(s, c, i)
    ensures FlattenFrom(s, c, i) >= 0 && UnflattenFrom(s, i, FlattenFrom(s, c, i)) == c
    decreases |c|
  {
    FlattenFromBounds(s, c, i);
    if c != [] {
      IndexFromTail(s, c, i);
      FlattenFromBounds(s, c[1..], i + 1);
      var st := Stride(s, i);
      var rest := FlattenFrom(s, c[1..], i + 1);
      DivModUnique(FlattenFrom(s, c, i), st, c[0], rest);
      UnflattenFlattenFrom(s, c[1..], i + 1);
      assert [c[0]] + c[1..] == c;
    }
  }

  /** one2n(n2one(c)) == c for every valid coordinate c. */
  lemma UnflattenFlatten(s: seq<int>, c: seq<int>)
    requires IsIndex(s, c)
    ensures TailPositive(s) && Flatten(s, c) >= 0
    ensures Unflatten(s, Flatten(s, c)) == c
  {
    IndexIsIndexFrom(s, c);
    UnflattenFlattenFrom(s, c, 0);
  }

  /** Distinct valid coordinates have distinct offsets. */
  lemma FlattenInjective(s: seq<int>, a: seq<int>, b: seq<int>)
    requires IsIndex(s, a) && IsIndex(s, b) && Flatten(s, a) == Flatten(s, b)
    ensures a == b
  {
    UnflattenFlatten(s, a);
    UnflattenFlatten(s, b);
  }

  lemma {:induction false} UnflattenFromIsIndex(s: seq<int>, i: nat, rem: int)
    requires TailPositive(s) && i <= |s| && 0 <= rem < Product(s[i..])
    ensures IsIndexFrom(s, UnflattenFrom(s, i, rem), i)
    decreases |s| - i
  {
    if i == |s| {
      assert s[i..] == [];
    } else {
      StridePositive(s, i);
      var st := Stride(s, i);
      ProductFrom(s, i);
      var q, r := rem / st, rem % st;
      assert rem == q * st + r && 0 <= r < st;
      if q < 0 {
        MulLeft(q, -1, st);
        assert false;
      }
      if q >= s[i] {
        MulLeft(s[i], q, st);
        assert false;
      }
      UnflattenFromIsIndex(s, i + 1, r);
      IndexFromCons(s, q, UnflattenFrom(s, i + 1, r), i);
    }
  }

  /** For every offset 0 <= f < size, one2n(f) is a valid coordinate. */
  lemma UnflattenInRange(s: seq<int>, f: int)
    requires NonNegative(s) && 0 <= f < Product(s)
    ensures TailPositive(s) && IsIndex(s, Unflatten(s, f))
  {
    ProductSign(s);
    assert s[0..] == s;
    UnflattenFromIsIndex(s, 0, f);
    IndexIsIndexFrom(s, Unflatten(s, f));
  }

  lemma {:induction false} UnflattenFromZero(s: seq<int>, i: nat)
    requires TailPositive(s) && i <= |s|
    ensures UnflattenFrom(s, i, 0) == Zeros(|s| - i)
    decreases |s| - i
  {
    if i < |s| {
      StridePositive(s, i);
      UnflattenFromZero(s, i + 1);
      assert [0] + Zeros(|s| - (i + 1)) == Zeros(|s| - i);
    }
  }

  /** The first position (offset 0) is the all-zero coordinate. */
  lemma UnflattenZero(s: seq<int>)
    requires TailPositive(s)
    ensures Unflatten(s, 0) == Zeros(|s|)
  {
    UnflattenFromZero(s, 0);
  }

  // ---------------------------------------------------------------------
  // Row-major order

  /** Strict lexicographic order on coordinates, axis 0 most significant:
      the row-major (C) order, in which the last axis varies fastest. */
  predicate LexLess(a: seq<int>, b: seq<int>)
    decreases |a|
  {
    a != [] && b != [] && (a[0] < b[0] || (a[0] == b[0] && LexLess(a[1..], b[1..])))
  }

  lemma {:induction false} LexIrreflexive(a: seq<int>)
    ensures !LexLess(a, a)
    decreases |a|
  {
    if a != [] {
      LexIrreflexive(a[1..]);
    }
  }

  lemma {:induction false} LexTotal(a: seq<int>, b: seq<int>)
    requires |a| == |b| && a != b
    ensures LexLess(a, b) || LexLess(b, a)
    decreases |a|
  {
    assert a != [];
    if a[0] == b[0] {
      assert a == [a[0]] + a[1..] && b == [b[0]] + b[1..];
      LexTotal(a[1..], b[1..]);
    }
  }

  lemma {:induction false} FlattenFromMonotone(s: seq<int>, a: seq<int>, b: seq<int>, i: nat)
    requires IsIndexFrom(s, a, i) && IsIndexFrom(s, b, i) && LexLess(a, b)
    ensures FlattenFrom(s, a, i) < FlattenFrom(s, b, i)
    decreases |a|
  {
    IndexFromTail(s, a, i);
    IndexFromTail(s, b, i);
    FlattenFromBounds(s, a[1..], i + 1);
    FlattenFromBounds(s, b[1..], i + 1);
    var st := Stride(s, i);
    var ra, rb := FlattenFrom(s, a[1..], i + 1), FlattenFrom(s, b[1..], i + 1);
    assert FlattenFrom(s, a, i) == a[0] * st + ra;
    assert FlattenFrom(s, b, i) == b[0] * st + rb;
    if a[0] < b[0] {
      assert ra < st;
      MulLeft(a[0] + 1, b[0], st);
      assert (a[0] + 1) * st == a[0] * st + st;
    } else {
      assert a[0] == b[0] && LexLess(a[1..], b[1..]);
      FlattenFromMonotone(s, a[1..], b[1..], i + 1);
    }
  }

  /** Flattening preserves row-major order on valid coordinates. */
  lemma FlattenMonotone(s: seq<int>, a: seq<int>, b: seq<int>)
    requires IsIndex(s, a) && IsIndex(s, b) && LexLess(a, b)
    ensures Flatten(s, a) < Flatten(s, b)
  {
    IndexIsIndexFrom(s, a);
    IndexIsIndexFrom(s, b);
    FlattenFromMonotone(s, a, b, 0);
  }

  /** Stepping through offsets 0 .. size-1 recovers the coordinates in strictly
      increasing row-major order. */
  lemma RowMajorOrder(s: seq<int>, p: int, q: int)
    requires |s| >= 1 && NonNegative(s) && 0 <= p < q < Product(s)
    ensures TailPositive(s) && LexLess(Unflatten(s, p), Unflatten(s, q))
  {
    UnflattenInRange(s, p);
    UnflattenInRange(s, q);
    var a, b := Unflatten(s, p), Unflatten(s, q);
    FlattenUnflatten(s, p);
    FlattenUnflatten(s, q);
    LexTotal(a, b);
    if LexLess(b, a) {
      FlattenMonotone(s, b, a);
      assert false;
    }
  }

  /** Each valid coordinate is recovered from exactly one offset in [0, size):
      its flattening. */
  lemma VisitedExactlyOnce(s: seq<int>, c: seq<int>)
    requires |s| >= 1 && IsIndex(s, c)
    ensures TailPositive(s) && 0 <= Flatten(s, c) < Product(s)
    ensures Unflatten(s, Flatten(s, c)) == c
    ensures forall p :: 0 <= p < Product(s) && Unflatten(s, p) == c ==> p == Flatten(s, c)
  {
    FlattenInRange(s, c);
    UnflattenFlatten(s, c);
    forall p | 0 <= p < Product(s) && Unflatten(s, p) == c
      ensures p == Flatten(s, c)
    {
      FlattenUnflatten(s, p);
    }
  }

  // ---------------------------------------------------------------------
  // The shape product as accumulated at construction

  /** Left-to-right accumulation of the extents, starting from 1. */
  method AccumulateProduct(s: seq<int>) returns (p: int)
    ensures p == Product(s)
  {
    p := 1;
    var i := 0;
    while i < |s|
      invariant 0 <= i <= |s|
      invariant p == Product(s[..i])
    {
      assert s[..i + 1][..i] == s[..i];
      p := p * s[i];
      i := i + 1;
    }
    assert s[..|s|] == s;
  }
}
