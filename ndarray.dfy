/** The dense N-dimensional array `ndarray<T, N>`: a class that exclusively
    owns a contiguous row-major buffer, together with its coordinate-aware
    cursor, the enumerating cursor and the enumerator view over it. */
module NdArrays {
  import opened Layout

  /** A dense array of rank `rank` (the compile-time N of the array). The
      buffer holds `size` elements, `size` being the product of `shape`;
      `data` is null only in the default (and moved-from) state. */
  class NdArray<T(0)> {
    const rank: nat
    var shape: seq<int>
    var size: int
    var data: array?<T>

    /** The array's invariant. */
    ghost predicate Valid()
      reads this
    {
      && rank >= 1
      && |shape| == rank
      && NonNegative(shape)
      && size == Product(shape)
      && (data == null ==> shape == Zeros(rank) && size == 0)
      && (data != null ==> data.Length == size)
    }

    /** The buffer's contents in storage (row-major flat) order. */
    ghost function Elements(): (e: seq<T>)
      reads this, data
      requires Valid()
      ensures |e| == size
    {
      if data == null then [] else data[..]
    }

    /** The element that coordinate access reaches: the one stored at the
        coordinate's row-major offset. */
    ghost function At(c: seq<int>): T
      reads this, data
      requires Valid() && IsIndex(shape, c)
    {
      FlattenInRange(shape, c);
      Elements()[Flatten(shape, c)]
    }

    /** Default construction: zero extent on every axis, size 0, no storage. */
    constructor Default(rank: nat)
      requires rank >= 1
      ensures Valid() && this.rank == rank
      ensures shape == Zeros(rank) && size == 0 && data == null
    {
      this.rank := rank;
      shape := Zeros(rank);
      size := 0;
      data := null;
      ZerosProduct(rank);
    }

    /** Construction for a given shape: storage for product(shape) elements,
        whose contents are left unspecified. */
    constructor (shape: seq<int>)
      requires |shape| >= 1 && NonNegative(shape)
      ensures Valid() && rank == |shape| && this.shape == shape
      ensures size == Product(shape)
      ensures data != null && fresh(data)
    {
      rank := |shape|;
      this.shape := shape;
      var n := AccumulateProduct(shape);
      ProductSign(shape);
      size := n;
      data := new T[n];
    }

    /** Construction for a given shape with every element set to val. */
    constructor Filled(shape: seq<int>, val: T)
      requires |shape| >= 1 && NonNegative(shape)
      ensures Valid() && rank == |shape| && this.shape == shape
      ensures size == Product(shape)
      ensures data != null && fresh(data)
      ensures forall k :: 0 <= k < size ==> Elements()[k] == val
      ensures forall c :: IsIndex(shape, c) ==> At(c) == val
    {
      rank := |shape|;
      this.shape := shape;
      var n := AccumulateProduct(shape);
      ProductSign(shape);
      size := n;
      var a := new T[n];
      var i := 0;
      while i < n
        invariant 0 <= i <= n
        invariant forall k :: 0 <= k < i ==> a[k] == val
      {
        a[i] := val;
        i := i + 1;
      }
      data := a;
      new;
      forall c | IsIndex(shape, c)
        ensures At(c) == val
      {
        FlattenInRange(shape, c);
      }
    }

    /** Copy construction: same shape and size, and a fresh buffer (none if
        the source has none) holding the same elements. */
    constructor Copy(src: NdArray<T>)
      requires src.Valid()
      ensures Valid() && rank == src.rank && shape == src.shape && size == src.size
      ensures (data == null) == (src.data == null)
      ensures data != null ==> fresh(data)
      ensures Elements() == src.Elements()
      ensures forall c :: IsIndex(shape, c) ==> At(c) == src.At(c)
    {
      rank, shape, size := src.rank, src.shape, src.size;
      if src.data == null {
        data := null;
      } else {
        var a := new T[src.size];
        var i := 0;
        while i < src.size
          invariant 0 <= i <= src.size
          invariant a[..i] == src.data[..i]
        {
          a[i] := src.data[i];
          i := i + 1;
        }
        data := a;
      }
    }

    /** Move construction: start in the default state and swap with the
        source, which is left in the default state. */
    constructor Move(source: NdArray<T>)
      requires source.Valid()
      modifies source
      ensures Valid() && rank == source.rank
      ensures shape == old(source.shape) && size == old(source.size) && data == old(source.data)
      ensures Elements() == old(source.Elements())
      ensures source.Valid()
      ensures source.shape == Zeros(rank) && source.size == 0 && source.data == null
    {
      rank := source.rank;
      shape := Zeros(source.rank);
      size := 0;
      data := null;
      ZerosProduct(source.rank);
      new;
      Swap(this, source);
    }

    /** The extent of every axis. */
    function Shape(): (r: seq<int>)
      reads this
      requires Valid()
      ensures |r| == rank && NonNegative(r) && Product(r) == size
    {
      shape
    }

    /** The total element count: zero exactly when some axis has extent zero,
        and otherwise the extent of axis 0 times the stride of axis 0. */
    function Size(): (r: int)
      reads this
      requires Valid()
      ensures r >= 0 && r == Product(shape)
      ensures r == shape[0] * Stride(shape, 0)
      ensures r == 0 <==> exists d :: 0 <= d < rank && shape[d] == 0
    {
      ProductSign(shape);
      SizeIsFirstExtentTimesStride(shape);
      size
    }

    /** All strides, axis 0 first. */
    method Strides() returns (ans: seq<int>)
      requires Valid()
      ensures |ans| == rank
      ensures forall d :: 0 <= d < rank ==> ans[d] == Stride(shape, d)
      ensures ans[rank - 1] == 1
      ensures forall d :: 0 <= d < rank - 1 ==> ans[d] == ans[d + 1] * shape[d + 1]
    {
      ans := [];
      var d := 0;
      while d < rank
        invariant 0 <= d <= rank
        invariant |ans| == d
        invariant forall k :: 0 <= k < d ==> ans[k] == Stride(shape, k)
      {
        ans := ans + [Stride(shape, d)];
        d := d + 1;
      }
    }

    /** n2one: the flat offset of a coordinate, accumulated axis by axis. */
    method N2One(idx: seq<int>) returns (flat: int)
      requires Valid() && |idx| == rank
      ensures flat == Flatten(shape, idx)
      ensures IsIndex(shape, idx) ==> 0 <= flat < size
    {
      flat := 0;
      var d := 0;
      assert idx[0..] == idx;
      while d < rank
        invariant 0 <= d <= rank
        invariant flat + FlattenFrom(shape, idx[d..], d) == Flatten(shape, idx)
      {
        assert idx[d..][1..] == idx[d + 1..];
        flat := flat + idx[d] * Stride(shape, d);
        d := d + 1;
      }
      if IsIndex(shape, idx) {
        FlattenInRange(shape, idx);
      }
    }

    /** one2n: the coordinate of a flat offset, by successive division and
        remainder by each axis's stride. The strides must be non-zero. */
    method One2N(f: int) returns (idx: seq<int>)
      requires Valid() && f >= 0 && TailPositive(shape)
      ensures idx == Unflatten(shape, f)
      ensures |idx| == rank && Flatten(shape, idx) == f
      ensures f < size ==> IsIndex(shape, idx)
    {
      idx := [];
      var ijk := f;
      var i := 0;
      while i < rank
        invariant 0 <= i <= rank && |idx| == i && ijk >= 0
        invariant idx + UnflattenFrom(shape, i, ijk) == Unflatten(shape, f)
      {
        StridePositive(shape, i);
        var st := Stride(shape, i);
        assert UnflattenFrom(shape, i, ijk) == [ijk / st] + UnflattenFrom(shape, i + 1, ijk % st);
        idx := idx + [ijk / st];
        ijk := ijk % st;
        i := i + 1;
      }
      FlattenUnflatten(shape, f);
      if f < size {
        UnflattenInRange(shape, f);
      }
    }

    /** Element read through a coordinate: the element at n2one(c). */
    method Get(c: seq<int>) returns (v: T)
      requires Valid() && IsIndex(shape, c)
      ensures 0 <= Flatten(shape, c) < size
      ensures v == Elements()[Flatten(shape, c)] && v == At(c)
    {
      var f := N2One(c);
      v := data[f];
    }

    /** Element write through a coordinate: only the element at c changes. */
    method Set(c: seq<int>, v: T)
      requires Valid() && IsIndex(shape, c)
      modifies data
      ensures Valid() && 0 <= Flatten(shape, c) < size
      ensures Elements() == old(Elements())[Flatten(shape, c) := v]
      ensures At(c) == v
      ensures forall c' :: IsIndex(shape, c') && c' != c ==> At(c') == old(At(c'))
    {
      var f := N2One(c);
      data[f] := v;
      forall c' | IsIndex(shape, c') && c' != c
        ensures At(c') == old(At(c'))
      {
        FlattenInRange(shape, c');
        if Flatten(shape, c') == f {
          FlattenInjective(shape, c, c');
        }
      }
    }

    /** An explicit deep copy. */
    method Clone() returns (r: NdArray<T>)
      requires Valid()
      ensures fresh(r) && r.Valid()
      ensures r.rank == rank && r.shape == shape && r.size == size
      ensures r.data != null ==> fresh(r.data)
      ensures r.Elements() == Elements()
    {
      r := new NdArray.Copy(this);
    }

    /** The coordinate cursor at the first position. */
    function NdBegin(): (it: NdIter<T>)
      reads this
      requires Valid()
      ensures it.arr == this && it.pos == 0
      ensures size > 0 ==> TailPositive(shape) && Unflatten(shape, it.pos) == Zeros(rank)
    {
      if size > 0 then
        ProductSign(shape);
        UnflattenZero(shape);
        NdIter(this, 0)
      else
        NdIter(this, 0)
    }

    /** The coordinate cursor one past the last position. */
    function NdEnd(): (it: NdIter<T>)
      reads this
      requires Valid()
      ensures it.arr == this && it.pos == Product(shape)
    {
      NdIter(this, size)
    }
  }

  /** Exchanges shape, size and buffer of two arrays of the same rank, and
      nothing else. */
  method Swap<T(0)>(a: NdArray<T>, b: NdArray<T>)
    requires a.Valid() && b.Valid() && a.rank == b.rank
    modifies a, b
    ensures a.Valid() && b.Valid()
    ensures a.shape == old(b.shape) && a.size == old(b.size) && a.data == old(b.data)
    ensures b.shape == old(a.shape) && b.size == old(a.size) && b.data == old(a.data)
    ensures a.Elements() == old(b.Elements()) && b.Elements() == old(a.Elements())
  {
    var shape, size, data := a.shape, a.size, a.data;
    a.shape, a.size, a.data := b.shape, b.size, b.data;
    b.shape, b.size, b.data := shape, size, data;
  }

  /** A coordinate-aware cursor: a non-owning reference to an array and a
      flat position in it. */
  datatype NdIter<T(0)> = NdIter(arr: NdArray<T>, pos: int)
  {
    /** Two cursors are equal when they reference the same array at the same
        position. */
    function Equals(other: NdIter<T>): (r: bool)
      ensures r <==> this == other
    {
      arr == other.arr && pos == other.pos
    }

    /** The element at the cursor: the one whose coordinate index() reports. */
    function Deref(): (v: T)
      reads arr, arr.data
      requires arr.Valid() && 0 <= pos < arr.size
      ensures TailPositive(arr.shape) && IsIndex(arr.shape, Unflatten(arr.shape, pos))
      ensures v == arr.At(Unflatten(arr.shape, pos))
    {
      UnflattenInRange(arr.shape, pos);
      FlattenUnflatten(arr.shape, pos);
      arr.data[pos]
    }

    /** Writing through the reference that dereferencing yields. */
    method Store(v: T)
      requires arr.Valid() && 0 <= pos < arr.size
      modifies arr.data
      ensures arr.Valid()
      ensures arr.Elements() == old(arr.Elements())[pos := v]
    {
      arr.data[pos] := v;
    }

    /** Advancing moves to the next flat position of the same array. */
    function Next(): (r: NdIter<T>)
      ensures r.arr == arr && r.pos == pos + 1
    {
      NdIter(arr, pos + 1)
    }

    /** index(): the coordinate of the current position, recomputed by one2n. */
    method Index() returns (c: seq<int>)
      requires arr.Valid() && pos >= 0 && TailPositive(arr.shape)
      ensures c == Unflatten(arr.shape, pos) && Flatten(arr.shape, c) == pos
      ensures pos < arr.size ==> IsIndex(arr.shape, c)
    {
      c := arr.One2N(pos);
    }
  }

  /** A cursor yielding (coordinate, element) pairs; wraps a coordinate
      cursor and delegates to it. */
  datatype NdEnumIter<T(0)> = NdEnumIter(it: NdIter<T>)
  {
    function Equals(other: NdEnumIter<T>): (r: bool)
      ensures r <==> this == other
    {
      it.Equals(other.it)
    }

    /** The pair of the current coordinate and the element stored there. */
    method Deref() returns (idx: seq<int>, val: T)
      requires it.arr.Valid() && 0 <= it.pos < it.arr.size
      ensures IsIndex(it.arr.shape, idx) && Flatten(it.arr.shape, idx) == it.pos
      ensures val == it.arr.At(idx)
    {
      UnflattenInRange(it.arr.shape, it.pos);
      idx := it.Index();
      val := it.Deref();
    }

    /** Writing through the element half of the pair. */
    method Store(v: T)
      requires it.arr.Valid() && 0 <= it.pos < it.arr.size
      modifies it.arr.data
      ensures it.arr.Valid()
      ensures it.arr.Elements() == old(it.arr.Elements())[it.pos := v]
    {
      it.Store(v);
    }

    function Next(): (r: NdEnumIter<T>)
      ensures r.it.arr == it.arr && r.it.pos == it.pos + 1
    {
      NdEnumIter(it.Next())
    }
  }

  /** A view over an array whose range is the enumerating cursors built from
      the array's coordinate cursors. */
  datatype NdEnumerator<T(0)> = NdEnumerator(arr: NdArray<T>)
  {
    function Begin(): (r: NdEnumIter<T>)
      reads arr
      requires arr.Valid()
      ensures r.it == arr.NdBegin() && r.it.pos == 0
    {
      NdEnumIter(arr.NdBegin())
    }

    function End(): (r: NdEnumIter<T>)
      reads arr
      requires arr.Valid()
      ensures r.it == arr.NdEnd() && r.it.pos == arr.size
    {
      NdEnumIter(arr.NdEnd())
    }
  }

  /** An enumerator over the given array. */
  function NdEnumerate<T(0)>(arr: NdArray<T>): (e: NdEnumerator<T>)
    ensures e.arr == arr
  {
    NdEnumerator(arr)
  }

  // -----------------------------------------------------------------------
  // Iteration protocols, as a caller uses them

  /** Steps a coordinate cursor from nd_begin to nd_end and records index()
      at each position: every valid coordinate, each once, in row-major
      order. */
  method VisitOrder<T(0)>(x: NdArray<T>) returns (visited: seq<seq<int>>)
    requires x.Valid()
    ensures |visited| == x.size
    ensures forall k :: 0 <= k < |visited| ==> IsIndex(x.shape, visited[k])
    ensures forall k, l :: 0 <= k < l < |visited| ==> LexLess(visited[k], visited[l])
    ensures forall k, l :: 0 <= k < l < |visited| ==> visited[k] != visited[l]
    ensures forall c :: IsIndex(x.shape, c) ==> c in visited
  {
    visited := [];
    var it := x.NdBegin();
    var end := x.NdEnd();
    while !it.Equals(end)
      invariant it.arr == x && 0 <= it.pos <= x.size && |visited| == it.pos
      invariant forall k :: 0 <= k < |visited| ==>
                  TailPositive(x.shape) && visited[k] == Unflatten(x.shape, k)
      decreases x.size - it.pos
    {
      UnflattenInRange(x.shape, it.pos);
      var c := it.Index();
      visited := visited + [c];
      it := it.Next();
    }
    forall k | 0 <= k < |visited|
      ensures IsIndex(x.shape, visited[k])
    {
      UnflattenInRange(x.shape, k);
    }
    forall k, l | 0 <= k < l < |visited|
      ensures LexLess(visited[k], visited[l]) && visited[k] != visited[l]
    {
      RowMajorOrder(x.shape, k, l);
      if visited[k] == visited[l] {
        LexIrreflexive(visited[k]);
      }
    }
    forall c | IsIndex(x.shape, c)
      ensures c in visited
    {
      VisitedExactlyOnce(x.shape, c);
      assert visited[Flatten(x.shape, c)] == c;
    }
  }

  /** Steps a coordinate cursor from nd_begin to nd_end, storing f(index())
      through the cursor at each position. */
  method AssignByIndex<T(0)>(x: NdArray<T>, f: seq<int> -> T)
    requires x.Valid()
    modifies x.data
    ensures x.Valid()
    ensures forall c :: IsIndex(x.shape, c) ==> x.At(c) == f(c)
  {
    var it := x.NdBegin();
    var end := x.NdEnd();
    while !it.Equals(end)
      invariant x.Valid() && it.arr == x && 0 <= it.pos <= x.size
      invariant forall p :: 0 <= p < it.pos ==>
                  TailPositive(x.shape) && x.Elements()[p] == f(Unflatten(x.shape, p))
      decreases x.size - it.pos
    {
      UnflattenInRange(x.shape, it.pos);
      var ind := it.Index();
      it.Store(f(ind));
      it := it.Next();
    }
    forall c | IsIndex(x.shape, c)
      ensures x.At(c) == f(c)
    {
      VisitedExactlyOnce(x.shape, c);
    }
  }

  /** Walks an enumerator over x, assigning f(coordinate) to the element half
      of every pair. */
  method AssignByEnumeration<T(0)>(x: NdArray<T>, f: seq<int> -> T)
    requires x.Valid()
    modifies x.data
    ensures x.Valid()
    ensures forall c :: IsIndex(x.shape, c) ==> x.At(c) == f(c)
  {
    var e := NdEnumerate(x);
    var it := e.Begin();
    var end := e.End();
    while !it.Equals(end)
      invariant x.Valid() && it.it.arr == x && 0 <= it.it.pos <= x.size
      invariant forall p :: 0 <= p < it.it.pos ==>
                  TailPositive(x.shape) && x.Elements()[p] == f(Unflatten(x.shape, p))
      decreases x.size - it.it.pos
    {
      var ind, _ := it.Deref();
      UnflattenFlatten(x.shape, ind);
      it.Store(f(ind));
      it := it.Next();
    }
    forall c | IsIndex(x.shape, c)
      ensures x.At(c) == f(c)
    {
      VisitedExactlyOnce(x.shape, c);
    }
  }

  /** Writing ind[0] + ind[1] at every pair of a two-dimensional array leaves
      x(i, j) == i + j everywhere. */
  method FillWithIndexSum(x: NdArray<int>)
    requires x.Valid() && x.rank == 2
    modifies x.data
    ensures x.Valid()
    ensures forall i, j :: IsIndex(x.shape, [i, j]) ==> x.At([i, j]) == i + j
  {
    AssignByEnumeration(x, c => if |c| == 2 then c[0] + c[1] else 0);
  }

  /** A copy is independent of its source, first direction: writing the
      copy leaves the source's elements as they were. */
  method CloneThenWriteCopy<T(0)>(x: NdArray<T>, c: seq<int>, v: T) returns (y: NdArray<T>)
    requires x.Valid() && IsIndex(x.shape, c)
    ensures fresh(y) && y.Valid() && x.Valid() && y.shape == x.shape
    ensures x.Elements() == old(x.Elements())
    ensures y.At(c) == v
    ensures forall c' :: IsIndex(x.shape, c') && c' != c ==> y.At(c') == x.At(c')
  {
    y := x.Clone();
    y.Set(c, v);
  }

  /** A copy is independent of its source, second direction: writing the
      source leaves the copy holding the source's former elements. */
  method CloneThenWriteOriginal<T(0)>(x: NdArray<T>, c: seq<int>, w: T) returns (y: NdArray<T>)
    requires x.Valid() && IsIndex(x.shape, c)
    modifies x.data
    ensures fresh(y) && y.Valid() && x.Valid() && y.shape == x.shape
    ensures y.Elements() == old(x.Elements())
    ensures x.At(c) == w
    ensures forall c' :: IsIndex(x.shape, c') && c' != c ==> x.At(c') == y.At(c')
  {
    y := x.Clone();
    x.Set(c, w);
  }
}
