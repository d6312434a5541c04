# ndarray: a verified model of a dense N-dimensional array

This project models `ndarray<T, N>` from `ndarray.hpp`. The array owns one
contiguous row-major (C-order) buffer of `size` elements, where `size` is
the product of its `shape`. Elements are addressed by an N-component integer
coordinate. The model also covers the array's coordinate-aware cursor
(`nd_iter_impl`), the enumerating cursor (`nd_enum_iter`) and the enumerator
view (`nd_enumerator` / `nd_enumerate`).

Layout:

- `layout.dfy`, module `Layout`, holds the pure arithmetic of the shape:
  - the element count `Product`, multiplied left to right from 1;
  - `Stride`, the recursive stride derivation;
  - `Flatten`, the weighted sum that `n2one` computes;
  - `Unflatten`, the successive division and remainder that `one2n` computes;
  - the lemmas that relate them: the round trips, bounds, injectivity and
    row-major order.
- `ndarray.dfy`, module `NdArrays`, holds the imperative part. The class
  `NdArray` has the fields `shape`, `size` and `data`, plus the constant
  `rank`, which is the template parameter N. `data` is a nullable `array`,
  and it is null only in the default and moved-from states. Its methods
  include `n2one`, `one2n` and `strides()` as loop methods, each proved
  against the `Layout` functions.
- Also in `ndarray.dfy`: the constructors and `Swap`, and the cursor types
  `NdIter`, `NdEnumIter` and `NdEnumerator`. The cursors are records of an
  array reference and a position, and `++` returns the advanced cursor.
- Also in `ndarray.dfy`: caller-side loops that use the iteration protocols
  the way the library's tests do.

The object invariant `NdArray.Valid()` says that:

- `|shape| == rank`;
- every extent is non-negative;
- `size == Product(shape)`;
- a null buffer goes with the all-zero shape and size 0;
- a non-null buffer has exactly `size` elements.

`Elements()` is the buffer in storage order. `At(c)` is the element at
offset `Flatten(shape, c)`, which is what `operator()` reaches.

## Model

| member | source | states |
|---|---|---|
| `Layout.AccumulateProduct` | ndarray.hpp:203 | the left-to-right accumulation of the extents from 1 equals `Product(shape)`, the element count |
| `Layout.ProductSign` | ndarray.hpp:203 | for non-negative extents the element count is non-negative, and it is positive iff every extent is positive |
| `Layout.ZerosProduct` | ndarray.hpp:165-168 | the all-zero default shape has element count 0 |
| `Layout.Stride` | ndarray.hpp:253-257 | `stride(d)` (1 on the last axis, else `stride(d+1)*shape[d+1]`) equals the product of the extents after axis d |
| `Layout.SizeIsFirstExtentTimesStride` | ndarray.hpp:253-257 | `size == shape[0] * stride(0)` |
| `Layout.ProductFrom` | ndarray.hpp:253-257 | the product of the extents from axis i on is `shape[i] * stride(i)` |
| `Layout.StrideNonNegative` | ndarray.hpp:253-257 | for non-negative extents every stride is non-negative |
| `Layout.StridePositive` | ndarray.hpp:186-189 | when every extent after the first is positive, every stride is positive, so the division in `one2n` is defined |
| `Layout.DefaultStrides` | test/test_ndarray.cpp:60-65 | for the all-zero shape, the last stride is 1 and every other stride is 0, e.g. (0,1) in 2D |
| `Layout.FiveDimensionalExample` | test/test_ndarray.cpp:93-97 | shape (2,3,4,5,6) has 720 elements and strides (360,120,30,6,1) |
| `Layout.FlattenInRange` | ndarray.hpp:172-179 | every valid coordinate flattens into `[0, size)` |
| `Layout.FlattenFromBounds` | ndarray.hpp:172-179 | the offset contributed by valid components of axes i onward lies in `[0, product of those extents)` |
| `Layout.FlattenUnflatten` | ndarray.hpp:172-191 | `n2one(one2n(f)) == f` for every non-negative offset once the strides are non-zero |
| `Layout.UnflattenFlatten` | ndarray.hpp:172-191 | `one2n(n2one(c)) == c` for every valid coordinate |
| `Layout.FlattenInjective` | ndarray.hpp:172-179 | distinct valid coordinates have distinct offsets |
| `Layout.UnflattenInRange` | ndarray.hpp:183-191 | for `0 <= f < size`, `one2n(f)` is a valid coordinate, with `0 <= c[d] < shape[d]` on every axis |
| `Layout.UnflattenZero` | ndarray.hpp:315-317 | the first position, offset 0, is the all-zero coordinate |
| `Layout.FlattenMonotone` | ndarray.hpp:172-179 | flattening preserves row-major (lexicographic, last axis fastest) order on valid coordinates |
| `Layout.RowMajorOrder` | ndarray.hpp:183-191 | for `p < q < size`, `one2n(p)` precedes `one2n(q)` in row-major order |
| `Layout.VisitedExactlyOnce` | ndarray.hpp:183-191 | each valid coordinate is recovered from exactly one offset in `[0, size)`, namely its flattening |
| `Layout.LexTotal` | ndarray.hpp:183-191 | row-major order is total on coordinates of equal length |
| `Layout.LexIrreflexive` | ndarray.hpp:183-191 | row-major order is strict |
| `NdArrays.NdArray.Default` | ndarray.hpp:194-196 | default construction gives the all-zero shape, size 0 and no buffer |
| `NdArrays.NdArray.constructor` | ndarray.hpp:198-205 | construction for a shape keeps the shape, has `size == product(shape)` and a fresh buffer of that many elements with unspecified contents |
| `NdArrays.NdArray.Filled` | ndarray.hpp:207-213 | as the shape constructor, and every element, flat or addressed by a valid coordinate, equals the fill value |
| `NdArrays.NdArray.Copy` | ndarray.hpp:219-224 | the copy has the same shape, size and elements, in a fresh buffer (none if the source has none) |
| `NdArrays.NdArray.Move` | ndarray.hpp:215-218 | the target takes the source's shape, size, buffer and elements; the source is left in the default state |
| `NdArrays.Swap` | ndarray.hpp:232-238 | exchanges shape, size and buffer (and so the elements) of two arrays, and changes nothing else |
| `NdArrays.NdArray.Shape` | ndarray.hpp:240-243 | the shape has one non-negative extent per axis, and their product is the size |
| `NdArrays.NdArray.Size` | ndarray.hpp:244-247 | the size is `product(shape)`, equals `shape[0]*stride(0)`, and is 0 iff some axis has extent 0 |
| `NdArrays.NdArray.Strides` | ndarray.hpp:262-268 | returns `[stride(0), ..., stride(N-1)]`: the last is 1 and each other is the next stride times the next extent |
| `NdArrays.NdArray.N2One` | ndarray.hpp:172-179 | the loop computes the weighted sum `Flatten(shape, idx)`, which lies in `[0, size)` for a valid coordinate |
| `NdArrays.NdArray.One2N` | ndarray.hpp:183-191 | the loop computes `Unflatten(shape, f)`, which re-flattens to `f` and is a valid coordinate when `f < size` |
| `NdArrays.NdArray.Get` | ndarray.hpp:284-286 | reading through a valid coordinate returns the element at buffer offset `n2one(c)`, which lies in `[0, size)` |
| `NdArrays.NdArray.Set` | ndarray.hpp:275-277 | writing through a valid coordinate replaces the buffer element at `n2one(c)`; the element at every other valid coordinate is unchanged |
| `NdArrays.NdArray.Clone` | ndarray.hpp:289-291 | returns a fresh array with the same rank, shape, size and elements, in a fresh buffer |
| `NdArrays.NdArray.NdBegin` | ndarray.hpp:315-317 | the cursor starts at position 0, whose coordinate is all zeros when the array is non-empty |
| `NdArrays.NdArray.NdEnd` | ndarray.hpp:325-327 | the end cursor sits at position `product(shape)`, one past the last element |
| `NdArrays.NdIter.Equals` | ndarray.hpp:62-67 | two cursors are equal iff they reference the same array at the same position |
| `NdArrays.NdIter.Deref` | ndarray.hpp:69-71 | dereferencing yields the element whose coordinate is `index()` at that position |
| `NdArrays.NdIter.Store` | ndarray.hpp:69-71 | writing through the dereferenced reference changes exactly the buffer element at the cursor's position |
| `NdArrays.NdIter.Next` | ndarray.hpp:72-75 | `++` keeps the array and increments the position by one |
| `NdArrays.NdIter.Index` | ndarray.hpp:77-79 | `index()` is `one2n(pos)`, which re-flattens to `pos` and is a valid coordinate for `pos < size` |
| `NdArrays.NdEnumIter.Equals` | ndarray.hpp:105-110 | enumerating cursors are equal iff their wrapped cursors are equal |
| `NdArrays.NdEnumIter.Deref` | ndarray.hpp:112-114 | dereferencing yields the pair of the current valid coordinate (flattening to the position) and the element stored there |
| `NdArrays.NdEnumIter.Store` | ndarray.hpp:112-114 | writing through the element half of the pair changes exactly the buffer element at the position |
| `NdArrays.NdEnumIter.Next` | ndarray.hpp:115-118 | `++` advances the wrapped cursor by one position |
| `NdArrays.NdEnumerator.Begin` | ndarray.hpp:134-136 | the range starts at the array's `nd_begin`, position 0 |
| `NdArrays.NdEnumerator.End` | ndarray.hpp:137-139 | the range ends at the array's `nd_end`, position `size` |
| `NdArrays.NdEnumerate` | ndarray.hpp:349-352 | the enumerator refers to the given array |
| `NdArrays.VisitOrder` | test/test_ndarray.cpp:164-167 | stepping a cursor from `nd_begin` to `nd_end` and recording `index()` yields `size` valid coordinates, strictly increasing in row-major order, so pairwise distinct and including every valid coordinate |
| `NdArrays.AssignByIndex` | test/test_ndarray.cpp:164-173 | storing `f(index())` through the cursor at every step leaves `x(c) == f(c)` at every valid coordinate |
| `NdArrays.AssignByEnumeration` | test/test_ndarray.cpp:186-198 | assigning `f(coordinate)` to the element half of every enumerated pair leaves `x(c) == f(c)` at every valid coordinate |
| `NdArrays.FillWithIndexSum` | test/test_ndarray.cpp:200-214 | enumerating a 2D array and assigning `ind[0] + ind[1]` leaves `x(i, j) == i + j` for all valid i, j |
| `NdArrays.CloneThenWriteCopy` | ndarray.hpp:219-224 | after a clone, a write to the copy leaves the original's elements exactly as they were, and the copy differs from the original only at the written coordinate |
| `NdArrays.CloneThenWriteOriginal` | ndarray.hpp:219-224 | after a clone, a write to the original leaves the copy holding the original's former elements, and the original differs from the copy only at the written coordinate |

## Notes on the model

- The rank N is a `const` field, and the model requires `N >= 1`. For a
  zero-dimensional array, the source's default state would have size 0, but
  the empty shape's product is 1. The invariant
  `size == product(shape)` therefore holds only from N = 1 upward.
- `one2n` divides by each stride. Every stride is non-zero exactly when
  every extent after the first is positive. That condition (`TailPositive`) and a
  non-negative offset are `One2N`'s preconditions. For a non-negative offset
  and a positive stride, C++'s truncating `/` and `%` agree with Dafny's.
- The round trip `n2one(one2n(f)) == f` is proved for every offset `f >= 0`,
  not only for those below `size`. For `f >= size`, the first component
  simply exceeds `shape[0] - 1`.
- `operator()` returns a mutable reference. It is modelled as two methods:
  `Get` for reading and `Set` for writing. `*it`, and the enumerating pair's
  `second`, are modelled the same way: a function `Deref` for reading and a
  method `Store` for writing.

## Left out

- Element contents after `ndarray(shape)`: the source leaves them uninitialised, so the constructor's contract says nothing about them.
- Allocation failure of `new T[size]` is a failure of the language runtime and is not modelled.
- C++ `int` overflow in the shape product, the strides and `n2one` is not modelled; all arithmetic uses mathematical integers.
- Zero-dimensional arrays (N = 0) are not modelled; see the notes above.
- Negative extents are excluded by precondition, because the array's data model defines every extent as non-negative. The source itself does not check this: a shape such as (-2,-3) has product 6 and is accepted, with strides (-3,1), and (-1,0) has size 0; only a shape whose product is negative fails at allocation.
- NdArrays.NdArray.One2N: requires a non-negative offset; C++ truncating division of a negative offset is not modelled, since cursor positions are never negative.
- NdArrays.NdIter.Index: requires a non-negative position, for the same reason as `One2N`.
- The flat raw-pointer iterators (`begin`, `end`, `cbegin`, `cend`) are offsets `0` and `size` into `Elements()`, not separate members.
- Copy and move assignment (`operator=`) take the argument by value and swap it in. They amount to `Copy` or `Move` followed by `Swap`, and are not modelled separately.
- The variadic `operator()(Ints...)` is collapsed into the coordinate-sequence form, and the duplicated const and mutable overloads are collapsed into `Get` and `Set`. The same holds for `nd_cbegin` and `nd_cend`.
- `unique_ptr` ownership, destruction, and cursor validity after the array is moved or destroyed are not modelled. A cursor's reference is an ordinary object reference.
- `tuple_tools.hpp`, `rejection_sample.h` and `element_iterator.hpp` are not part of this model. They have no interaction with the array.
