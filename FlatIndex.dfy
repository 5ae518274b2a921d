/** The flattened-index arithmetic of `Image::calculateIdx`: an index vector
    is weighted by running products of the trailing extents of the shape. */
module FlatIndex {
  import opened Shapes

  function Sum(s: seq<nat>): nat
  {
    if s == [] then 0 else Sum(s[..|s| - 1]) + s[|s| - 1]
  }

  /** The weight `calculateIdx` gives to index `k`: the product of the last
      `k` extents of the shape. */
  function Weight(shape: seq<nat>, k: nat): nat
    requires k <= |shape|
  {
    Product(shape[|shape| - k..])
  }

  /** The per-index products `indexes[i] * weights[i]`. */
  function Terms(indexes: seq<nat>, shape: seq<nat>): seq<nat>
    requires |indexes| == |shape|
  {
    seq(|indexes|, i requires 0 <= i < |indexes| => indexes[i] * Weight(shape, i))
  }

  /** The offset `calculateIdx` returns for `indexes`. */
  function Offset(indexes: seq<nat>, shape: seq<nat>): nat
    requires |indexes| == |shape|
  {
    Sum(Terms(indexes, shape))
  }

  function Reverse<X>(s: seq<X>): (r: seq<X>)
    ensures |r| == |s|
  {
    if s == [] then [] else Reverse(s[1..]) + [s[0]]
  }

  /** Row-major (C order) offset of the multi-index `j` in an array of
      extents `s`: the last coordinate varies fastest. */
  function RowMajor(j: seq<nat>, s: seq<nat>): nat
    requires |j| == |s|
  {
    if j == [] then 0 else RowMajor(j[..|j| - 1], s[..|s| - 1]) * s[|s| - 1] + j[|j| - 1]
  }

  /** Every coordinate of `j` lies below the matching extent of `s`. */
  predicate InBounds(j: seq<nat>, s: seq<nat>)
  {
    |j| == |s| && forall k :: 0 <= k < |j| ==> j[k] < s[k]
  }

  predicate AllPositive(s: seq<nat>)
  {
    forall k :: 0 <= k < |s| ==> s[k] > 0
  }

  /** The multi-index whose row-major offset is `o` (the inverse of RowMajor). */
  function Unravel(o: nat, s: seq<nat>): (j: seq<nat>)
    requires AllPositive(s)
    ensures |j| == |s|
    decreases |s|
  {
    if |s| == 0 then []
    else
      var m, init := s[|s| - 1], s[..|s| - 1];
      assert AllPositive(init);
      Unravel(o / m, init) + [o % m]
  }

  /** `calculateIdx` takes its indexes fastest-varying first: index `i`
      addresses dimension `|shape| - 1 - i`. */
  predicate ValidIndexes(indexes: seq<nat>, shape: seq<nat>)
  {
    |indexes| == |shape| && forall i :: 0 <= i < |indexes| ==> indexes[i] < shape[|shape| - 1 - i]
  }

  // ---------------------------------------------------------------- helpers

  lemma {:induction false} ReverseAt<X>(s: seq<X>, k: nat)
    requires k < |s|
    ensures |Reverse(s)| == |s| && Reverse(s)[k] == s[|s| - 1 - k]
  {
    if k < |s| - 1 {
      ReverseAt(s[1..], k);
    }
  }

  lemma {:induction false} SumFront(s: seq<nat>)
    requires s != []
    ensures Sum(s) == s[0] + Sum(s[1..])
    decreases |s|
  {
    if |s| > 1 {
      var init := s[..|s| - 1];
      SumFront(init);
      assert init[1..] == s[1..][..|s[1..]| - 1];
    }
  }

  lemma {:induction false} SumScale(t: seq<nat>, s: seq<nat>, c: nat)
    requires |t| == |s|
    requires forall i :: 0 <= i < |s| ==> t[i] == c * s[i]
    ensures Sum(t) == c * Sum(s)
    decreases |s|
  {
    if s != [] {
      SumScale(t[..|t| - 1], s[..|s| - 1], c);
    }
  }

  lemma {:induction false} SumZero(s: seq<nat>)
    requires forall i :: 0 <= i < |s| ==> s[i] == 0
    ensures Sum(s) == 0
    decreases |s|
  {
    if s != [] {
      SumZero(s[..|s| - 1]);
    }
  }

  lemma DivModOf(a: nat, m: nat, x: nat)
    requires x < m
    ensures (a * m + x) / m == a && (a * m + x) % m == x
  {
    var o := a * m + x;
    var q, r := o / m, o % m;
    assert o == q * m + r;
    if q > a {
      MulLeft(a + 1, q, m);
      assert false;
    }
    if q < a {
      MulLeft(q + 1, a, m);
      assert false;
    }
  }

  lemma MulLeft(a: nat, b: nat, m: nat)
    requires a <= b
    ensures a * m <= b * m
  {
  }

  // ---------------------------------------------------------------- properties

  /** The weights start at 1 and grow by one trailing extent at a time. */
  lemma WeightStep(shape: seq<nat>, k: nat)
    requires k < |shape|
    ensures Weight(shape, 0) == 1
    ensures Weight(shape, k + 1) == shape[|shape| - 1 - k] * Weight(shape, k)
  {
    var n := |shape|;
    assert shape[n - 0..] == [];
    ProductFront(shape[n - 1 - k..]);
    assert shape[n - 1 - k..][1..] == shape[n - k..];
  }

  /** Dropping the last extent divides every later weight by it. */
  lemma WeightSplit(shape: seq<nat>, i: nat)
    requires i + 1 <= |shape|
    ensures Weight(shape, i + 1) == Weight(shape[..|shape| - 1], i) * shape[|shape| - 1]
  {
    var n := |shape|;
    var tail := shape[n - 1 - i..];
    assert tail[..|tail| - 1] == shape[..n - 1][(n - 1) - i..];
  }

  /** The terms after the first are the terms of the shorter problem, scaled
      by the last extent. */
  lemma TermsSplit(indexes: seq<nat>, shape: seq<nat>)
    requires |indexes| == |shape| > 0
    ensures Terms(indexes, shape)[0] == indexes[0]
    ensures forall i :: 0 <= i < |shape| - 1 ==>
      Terms(indexes, shape)[1..][i] == shape[|shape| - 1] * Terms(indexes[1..], shape[..|shape| - 1])[i]
  {
    var n := |shape|;
    var t := Terms(indexes, shape);
    var t' := Terms(indexes[1..], shape[..n - 1]);
    WeightStep(shape, 0);
    forall i | 0 <= i < n - 1
      ensures t[1..][i] == shape[n - 1] * t'[i]
    {
      WeightSplit(shape, i);
      var w := Weight(shape[..n - 1], i);
      assert t[1..][i] == indexes[i + 1] * (w * shape[n - 1]);
      assert t'[i] == indexes[i + 1] * w;
    }
  }

  /** The offset of `indexes` from the offset of its tail in the shape
      without its last extent. */
  lemma OffsetSplit(indexes: seq<nat>, shape: seq<nat>)
    requires |indexes| == |shape| > 0
    ensures Offset(indexes, shape)
      == indexes[0] + shape[|shape| - 1] * Offset(indexes[1..], shape[..|shape| - 1])
  {
    var n := |shape|;
    var t := Terms(indexes, shape);
    var t' := Terms(indexes[1..], shape[..n - 1]);
    TermsSplit(indexes, shape);
    SumFront(t);
    SumScale(t[1..], t', shape[n - 1]);
  }

  lemma RowMajorReverseSplit(indexes: seq<nat>, shape: seq<nat>)
    requires |indexes| == |shape| > 0
    ensures RowMajor(Reverse(indexes), shape)
      == RowMajor(Reverse(indexes[1..]), shape[..|shape| - 1]) * shape[|shape| - 1] + indexes[0]
  {
    var n := |shape|;
    var r := Reverse(indexes);
    assert r[..n - 1] == Reverse(indexes[1..]);
    assert r[n - 1] == indexes[0];
  }

  /** The offset is the row-major offset of the reversed index vector. */
  lemma {:induction false} OffsetIsReversedRowMajor(indexes: seq<nat>, shape: seq<nat>)
    requires |indexes| == |shape|
    ensures Offset(indexes, shape) == RowMajor(Reverse(indexes), shape)
    decreases |shape|
  {
    var n := |shape|;
    if n > 0 {
      var m, shape', indexes' := shape[n - 1], shape[..n - 1], indexes[1..];
      var tail := Offset(indexes', shape');
      calc {
        Offset(indexes, shape);
        { OffsetSplit(indexes, shape); }
        indexes[0] + m * tail;
        { OffsetIsReversedRowMajor(indexes', shape'); }
        indexes[0] + m * RowMajor(Reverse(indexes'), shape');
        { RowMajorReverseSplit(indexes, shape); }
        RowMajor(Reverse(indexes), shape);
      }
    }
  }

  /** An in-bounds multi-index has an offset below the element count. */
  lemma {:induction false} RowMajorBound(j: seq<nat>, s: seq<nat>)
    requires InBounds(j, s)
    ensures RowMajor(j, s) < Product(s)
    decreases |s|
  {
    if j != [] {
      var n := |s|;
      var j', s' := j[..n - 1], s[..n - 1];
      RowMajorBound(j', s');
      var h, p, m := RowMajor(j', s'), Product(s'), s[n - 1];
      MulLeft(h, p - 1, m);
      assert (p - 1) * m == p * m - m;
    }
  }

  /** Unravel inverts RowMajor on in-bounds multi-indexes. */
  lemma {:induction false} UnravelRowMajor(j: seq<nat>, s: seq<nat>)
    requires InBounds(j, s)
    ensures AllPositive(s) && Unravel(RowMajor(j, s), s) == j
    decreases |s|
  {
    if j != [] {
      var n := |s|;
      var j', s' := j[..n - 1], s[..n - 1];
      UnravelRowMajor(j', s');
      DivModOf(RowMajor(j', s'), s[n - 1], j[n - 1]);
      assert j == j' + [j[n - 1]];
    }
  }

  lemma QuotientBound(o: nat, m: nat, p: nat)
    requires m > 0 && o < p * m
    ensures o / m < p
  {
    var q := o / m;
    assert q * m <= o;
    if q >= p {
      MulLeft(p, q, m);
      assert false;
    }
  }

  lemma UnravelSplit(o: nat, s: seq<nat>)
    requires AllPositive(s) && s != []
    ensures AllPositive(s[..|s| - 1])
    ensures Unravel(o, s)[..|s| - 1] == Unravel(o / s[|s| - 1], s[..|s| - 1])
    ensures Unravel(o, s)[|s| - 1] == o % s[|s| - 1] < s[|s| - 1]
  {
    assert AllPositive(s[..|s| - 1]);
  }

  /** Unravel yields in-bounds multi-indexes. */
  lemma {:induction false} UnravelInBounds(o: nat, s: seq<nat>)
    requires AllPositive(s)
    ensures InBounds(Unravel(o, s), s)
    decreases |s|
  {
    var n := |s|;
    if n > 0 {
      UnravelSplit(o, s);
      UnravelInBounds(o / s[n - 1], s[..n - 1]);
    }
  }

  /** RowMajor inverts Unravel on offsets below the element count, and
      Unravel yields in-bounds multi-indexes. */
  lemma {:induction false} RowMajorUnravel(o: nat, s: seq<nat>)
    requires AllPositive(s) && o < Product(s)
    ensures InBounds(Unravel(o, s), s) && RowMajor(Unravel(o, s), s) == o
    decreases |s|
  {
    UnravelInBounds(o, s);
    var n := |s|;
    if n > 0 {
      var s', m := s[..n - 1], s[n - 1];
      assert AllPositive(s');
      QuotientBound(o, m, Product(s'));
      RowMajorUnravel(o / m, s');
      RowMajorUnravelStep(o, s);
    }
  }

  /** Once the leading coordinates recompose to `o / m`, appending the last
      coordinate `o % m` recomposes to `o`. */
  lemma RowMajorUnravelStep(o: nat, s: seq<nat>)
    requires AllPositive(s) && s != []
    requires AllPositive(s[..|s| - 1])
    requires RowMajor(Unravel(o / s[|s| - 1], s[..|s| - 1]), s[..|s| - 1]) == o / s[|s| - 1]
    ensures RowMajor(Unravel(o, s), s) == o
  {
    var n := |s|;
    var s', m := s[..n - 1], s[n - 1];
    var u := Unravel(o, s);
    UnravelSplit(o, s);
    assert RowMajor(u, s) == RowMajor(u[..n - 1], s') * m + u[n - 1];
    DivMod(o, m);
  }

  lemma DivMod(o: nat, m: nat)
    requires m > 0
    ensures o == (o / m) * m + o % m
  {
  }

  /** Distinct in-bounds multi-indexes have distinct row-major offsets. */
  lemma RowMajorInjective(j1: seq<nat>, j2: seq<nat>, s: seq<nat>)
    requires InBounds(j1, s) && InBounds(j2, s)
    requires RowMajor(j1, s) == RowMajor(j2, s)
    ensures j1 == j2
  {
    UnravelRowMajor(j1, s);
    UnravelRowMajor(j2, s);
  }

  lemma ValidIndexesReversed(indexes: seq<nat>, shape: seq<nat>)
    requires |indexes| == |shape|
    ensures ValidIndexes(indexes, shape) <==> InBounds(Reverse(indexes), shape)
  {
    forall k | 0 <= k < |indexes|
      ensures Reverse(indexes)[k] == indexes[|indexes| - 1 - k]
    {
      ReverseAt(indexes, k);
    }
    if InBounds(Reverse(indexes), shape) {
      forall i | 0 <= i < |indexes|
        ensures indexes[i] < shape[|shape| - 1 - i]
      {
        assert Reverse(indexes)[|indexes| - 1 - i] == indexes[i];
      }
    }
  }

  /** A valid index vector addresses an element inside the image. */
  lemma OffsetBound(indexes: seq<nat>, shape: seq<nat>)
    requires ValidIndexes(indexes, shape)
    ensures Offset(indexes, shape) < Product(shape)
  {
    ValidIndexesReversed(indexes, shape);
    OffsetIsReversedRowMajor(indexes, shape);
    RowMajorBound(Reverse(indexes), shape);
  }

  lemma {:induction false} SumPrefix(s: seq<nat>, t: nat)
    requires t <= |s|
    ensures Sum(s[..t]) <= Sum(s)
    decreases |s| - t
  {
    if t < |s| {
      SumPrefix(s, t + 1);
      assert s[..t + 1][..t] == s[..t];
    } else {
      assert s[..t] == s;
    }
  }

  lemma {:induction false} ProductPositive(s: seq<nat>)
    requires AllPositive(s)
    ensures Product(s) >= 1
    decreases |s|
  {
    if s != [] {
      var init := s[..|s| - 1];
      assert AllPositive(init);
      ProductPositive(init);
      MulLeft(1, Product(init), s[|s| - 1]);
    }
  }

  /** For a valid index vector, every value `calculateIdx` forms on the way
      (each running product, each weighted index, each partial sum) is at
      most the element count, so none of them wraps in a 64-bit size_t when
      the element count fits in one. */
  lemma NoIntermediateExceedsCount(indexes: seq<nat>, shape: seq<nat>)
    requires ValidIndexes(indexes, shape)
    ensures forall k :: 0 <= k <= |shape| ==> Weight(shape, k) <= Product(shape)
    ensures forall i :: 0 <= i < |indexes| ==> Terms(indexes, shape)[i] < Product(shape)
    ensures forall t :: 0 <= t <= |indexes| ==> Sum(Terms(indexes, shape)[..t]) < Product(shape)
  {
    var n := |shape|;
    forall k | 0 <= k < n
      ensures shape[k] > 0
    {
      assert indexes[n - 1 - k] < shape[n - 1 - (n - 1 - k)];
    }
    forall k | 0 <= k <= n
      ensures Weight(shape, k) <= Product(shape)
    {
      var front, back := shape[..n - k], shape[n - k..];
      assert shape == front + back;
      assert AllPositive(front);
      ProductAppend(front, back);
      ProductPositive(front);
      MulLeft(1, Product(front), Product(back));
    }
    var terms := Terms(indexes, shape);
    OffsetBound(indexes, shape);
    forall t | 0 <= t <= n
      ensures Sum(terms[..t]) < Product(shape)
    {
      SumPrefix(terms, t);
    }
    forall i | 0 <= i < n
      ensures terms[i] < Product(shape)
    {
      assert terms[..i + 1][..i] == terms[..i];
      SumPrefix(terms, i + 1);
    }
  }

  /** Distinct valid index vectors address distinct elements. */
  lemma OffsetInjective(a: seq<nat>, b: seq<nat>, shape: seq<nat>)
    requires ValidIndexes(a, shape) && ValidIndexes(b, shape)
    requires Offset(a, shape) == Offset(b, shape)
    ensures a == b
  {
    ValidIndexesReversed(a, shape);
    ValidIndexesReversed(b, shape);
    OffsetIsReversedRowMajor(a, shape);
    OffsetIsReversedRowMajor(b, shape);
    RowMajorInjective(Reverse(a), Reverse(b), shape);
    forall i | 0 <= i < |a|
      ensures a[i] == b[i]
    {
      ReverseAt(a, |a| - 1 - i);
      ReverseAt(b, |a| - 1 - i);
    }
  }

  /** Every element of a shape with positive extents is reached by exactly
      the reversed unravelled index vector. */
  lemma OffsetSurjective(o: nat, shape: seq<nat>)
    requires AllPositive(shape) && o < Product(shape)
    ensures ValidIndexes(Reverse(Unravel(o, shape)), shape)
    ensures Offset(Reverse(Unravel(o, shape)), shape) == o
  {
    var j := Unravel(o, shape);
    RowMajorUnravel(o, shape);
    ReverseReverse(j);
    ValidIndexesReversed(Reverse(j), shape);
    OffsetIsReversedRowMajor(Reverse(j), shape);
  }

  lemma {:induction false} ReverseReverse<X>(s: seq<X>)
    ensures Reverse(Reverse(s)) == s
  {
    forall k | 0 <= k < |s|
      ensures Reverse(Reverse(s))[k] == s[k]
    {
      ReverseAt(Reverse(s), k);
      ReverseAt(s, |s| - 1 - k);
    }
  }

  /** The all-zero index vector addresses the first element. */
  lemma OffsetOfZero(indexes: seq<nat>, shape: seq<nat>)
    requires |indexes| == |shape|
    requires forall i :: 0 <= i < |indexes| ==> indexes[i] == 0
    ensures Offset(indexes, shape) == 0
  {
    SumZero(Terms(indexes, shape));
  }

  /** For a rank-1 shape the offset is the index itself. */
  lemma OffsetRankOne(i: nat, e: nat)
    ensures Offset([i], [e]) == i
  {
    WeightStep([e], 0);
    var t := Terms([i], [e]);
    assert t == [i];
    assert t[..0] == [];
    assert Sum(t) == Sum(t[..0]) + t[0];
  }
}
