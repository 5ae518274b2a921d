/** Shapes as lists of extents and as lists of (dimension character, extent)
    pairs, and how many elements such a shape describes. */
module Shapes {

  /** One `std::pair<char, size_t>` of a packed array's shape. */
  datatype Dim = Dim(dimension: char, extent: nat)

  /** The number of elements of an array with extents `s`. */
  function Product(s: seq<nat>): nat
  {
    if s == [] then 1 else Product(s[..|s| - 1]) * s[|s| - 1]
  }

  function Extents(dims: seq<Dim>): seq<nat>
  {
    seq(|dims|, k requires 0 <= k < |dims| => dims[k].extent)
  }

  /** The number of elements described by a labelled shape. */
  function ElementCount(dims: seq<Dim>): nat
  {
    Product(Extents(dims))
  }

  lemma {:induction false} ProductAppend(a: seq<nat>, b: seq<nat>)
    ensures Product(a + b) == Product(a) * Product(b)
    decreases |b|
  {
    if b == [] {
      assert a + b == a;
    } else {
      var b' := b[..|b| - 1];
      var x := b[|b| - 1];
      assert (a + b)[..|a + b| - 1] == a + b';
      ProductAppend(a, b');
      calc {
        Product(a + b);
        Product(a + b') * x;
        Product(a) * Product(b') * x;
        Product(a) * (Product(b') * x);
      }
    }
  }

  /** The product can equally be taken from the front. */
  lemma ProductFront(s: seq<nat>)
    requires s != []
    ensures Product(s) == s[0] * Product(s[1..])
  {
    assert s == [s[0]] + s[1..];
    ProductAppend([s[0]], s[1..]);
    assert [s[0]][..0] == [];
  }

  lemma ElementCountAppend(a: seq<Dim>, b: seq<Dim>)
    ensures ElementCount(a + b) == ElementCount(a) * ElementCount(b)
  {
    assert Extents(a + b) == Extents(a) + Extents(b);
    ProductAppend(Extents(a), Extents(b));
  }

  lemma ElementCountSingle(d: Dim)
    ensures ElementCount([d]) == d.extent
  {
    var e := Extents([d]);
    assert e == [d.extent];
    assert e[..0] == [];
    assert Product(e) == Product(e[..0]) * e[0];
  }

  /** Taking entry `k` out of a shape divides its element count by that extent. */
  lemma ElementCountRemove(b: seq<Dim>, k: nat)
    requires k < |b|
    ensures ElementCount(b) == b[k].extent * ElementCount(b[..k] + b[k + 1..])
  {
    var l, x, r := b[..k], b[k], b[k + 1..];
    assert b == l + [x] + r;
    ElementCountAppend(l + [x], r);
    ElementCountAppend(l, [x]);
    ElementCountAppend(l, r);
    ElementCountSingle(x);
    var cl, cr := ElementCount(l), ElementCount(r);
    assert ElementCount(b) == cl * x.extent * cr;
    assert cl * x.extent * cr == x.extent * (cl * cr);
  }

  /** Reordering the entries of a shape does not change its element count. */
  lemma {:induction false} ElementCountPermutation(a: seq<Dim>, b: seq<Dim>)
    requires multiset(a) == multiset(b)
    ensures ElementCount(a) == ElementCount(b)
    decreases |a|
  {
    if a == [] {
      assert |b| == |multiset(b)| == 0;
    } else {
      var x := a[|a| - 1];
      assert x in multiset(b);
      var k :| 0 <= k < |b| && b[k] == x;
      var b' := b[..k] + b[k + 1..];
      var a' := a[..|a| - 1] + a[|a|..];
      assert a' == a[..|a| - 1];
      assert b == b[..k] + [x] + b[k + 1..];
      assert a == a' + [x];
      assert multiset(b') == multiset(b) - multiset{x};
      assert multiset(a') == multiset(a) - multiset{x};
      ElementCountPermutation(a', b');
      ElementCountRemove(a, |a| - 1);
      ElementCountRemove(b, k);
    }
  }

  /** Multiplying one extent by `f` multiplies the element count by `f`. */
  lemma ScaleExtent(s: seq<Dim>, k: nat, f: nat)
    requires k < |s|
    ensures ElementCount(s[k := Dim(s[k].dimension, f * s[k].extent)]) == f * ElementCount(s)
  {
    var d := Dim(s[k].dimension, f * s[k].extent);
    var t := s[k := d];
    assert s == s[..k] + [s[k]] + s[k + 1..];
    assert t == s[..k] + [d] + s[k + 1..];
    ElementCountAppend(s[..k] + [s[k]], s[k + 1..]);
    ElementCountAppend(s[..k], [s[k]]);
    ElementCountAppend(s[..k] + [d], s[k + 1..]);
    ElementCountAppend(s[..k], [d]);
    ElementCountSingle(s[k]);
    ElementCountSingle(d);
  }
}
