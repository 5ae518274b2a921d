/** The packing step: reconcile the channel dimension of the packed shape
    for colour pixel types, and hand the container's buffer, shape and
    element type to the array boundary. */
module PbHelpers {
  import opened PixelFormat
  import opened Shapes
  import opened Containers
  import ContainerFactory

  /** The index of the first entry with dimension `c`, or `|s|` if none. */
  function FindDimension(s: seq<Dim>, c: char): (k: nat)
    ensures k <= |s|
    ensures k < |s| ==> s[k].dimension == c
    ensures forall j :: 0 <= j < k ==> s[j].dimension != c
  {
    if s == [] then 0
    else if s[0].dimension == c then 0
    else 1 + FindDimension(s[1..], c)
  }

  /** Ordered by descending `priority` of the dimension character, which
      is the order `std::sort` with the `>` comparator produces. */
  ghost predicate SortedByPriority(s: seq<Dim>, priority: char -> int)
  {
    forall p, q :: 0 <= p < q < |s| ==> priority(s[p].dimension) >= priority(s[q].dimension)
  }

  /** What `getAndFixShape` makes of the sorted images' shape `before`. */
  ghost predicate ShapeFixed(pixelType: PixelType, before: seq<Dim>, after: seq<Dim>, priority: char -> int)
  {
    var k := FindDimension(before, 'C');
    if !IsColour(pixelType) then after == before
    else if k < |before| then after == before[k := Dim('C', 3 * before[k].extent)]
    else multiset(after) == multiset(before + [Dim('C', 3)]) && SortedByPriority(after, priority)
  }

  /** Every colour pixel type triples the element count of the shape, and
      every gray type leaves it alone. */
  lemma ShapeFixedCount(pixelType: PixelType, before: seq<Dim>, after: seq<Dim>, priority: char -> int)
    requires ShapeFixed(pixelType, before, after, priority)
    ensures ElementCount(after) == (if IsColour(pixelType) then 3 else 1) * ElementCount(before)
    ensures |after| == |before| + (if IsColour(pixelType) && FindDimension(before, 'C') == |before| then 1 else 0)
  {
    var k := FindDimension(before, 'C');
    if IsColour(pixelType) {
      if k < |before| {
        ScaleExtent(before, k, 3);
      } else {
        InsertedChannelCount(before, after);
      }
    }
  }

  lemma InsertedChannelCount(before: seq<Dim>, after: seq<Dim>)
    requires multiset(after) == multiset(before + [Dim('C', 3)])
    ensures ElementCount(after) == 3 * ElementCount(before)
    ensures |after| == |before| + 1
  {
    var extended := before + [Dim('C', 3)];
    ElementCountPermutation(after, extended);
    ElementCountAppend(before, [Dim('C', 3)]);
    ElementCountSingle(Dim('C', 3));
    calc {
      |after|;
      |multiset(after)|;
      |multiset(extended)|;
      |extended|;
    }
  }

  /** A request without tiles still gets a channel entry for a colour type. */
  lemma NoTilesColourShape(pixelType: PixelType, after: seq<Dim>, priority: char -> int)
    requires IsColour(pixelType) && ShapeFixed(pixelType, [], after, priority)
    ensures after == [Dim('C', 3)]
  {
    assert [] + [Dim('C', 3)] == [Dim('C', 3)];
    assert |after| == |multiset(after)| == 1;
    assert after[0] in multiset(after);
  }

  /** Exchanges two entries of the array. */
  method Swap(a: array<Dim>, i: nat, j: nat)
    requires i < a.Length && j < a.Length
    modifies a
    ensures a[..] == old(a[..])[i := old(a[j])][j := old(a[i])]
    ensures multiset(a[..]) == old(multiset(a[..]))
  {
    a[i], a[j] := a[j], a[i];
  }

  /** `std::sort` of the shape entries by descending priority, in place. */
  method SortByPriority(a: array<Dim>, priority: char -> int)
    modifies a
    ensures SortedByPriority(a[..], priority)
    ensures multiset(a[..]) == old(multiset(a[..]))
  {
    var i := 0;
    while i < a.Length
      invariant 0 <= i <= a.Length
      invariant forall p, q :: 0 <= p < q < i ==> priority(a[p].dimension) >= priority(a[q].dimension)
      invariant multiset(a[..]) == old(multiset(a[..]))
    {
      var j := i;
      while j > 0 && priority(a[j - 1].dimension) < priority(a[j].dimension)
        invariant 0 <= j <= i
        invariant forall p, q :: 0 <= p < q <= i && p != j && q != j ==>
          priority(a[p].dimension) >= priority(a[q].dimension)
        invariant forall q :: j < q <= i ==> priority(a[j].dimension) > priority(a[q].dimension)
        invariant multiset(a[..]) == old(multiset(a[..]))
      {
        Swap(a, j - 1, j);
        j := j - 1;
      }
      i := i + 1;
    }
  }

  /** `getAndFixShape`, given the shape `charSizes` of the sorted images:
      for a colour pixel type, the first 'C' extent is multiplied by 3, or,
      without one, a ('C', 3) entry is appended and the entries re-sorted by
      descending `priority` (libCZI's CharToDimension). */
  method GetAndFixShape(pixelType: PixelType, charSizes: seq<Dim>, priority: char -> int) returns (r: seq<Dim>)
    ensures ShapeFixed(pixelType, charSizes, r, priority)
    ensures ElementCount(r) == (if IsColour(pixelType) then 3 else 1) * ElementCount(charSizes)
  {
    r := charSizes;
    if IsColour(pixelType) {
      var k := 0;
      while k < |r| && r[k].dimension != 'C'
        invariant 0 <= k <= |r|
        invariant forall j :: 0 <= j < k ==> r[j].dimension != 'C'
      {
        k := k + 1;
      }
      FindDimensionIsFirst(charSizes, 'C', k);
      if k < |r| {
        r := r[k := Dim('C', 3 * r[k].extent)];
      } else {
        var n := |r|;
        var extended := r + [Dim('C', 3)];
        var a := new Dim[n + 1](p requires 0 <= p <= n => extended[p]);
        assert a[..] == extended;
        SortByPriority(a, priority);
        r := a[..];
      }
    }
    ShapeFixedCount(pixelType, charSizes, r, priority);
  }

  /** The first index whose entry has dimension `c` is what FindDimension returns. */
  lemma {:induction false} FindDimensionIsFirst(s: seq<Dim>, c: char, k: nat)
    requires k <= |s|
    requires k < |s| ==> s[k].dimension == c
    requires forall j :: 0 <= j < k ==> s[j].dimension != c
    ensures FindDimension(s, c) == k
    decreases |s|
  {
    if s != [] && s[0].dimension != c {
      FindDimensionIsFirst(s[1..], c, k - 1);
    }
  }

  /** `std::unique_ptr<ImagesContainerBase>`: owns the container or is empty. */
  class ContainerPtr<T(0)> {
    var ptr: ImagesContainer?<T>

    constructor (ptr: ImagesContainer?<T>)
      ensures this.ptr == ptr
    {
      this.ptr := ptr;
    }
  }

  /** What the array boundary receives: element type, shape and buffer. */
  datatype PackedArray<T> = PackedArray(element: ElementType, shape: seq<Dim>, buffer: array<T>)

  /** `packArray`: releases the container from `basePtr`, fixes the shape
      and selects the array's element type by pixel type. The switch has no
      default, so a pixel type outside the factory's table is excluded. */
  method PackArray<T(0)>(basePtr: ContainerPtr<T>, charSizes: seq<Dim>, priority: char -> int)
    returns (packed: PackedArray<T>)
    requires basePtr.ptr != null
    requires basePtr.ptr.pixelType in ContainerFactory.PixelToImage
    modifies basePtr
    ensures basePtr.ptr == null
    ensures
      var container := old(basePtr.ptr);
      && packed.buffer == container.data
      && packed.element == ContainerFactory.PixelToImage[container.pixelType].element
      && ShapeFixed(container.pixelType, charSizes, packed.shape, priority)
  {
    var icBase := basePtr.ptr;
    basePtr.ptr := null;
    var shape := GetAndFixShape(icBase.pixelType, charSizes, priority);
    var element;
    match icBase.pixelType {
      case Gray8 | Bgr24 => element := UInt8;
      case Gray16 | Bgr48 => element := UInt16;
      case Gray32 => element := UInt32;
      case Gray32Float | Bgr96Float => element := Float32;
    }
    packed := PackedArray(element, shape, icBase.data);
  }

  /** For every container the reader allocates (with the Gray32 case
      `getTypedAsBase` lacks), `packArray` chooses the element type the
      buffer was allocated with. */
  lemma PackedElementMatchesContainer(pt: PixelType, pixelsInAllImages: nat)
    requires IntendedContainerLayout(pt, pixelsInAllImages).Some?
    ensures pt in ContainerFactory.PixelToImage
    ensures ContainerFactory.PixelToImage[pt].element == IntendedContainerLayout(pt, pixelsInAllImages).value.element
  {
    ContainerFactory.IntendedContainerCoversFactory(pt, pixelsInAllImages);
  }
}
