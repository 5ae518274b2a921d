/** A decoded tile reinterpreted as one element type: its shape, pixel-type
    tag, placement metadata and where its elements live, with the
    flattened-index computation of `Image::calculateIdx`. */
module Images {
  import opened PixelFormat
  import opened Shapes
  import opened FlatIndex

  /** libCZI::IntRect: the tile's rectangle in scene pixel space. */
  datatype IntRect = IntRect(x: int, y: int, w: int, h: int)

  /** The plane coordinate (dimension character to index); passed through untouched. */
  type PlaneCoordinate = map<char, int>

  /** What the factory reads from a decoded libCZI bitmap: its pixel type
      and its size in pixels. */
  datatype Bitmap = Bitmap(pixelType: PixelType, width: nat, height: nat)

  /** A `T*`: an element offset into a buffer. */
  datatype ElementPtr<T> = ElementPtr(buffer: array<T>, offset: nat)

  /** A pointer the element at which may be read or written. */
  predicate Dereferenceable<T>(p: ElementPtr<T>)
  {
    p.offset < p.buffer.Length
  }

  /** Either the image owns its buffer, or it addresses a window of a
      shared container's buffer. */
  datatype Storage<T> = Owned(buffer: array<T>) | Borrowed(at: ElementPtr<T>)

  /** Where an image's first element lives: the start of its own buffer, or
      the borrowed position in a container's buffer. */
  function FirstElement<T>(storage: Storage<T>): ElementPtr<T>
  {
    match storage
    case Owned(buffer) => ElementPtr(buffer, 0)
    case Borrowed(at) => at
  }

  /** The bitmap and channel count `loadImage` copied the pixels from. */
  datatype Load = Load(bitmap: Bitmap, channels: nat)

  /** The shape `constructImage` gives a tile: `[3, h, w]` for three
      channels, `[h, w]` otherwise. */
  function TileShape(channels: nat, height: nat, width: nat): (shape: seq<nat>)
    ensures |shape| == (if channels == 3 then 3 else 2)
    ensures shape[|shape| - 2] == height && shape[|shape| - 1] == width
    ensures channels == 3 ==> shape[0] == 3
  {
    (if channels == 3 then [3] else []) + [height, width]
  }

  lemma TileShapeCount(channels: nat, height: nat, width: nat)
    requires channels == 1 || channels == 3
    ensures |TileShape(channels, height, width)| == if channels == 3 then 3 else 2
    ensures Product(TileShape(channels, height, width)) == channels * height * width
  {
    var prefix: seq<nat> := if channels == 3 then [3] else [];
    var shape := TileShape(channels, height, width);
    assert shape == prefix + [height, width];
    ProductAppend(prefix, [height, width]);
    assert [height, width][..1] == [height];
    assert [height][..0] == [];
    assert Product([height, width]) == height * width;
    if channels == 3 {
      assert prefix[..0] == [];
      assert Product(prefix) == 3;
    }
  }

  class Image<T> {
    const shape: seq<nat>
    const pixelType: PixelType
    const elementType: ElementType
    const planeCoordinate: PlaneCoordinate
    const box: IntRect
    const mIndex: int
    const storage: Storage<T>
    var loaded: Option<Load>

    constructor (shape: seq<nat>, pixelType: PixelType, elementType: ElementType,
                 planeCoordinate: PlaneCoordinate, box: IntRect, storage: Storage<T>, mIndex: int)
      ensures this.shape == shape && this.pixelType == pixelType && this.elementType == elementType
      ensures this.planeCoordinate == planeCoordinate && this.box == box
      ensures this.storage == storage && this.mIndex == mIndex
      ensures loaded == None
    {
      this.shape := shape;
      this.pixelType := pixelType;
      this.elementType := elementType;
      this.planeCoordinate := planeCoordinate;
      this.box := box;
      this.storage := storage;
      this.mIndex := mIndex;
      loaded := None;
    }

    /** Copies the bitmap's samples into the image's elements; `pixels` are
        those samples read as `T`, in the order the copy stores them. Only
        the image's own window of the buffer is written. */
    method LoadImage(bitmap: Bitmap, channels: nat, pixels: seq<T>)
      requires |pixels| == Product(shape)
      requires FirstElement(storage).offset + |pixels| <= FirstElement(storage).buffer.Length
      modifies this`loaded, FirstElement(storage).buffer
      ensures loaded == Some(Load(bitmap, channels))
      ensures
        var p := FirstElement(storage);
        p.buffer[p.offset..p.offset + |pixels|] == pixels
      ensures
        var p := FirstElement(storage);
        forall i :: 0 <= i < p.buffer.Length && !(p.offset <= i < p.offset + |pixels|) ==>
          p.buffer[i] == old(p.buffer[i])
    {
      var p := FirstElement(storage);
      forall k | 0 <= k < |pixels| {
        p.buffer[p.offset + k] := pixels[k];
      }
      loaded := Some(Load(bitmap, channels));
    }

    /** The flat element offset of `indexes`, given fastest-varying first.
        A shape of rank 0 is excluded: the weight loop would step before
        the start of the shape. */
    method CalculateIdx(indexes: seq<nat>) returns (r: Result<nat>)
      requires |shape| > 0 || |indexes| > 0
      ensures r.Err? <==> |indexes| != |shape|
      ensures r.Err? ==> r.error == ImageAccessUnderspecified(|indexes|, |shape|)
      ensures r.Ok? ==> r.value == Offset(indexes, shape)
      ensures r.Ok? && ValidIndexes(indexes, shape) ==> r.value < Product(shape)
    {
      if |indexes| != |shape| {
        return Err(ImageAccessUnderspecified(|indexes|, |shape|));
      }
      var n := |shape|;
      // weights[i] is the product of the last i extents
      var runningProduct := 1;
      var weights := [1];
      var k := n;
      WeightStep(shape, 0);
      while k > 1
        invariant 1 <= k <= n
        invariant |weights| == n - k + 1
        invariant runningProduct == Weight(shape, n - k)
        invariant forall i :: 0 <= i < |weights| ==> weights[i] == Weight(shape, i)
      {
        WeightStep(shape, n - k);
        runningProduct := runningProduct * shape[k - 1];
        weights := weights + [runningProduct];
        k := k - 1;
      }
      // prod[i] = indexes[i] * weights[i]
      var prod := [];
      var i := 0;
      while i < n
        invariant 0 <= i <= n
        invariant |prod| == i
        invariant forall t :: 0 <= t < i ==> prod[t] == indexes[t] * weights[t]
      {
        prod := prod + [indexes[i] * weights[i]];
        i := i + 1;
      }
      // the sum of prod
      var idx := 0;
      var t := 0;
      while t < n
        invariant 0 <= t <= n
        invariant idx == Sum(prod[..t])
      {
        assert prod[..t + 1][..t] == prod[..t];
        idx := idx + prod[t];
        t := t + 1;
      }
      assert prod[..n] == prod == Terms(indexes, shape);
      if ValidIndexes(indexes, shape) {
        OffsetBound(indexes, shape);
      }
      r := Ok(idx);
    }
  }

  /** The element type name `Image::s_pixelToTypeName` records, or the
      marker for pixel types libCZI does not support. */
  datatype TypeName = Named(element: ElementType) | Unsupported

  const PixelToTypeName: map<PixelType, TypeName> := map[
    Gray8 := Named(UInt8),
    Gray16 := Named(UInt16),
    Gray32Float := Named(Float32),
    Bgr24 := Named(UInt8),
    Bgr48 := Named(UInt16),
    Bgr96Float := Named(Float32),
    Bgra32 := Unsupported,
    Gray64ComplexFloat := Unsupported,
    Bgr192ComplexFloat := Unsupported,
    Gray32 := Unsupported,
    Gray64Float := Unsupported
  ]

  /** Each colour type is stored as the gray type of the same width; Gray32
      is listed but unsupported, and only Invalid is missing. */
  lemma TypeNamesOfColourAndGray32()
    ensures PixelToTypeName[Bgr24] == PixelToTypeName[Gray8] == Named(UInt8)
    ensures PixelToTypeName[Bgr48] == PixelToTypeName[Gray16] == Named(UInt16)
    ensures PixelToTypeName[Bgr96Float] == PixelToTypeName[Gray32Float] == Named(Float32)
    ensures PixelToTypeName[Gray32] == Unsupported
    ensures forall pt :: pt !in PixelToTypeName <==> pt == Invalid
  {
  }
}
