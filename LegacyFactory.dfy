/** The older image factory: each tile gets its own buffer, and the image
    keeps the pixel type of the bitmap it came from, colour types included. */
module LegacyFactory {
  import opened PixelFormat
  import opened Shapes
  import opened Images

  /** `s_pixelToImage`: the element type each table entry instantiates
      `TypedImage` with. Every entry passes the given pixel type through. */
  const PixelToImage: map<PixelType, ElementType> := map[
    Gray8 := UInt8,
    Bgr24 := UInt8,
    Gray16 := UInt16,
    Bgr48 := UInt16,
    Gray32Float := Float32,
    Bgr96Float := Float32
  ]

  function SizeOfPixelType(pt: PixelType): (r: Result<nat>)
    ensures r.Ok? <==> pt in PixelToImage
    ensures r.Ok? ==> r.value == ByteWidth(PixelToImage[pt])
    ensures r.Err? ==> r.error == PixelTypeException(pt)
  {
    match pt
    case Gray8 | Bgr24 => Ok(1)
    case Gray16 | Bgr48 => Ok(2)
    case Gray32Float | Bgr96Float => Ok(4)
    case _ => Err(PixelTypeException(pt))
  }

  function NumberOfChannels(pt: PixelType): (r: Result<nat>)
    ensures r.Ok? <==> pt in PixelToImage
    ensures r.Ok? ==> r.value == (if IsColour(pt) then 3 else 1)
    ensures r.Err? ==> r.error == PixelTypeException(pt)
  {
    match pt
    case Gray8 | Gray16 | Gray32Float => Ok(1)
    case Bgr24 | Bgr48 | Bgr96Float => Ok(3)
    case _ => Err(PixelTypeException(pt))
  }

  /** The table has six entries; Gray32 is not one of them. */
  lemma TableHasSixEntries()
    ensures |PixelToImage| == 6
    ensures Gray32 !in PixelToImage && Gray32 in PixelToTypeName
  {
    assert PixelToImage.Keys == {Gray8, Bgr24, Gray16, Bgr48, Gray32Float, Bgr96Float};
  }

  /** The factory accepts exactly the types `Image::s_pixelToTypeName`
      names, and stores them as the element type named there. */
  lemma FactoryAgreesWithTypeNames(pt: PixelType)
    ensures pt in PixelToImage <==> pt in PixelToTypeName && PixelToTypeName[pt].Named?
    ensures pt in PixelToImage ==> PixelToTypeName[pt] == Named(PixelToImage[pt])
  {
  }

  /** `ImageFactory::constructImage`: looks up the channel count (failing
      for unsupported types before anything is allocated), builds the tile
      shape, constructs a typed image owning its buffer, loads it with the
      channel count and returns it. `pixels` are the bitmap's samples read
      as `T`. `allocates` says whether the heap could
      satisfy the image's allocation; if not, std::bad_alloc results. */
  method ConstructImage<T(0)>(bitmap: Bitmap, pixels: seq<T>, planeCoordinate: PlaneCoordinate, box: IntRect,
                              mIndex: int, allocates: bool) returns (r: Result<Image<T>>)
    requires bitmap.pixelType in PixelToImage ==>
      |pixels| == NumberOfChannels(bitmap.pixelType).value * bitmap.height * bitmap.width
    ensures r.Err? <==> bitmap.pixelType !in PixelToImage || !allocates
    ensures bitmap.pixelType !in PixelToImage ==> r == Err(PixelTypeException(bitmap.pixelType))
    ensures bitmap.pixelType in PixelToImage && !allocates ==> r == Err(BadAlloc)
    ensures r.Ok? ==> fresh(r.value)
    ensures r.Ok? ==>
      var pt, image := bitmap.pixelType, r.value;
      var channels := NumberOfChannels(pt).value;
      && image.shape == TileShape(channels, bitmap.height, bitmap.width)
      && Product(image.shape) == channels * bitmap.height * bitmap.width
      && image.pixelType == pt
      && image.elementType == PixelToImage[pt]
      && image.planeCoordinate == planeCoordinate && image.box == box && image.mIndex == mIndex
      && image.storage.Owned? && fresh(image.storage.buffer)
      && image.storage.buffer.Length == Product(image.shape)
      && image.storage.buffer[..] == pixels
      && image.loaded == Some(Load(bitmap, channels))
  {
    var pt := bitmap.pixelType;
    var channelCount := NumberOfChannels(pt);
    if channelCount.Err? {
      return Err(channelCount.error);
    }
    var channels := channelCount.value;
    var shape: seq<nat> := [];
    if channels == 3 {
      shape := shape + [3];
    }
    shape := shape + [bitmap.height];
    shape := shape + [bitmap.width];
    assert shape == TileShape(channels, bitmap.height, bitmap.width);
    TileShapeCount(channels, bitmap.height, bitmap.width);
    if !allocates {
      return Err(BadAlloc);
    }
    var buffer := new T[|pixels|];
    var image := new Image(shape, pt, PixelToImage[pt], planeCoordinate, box, Owned(buffer), mIndex);
    image.LoadImage(bitmap, channels, pixels);
    assert buffer[..] == buffer[0..|pixels|];
    r := Ok(image);
  }
}
