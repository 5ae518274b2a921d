/** The newer image factory: every image is placed at an element offset of
    one shared container, and colour images are tagged with the gray type
    of the same element width. */
module ContainerFactory {
  import opened PixelFormat
  import opened Shapes
  import opened Images
  import opened Containers
  import LegacyFactory

  /** How a table entry tags the image: with the pixel type it was given,
      or with a fixed gray type. */
  datatype TagRule = KeepGiven | Downgrade(gray: PixelType)

  /** One entry of `s_pixelToImage`: the element type it casts the
      container to, and the tag it gives the image. */
  datatype Ctor = Ctor(element: ElementType, tag: TagRule)

  function TagOf(rule: TagRule, given: PixelType): PixelType
  {
    match rule
    case KeepGiven => given
    case Downgrade(gray) => gray
  }

  const PixelToImage: map<PixelType, Ctor> := map[
    Gray8 := Ctor(UInt8, KeepGiven),
    Bgr24 := Ctor(UInt8, Downgrade(Gray8)),
    Gray16 := Ctor(UInt16, KeepGiven),
    Gray32 := Ctor(UInt32, KeepGiven),
    Bgr48 := Ctor(UInt16, Downgrade(Gray16)),
    Gray32Float := Ctor(Float32, KeepGiven),
    Bgr96Float := Ctor(Float32, Downgrade(Gray32Float))
  ]

  function SizeOfPixelType(pt: PixelType): (r: Result<nat>)
    ensures r.Ok? <==> pt in PixelToImage
    ensures r.Ok? ==> r.value == ByteWidth(PixelToImage[pt].element)
    ensures r.Err? ==> r.error == PixelTypeException(pt)
  {
    match pt
    case Gray8 | Bgr24 => Ok(1)
    case Gray16 | Bgr48 => Ok(2)
    case Gray32 => Ok(4)
    case Gray32Float | Bgr96Float => Ok(4)
    case _ => Err(PixelTypeException(pt))
  }

  function NumberOfChannels(pt: PixelType): (r: Result<nat>)
    ensures r.Ok? <==> pt in PixelToImage
    ensures r.Ok? ==> r.value == (if IsColour(pt) then 3 else 1)
    ensures r.Ok? ==> (r.value == 3 <==> PixelToImage[pt].tag.Downgrade?)
    ensures r.Err? ==> r.error == PixelTypeException(pt)
  {
    match pt
    case Gray8 | Gray16 | Gray32 | Gray32Float => Ok(1)
    case Bgr24 | Bgr48 | Bgr96Float => Ok(3)
    case _ => Err(PixelTypeException(pt))
  }

  /** A colour entry tags the image with the gray type of the same element
      width (and channel count 1); a gray entry keeps the given tag. */
  lemma ColourTagsDowngradeToGray(pt: PixelType)
    requires pt in PixelToImage
    ensures IsColour(pt) ==>
      var gray := TagOf(PixelToImage[pt].tag, pt);
      && gray in PixelToImage && !IsColour(gray)
      && PixelToImage[gray].element == PixelToImage[pt].element
      && SizeOfPixelType(gray) == SizeOfPixelType(pt)
      && NumberOfChannels(gray) == Ok(1)
    ensures !IsColour(pt) ==> TagOf(PixelToImage[pt].tag, pt) == pt
  {
  }

  /** The two factory versions accept the same pixel types except Gray32,
      which only the newer one supports, agree on element types, and differ
      in how they tag colour images. */
  lemma VersionsDiffer(pt: PixelType)
    ensures pt in PixelToImage <==> pt in LegacyFactory.PixelToImage || pt == Gray32
    ensures pt in LegacyFactory.PixelToImage ==> LegacyFactory.PixelToImage[pt] == PixelToImage[pt].element
    ensures pt in LegacyFactory.PixelToImage ==>
      SizeOfPixelType(pt) == LegacyFactory.SizeOfPixelType(pt) && NumberOfChannels(pt) == LegacyFactory.NumberOfChannels(pt)
    ensures IsColour(pt) ==> TagOf(PixelToImage[pt].tag, pt) != pt
  {
  }

  /** A container made for a pixel type the factory accepts holds elements
      of the type the factory casts it to, `byteWidth * channels` bytes per
      pixel. */
  lemma ContainerMatchesFactory(pt: PixelType, pixelsInAllImages: nat)
    requires ContainerLayout(pt, pixelsInAllImages).Some?
    ensures pt in PixelToImage
    ensures ContainerLayout(pt, pixelsInAllImages).value.element == PixelToImage[pt].element
    ensures ContainerLayout(pt, pixelsInAllImages).value.capacity == NumberOfChannels(pt).value * pixelsInAllImages
    ensures
      var layout := ContainerLayout(pt, pixelsInAllImages).value;
      ByteWidth(layout.element) * layout.capacity
        == SizeOfPixelType(pt).value * NumberOfChannels(pt).value * pixelsInAllImages
  {
  }

  /** With the Gray32 case added, every pixel type the factory accepts gets
      a container, of the element type and size the factory relies on. */
  lemma IntendedContainerCoversFactory(pt: PixelType, pixelsInAllImages: nat)
    ensures IntendedContainerLayout(pt, pixelsInAllImages).Some? <==> pt in PixelToImage
    ensures pt in PixelToImage ==>
      IntendedContainerLayout(pt, pixelsInAllImages)
        == Some(Layout(PixelToImage[pt].element, NumberOfChannels(pt).value * pixelsInAllImages))
  {
  }

  /** As written, the factory and the container allocation disagree on
      Gray32: the factory accepts it and casts to uint32, yet no container
      holds uint32 elements. */
  lemma Gray32FactoryWithoutContainer(pixelsInAllImages: nat)
    ensures Gray32 in PixelToImage && PixelToImage[Gray32].element == UInt32
    ensures NumberOfChannels(Gray32) == Ok(1)
    ensures ContainerLayout(Gray32, pixelsInAllImages) == None
  {
  }

  class ImageFactory<T(0)> {
    /** `m_imgContainer`: the container every constructed image lives in. */
    const container: ImagesContainer<T>

    constructor (container: ImagesContainer<T>)
      ensures this.container == container
    {
      this.container := container;
    }

    /** `ImageFactory::constructImage`: looks up the channel count (failing
        for unsupported types before anything is constructed or added),
        builds the tile shape, lets the table entry cast the container and
        point the new image at element `memIndex`, loads the image and
        appends it to the container. `pixels` are the bitmap's samples read
        as `T`; they land in the container's buffer from element `memIndex`
        on, and no other element changes. `allocates` says whether the heap could
        satisfy the image's allocation; if not, std::bad_alloc results. */
    method ConstructImage(bitmap: Bitmap, pixels: seq<T>, planeCoordinate: PlaneCoordinate, box: IntRect,
                          memIndex: nat, mIndex: int, allocates: bool) returns (r: Result<Image<T>>)
      requires bitmap.pixelType in PixelToImage ==>
        container.elementType == PixelToImage[bitmap.pixelType].element
      requires bitmap.pixelType in PixelToImage ==>
        memIndex + NumberOfChannels(bitmap.pixelType).value * bitmap.height * bitmap.width <= container.data.Length
      requires bitmap.pixelType in PixelToImage ==>
        |pixels| == NumberOfChannels(bitmap.pixelType).value * bitmap.height * bitmap.width
      modifies container, container.data
      ensures r.Err? <==> bitmap.pixelType !in PixelToImage || !allocates
      ensures bitmap.pixelType !in PixelToImage ==> r == Err(PixelTypeException(bitmap.pixelType))
      ensures bitmap.pixelType in PixelToImage && !allocates ==> r == Err(BadAlloc)
      ensures r.Err? ==> container.images == old(container.images) && container.data[..] == old(container.data[..])
      ensures r.Ok? ==> container.data[memIndex..memIndex + |pixels|] == pixels
      ensures r.Ok? ==> forall i :: 0 <= i < container.data.Length && !(memIndex <= i < memIndex + |pixels|) ==>
        container.data[i] == old(container.data[i])
      ensures r.Ok? ==> fresh(r.value) && container.images == old(container.images) + [r.value]
      ensures r.Ok? ==>
        var pt, image := bitmap.pixelType, r.value;
        var channels := NumberOfChannels(pt).value;
        && image.shape == TileShape(channels, bitmap.height, bitmap.width)
        && Product(image.shape) == channels * bitmap.height * bitmap.width
        && image.pixelType == TagOf(PixelToImage[pt].tag, pt)
        && image.elementType == PixelToImage[pt].element == container.elementType
        && image.planeCoordinate == planeCoordinate && image.box == box && image.mIndex == mIndex
        && image.storage == Borrowed(ElementPtr(container.data, memIndex))
        && memIndex + Product(image.shape) <= container.data.Length
        && image.loaded == Some(Load(bitmap, channels))
    {
      var pt := bitmap.pixelType;
      var channelCount := NumberOfChannels(pt);
      if channelCount.Err? {
        return Err(channelCount.error);
      }
      var channels := channelCount.value;
      var shape: seq<nat> := [];
      if channels == 3 {
        shape := shape + [3];
      }
      shape := shape + [bitmap.height];
      shape := shape + [bitmap.width];
      assert shape == TileShape(channels, bitmap.height, bitmap.width);
      TileShapeCount(channels, bitmap.height, bitmap.width);
      var ctor := PixelToImage[pt];
      if !allocates {
        return Err(BadAlloc);
      }
      var typed := container.GetBaseAsTyped(ctor.element);
      var at := typed.GetPointerAtIndex(memIndex);
      var image := new Image(shape, TagOf(ctor.tag, pt), ctor.element, planeCoordinate, box, Borrowed(at), mIndex);
      image.LoadImage(bitmap, channels, pixels);
      container.AddImage(image);
      r := Ok(image);
    }
  }
}
