/** One typed allocation sized for every tile of a read request, and the
    images placed in it. */
module Containers {
  import opened PixelFormat
  import opened Images

  /** The element type and element count of a container's buffer. */
  datatype Layout = Layout(element: ElementType, capacity: nat)

  /** The allocation `getTypedAsBase` makes for a pixel type: `n` elements
      for the gray types, `3n` for the colour types, and no container at
      all (a null pointer) for any other type, Gray32 included. */
  function ContainerLayout(pixelType: PixelType, pixelsInAllImages: nat): (r: Option<Layout>)
    ensures r.Some? <==> pixelType in {Gray8, Gray16, Gray32Float, Bgr24, Bgr48, Bgr96Float}
    ensures r.Some? ==> r.value.capacity == (if IsColour(pixelType) then 3 else 1) * pixelsInAllImages
  {
    var n := pixelsInAllImages;
    match pixelType
    case Gray8 => Some(Layout(UInt8, n))
    case Gray16 => Some(Layout(UInt16, n))
    case Gray32Float => Some(Layout(Float32, n))
    case Bgr24 => Some(Layout(UInt8, 3 * n))
    case Bgr48 => Some(Layout(UInt16, 3 * n))
    case Bgr96Float => Some(Layout(Float32, 3 * n))
    case _ => None
  }

  /** The allocation the rest of the reader expects: as above, plus a
      uint32 buffer of `n` elements for Gray32. */
  function IntendedContainerLayout(pixelType: PixelType, pixelsInAllImages: nat): (r: Option<Layout>)
    ensures pixelType != Gray32 ==> r == ContainerLayout(pixelType, pixelsInAllImages)
  {
    if pixelType == Gray32 then Some(Layout(UInt32, pixelsInAllImages))
    else ContainerLayout(pixelType, pixelsInAllImages)
  }

  class ImagesContainer<T(0)> {
    const pixelType: PixelType
    /** The element type `T` stands for (the template argument). */
    const elementType: ElementType
    /** The owned buffer; its length is fixed when it is allocated. */
    const data: array<T>
    var images: seq<Image<T>>

    constructor (pixelType: PixelType, elementType: ElementType, capacity: nat)
      ensures this.pixelType == pixelType && this.elementType == elementType
      ensures fresh(data) && data.Length == capacity
      ensures images == []
    {
      this.pixelType := pixelType;
      this.elementType := elementType;
      data := new T[capacity];
      images := [];
    }

    /** `m_uniquePtr.get() + position`: pointer arithmetic into the buffer,
        defined up to one past its end. */
    method GetPointerAtIndex(position: nat := 0) returns (p: ElementPtr<T>)
      requires position <= data.Length
      ensures p.buffer == data && p.offset == position
      ensures Dereferenceable(p) <==> position < data.Length
    {
      p := ElementPtr(data, position);
    }

    /** `static_cast<ImagesContainer<U>*>(this)`: unchecked, so it is only
        correct when `element` is the type the buffer was created with. */
    method GetBaseAsTyped(element: ElementType) returns (typed: ImagesContainer<T>)
      requires element == elementType
      ensures typed == this
    {
      typed := this;
    }

    method AddImage(image: Image<T>)
      modifies this`images
      ensures images == old(images) + [image]
    {
      images := images + [image];
    }
  }

  /** `ImagesContainerBase::getTypedAsBase`: the switch has no default, so
      an unlisted pixel type leaves the result null. */
  method GetTypedAsBase<T(0)>(pixelType: PixelType, pixelsInAllImages: nat) returns (c: ImagesContainer?<T>)
    ensures c == null <==> ContainerLayout(pixelType, pixelsInAllImages).None?
    ensures c != null ==> fresh(c) && fresh(c.data) && c.images == [] && c.pixelType == pixelType
    ensures c != null ==>
      ContainerLayout(pixelType, pixelsInAllImages) == Some(Layout(c.elementType, c.data.Length))
  {
    var n := pixelsInAllImages;
    match pixelType {
      case Gray8 => c := new ImagesContainer(pixelType, UInt8, n);
      case Gray16 => c := new ImagesContainer(pixelType, UInt16, n);
      case Gray32Float => c := new ImagesContainer(pixelType, Float32, n);
      case Bgr24 => c := new ImagesContainer(pixelType, UInt8, 3 * n);
      case Bgr48 => c := new ImagesContainer(pixelType, UInt16, 3 * n);
      case Bgr96Float => c := new ImagesContainer(pixelType, Float32, 3 * n);
      case _ => c := null;
    }
  }

  /** No pixel type gets a uint32 container, so Gray32 gets none. */
  lemma Gray32HasNoContainer(pixelsInAllImages: nat)
    ensures ContainerLayout(Gray32, pixelsInAllImages) == None
    ensures forall pt :: ContainerLayout(pt, pixelsInAllImages).Some? ==>
      ContainerLayout(pt, pixelsInAllImages).value.element != UInt32
  {
  }
}
