/** Pixel types of a decoded CZI sub-block, the element types a tile is
    stored as, and the errors raised while building and packing images. */
module PixelFormat {

  /** libCZI's closed enumeration of pixel types. */
  datatype PixelType =
    | Invalid
    | Gray8 | Gray16 | Gray32Float
    | Bgr24 | Bgr48 | Bgr96Float
    | Bgra32 | Gray64ComplexFloat | Bgr192ComplexFloat
    | Gray32 | Gray64Float

  /** The C++ element types a tile is stored as (uint8_t, uint16_t,
      uint32_t, float), as tags: pixel values are not modelled. */
  datatype ElementType = UInt8 | UInt16 | UInt32 | Float32

  /** `sizeof` of each element type. */
  function ByteWidth(e: ElementType): nat
  {
    match e
    case UInt8 => 1
    case UInt16 => 2
    case UInt32 => 4
    case Float32 => 4
  }

  /** The three-channel (B, G, R) pixel types. */
  predicate IsColour(pt: PixelType)
  {
    pt == Bgr24 || pt == Bgr48 || pt == Bgr96Float
  }

  /** PixelTypeException, std::bad_alloc and ImageAccessUnderspecifiedException. */
  datatype Error =
    | PixelTypeException(pixelType: PixelType)
    | BadAlloc
    | ImageAccessUnderspecified(given: nat, required: nat)

  /** A value, or the exception thrown instead of returning one. */
  datatype Result<+R> = Ok(value: R) | Err(error: Error)

  datatype Option<+T> = None | Some(value: T)
}
