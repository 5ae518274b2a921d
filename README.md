# CZI tile packing: pixel-type dispatch, typed container, shape and index arithmetic

A Dafny model of the core of a CZI microscopy reader. Decoded tiles are turned
into typed images, placed at element offsets of one shared buffer, and the
buffer is handed on with a labelled shape. The model covers:

- the pixel-type lookups `sizeOfPixelType` and `numberOfChannels`, in both the
  older (`_pylibczi`) and newer (`_aicspylibczi`) factory;
- the format-keyed constructor tables and `constructImage` in both versions.
  The older version gives each image its own buffer and keeps the bitmap's
  pixel type. The newer one points the image at element `mem_index_` of the
  factory's container, casts the container to the entry's element type, and
  tags colour images with the gray type of the same width;
- the typed container `ImagesContainer<T>`. It is a class over an `array<T>` whose
  length is fixed at allocation. `getTypedAsBase` sizes it, and the model also covers
  its pointer arithmetic and its unchecked cast;
- `getAndFixShape`, which triples an existing `'C'` extent for colour types or
  appends `('C', 3)` and sorts the entries in place by descending dimension
  priority, and `packArray`, which releases the container and picks the array's
  element type;
- `Image::calculateIdx`, a loop proved against a specification function, and
  the `s_pixelToTypeName` table.

Element values are an abstract type parameter `T`. The C++ type `T` stands for
is recorded as an `ElementType` tag (`UInt8`, `UInt16`, `UInt32`, `Float32`).
Exceptions become `Result` values:

- `PixelTypeException` carries the offending pixel type;
- `std::bad_alloc` is `BadAlloc`;
- `ImageAccessUnderspecifiedException` carries both sizes.

Whether the heap can satisfy an image's allocation in `constructImage` is a parameter
(`allocates`). libCZI's `CharToDimension` is a parameter `priority: char -> int`.
The shape that `ImageVector::sort` and `getShape` produce is a parameter `charSizes`.

Three consequences of the code are worth knowing:

- `calculateIdx` pairs index `i` with the product of the last `i` extents. The
  index vector is therefore given fastest-varying first: the offset is the
  row-major offset of the reversed vector.
- For a colour pixel type, a request without tiles does not get an empty shape.
  `getAndFixShape` still inserts `('C', 3)` (`NoTilesColourShape`).
- `std::map::operator[]` in `constructImage` never meets a missing key. In both
  versions, `numberOfChannels` accepts exactly the table's keys and throws first
  for every other pixel type.

Modules: `PixelFormat`, `Shapes`, `FlatIndex`, `Images`, `Containers`,
`LegacyFactory`, `ContainerFactory`, `PbHelpers`.

## Model

| member | source | states |
|---|---|---|
| `ContainerFactory.SizeOfPixelType` | _aicspylibczi/ImageFactory.cpp:85-98 | succeeds exactly for the seven pixel types in the constructor table, with the byte width of the element type that table entry casts to; any other type fails with a PixelTypeException carrying that type |
| `ContainerFactory.NumberOfChannels` | _aicspylibczi/ImageFactory.cpp:100-113 | succeeds exactly for the table's pixel types: 3 for the colour types, 1 for the gray types (Gray32 included); 3 exactly when the table entry downgrades the tag; otherwise a PixelTypeException carrying the type |
| `ContainerFactory.ColourTagsDowngradeToGray` | _aicspylibczi/ImageFactory.cpp:17-64 | a colour entry tags the image with a gray type that has the same element type, byte width and one channel; a gray entry keeps the given tag |
| `ContainerFactory.VersionsDiffer` | _aicspylibczi/ImageFactory.cpp:8-65 | the newer table is the older one plus Gray32, with the same element types, and the two versions' lookups agree on their common types; only the newer version changes the tag of colour images |
| `ContainerFactory.ContainerMatchesFactory` | _aicspylibczi/ImagesContainer.h:54-67 | every container `getTypedAsBase` makes holds the element type the factory casts to, channels × n elements, and byte width × channels × n bytes |
| `ContainerFactory.IntendedContainerCoversFactory` | _aicspylibczi/ImagesContainer.h:53-68 | with a Gray32 case, a container exists exactly for the factory's pixel types, with the factory's element type and channels × n elements |
| `ContainerFactory.Gray32FactoryWithoutContainer` | _aicspylibczi/ImageFactory.cpp:33-40 | the factory accepts Gray32 with one channel and casts to uint32, yet the as-written allocation has no Gray32 container |
| `ContainerFactory.ImageFactory.constructor` | _aicspylibczi/ImageFactory.cpp:133-134 | the factory works on the container it is given |
| `ContainerFactory.ImageFactory.ConstructImage` | _aicspylibczi/ImageFactory.cpp:115-141 | an unsupported type fails with its PixelTypeException before anything is constructed or added; a failed allocation gives BadAlloc; in both cases the container's images and buffer are unchanged. Otherwise exactly one fresh image is appended and returned, the bitmap's samples occupy the buffer from element `mem_index_` on, and every other element of the shared buffer keeps its value. Its shape is `[3,h,w]` or `[h,w]`, with channels·h·w elements; its tag is per the table; its element type is the table's, which must be the container's; it is placed at element `mem_index_` of the container's buffer, within capacity; it is loaded with the channel count |
| `LegacyFactory.SizeOfPixelType` | _pylibczi/ImageFactory.cpp:45-57 | succeeds exactly for the six table types, with the byte width of the entry's element type; Gray32 and every other type fail with a PixelTypeException carrying the type |
| `LegacyFactory.NumberOfChannels` | _pylibczi/ImageFactory.cpp:59-73 | 1 for Gray8, Gray16, Gray32Float, 3 for the colour types, PixelTypeException for Gray32 and any other type |
| `LegacyFactory.TableHasSixEntries` | _pylibczi/ImageFactory.cpp:6-43 | the older table has exactly six entries and no Gray32 entry |
| `LegacyFactory.FactoryAgreesWithTypeNames` | _pylibczi/Image.cpp:11-23 | the older factory accepts exactly the types the type-name table names, and stores each as the element type named there |
| `LegacyFactory.ConstructImage` | _pylibczi/ImageFactory.cpp:75-96 | an unsupported type fails with its PixelTypeException before anything is allocated; a failed allocation gives BadAlloc. Otherwise the result is a fresh image owning a fresh buffer of exactly channels·h·w elements that holds the bitmap's samples. It has shape `[3,h,w]` or `[h,w]` with channels·h·w elements, keeps the bitmap's pixel type (colour tags included), and is loaded with the channel count |
| `Images.TileShape` | _aicspylibczi/ImageFactory.cpp:124-129 | rows then columns are the last two extents, preceded by a channel axis of extent 3 exactly when there are three channels |
| `Images.TileShapeCount` | _aicspylibczi/ImageFactory.cpp:124-129 | the tile shape has rank 3 for three channels and 2 otherwise, and its element count is channels·h·w |
| `Images.Image.constructor` | _aicspylibczi/ImageFactory.cpp:13-15 | a new image carries the shape, tag, element type, plane coordinate, box, storage and mosaic index it was given, and is not yet loaded |
| `Images.Image.LoadImage` | _pylibczi/ImageFactory.cpp:93 | the bitmap's samples fill exactly the image's window of its buffer (its own buffer, or the borrowed range of a container's), every element outside that window keeps its value, and the load records the bitmap and channel count |
| `Images.Image.CalculateIdx` | _pylibczi/Image.cpp:31-47 | fails with ImageAccessUnderspecified(given, rank) exactly when the index count differs from the rank. Otherwise it returns the sum of `indexes[i]` times the product of the last `i` extents, which is below the element count for valid indexes |
| `Images.TypeNamesOfColourAndGray32` | _pylibczi/Image.cpp:11-23 | each colour type maps to the same element type as the gray type of the same width; Gray32 is marked unsupported; only Invalid is absent |
| `FlatIndex.WeightStep` | _pylibczi/Image.cpp:35-40 | the first weight is 1 and each next weight is the previous one times the next extent from the end |
| `FlatIndex.NoIntermediateExceedsCount` | _pylibczi/Image.cpp:35-45 | for a valid index vector, every running product, every weighted index and every partial sum `calculateIdx` forms is at most the element count |
| `FlatIndex.OffsetIsReversedRowMajor` | _pylibczi/Image.cpp:35-46 | the computed offset is the row-major offset of the reversed index vector |
| `FlatIndex.OffsetBound` | _pylibczi/Image.cpp:35-46 | when `indexes[i] < shape[rank-1-i]` for all i, the offset is below the product of the extents |
| `FlatIndex.OffsetInjective` | _pylibczi/Image.cpp:35-46 | distinct valid index vectors give distinct offsets |
| `FlatIndex.OffsetSurjective` | _pylibczi/Image.cpp:35-46 | every offset below the element count of a shape with positive extents is the offset of some valid index vector (the reversed unravelled offset) |
| `FlatIndex.RowMajorUnravel` | _pylibczi/Image.cpp:35-46 | unravelling an offset below the element count gives an in-bounds multi-index whose row-major offset is that offset |
| `FlatIndex.UnravelRowMajor` | _pylibczi/Image.cpp:35-46 | unravelling the row-major offset of an in-bounds multi-index gives back the multi-index |
| `FlatIndex.OffsetOfZero` | _pylibczi/Image.cpp:41-46 | the all-zero index vector gives offset 0 |
| `FlatIndex.OffsetRankOne` | _pylibczi/Image.cpp:35-46 | for a rank-1 shape the offset is the single index |
| `Containers.ContainerLayout` | _aicspylibczi/ImagesContainer.h:50-69 | a container exists exactly for Gray8, Gray16, Gray32Float, Bgr24, Bgr48 and Bgr96Float, with n elements for gray and 3n for colour types |
| `Containers.IntendedContainerLayout` | _aicspylibczi/ImagesContainer.h:54-67 | agrees with the as-written allocation on every type except Gray32 |
| `Containers.GetTypedAsBase` | _aicspylibczi/ImagesContainer.h:50-69 | returns null exactly for the types without a layout (Gray32 included), otherwise a fresh empty container of that pixel type with the layout's element type and a fresh buffer of the layout's capacity |
| `Containers.Gray32HasNoContainer` | _aicspylibczi/ImagesContainer.h:54-67 | Gray32 gets no container, and no pixel type gets a uint32 buffer |
| `Containers.ImagesContainer.constructor` | _aicspylibczi/ImagesContainer.h:40-41 | a new container owns a fresh buffer of exactly the requested capacity and holds no images |
| `Containers.ImagesContainer.GetPointerAtIndex` | _aicspylibczi/ImagesContainer.h:43-46 | addresses element `position` (by default 0, the base) of the container's own buffer. The pointer may be formed up to the capacity, and its element may be accessed only below it |
| `Containers.ImagesContainer.GetBaseAsTyped` | _aicspylibczi/ImagesContainer.h:24-28 | the cast yields the same container and is only allowed when the requested element type is the one chosen at creation |
| `Containers.ImagesContainer.AddImage` | _aicspylibczi/ImageFactory.cpp:139 | appends exactly the given image handle to the container's images |
| `Shapes.ElementCountPermutation` | _aicspylibczi/pb_helpers.cpp:27-29 | reordering a shape's entries does not change its element count |
| `Shapes.ScaleExtent` | _aicspylibczi/pb_helpers.cpp:24 | multiplying one extent by f multiplies the element count by f |
| `PbHelpers.FindDimension` | _aicspylibczi/pb_helpers.cpp:21-23 | returns the index of the first entry with the given dimension character, or the length when there is none |
| `PbHelpers.SortByPriority` | _aicspylibczi/pb_helpers.cpp:27-29 | sorts the array in place into a permutation of its contents ordered by descending priority |
| `PbHelpers.GetAndFixShape` | _aicspylibczi/pb_helpers.cpp:14-33 | gray types: shape unchanged. Colour types with a 'C' entry: that extent is tripled and nothing else changes. Colour types without one: the result is a permutation of the input plus one ('C', 3), sorted by descending priority. In every case the element count is multiplied by 3 for colour and by 1 for gray types |
| `PbHelpers.ShapeFixedCount` | _aicspylibczi/pb_helpers.cpp:18-31 | any fixed shape has 3× (colour) or 1× (gray) the input's element count, and one more entry exactly when a ('C', 3) was inserted |
| `PbHelpers.InsertedChannelCount` | _aicspylibczi/pb_helpers.cpp:25-29 | inserting ('C', 3) and re-sorting grows the length by one and triples the element count |
| `PbHelpers.NoTilesColourShape` | _aicspylibczi/pb_helpers.cpp:25-26 | for a colour type, the empty shape becomes exactly `[('C', 3)]` |
| `PbHelpers.ContainerPtr.constructor` | _aicspylibczi/pb_helpers.cpp:35 | the owning pointer holds the container it is given (or nothing) |
| `PbHelpers.PackArray` | _aicspylibczi/pb_helpers.cpp:35-61 | leaves the caller's pointer empty and returns the released container's buffer, with the fixed shape. The element type is the factory table's entry for the container's pixel type: uint8 for Gray8/Bgr24, uint16 for Gray16/Bgr48, uint32 for Gray32, float for Gray32Float/Bgr96Float. Any other pixel type is excluded, because the switch has no default |
| `PbHelpers.PackedElementMatchesContainer` | _aicspylibczi/pb_helpers.cpp:43-58 | for every pixel type that gets a container once the missing Gray32 case is added, `packArray` picks the element type the buffer was allocated with |

## Left out

- `setup.py` (build plumbing) and `main.cpp` (a profiling program doing file I/O, console output and timing) are not part of this model.
- `packStringArray` and the `py::array` built by `memoryToNpArray`: creating Python objects and reference counting are foreign calls. `PackArray` returns the buffer, shape and element type the array would be built from.
- The libCZI bitmap lock and the reinterpretation of the bitmap's bytes as `T`: `loadImage` receives the bitmap's samples already read as `T` (the `pixels` parameter), in the order `loadImage` stores them; that order is defined in `TypedImage.h`, which is not part of this model, so the model does not relate a sample's position in `pixels` to its `calculateIdx` coordinates.
- `ImagesContainer.h` (_aicspylibczi/ImagesContainer.h:17-48) declares none of `addImage`, `images()` or `pixelType()`, and `ImageVector::sort` and `getShape` are not modelled; `addImage` is modelled as an append to the container's images. `getAndFixShape` receives the sorted images' shape as `charSizes`, and the container stores the pixel type it was created for. The unused `m_shape` member is omitted.
- `libCZI::Utils::CharToDimension` is foreign: it is the `priority` parameter.
- `Image.h` and `TypedImage.h` are not part of this model. An image holds the fields its constructor receives, plus either a buffer it owns or a pointer into a container.
- `std::bad_alloc`: whether the image allocation in `constructImage` succeeds is the `allocates` parameter. In C++ a failing `new` throws `bad_alloc` itself and the `nullptr` test never fires, so both paths end in `BadAlloc`.
- Integer width: `size_t` arithmetic is unbounded here, and 64-bit wrap-around is not modelled. Where the model and the source agree:
  - `calculateIdx`: for a valid index vector they agree whenever the element count fits in 64 bits, since no intermediate value exceeds it (`NoIntermediateExceedsCount`);
  - `getAndFixShape`: `*= 3` agrees whenever the tripled extent fits.
- Images.Image.CalculateIdx: for an index vector outside the extents the source's weighted sum can wrap modulo 2^64 (shape [2,4] with indexes [0, 2^62] gives 0), while the model returns the unbounded sum.
- Containers.GetTypedAsBase: the container's allocation (`make_unique` and `new T[n]` at _aicspylibczi/ImagesContainer.h:55-65) is taken to succeed, and so is the buffer allocation in `Containers.ImagesContainer.constructor`; the `std::bad_alloc` these can throw is not modelled.
- Containers.ContainerLayout: the allocation `3*pixels_in_all_images_` wraps for pixel counts above (2^64-1)/3 and then allocates fewer elements than 3n; the model's capacity is always 3n.
- Ownership and lifetime: `shared_ptr`/`unique_ptr` reference counting is not modelled, and neither is the commented-out split-constructor table. The `unique_ptr<T>` holding a `new T[]` array is deleted with the wrong form of `delete`; this is not modelled either.
- `Images.Image.CalculateIdx`: a rank-0 shape with no indexes is excluded by the precondition. There `m_shape.rend() - 1` steps before the start of the shape, which is undefined behaviour.
- `PbHelpers.PackArray`: a null container pointer and a pixel type outside the switch are excluded by preconditions, since both are undefined behaviour in the source.
- Floating-point pixel values: element types are tags only.

## Findings

| source | as written | input that shows it | evidently intended | confidence | as-written member | corrected member |
|---|---|---|---|---|---|---|
| _aicspylibczi/ImagesContainer.h:54-67 | the allocation switch has no Gray32 case, so the container pointer stays null | pixel type Gray32 with any pixel count gives a null container. Yet `constructImage` accepts Gray32 and casts the container to uint32 (_aicspylibczi/ImageFactory.cpp:33-40), and `packArray` packs Gray32 as uint32 (_aicspylibczi/pb_helpers.cpp:52-53) | a Gray32 case allocating `pixels_in_all_images_` uint32 elements | medium, not executed | `ContainerFactory.Gray32FactoryWithoutContainer` | `ContainerFactory.IntendedContainerCoversFactory` |
