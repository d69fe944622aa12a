# ome-files-cpp core, modelled in Dafny

This project models the core of ome-files, the C++ library that reads and writes OME-TIFF: TIFF files whose first directory carries OME-XML metadata describing series, resolutions, channels and planes that may span several files. It covers three parts of that library.

- **The variant pixel buffer.** One typed multi-dimensional buffer for each of the eleven pixel types, with its shape, strides, storage order and endianness. It supports logical-order assignment and the extraction and merging of single samples (`VariantPixelBuffers`, with `StorageOrders` and `MixedRadix` beneath it).
- **Dimension-order arithmetic.** The mapping between a flat plane index and (Z, C, T) coordinates under each dimension order (`DimensionIndex`), and the sizes and sub-resolution ordering of core metadata lists (`MetadataLists`).
- **The TIFF layer and the writers and readers built on it.**
  - The TIFF layer is the tag cache and tile flush rule of a directory (`TiffIfd`), typed field access (`TiffFields`) and 1-bit sample packing (`BitPacking`).
  - The writers are the generic writer session of `FormatWriter` (`FormatWriters`), the minimal TIFF writer (`MinimalTiffWriters`, `IfdSetups`, `IfdRanges`), and the OME-TIFF writer with its plane bookkeeping, OME-XML fill-in and in-place comment patching (`OmeTiffWriters`, `TiffComments`).
  - The readers are the minimal TIFF reader (`MinimalTiffReaders`) and the OME-TIFF reader (`OmeTiffReaders`, `OmeTiffMetadata`, `PathOrder`). The OME-TIFF reader resolves UUIDs to files, builds and verifies the per-series plane table from TiffData elements, discovers sub-resolutions and repairs inconsistent metadata.

State the C++ objects update in place becomes Dafny classes with `modifies` frames: writers, readers, directories, fields, pixel buffers and the core metadata list. Pure computations become functions, and loops in the source become methods with loop invariants. Every method is proved against a specification function of its inputs and old state, and the lemmas beside those functions state what the library promises. When getting something from a file fails, the model returns a `Result` value where the source throws an exception.

The model follows the code as written, also where the code and its own documentation disagree or the code is evidently wrong.
- Every class, method and specification function the operations are built from computes what the source computes.
- Where the source is evidently wrong, the corrected behaviour is modelled beside it as a separate member, and its intended property is proved. The table under "## Findings" names each pair. The mainline operations do not call the corrected members.
- For example, `OMETIFFReader::validTIFF` is documented to answer false for a file that is not a TIFF, but it throws instead, so `findTiffData` fails for such a file (finding 12). `OMETIFFWriter::getTileSizeY` reports the tile width (finding 10).

Files, directories, the TIFF codec and the XML parser are given as values.
- A `FileSystem` records which paths exist, which are TIFF files and what their directories hold.
- UUIDs, the output file's BigTIFF choice and the metadata parser are parameters.

## Model

| member | source | states |
|---|---|---|
| Decimals.DecimalRoundTrip | lib/ome/files/tiff/Field.cpp:253-257 | the decimal text an output stream gives a tag number is canonical (digits only, no leading zero) and reads back as that number |
| Decimals.DecimalString | lib/ome/files/tiff/Field.cpp:253-257 | the text an output stream gives a tag number is all decimal digits, with no leading zero unless the number is 0 |
| Decimals.ParseDecimal | lib/ome/files/tiff/Field.cpp:253-257 | the reading of decimal text that DecimalRoundTrip inverts: a leading zero adds nothing to the value |
| MixedRadix.EncodeBound | lib/ome/files/detail/FormatWriter.cpp:504-528 | coordinates below their sizes give an index below the product of the sizes |
| MixedRadix.DecodeEncode | lib/ome/files/detail/FormatWriter.cpp:504-528 | decoding an encoded coordinate list gives the coordinates back |
| MixedRadix.EncodeDecode | lib/ome/files/detail/FormatWriter.cpp:504-528 | every index below the product decodes to in-range coordinates that encode back to it |
| MixedRadix.EncodeStep | lib/ome/files/VariantPixelBuffer.cpp:131-141 | raising one digit by one raises the number by the product of the radices below it, the stride of that digit |
| DimensionIndex.GetIndex | lib/ome/files/detail/FormatWriter.cpp:504-516 | getIndex succeeds exactly when every coordinate is below its size, and the index is then below the plane count; otherwise out_of_range |
| DimensionIndex.GetZCTCoords | lib/ome/files/detail/FormatWriter.cpp:518-528 | getZCTCoords succeeds exactly when the index is below the plane count, and the coordinates are then in range; otherwise out_of_range |
| DimensionIndex.CoordsOfIndex | lib/ome/files/detail/FormatWriter.cpp:504-528 | getZCTCoords(getIndex(z, c, t)) gives back (z, c, t) |
| DimensionIndex.IndexOfCoords | lib/ome/files/detail/FormatWriter.cpp:504-528 | getIndex(getZCTCoords(i)) gives back i |
| DimensionIndex.XyztcExamples | test/ome-files/formatreader.cpp:526-590 | the test reader's XYZTC cases (Z = 20, 2 effective channels, T = 5): several listed index and coordinate pairs, and the out_of_range cases |
| PixelTypes.EncodeDecodePixelType | lib/ome/files/tiff/IFD.cpp:1146-1187 | setPixelType's SampleFormat with the type's natural depth decodes, through getPixelType, to the same type |
| PixelTypes.DecodedIsEncoding | lib/ome/files/tiff/IFD.cpp:1046-1144 | every (SampleFormat, depth) pair getPixelType accepts is the encoding of the type it returns, a missing SampleFormat standing for unsigned |
| PixelTypes.DecodeRejects | lib/ome/files/tiff/IFD.cpp:1046-1144 | the untyped and complex-integer formats never decode, a 1-bit signed depth is rejected, and a missing SampleFormat decodes as unsigned |
| PixelTypes.DecodePixelType | lib/ome/files/tiff/IFD.cpp:1046-1144 | getPixelType: an accepted pair gives a type of the directory's sample format (unsigned when absent) whose natural depth is the bit count; the untyped and complex-integer formats fail with the unsupported-format error |
| StorageOrders.MakeStorageOrder | lib/ome/files/PixelBuffer.cpp:56-77 | make_storage_order gives a valid all-ascending order with samples first when interleaved and last otherwise, X, Y, Z in order |
| StorageOrders.MakeStorageOrderFor | lib/ome/files/PixelBuffer.cpp:80-85 | the overload taking a dimension order ignores it: a valid all-ascending order whose fastest dimension is the sample exactly when interleaved |
| StorageOrders.DefaultStorageOrder | lib/ome/files/PixelBuffer.cpp:91-95 | default_storage_order is [SAMPLE, X, Y, Z], all ascending |
| StorageOrders.StorageOrderFacts | test/ome-files/pixelbuffer-order.cpp:89-129 | make_storage_order(true) is [SAMPLE, X, Y, Z], make_storage_order(false) is [X, Y, Z, SAMPLE], the dimension-order overload ignores the order, and the default is the interleaved order, not the planar one |
| StorageOrders.Offset | lib/ome/files/PixelBuffer.cpp:56-77 | an in-bounds coordinate has a memory offset below the buffer size |
| StorageOrders.CoordOfOffset | lib/ome/files/PixelBuffer.cpp:56-77 | the coordinate stored at a coordinate's offset is that coordinate |
| StorageOrders.OffsetOfCoord | lib/ome/files/PixelBuffer.cpp:56-77 | every offset below the size is the offset of exactly the coordinate stored there |
| StorageOrders.PlanarSize | lib/ome/files/PixelBuffer.cpp:70-76 | a planar buffer holds X * Y * Z * S elements |
| StorageOrders.PlanarOffset | lib/ome/files/PixelBuffer.cpp:70-76 | in planar order the element (x, y, z, s) is at x + X * (y + Y * (z + Z * s)) |
| BitPacking.OrBitAt | lib/ome/files/tiff/IFD.cpp:517-525 | one packing step sets its own bit when the sample is set and changes no other bit |
| BitPacking.Pack | lib/ome/files/tiff/IFD.cpp:507-527 | packing keeps the buffer's length; which bits it sets, and that it touches no other, are PackSets and PackFrame |
| BitPacking.Unpack | lib/ome/files/tiff/IFD.cpp:207-235 | unpacking n bits gives n samples, which UnpackPack shows are the ones packed |
| BitPacking.PackFrame | lib/ome/files/tiff/IFD.cpp:507-527 | packing a row leaves every bit outside the row's stretch as it was |
| BitPacking.PackSets | lib/ome/files/tiff/IFD.cpp:507-527 | after packing, a bit of the stretch is set exactly when it was set before or its sample is set (bits are never cleared) |
| BitPacking.UnpackPack | lib/ome/files/tiff/IFD.cpp:207-235 | unpacking the bits packed into a zeroed stretch gives back the samples |
| BitPacking.OrSample | lib/ome/files/tiff/IFD.cpp:517-525 | the in-place OR of one shifted sample into its byte is the packing step |
| BitPacking.PackRow | lib/ome/files/tiff/IFD.cpp:486-528 | WriteVisitor::transfer for BIT, one row, in place: the tile buffer afterwards is the packing of the row's samples into the old buffer |
| BitPacking.UnpackRow | lib/ome/files/tiff/IFD.cpp:195-235 | ReadVisitor::transfer for BIT, one row: each sample is whether its masked bit is set |
| BitPacking.ExpectedReadBit | lib/ome/files/tiff/IFD.cpp:300-313 | the corrected BIT expected_read is the least byte count holding w * h * copysamples bits |
| BitPacking.ExpectedReadBitAsWritten | lib/ome/files/tiff/IFD.cpp:300-313 | the BIT count as written (width rounded up by one, times rows and samples, divided by 8) is the least byte count holding the bits whenever the width is a multiple of 8 |
| BitPacking.ExpectedRead | lib/ome/files/tiff/IFD.cpp:290-313 | expected_read is width x height x copysamples x element size for every type but BIT; for BIT it is the count as written, the least byte count holding the bits when the width is a multiple of 8 |
| BitPacking.ExpectedReadCoversUnpack | lib/ome/files/tiff/IFD.cpp:207-235 | with the corrected count, every bit a full-strip unpack reads lies within the bytes the read is required to deliver |
| BitPacking.ExpectedReadBitUndercounts | lib/ome/files/tiff/IFD.cpp:300-313 | as written, a 9-sample single-row strip is required to deliver only 1 byte, though its ninth sample lies in the second |
| BitPacking.CheckStripRead | lib/ome/files/tiff/IFD.cpp:351-358 | a strip read is accepted exactly when the byte count is not negative and not below expected_read, whose BIT rule is the one the source computes |
| BitPacking.ShortBitReadAccepted | lib/ome/files/tiff/IFD.cpp:300-358 | the strip check accepts a 1-byte read of a 9-sample single-row BIT strip, whose bits need 2 bytes |
| TiffFields.U32 | lib/ome/files/tiff/Field.cpp:481-502 | the 32-bit unsigned arithmetic of the count computations: results below 2^32, exact when nothing wraps |
| TiffFields.I32 | lib/ome/files/tiff/Field.cpp:482-486 | static_cast<int> of a 32-bit value: in the int range, unchanged below 2^31, negative from 2^31 on |
| TiffFields.CeilDivBounds | lib/ome/files/tiff/Field.cpp:482 | the rounded-up quotient is the least number of strips of b rows covering a rows |
| TiffFields.StripsPerImageAsWritten | lib/ome/files/tiff/Field.cpp:478-482 | as written, the strip count equals the rounded-up quotient whenever ImageLength + RowsPerStrip - 1 does not wrap at 2^32 |
| TiffFields.StripsPerImage | lib/ome/files/tiff/Field.cpp:478-482 | the intended strip count is the least number of RowsPerStrip-row strips covering the image |
| TiffFields.StripsPerImageWraps | lib/ome/files/tiff/Field.cpp:482 | with RowsPerStrip 2^32 - 1 a 2-row image is given 0 strips as written, 1 as intended |
| TiffFields.TilesPerImage | lib/ome/files/tiff/Field.cpp:499-501 | tiles across times tiles down in 32-bit arithmetic: below 2^32, and the exact product of the rounded-up quotients when nothing wraps |
| TiffFields.PlaneCount | lib/ome/files/tiff/Field.cpp:483-486 | a contiguous image keeps the per-image count, a separate one multiplies it by SamplesPerPixel, any other planar configuration keeps the field's read count |
| TiffFields.ArrayReadCount | lib/ome/files/tiff/Field.cpp:460-507 | the ImageJ tags always read with a 32-bit variable count, other tags keep their read count, and the strip and tile arrays succeed exactly when the tags their count needs are set; strips are counted with the wrapping 32-bit sum |
| TiffFields.StripArrayCount | lib/ome/files/tiff/Field.cpp:471-487 | the strip arrays hold the as-written strip count per plane, times the planes, when that fits an int, and that count is ceil(ImageLength / RowsPerStrip) whenever the 32-bit sum does not wrap |
| TiffFields.TileArrayCount | lib/ome/files/tiff/Field.cpp:488-507 | the tile arrays hold ceil(ImageWidth / TileWidth) * ceil(ImageLength / TileLength) entries per plane when no 32-bit value wraps |
| TiffFields.ElementCount | lib/ome/files/tiff/Field.cpp:512-533 | libtiff hands back SamplesPerPixel elements for TIFF_SPP, the stored count for the variable counts, and the read count itself otherwise |
| TiffFields.ArrayGet1 | lib/ome/files/tiff/Field.cpp:460-537 | generic_array_get1 succeeds exactly when the count and the stored array exist; it returns a prefix of the stored array of that count, else the missing-tag error |
| TiffFields.ArraySet1 | lib/ome/files/tiff/Field.cpp:540-570 | generic_array_set1 accepts an SPP array exactly when its length is SamplesPerPixel, a 16-bit variable one up to 65535 entries, a 32-bit one up to 2^32 - 1, with the right errors, and stores the length as count only on the variable paths |
| TiffFields.ArraySetGet1 | lib/ome/files/tiff/Field.cpp:460-570 | setting an ordinary array field and reading it back with the same count gives the array (its first entries for a fixed count) |
| TiffFields.TransferChannels | lib/ome/files/tiff/Field.cpp:665-675 | a transfer function has three channels exactly when there is more than one colour sample beyond the extra samples, else one |
| TiffFields.ArraySet3AsWritten | lib/ome/files/tiff/Field.cpp:684-696 | as written, the variable three-array paths pass 3, the number of arrays, as the count |
| TiffFields.ArraySet3 | lib/ome/files/tiff/Field.cpp:649-702 | generic_array_set3 rejects unequal lengths; a colour map passes all three arrays, a transfer function three or one channel, an SPP field needs SamplesPerPixel 3, and the variable counts are bounded by 65535 and 2^32 - 1 |
| TiffFields.ArraySet3RoundTrip | lib/ome/files/tiff/Field.cpp:574-702 | with the corrected count, a variable three-array field reads back as it was set |
| TiffFields.ArraySet3AsWrittenTruncates | lib/ome/files/tiff/Field.cpp:684-696 | as written, three 4-entry arrays are stored with a count of 3 and read back truncated to 3 entries |
| TiffFields.Get3Count | lib/ome/files/tiff/Field.cpp:583-632 | a colour map or transfer function copies 2^BitsPerSample elements of each array and needs BitsPerSample (and SamplesPerPixel for a transfer function) |
| TiffFields.ArrayGet3 | lib/ome/files/tiff/Field.cpp:574-646 | generic_array_get3 gives three prefixes of the stored arrays, of the computed count, except that a single-channel transfer function gives its first channel and two empty ones |
| TiffFields.Convert | lib/ome/files/tiff/Field.cpp:705-731 | element-wise conversion keeps the length and converts each element in place |
| TiffFields.ConvertRoundTrip | lib/ome/files/tiff/Field.cpp:705-731 | converting enumerated values to 16-bit codes and back restores them when the codes are faithful |
| TiffFields.GetEnum16Array | lib/ome/files/tiff/Field.cpp:705-716 | generic_enum16_array_get1 succeeds exactly when the 16-bit array read does, with each element converted in order |
| TiffFields.SetEnum16Array | lib/ome/files/tiff/Field.cpp:719-730 | generic_enum16_array_set1 is the 16-bit array set of the converted elements |
| TiffFields.FindFieldInfo | lib/ome/files/tiff/Field.cpp:159-213 | the description found always carries the requested tag; one is found exactly when libtiff's any-type lookup gives the right tag, and a replacement is one of the typed lookups |
| TiffFields.LargerInfo | lib/ome/files/tiff/Field.cpp:185-207 | a wider variant is looked for only for SHORT, LONG, SSHORT, SLONG and IFD fields, and is always one of the typed lookups |
| TiffFields.FieldName | lib/ome/files/tiff/Field.cpp:240-260 | name() is the libtiff name of a known field, else the tag number in canonical decimal |
| TiffFields.FieldType | lib/ome/files/tiff/Field.cpp:262-274 | type() is the field's data type, or TYPE_UNDEFINED for an unknown field |
| TiffFields.PassCount | lib/ome/files/tiff/Field.cpp:276-288 | passCount() is true exactly for a known field that passes its count |
| TiffFields.ReadCount | lib/ome/files/tiff/Field.cpp:290-302 | readCount() is the field's read count, or 1 for an unknown field |
| TiffFields.WriteCount | lib/ome/files/tiff/Field.cpp:304-316 | writeCount() is the field's write count, or 1 for an unknown field |
| TiffFields.Enum16Check | lib/ome/files/tiff/Field.cpp:423-456 | the single enumerated-value handlers reject a description exactly when its type, pass-count flag and count all disagree, so an unknown field is accepted |
| TiffFields.UnknownNamesDistinct | lib/ome/files/tiff/Field.cpp:253-257 | two unknown fields with different tags get different names |
| TiffFields.Field.GetFieldInfo | lib/ome/files/tiff/Field.cpp:159-213 | a cached description is returned unchanged; otherwise the lookup result is returned and cached, and a gone directory gives getIFD's bad_weak_ptr error without caching anything |
| TiffFields.Field.Name | lib/ome/files/tiff/Field.cpp:240-260 | name() of a handle is FieldName of its description, or bad_weak_ptr when its directory is gone |
| TiffFields.Field.ReadCountOf | lib/ome/files/tiff/Field.cpp:290-302 | readCount() of a handle is ReadCount of its description, or bad_weak_ptr when its directory is gone |
| TiffFields.Field.WriteCountOf | lib/ome/files/tiff/Field.cpp:304-316 | writeCount() of a handle is WriteCount of its description, or bad_weak_ptr when its directory is gone |
| TiffFields.GetIfd | lib/ome/files/tiff/Field.cpp:124-132 | the intended getIFD: the directory while it lives, else the "no longer valid" error |
| TiffFields.GetIfdAsWritten | lib/ome/files/tiff/Field.cpp:124-132 | as written, an expired directory raises bad_weak_ptr from the shared_ptr constructor |
| TiffFields.GetIfdAsWrittenDiffers | lib/ome/files/tiff/Field.cpp:126-129 | the error as written differs from the one the check after it was meant to raise |
| TiffIfd.TileTypeOfTags | lib/ome/files/tiff/IFD.cpp:889-908 | getTileType without a cached value: tiles exactly when both tile tags are set, otherwise strips exactly when RowsPerStrip is set, otherwise the missing-tag error |
| TiffIfd.TileRules | lib/ome/files/tiff/IFD.cpp:889-908 | a directory read as strips has RowsPerStrip and lacks a tile tag, and one with neither TileWidth nor RowsPerStrip has no tile type |
| TiffIfd.Intersect | lib/ome/files/tiff/IFD.cpp:404 | the overlap of two regions holds exactly the pixels both contain |
| TiffIfd.Points | lib/ome/files/tiff/IFD.cpp:565 | the pixel set a region adds to the coverage is exactly the pixels it contains |
| TiffIfd.CoveredMonotone | lib/ome/files/tiff/IFD.cpp:408 | a region stays covered when coverage grows |
| TiffIfd.CoveredByOwnPoints | lib/ome/files/tiff/IFD.cpp:408 | a region is covered once all its pixels are in the coverage |
| TiffIfd.ResizeCoverage | lib/ome/files/tiff/IFD.cpp:537-538 | std::vector::resize keeps a prefix of the coverage list and pads it with empty coverage |
| TiffIfd.OrderFor | lib/ome/files/tiff/IFD.cpp:1352 | the expected storage order is planar (samples slowest) for separate data and chunky (samples fastest) for contiguous data |
| TiffIfd.CheckWriteBuffer | lib/ome/files/tiff/IFD.cpp:1428-1486 | writeImage's checks succeed exactly when type, plane shape and storage order all match, and report the pixel type first, then one of the two shape messages (Z alone differing or not), then the order |
| TiffIfd.ReadBufferIsWritable | lib/ome/files/tiff/IFD.cpp:1335-1486 | a buffer that readImage would keep (no reallocation) always passes writeImage's checks |
| TiffIfd.LookupTableOffset | lib/ome/files/tiff/IFD.cpp:1385-1412 | in the planar lookup-table buffer [n, 1, 1, 3] entry i of channel s is at i + n * s, and the buffer holds 3 n entries |
| TiffIfd.ConcatChannels | lib/ome/files/tiff/IFD.cpp:1400-1410 | the three ColorMap channels laid one after another, channel t's entry i at i + n * t |
| TiffIfd.FlushedCoveredMonotone | lib/ome/files/tiff/IFD.cpp:404-409 | tiles flushed while covered stay covered as coverage grows |
| TiffIfd.TilesStep | lib/ome/files/tiff/IFD.cpp:540-570 | writing the next tile keeps WriteVisitor's loop state: earlier tiles stay covered, each is cached or flushed, and only covered tiles are flushed |
| TiffIfd.TileWriteState.Flush | lib/ome/files/tiff/IFD.cpp:393-430 | flush encodes a tile and drops it from the tile cache exactly when its part inside the image has non-zero area and is fully covered, and otherwise changes nothing |
| TiffIfd.TileWriteState.WriteTile | lib/ome/files/tiff/IFD.cpp:543-568 | one tile: its clipped region is added to its sample's coverage, then it is flushed if covered, otherwise kept in the cache |
| TiffIfd.TileWriteState.WriteTiles | lib/ome/files/tiff/IFD.cpp:532-570 | the coverage list is sized to 1 or SamplesPerPixel; afterwards every tile's clipped region is covered, every tile is cached or flushed this call, only covered tiles were flushed, earlier writes are kept, and nothing else enters the cache |
| TiffIfd.Ifd.GetTileType | lib/ome/files/tiff/IFD.cpp:889-908 | getTileType returns the cached or the tag-derived type and caches it |
| TiffIfd.Ifd.SetTileType | lib/ome/files/tiff/IFD.cpp:910-914 | setTileType sets the cached type only |
| TiffIfd.Ifd.GetImageWidth | lib/ome/files/tiff/IFD.cpp:940-950 | getImageWidth returns the ImageWidth tag (or the missing-tag error) and caches it |
| TiffIfd.Ifd.SetImageWidth | lib/ome/files/tiff/IFD.cpp:952-957 | setImageWidth sets the tag and the cache |
| TiffIfd.Ifd.GetImageHeight | lib/ome/files/tiff/IFD.cpp:959-969 | getImageHeight returns the ImageLength tag and caches it |
| TiffIfd.Ifd.SetImageHeight | lib/ome/files/tiff/IFD.cpp:971-976 | setImageHeight sets the tag and the cache |
| TiffIfd.Ifd.GetTileWidth | lib/ome/files/tiff/IFD.cpp:978-995 | getTileWidth is TileWidth for tiles and the image width for strips, cached once found |
| TiffIfd.Ifd.SetTileWidth | lib/ome/files/tiff/IFD.cpp:997-1009 | setTileWidth sets the tag and the cache for tiles and does nothing for strips |
| TiffIfd.Ifd.GetTileHeight | lib/ome/files/tiff/IFD.cpp:1011-1030 | getTileHeight is TileLength for tiles and RowsPerStrip for strips, cached once found |
| TiffIfd.Ifd.SetTileHeight | lib/ome/files/tiff/IFD.cpp:1032-1044 | setTileHeight writes TileLength for tiles and RowsPerStrip for strips, and caches the height |
| TiffIfd.Ifd.GetBitsPerSample | lib/ome/files/tiff/IFD.cpp:1189-1199 | getBitsPerSample returns the tag and caches it |
| TiffIfd.Ifd.GetPixelType | lib/ome/files/tiff/IFD.cpp:1046-1144 | getPixelType is the cached type, or the decoding of SampleFormat and BitsPerSample |
| TiffIfd.Ifd.SetPixelType | lib/ome/files/tiff/IFD.cpp:1146-1187 | setPixelType writes the type's SampleFormat family and caches the type, so getPixelType then returns it |
| TiffIfd.Ifd.SetBitsPerSample | lib/ome/files/tiff/IFD.cpp:1201-1210 | setBitsPerSample clamps the depth to the pixel type's significant bits, stores it in the tag and the cache, and fails when the pixel type is unknown |
| TiffIfd.Ifd.GetSamplesPerPixel | lib/ome/files/tiff/IFD.cpp:1212-1222 | getSamplesPerPixel returns the tag and caches it |
| TiffIfd.Ifd.SetSamplesPerPixel | lib/ome/files/tiff/IFD.cpp:1224-1229 | setSamplesPerPixel sets the tag and the cache |
| TiffIfd.Ifd.GetPlanarConfiguration | lib/ome/files/tiff/IFD.cpp:1231-1241 | getPlanarConfiguration returns the tag and caches it |
| TiffIfd.Ifd.SetPlanarConfiguration | lib/ome/files/tiff/IFD.cpp:1243-1248 | setPlanarConfiguration sets the tag and the cache |
| TiffIfd.Ifd.GetPhotometricInterpretation | lib/ome/files/tiff/IFD.cpp:1250-1260 | getPhotometricInterpretation returns the tag and caches it |
| TiffIfd.Ifd.SetPhotometricInterpretation | lib/ome/files/tiff/IFD.cpp:1262-1267 | setPhotometricInterpretation sets the tag and the cache |
| TiffIfd.Ifd.GetCompression | lib/ome/files/tiff/IFD.cpp:1269-1279 | getCompression returns the tag and caches it |
| TiffIfd.Ifd.SetCompression | lib/ome/files/tiff/IFD.cpp:1281-1286 | setCompression sets the tag and the cache |
| TiffIfd.Ifd.GetSubIfdOffsets | lib/ome/files/tiff/IFD.cpp:1294-1304 | getSubIFDOffsets returns the SubIFD offsets and caches them |
| TiffIfd.Ifd.SetSubIfdOffsets | lib/ome/files/tiff/IFD.cpp:1314-1319 | setSubIFDOffsets sets the tag and the cache |
| TiffIfd.Ifd.SetSubIfdCount | lib/ome/files/tiff/IFD.cpp:1306-1311 | setSubIFDCount reserves that many zero offsets |
| TiffIfd.Ifd.GetSubIfdCount | lib/ome/files/tiff/IFD.cpp:1288-1292 | getSubIFDCount is the number of SubIFD offsets |
| TiffIfd.Ifd.PlaneFormat | lib/ome/files/tiff/IFD.cpp:1341-1343 | the pixel type, planar configuration and samples every read and write fetches first, and whether they exist |
| TiffIfd.Ifd.ReadImage | lib/ome/files/tiff/IFD.cpp:1334-1366 | readImage keeps the destination buffer exactly when type, plane shape and storage order already match, replaces it by a fresh one of the directory's format otherwise, and fails when a needed tag is missing |
| TiffIfd.Ifd.ReadImageSample | lib/ome/files/tiff/IFD.cpp:1368-1382 | readImage of one sample yields a w x h x 1 x 1 planar buffer of the directory's pixel type |
| TiffIfd.Ifd.ReadLookupTable | lib/ome/files/tiff/IFD.cpp:1384-1412 | readLookupTable gives an n x 1 x 1 x 3 UINT16 planar buffer whose sample s holds ColorMap channel s, and fails when there is no ColorMap |
| TiffIfd.Ifd.WriteImage | lib/ome/files/tiff/IFD.cpp:1427-1494 | writeImage succeeds exactly when CheckWriteBuffer accepts the source; then every tile of the region is cached or flushed, and on failure no tile is touched |
| TiffIfd.Ifd.WriteImageSample | lib/ome/files/tiff/IFD.cpp:1496-1505 | writing a single sample always fails |
| VariantPixelBuffers.RelayoutAt | lib/ome/files/VariantPixelBuffer.cpp:227-255 | a buffer relaid out in another storage order holds the same value at every logical coordinate |
| VariantPixelBuffers.SampleSliceAt | lib/ome/files/VariantPixelBuffer.h:823-849 | the one-sample slice holds, at each coordinate, the source's value at that coordinate with sample coordinate sample |
| VariantPixelBuffers.MergeSliceAt | lib/ome/files/VariantPixelBuffer.h:876-888 | after merging, the chosen sample plane holds the single-sample buffer's values and every other coordinate keeps its value |
| VariantPixelBuffers.VariantPixelBuffer.SetBuffer | lib/ome/files/VariantPixelBuffer.h:347-372 | setBuffer replaces the buffer by a fresh zero-filled one of exactly the requested type, extents and storage order |
| VariantPixelBuffers.VariantPixelBuffer.GetPixelType | lib/ome/files/VariantPixelBuffer.cpp:289-299 | pixelType() is the active alternative's type, and a null buffer is an error |
| VariantPixelBuffers.VariantPixelBuffer.GetShape | lib/ome/files/VariantPixelBuffer.cpp:119-129 | shape() is the buffer's extents, and a null buffer is an error |
| VariantPixelBuffers.VariantPixelBuffer.NumElements | lib/ome/files/VariantPixelBuffer.cpp:95-105 | num_elements() is the number of stored elements, the product of the extents, and a null buffer is an error |
| VariantPixelBuffers.VariantPixelBuffer.NumDimensions | lib/ome/files/VariantPixelBuffer.cpp:107-117 | num_dimensions() is 4 for a held buffer, and a null buffer is an error |
| VariantPixelBuffers.VariantPixelBuffer.GetStrides | lib/ome/files/VariantPixelBuffer.cpp:131-141 | strides() has one stride per dimension; one step along dimension d inside the extents moves the memory offset by stride d, and the fastest dimension's stride is 1, or -1 when descending; a null buffer is an error |
| VariantPixelBuffers.VariantPixelBuffer.GetIndexBases | lib/ome/files/VariantPixelBuffer.cpp:143-153 | index_bases() are all zero, and a null buffer is an error |
| VariantPixelBuffers.VariantPixelBuffer.GetStorageOrder | lib/ome/files/VariantPixelBuffer.cpp:155-165 | storage_order() is the buffer's order, and a null buffer is an error |
| VariantPixelBuffers.VariantPixelBuffer.GetEndianType | lib/ome/files/VariantPixelBuffer.cpp:301-311 | endianType() is the buffer's endianness, and a null buffer is an error |
| VariantPixelBuffers.VariantPixelBuffer.IsValid | lib/ome/files/VariantPixelBuffer.cpp:71-81 | valid() fails with "Null pixel type" exactly on a null buffer and is otherwise true |
| VariantPixelBuffers.VariantPixelBuffer.IsManaged | lib/ome/files/VariantPixelBuffer.cpp:83-93 | managed() is whether the buffer owns its storage, and a null buffer is an error |
| VariantPixelBuffers.VariantPixelBuffer.Array | lib/ome/files/VariantPixelBuffer.h:625-688 | array<T>() succeeds exactly when T is the active alternative and the buffer is held, checking the type first ("Unsupported pixel type conversion for buffer") and then the pointer ("Null pixel type") |
| VariantPixelBuffers.VariantPixelBuffer.Data | lib/ome/files/VariantPixelBuffer.h:908-922 | data<T>() is the elements in memory order when T is the active alternative and the buffer is held |
| VariantPixelBuffers.VariantPixelBuffer.Origin | lib/ome/files/VariantPixelBuffer.h:924-930 | origin<T>() is the memory offset of index (0, 0, 0, 0) |
| VariantPixelBuffers.VariantPixelBuffer.Assign | lib/ome/files/VariantPixelBuffer.h:690-734 | assign() fills the buffer in memory order when the range's element type is the active one, and otherwise fails with the documented messages and leaves the contents |
| VariantPixelBuffers.VariantPixelBuffer.Read | lib/ome/files/VariantPixelBuffer.h:736-765 | read() takes the buffer's element count of values from the stream in memory order, and a null buffer is an error |
| VariantPixelBuffers.VariantPixelBuffer.Write | lib/ome/files/VariantPixelBuffer.h:767-796 | write() emits every element, each coordinate's value at its memory offset, and a null buffer is an error |
| VariantPixelBuffers.VariantPixelBuffer.AssignFrom | lib/ome/files/VariantPixelBuffer.cpp:227-255 | operator= succeeds exactly when type and shape agree; then the buffer is logically equal to the source while keeping its own storage order; otherwise the documented error and no change |
| VariantPixelBuffers.VariantPixelBuffer.CopySampleTo | lib/ome/files/VariantPixelBuffer.h:799-849 | CopySampleVisitor makes dest a fresh planar buffer of the source's type and shape with one sample, holding the chosen sample |
| VariantPixelBuffers.VariantPixelBuffer.MergeSampleInto | lib/ome/files/VariantPixelBuffer.h:852-888 | MergeSampleVisitor overwrites one sample plane of dest with the single-sample source and keeps every other value; a dest of another type is an error and unchanged |
| VariantPixelBuffers.RelayoutIdentity | lib/ome/files/VariantPixelBuffer.cpp:227-255 | relaying out into a buffer's own order changes nothing |
| VariantPixelBuffers.RelayoutEqualIff | lib/ome/files/VariantPixelBuffer.cpp:210-255 | comparing after relayout is exactly logical equality, whatever the two orders |
| VariantPixelBuffers.EqualsFacts | lib/ome/files/VariantPixelBuffer.cpp:210-225 | operator== is false for different types or a null side, reflexive on held buffers, symmetric, and otherwise compares logical contents |
| VariantPixelBuffers.RelayoutIsEqual | lib/ome/files/VariantPixelBuffer.cpp:210-225 | logical equality ignores the storage order: a planar copy equals its chunky original |
| VariantPixelBuffers.Strides | lib/ome/files/VariantPixelBuffer.cpp:131-141 | four strides, the fastest-stored dimension's being 1, or -1 when stored descending |
| VariantPixelBuffers.StrideStep | lib/ome/files/VariantPixelBuffer.cpp:131-141 | one step along a dimension stays inside the extents and moves the memory offset by exactly that dimension's stride |
| VariantPixelBuffers.VariantPixelBuffer.Equals | lib/ome/files/VariantPixelBuffer.cpp:418-422 | operator== holds exactly when both buffers are held, of the same type, with equal logical contents whatever their storage orders |
| VariantPixelBuffers.VariantPixelBuffer.NotEquals | lib/ome/files/VariantPixelBuffer.cpp:424-428 | operator!= holds exactly when operator== does not |
| MetadataLists.Sizes | lib/ome/files/MetadataList.h:65-73 | sizes() has one entry per series, the number of entries of that series |
| MetadataLists.SizesAppend | lib/ome/files/MetadataList.h:65-73 | the sizes of two lists joined are the two size lists joined |
| MetadataLists.SizesExamples | test/ome-files/metadatalist.cpp:138-149 | the test's lists give the test's sizes, values of the entries not mattering |
| MetadataLists.InsertPermutes | lib/ome/files/CoreMetadataList.h:68-81 | one insertion step adds exactly the inserted entry |
| MetadataLists.SortResolutions | lib/ome/files/CoreMetadataList.h:68-81 | the sort keeps the series' length and leaves no null entry; SortPermutes and SortLargestFirst give the permutation and the order |
| MetadataLists.SortPermutes | lib/ome/files/CoreMetadataList.h:70-80 | sorting a series permutes it |
| MetadataLists.InsertLargestFirst | lib/ome/files/CoreMetadataList.h:70-80 | an entry comparable with every entry of a largest-first series is inserted keeping it largest first |
| MetadataLists.PrependLargest | lib/ome/files/CoreMetadataList.h:77-79 | an entry larger in every compared size than all of a largest-first series may go before it |
| MetadataLists.SortLargestFirst | lib/ome/files/CoreMetadataList.h:57-64 | a series whose entries are nested in size comes out largest first, as orderResolutions is documented to do |
| MetadataLists.OrderSeries | lib/ome/files/CoreMetadataList.h:68-81 | sorting one series fails with "CoreMetadata can not be null" exactly when it has two or more entries and one is null; otherwise it permutes the series, and fewer than two entries stay as they are |
| MetadataLists.OrderSeriesLargestFirst | lib/ome/files/CoreMetadataList.h:57-81 | a nested series without nulls is ordered largest first without error |
| MetadataLists.OrderList | lib/ome/files/CoreMetadataList.h:65-82 | orderResolutions succeeds exactly when every series sorts, and then each series is sorted on its own |
| MetadataLists.OrderListShape | lib/ome/files/CoreMetadataList.h:65-82 | ordering keeps the number of series and each series' length, and permutes each series |
| MetadataLists.OrderExample | test/ome-files/coremetadatalist.cpp:260-269 | the reordering test's sizes 4096, 8192, 0, 2048, 1024 come out as entries 1, 0, 3, 4, 2 |
| MetadataLists.NullExamples | test/ome-files/coremetadatalist.cpp:229-238 | a lone null entry is accepted, a null among several entries is rejected, and a list of single-entry series is accepted |
| MetadataLists.CoreMetadataList.OrderResolutions | lib/ome/files/CoreMetadataList.h:65-82 | in place: succeeds exactly when OrderList does, leaving the sorted list, and always keeps the number of series; on failure some series k is one OrderSeries rejects, with its error, the series before it are sorted and it and those after it are as they were |
| MetadataLists.Append | lib/ome/files/CoreMetadataList.h:90-106 | append adds a copy of every series of src, null entries kept null, after dest's own series |
| MetadataLists.Copy | lib/ome/files/CoreMetadataList.h:114-120 | copy is a new list holding the same series |
| FormatWriters.SizeOr1 | lib/ome/files/detail/FormatWriter.cpp:411-436 | a size the metadata leaves at 0 is reported as 1, any other size as itself |
| FormatWriters.AllResolutions | lib/ome/files/detail/FormatWriter.cpp:80-96 | getAllResolutions gives each image its full size followed by the sub-resolutions its annotations describe |
| FormatWriters.StripResolutions | lib/ome/files/detail/FormatWriter.cpp:380-383 | removeResolutions leaves every image but drops its resolution annotations |
| FormatWriters.StripKeepsFullResolutions | lib/ome/files/detail/FormatWriter.cpp:370-384 | after stripping, each image's only level is the full resolution read before it |
| FormatWriters.PlaneCountOf | lib/ome/files/detail/FormatWriter.cpp:398-402 | the plane count of an image is 0 exactly when it has no channel, and at least its channel count |
| FormatWriters.PlaneCounts | lib/ome/files/detail/FormatWriter.cpp:398-402 | the plane count of every image, in order |
| FormatWriters.ImageAt | lib/ome/files/detail/FormatWriter.cpp:438-456 | the metadata's image lookup succeeds exactly below its image count |
| FormatWriters.SamplesOf | lib/ome/files/detail/FormatWriter.cpp:478-496 | a channel's samples per pixel, or 1 when the metadata has none |
| FormatWriters.PixelTypesFor | lib/ome/files/detail/FormatWriter.cpp:286-301 | getPixelTypes(codec) lists exactly the pixel types one of whose codecs is codec |
| FormatWriters.CompressionTypesFor | lib/ome/files/detail/FormatWriter.cpp:560-570 | getCompressionTypes(type) is the type's codecs, or the empty set for an unlisted type |
| FormatWriters.SupportedIffListed | lib/ome/files/detail/FormatWriter.cpp:286-316 | isSupportedType(type, codec) holds exactly when getPixelTypes(codec) lists type, and exactly when codec is among getCompressionTypes(type) |
| FormatWriters.NoSkips | lib/ome/files/detail/FormatWriter.cpp:203-259 | starting at 0, the allowed steps of setSeries and setPlane never skip a value: every smaller value was visited earlier |
| FormatWriters.TileSizeXFallback | lib/ome/files/detail/FormatWriter.cpp:585-601 | getTileSizeX is the set width; unset, the current level's width once a file is open, the first image's width before that, and an error without metadata |
| FormatWriters.TileSizeYFallback | lib/ome/files/detail/FormatWriter.cpp:611-627 | the intended getTileSizeY: the set height, or the same fallbacks taken from the height |
| FormatWriters.TileSizeYFallbackAsWritten | lib/ome/files/detail/FormatWriter.cpp:611-627 | as written, getTileSizeY's fallbacks are exactly getTileSizeX's, the width |
| FormatWriters.TileSizeYFallbackUsesWidth | lib/ome/files/detail/FormatWriter.cpp:620-625 | a 512 x 256 image with no tile size gets 512-row tiles as written, 256 as intended, before and after opening |
| FormatWriters.FormatWriter.SetId | lib/ome/files/detail/FormatWriter.cpp:130-150 | setId makes the given path the current file and changes nothing else |
| FormatWriters.FormatWriter.Close | lib/ome/files/detail/FormatWriter.cpp:152-165 | close resets the file, cursors, compression, sequential flag and frame rate, releases metadata and levels, and keeps interleaving and tile sizes |
| FormatWriters.FormatWriter.SetMetadataRetrieve | lib/ome/files/detail/FormatWriter.cpp:369-384 | setMetadataRetrieve fails with a file open or a null argument and then changes nothing; otherwise the levels are read before a store's annotations are stripped |
| FormatWriters.FormatWriter.Series | lib/ome/files/detail/FormatWriter.cpp:228-233 | getSeries needs an open file |
| FormatWriters.FormatWriter.SeriesCount | lib/ome/files/detail/FormatWriter.cpp:176-180 | getSeriesCount is the metadata's image count |
| FormatWriters.FormatWriter.CurrentLevel | lib/ome/files/detail/FormatWriter.cpp:410-434 | the level the cursors select, when a file is open and it exists |
| FormatWriters.FormatWriter.CurrentImage | lib/ome/files/detail/FormatWriter.cpp:437-496 | the current series' metadata, when a file is open and it exists |
| FormatWriters.FormatWriter.SizeX | lib/ome/files/detail/FormatWriter.cpp:410-416 | getSizeX is the level's width, 1 where it is 0 |
| FormatWriters.FormatWriter.SizeY | lib/ome/files/detail/FormatWriter.cpp:419-425 | getSizeY is the level's height, 1 where it is 0 |
| FormatWriters.FormatWriter.SizeZ | lib/ome/files/detail/FormatWriter.cpp:428-434 | getSizeZ is the level's depth, 1 where it is 0 |
| FormatWriters.FormatWriter.SizeT | lib/ome/files/detail/FormatWriter.cpp:437-445 | getSizeT is the series' timepoint count, 1 where it is 0 |
| FormatWriters.FormatWriter.SizeC | lib/ome/files/detail/FormatWriter.cpp:447-455 | getSizeC is the series' channel size, 1 where it is 0 |
| FormatWriters.FormatWriter.EffectiveSizeC | lib/ome/files/detail/FormatWriter.cpp:471-476 | getEffectiveSizeC is the channel count, 0 kept |
| FormatWriters.FormatWriter.RGBChannelCount | lib/ome/files/detail/FormatWriter.cpp:478-496 | getRGBChannelCount is the channel's samples per pixel, 1 when the metadata has none |
| FormatWriters.FormatWriter.IsRGB | lib/ome/files/detail/FormatWriter.cpp:404-408 | isRGB holds exactly when the channel has more than one sample per pixel |
| FormatWriters.FormatWriter.ImageCount | lib/ome/files/detail/FormatWriter.cpp:398-402 | getImageCount is Z times T times the effective channel count |
| FormatWriters.FormatWriter.DimensionOrder | lib/ome/files/detail/FormatWriter.cpp:497-502 | getDimensionOrder is the current series' order |
| FormatWriters.FormatWriter.PlaneSizes | lib/ome/files/detail/FormatWriter.cpp:504-528 | the Z, effective C and T sizes planes are numbered by, whose product is getImageCount |
| FormatWriters.FormatWriter.Index | lib/ome/files/detail/FormatWriter.cpp:504-516 | the writer's getIndex is DimensionIndex.GetIndex on its own sizes and order, always below the image count |
| FormatWriters.FormatWriter.ZCTCoords | lib/ome/files/detail/FormatWriter.cpp:518-528 | the writer's getZCTCoords succeeds exactly below the image count |
| FormatWriters.FormatWriter.IndexCoordsInverse | lib/ome/files/detail/FormatWriter.cpp:504-528 | the writer's getIndex and getZCTCoords undo each other |
| FormatWriters.FormatWriter.ResolutionCount | lib/ome/files/detail/FormatWriter.cpp:629-635 | getResolutionCount is the number of levels of the current series, and needs an open file |
| FormatWriters.FormatWriter.TileSizeX | lib/ome/files/detail/FormatWriter.cpp:585-601 | getTileSizeX follows TileSizeXFallback, and is getSizeX while a file is open and no width is set |
| FormatWriters.FormatWriter.TileSizeY | lib/ome/files/detail/FormatWriter.cpp:611-627 | getTileSizeY as written: a set height is returned; an unset one falls back exactly as getTileSizeX does, to getSizeX while a file is open |
| FormatWriters.FormatWriter.SetSeries | lib/ome/files/detail/FormatWriter.cpp:202-226 | setSeries succeeds exactly with an open file, an existing series and an allowed step (same, next or 0), in that order of errors; success resets resolution and plane, failure changes nothing |
| FormatWriters.FormatWriter.SetPlane | lib/ome/files/detail/FormatWriter.cpp:236-258 | setPlane succeeds exactly for a plane below the image count reached by an allowed step; only the plane changes, failure changes nothing |
| FormatWriters.FormatWriter.SetResolution | lib/ome/files/detail/FormatWriter.cpp:637-651 | setResolution succeeds exactly for a level the series has, in any order, and resets only the plane |
| FormatWriters.FormatWriter.SetCompression | lib/ome/files/detail/FormatWriter.cpp:317-329 | setCompression accepts exactly the writer's declared compression types and otherwise fails and changes nothing |
| FormatWriters.FormatWriter.SetTileSizeX | lib/ome/files/detail/FormatWriter.cpp:578-583 | setTileSizeX records the request and returns the resulting tile width |
| FormatWriters.FormatWriter.SetTileSizeY | lib/ome/files/detail/FormatWriter.cpp:603-608 | setTileSizeY records the request and returns what getTileSizeY then gives: the request itself when it is set |
| FormatWriters.FullResolutionSizes | lib/ome/files/detail/FormatWriter.cpp:80-96 | after setMetadataRetrieve and setId, a series at full resolution reports the metadata's own sizes and plane count |
| IfdSetups.ChunkingFor | lib/ome/files/out/MinimalTIFFWriter.cpp:268-325 | a zero width is the one error; a tile height alone gives full-width strips of that height, or one row when it is 0; a width and height give tiles, or one-row strips when either is 0 |
| IfdSetups.DefaultChunking | lib/ome/files/out/MinimalTIFFWriter.cpp:308-325 | with no tile height requested, an image narrower than 2048 gets full-width strips holding as many rows as fit in 64 KiB (at least 32), a wider one 256 x 256 tiles |
| IfdSetups.StripRows | lib/ome/files/out/MinimalTIFFWriter.cpp:312-317 | 65536 / width rows fit in 64 KiB and one more does not; below width 2048 that is at least 32, so the fallback to one row never applies |
| IfdSetups.PlanarFor | lib/ome/files/out/MinimalTIFFWriter.cpp:335-339 | the configuration is contiguous exactly when interleaving was requested as true |
| IfdSetups.PhotometricFor | lib/ome/files/out/MinimalTIFFWriter.cpp:341-347 | RGB exactly for three samples per pixel, min-is-black otherwise |
| IfdSetups.PlaneSetup | lib/ome/files/out/MinimalTIFFWriter.cpp:259-351 | the directory setup succeeds exactly when the width and the plane's coordinates are available, and then carries the image size, chunking, pixel type, its natural bit depth, the channel's samples, planar configuration, photometric interpretation and compression |
| IfdSetups.SetupNeverSeesZeroWidth | lib/ome/files/out/MinimalTIFFWriter.cpp:268-271 | the SizeX-is-0 error cannot arise from the writer's state |
| IfdRanges.IfdIndex | lib/ome/files/out/MinimalTIFFWriter.cpp:366-374 | a plane's directory is its series' first directory plus the plane number, and the lookup fails for a missing series or a directory past the range's end |
| IfdRanges.SeriesRanges | lib/ome/files/out/MinimalTIFFWriter.cpp:154-169 | one range per series |
| IfdRanges.SeriesRangesPartition | lib/ome/files/out/MinimalTIFFWriter.cpp:154-169 | the ranges are back to back from directory 0, each spans its series' plane count, and the last ends at the total plane count |
| IfdRanges.IndexOfPlane | lib/ome/files/out/MinimalTIFFWriter.cpp:366-374 | plane p of series s is directory p after all planes of the earlier series |
| IfdRanges.IndexInjective | lib/ome/files/out/MinimalTIFFWriter.cpp:154-169 | no two planes of any series share a directory |
| IfdRanges.WalkMatchesRanges | lib/ome/files/out/MinimalTIFFWriter.cpp:200-256 | writing planes in series order, one directory each, reaches every plane at the directory its range assigns |
| IfdRanges.SeriesRangesAsWritten | lib/ome/files/out/MinimalTIFFWriter.cpp:154-169 | as written every series gets the plane count of the current series |
| IfdRanges.AsWrittenUniform | lib/ome/files/out/MinimalTIFFWriter.cpp:154-169 | with equal plane counts the as-written ranges are the intended ones |
| IfdRanges.AsWrittenMisplacesLaterSeries | lib/ome/files/out/MinimalTIFFWriter.cpp:159-168 | for series of 3, 1 and 1 planes the as-written ranges put series 2 at directory 6 while writing in order reaches it at directory 4 |
| MinimalTiffWriters.BuildRanges | lib/ome/files/out/MinimalTIFFWriter.cpp:154-169 | the loop builds exactly the back-to-back ranges of the metadata's own plane counts, the intended mapping |
| MinimalTiffWriters.BuildRangesAsWritten | lib/ome/files/out/MinimalTIFFWriter.cpp:154-169 | the loop of setId builds exactly the back-to-back ranges of n series that each span the one image count it is given |
| MinimalTiffWriters.MinimalTiffWriter.constructor | lib/ome/files/out/MinimalTIFFWriter.cpp:111-120 | no file, no directory, index 0, no ranges, BigTIFF unset |
| MinimalTiffWriters.MinimalTiffWriter.NextIfd | lib/ome/files/out/MinimalTIFFWriter.cpp:250-256 | the current directory is flushed, a fresh one started and the index advanced by one |
| MinimalTiffWriters.MinimalTiffWriter.SetupIfd | lib/ome/files/out/MinimalTIFFWriter.cpp:259-351 | the current directory becomes the writer's plane setup and the call fails exactly when that setup does |
| MinimalTiffWriters.MinimalTiffWriter.SetId | lib/ome/files/out/MinimalTIFFWriter.cpp:135-170 | the file is opened and its first directory set up; on success getImageCount of the current series is defined and every series of the metadata gets a range of that many directories, back to back from 0, appended to the ranges; nothing else of the writer changes |
| MinimalTiffWriters.MinimalTiffWriter.Close | lib/ome/files/out/MinimalTIFFWriter.cpp:172-198 | an open file's last directory is flushed exactly once; the file, index, ranges and BigTIFF setting are reset and the shared writer closed |
| MinimalTiffWriters.MinimalTiffWriter.SetSeries | lib/ome/files/out/MinimalTIFFWriter.cpp:200-211 | a refused change leaves everything; an accepted change to another series flushes one directory and sets up the next; re-selecting the same series changes no directory |
| MinimalTiffWriters.MinimalTiffWriter.SetPlane | lib/ome/files/out/MinimalTIFFWriter.cpp:213-224 | as SetSeries, for the plane |
| MinimalTiffWriters.MinimalTiffWriter.SaveBytes | lib/ome/files/out/MinimalTIFFWriter.cpp:354-377 | a write succeeds only after selecting the plane and only when the running directory index is the one its series' range assigns, which it records; a mismatch is an error |
| MinimalTiffWriters.MinimalTiffWriter.TileSizeX | lib/ome/files/out/MinimalTIFFWriter.cpp:226-236 | with a file open and no zero request, the current directory's tile width, else the shared writer's answer |
| MinimalTiffWriters.MinimalTiffWriter.TileSizeY | lib/ome/files/out/MinimalTIFFWriter.cpp:238-248 | getTileSizeY: the current directory's tile height while a file is open and the requested height is unset or non-zero; otherwise the shared writer's getTileSizeY, whose unset fallback is the width |
| MinimalTiffWriters.MinimalTiffWriter.ReportsRequestedTiles | lib/ome/files/out/MinimalTIFFWriter.cpp:226-248 | once a directory is set up, requested non-zero tile sizes are reported back, and a height alone gives full-width strips |
| MinimalTiffWriters.MinimalTiffWriter.SetBigTiff | lib/ome/files/out/MinimalTIFFWriter.cpp:379-383 | the BigTIFF setting becomes the argument and nothing else changes |
| MinimalTiffReaders.FormatOf | lib/ome/files/in/MinimalTIFFReader.cpp:163-177 | the format compared keeps width, height, pixel type, samples, planar configuration and photometric interpretation, and nothing else |
| MinimalTiffReaders.Runs | lib/ome/files/in/MinimalTIFFReader.cpp:180-228 | there are series exactly when there are directories, and the last series ends at the last directory |
| MinimalTiffReaders.RunsSplitByFormat | lib/ome/files/in/MinimalTIFFReader.cpp:192-221 | the series cover the directories back to back in order, every directory of a series has its format, and neighbouring series differ in format |
| MinimalTiffReaders.RunAt | lib/ome/files/in/MinimalTIFFReader.cpp:192-221 | every series has at least one directory, all of its first directory's format |
| MinimalTiffReaders.CoreOf | lib/ome/files/in/MinimalTIFFReader.cpp:198-227 | one series record per series, with one resolution whose timepoints and plane count equal its number of directories |
| MinimalTiffReaders.RangesOf | lib/ome/files/in/MinimalTIFFReader.cpp:198-219 | the ranges are back to back from directory 0 to the last directory, named after the file, each as long as its series |
| MinimalTiffReaders.DecodeIfd | lib/ome/files/in/MinimalTIFFReader.cpp:163-175 | a directory that decodes carries exactly its width, height, samples, planar configuration and photometric tags |
| MinimalTiffReaders.DecodeIfdCases | lib/ome/files/in/MinimalTIFFReader.cpp:163-175 | a directory decodes exactly when compare_ifd's tags are present and getPixelType accepts its SampleFormat and depth, to that pixel type; a missing size or depth is the tag-not-found error, an undecodable pair getPixelType's error |
| MinimalTiffReaders.DecodablePrefix | lib/ome/files/in/MinimalTIFFReader.cpp:187-221 | the directories the walk gets through: all before it decode, and the one at it, if any, does not |
| MinimalTiffReaders.DecodesToPrefix | lib/ome/files/in/MinimalTIFFReader.cpp:187-221 | the decodable prefix, decoded, is the one list the directories decode to |
| MinimalTiffReaders.CoreKept | lib/ome/files/in/MinimalTIFFReader.cpp:180-228 | the series left are all the grouping's series, or all but the last when the series under way is lost |
| MinimalTiffReaders.CompareDecoded | lib/ome/files/in/MinimalTIFFReader.cpp:163-175 | between two directories that decode, compare_ifd is equality of the compared format |
| MinimalTiffReaders.CompareFailure | lib/ome/files/in/MinimalTIFFReader.cpp:163-175 | against a directory that decodes, compare_ifd fails only with the error the other directory's decoding fails with, and matches only a directory that decodes |
| MinimalTiffReaders.WalkStep | lib/ome/files/in/MinimalTIFFReader.cpp:192-219 | one directory of the walk: either the series and ranges grow as the grouping of one more directory, or the walk stops, with the directory's error, the series kept and the ranges of the directories before |
| MinimalTiffReaders.GroupIfds | lib/ome/files/in/MinimalTIFFReader.cpp:179-228 | the walk succeeds exactly when every directory's tags can be read, and otherwise fails with the first unreadable directory's error; it leaves the series of the directories read before, losing the one under way when compare_ifd is what failed, and the ranges of all of them |
| MinimalTiffReaders.MinimalTiffReader.constructor | lib/ome/files/in/MinimalTIFFReader.cpp:98-104 | no file, no series, no ranges |
| MinimalTiffReaders.MinimalTiffReader.ReadIfds | lib/ome/files/in/MinimalTIFFReader.cpp:180-228 | readIFDs rebuilds the series list and appends to the ranges as GroupIfds gives them, failing exactly where a directory's tags cannot be read, with that error |
| MinimalTiffReaders.MinimalTiffReader.InitFile | lib/ome/files/in/MinimalTIFFReader.cpp:141-158 | a file that cannot be opened is an error that leaves series and ranges; otherwise they and the result are readIFDs' on its directories |
| MinimalTiffReaders.MinimalTiffReader.CloseCorrected | lib/ome/files/in/MinimalTIFFReader.cpp:132-139 | close as evidently intended drops the file and clears the ranges |
| MinimalTiffReaders.MinimalTiffReader.Close | lib/ome/files/in/MinimalTIFFReader.cpp:132-139 | close drops the file and keeps the series ranges, as the source does |
| MinimalTiffReaders.MinimalTiffReader.IfdAtIndex | lib/ome/files/in/MinimalTIFFReader.cpp:123-130 | a plane's directory is looked up through its series' range, failing where the range lookup fails or the index is past the file's directories |
| MinimalTiffReaders.PlanesOfFreshReader | lib/ome/files/in/MinimalTIFFReader.cpp:123-228 | after opening with no stale ranges, plane p of series k succeeds exactly for p below its timepoints and reads a directory of the series' own block and format |
| MinimalTiffReaders.ExampleDirectories | lib/ome/files/tiff/IFD.cpp:1046-1144 | an unsigned 8-bit directory decodes, a signed 1-bit one fails with getPixelType's error, and compare_ifd between them fails with it too unless the widths already differ |
| MinimalTiffReaders.StopInCompareExample | lib/ome/files/in/MinimalTIFFReader.cpp:180-228 | two matching directories then a signed 1-bit one of the same size: readIFDs stops in compare_ifd, keeps the range of the first two and loses their series |
| MinimalTiffReaders.StopInDecodeExample | lib/ome/files/in/MinimalTIFFReader.cpp:180-228 | the same with the third directory twice as wide: compare_ifd answers false at the width, and the series of the first two is kept before the third fails |
| MinimalTiffReaders.RangesAfterReopenAsWritten | lib/ome/files/in/MinimalTIFFReader.cpp:132-219 | as written the ranges of a second file follow the first file's, which keep their file name |
| MinimalTiffReaders.RangesAfterReopen | lib/ome/files/in/MinimalTIFFReader.cpp:132-219 | corrected, the ranges after reopening are the second file's alone and back to back |
| MinimalTiffReaders.ReopenKeepsStaleRanges | lib/ome/files/in/MinimalTIFFReader.cpp:132-219 | a file of two matching directories then one of two differing ones: as written series 0 of the second file has two planes named after the first file; corrected it has one |
| TiffComments.Encode | lib/ome/files/out/OMETIFFWriter.cpp:262-291 | a value is written as exactly as many bytes as the field is wide |
| TiffComments.DecodeEncode | lib/ome/files/out/OMETIFFWriter.cpp:145-180 | decoding the bytes written for a value, in either byte order, gives the value truncated to the field width |
| TiffComments.EncodeDecode | lib/ome/files/out/OMETIFFWriter.cpp:145-180 | encoding the value read from some bytes gives those bytes back |
| TiffComments.ReadRaw | lib/ome/files/out/OMETIFFWriter.cpp:188-247 | a read at an offset succeeds exactly when the field lies inside the file, fails with a read error otherwise, and gives a value below 256 to the field width |
| TiffComments.ReadRawBytes | lib/ome/files/out/OMETIFFWriter.cpp:188-247 | the value read is the one whose encoding is the bytes at the offset |
| TiffComments.WriteRaw | lib/ome/files/out/OMETIFFWriter.cpp:299-340 | a write puts the value's encoding at the offset, extends the file only when it runs past its end, and changes no other byte |
| TiffComments.WriteThenRead | lib/ome/files/out/OMETIFFWriter.cpp:188-340 | reading back a written field gives the value truncated to the field width |
| TiffComments.ReadOutsideFrame | lib/ome/files/out/OMETIFFWriter.cpp:188-340 | a field outside the bytes a change touched reads the same before and after |
| TiffComments.ParseHeader | lib/ome/files/out/OMETIFFWriter.cpp:858-902 | the header check as evidently intended: accepted headers start with II or MM, which fixes the byte order, carry version 42 or 43, for BigTIFF an offset size of 4 or 8, and the first directory's offset is read at byte 4 or 8; bad endian characters are reported with the two bytes read |
| TiffComments.HeaderAfterEndian | lib/ome/files/out/OMETIFFWriter.cpp:875-902 | the version, offset size and first-directory offset checks after the byte order is known |
| TiffComments.ParseHeaderBytes | lib/ome/files/out/OMETIFFWriter.cpp:858-902 | every classic or BigTIFF header a writer produces is accepted, whatever follows, and gives back its byte order, format and first-directory offset truncated to the offset width |
| TiffComments.ParseHeaderAsWritten | lib/ome/files/out/OMETIFFWriter.cpp:858-873 | as written, an accepted header has two equal endian characters, I or M, somewhere in the file, not necessarily at bytes 0 and 1 |
| TiffComments.LeadingSpaceAccepted | lib/ome/files/out/OMETIFFWriter.cpp:861 | a space followed by a little-endian classic header is accepted as written, with the version read from bytes 3 and 4, and rejected by the corrected check |
| TiffComments.AsWrittenAgreesWithoutSpace | lib/ome/files/out/OMETIFFWriter.cpp:858-902 | when neither of the first two bytes is white space, the header check as written and the byte check agree on every file |
| TiffComments.ParseHeaderAsWrittenBytes | lib/ome/files/out/OMETIFFWriter.cpp:858-902 | every classic or BigTIFF header a writer produces passes the check as written and gives back its byte order, format and first-directory offset truncated to the offset width |
| TiffComments.Visit | lib/ome/files/out/OMETIFFWriter.cpp:915-948 | one entry visit reports a match exactly when a match was already seen or the entry is tagged ImageDescription; such an entry of another type than ASCII is the invalid-type error, one of type ASCII with a count other than the placeholder's length plus one the size error, and a successful visit of it checked both |
| TiffComments.Scan | lib/ome/files/out/OMETIFFWriter.cpp:915-948 | the scan does not stop at a match, so a match once seen is still reported at the end |
| TiffComments.VisitFrame | lib/ome/files/out/OMETIFFWriter.cpp:917-947 | a visit changes bytes only inside its own entry |
| TiffComments.PatchFrame | lib/ome/files/out/OMETIFFWriter.cpp:937-947 | a patch changes only the entry's count and offset fields |
| TiffComments.PatchReads | lib/ome/files/out/OMETIFFWriter.cpp:937-947 | after a patch the count field reads the text's length and the offset field the text's position, truncated to the field width |
| TiffComments.ScanFrame | lib/ome/files/out/OMETIFFWriter.cpp:915-948 | the scan changes bytes only inside the entries it visits |
| TiffComments.ScanReadsTags | lib/ome/files/out/OMETIFFWriter.cpp:915-920 | a successful scan read the tag of every entry it covers |
| TiffComments.ScanFindsTag | lib/ome/files/out/OMETIFFWriter.cpp:915-951 | a successful scan reports a match exactly when some covered entry is tagged ImageDescription |
| TiffComments.ScanPatchesFields | lib/ome/files/out/OMETIFFWriter.cpp:915-948 | every covered ImageDescription entry, not only the first, ends with the text's length and offset |
| TiffComments.FrameKeepsChecks | lib/ome/files/out/OMETIFFWriter.cpp:917-935 | the type and count of a later entry read the same after a change inside an earlier entry |
| TiffComments.ScanChecksDescriptions | lib/ome/files/out/OMETIFFWriter.cpp:915-935 | a successful scan found every covered ImageDescription entry of type ASCII with the placeholder's count, in the data it was given |
| TiffComments.SaveCommentChecksDescriptions | lib/ome/files/out/OMETIFFWriter.cpp:925-935 | a successful saveComment means every ImageDescription entry of the first directory was of type ASCII with the placeholder's count |
| TiffComments.SaveCommentSpec | lib/ome/files/out/OMETIFFWriter.cpp:850-956 | a success needs the header to pass the check as written (formatted reads of the endian characters), and that check's error is the error reported |
| TiffComments.SaveComment | lib/ome/files/out/OMETIFFWriter.cpp:850-956 | the method's header check as written, append and entry loop compute exactly the specification |
| TiffComments.PatchEntries | lib/ome/files/out/OMETIFFWriter.cpp:915-948 | the loop over the first directory's entries computes exactly the scan |
| TiffComments.VisitEntry | lib/ome/files/out/OMETIFFWriter.cpp:917-947 | the loop body computes exactly one entry visit, including the type and placeholder-length errors |
| TiffComments.SaveCommentFindsTag | lib/ome/files/out/OMETIFFWriter.cpp:909-953 | with a header that passes the check as written and a scan that succeeds, saving succeeds exactly when some entry is tagged ImageDescription, and otherwise reports the missing tag |
| TiffComments.SaveCommentFrame | lib/ome/files/out/OMETIFFWriter.cpp:904-948 | a result differs from the file with the text and NUL appended only inside the first directory's entries |
| TiffComments.SaveCommentPatches | lib/ome/files/out/OMETIFFWriter.cpp:904-948 | in a result every ImageDescription entry holds the text's length plus one and the offset where the text starts |
| TiffComments.AppendedTextIntact | lib/ome/files/out/OMETIFFWriter.cpp:904-907 | when the directory lies inside the old file, the result is the old file, with only the entries changed, followed by the text and its NUL |
| OmeTiffWriters.DirectoryFor | lib/ome/files/out/OMETIFFWriter.cpp:614-731 | the directory setup fails exactly where the plain setup or, at full resolution, the level count fails; the placeholder description goes into a file's first directory only; a full-resolution directory is a page announcing one SubIFD per sub-resolution, any other a reduced-image page with none |
| OmeTiffWriters.OmeSetup | lib/ome/files/out/OMETIFFWriter.cpp:614-731 | setupIFD for the writer's state succeeds exactly when the plain setup does and, at full resolution, the level count is known; it carries the plain setup, and the placeholder description exactly in a file's first directory |
| OmeTiffWriters.InitialPlanes | lib/ome/files/out/OMETIFFWriter.cpp:423-441 | the first plane table has one row per series of Z x T x channel-count planes, each certain and not yet written |
| OmeTiffWriters.UnwrittenZero | lib/ome/files/out/OMETIFFWriter.cpp:767-778 | the count of planes not written is zero exactly when every plane is present |
| OmeTiffWriters.CountUnwritten | lib/ome/files/out/OMETIFFWriter.cpp:767-771 | the loop counts exactly the planes not written |
| OmeTiffWriters.PlaneTiffData | lib/ome/files/out/OMETIFFWriter.cpp:797-824 | a plane's TiffData can be made exactly when its file is registered, and otherwise the unregistered file is reported |
| OmeTiffWriters.PlanesTiffData | lib/ome/files/out/OMETIFFWriter.cpp:796-824 | one TiffData for each plane left from p on, and an error when the plane table has fewer rows than the series has planes |
| OmeTiffWriters.SeriesTiffData | lib/ome/files/out/OMETIFFWriter.cpp:785-824 | one element for a series without planes, otherwise one per plane, and an error when the series has no complete plane table |
| OmeTiffWriters.AllTiffData | lib/ome/files/out/OMETIFFWriter.cpp:783-825 | one list for each series from s on, and success only when every such series' TiffData is made |
| OmeTiffWriters.FillMetadataSpec | lib/ome/files/out/OMETIFFWriter.cpp:762-828 | success needs the OME-XML and every plane written, and with planes missing their number is the error |
| OmeTiffWriters.EmitPlanes | lib/ome/files/out/OMETIFFWriter.cpp:797-824 | the inner loop emits exactly the planes' TiffData, stopping at the first unregistered file |
| OmeTiffWriters.EmitTiffData | lib/ome/files/out/OMETIFFWriter.cpp:781-826 | the outer loop emits exactly every series' TiffData |
| OmeTiffWriters.FillMetadata | lib/ome/files/out/OMETIFFWriter.cpp:762-828 | the method's checks, count and loops compute exactly the specification |
| OmeTiffWriters.SeriesTiffDataIs | lib/ome/files/out/OMETIFFWriter.cpp:781-826 | a series without planes gets the single plane-count-0 element, any other one TiffData per plane with the plane's file, that file's UUID, the plane's coordinates and directory, and plane count 1 |
| OmeTiffWriters.OneTiffDataPerPlane | lib/ome/files/out/OMETIFFWriter.cpp:762-828 | a successful result has one TiffData list per series, each that series' list |
| OmeTiffWriters.FillMetadataSucceeds | lib/ome/files/out/OMETIFFWriter.cpp:762-828 | with the OME-XML present, a table shaped by the metadata, every plane written and every plane's file registered, filling cannot fail |
| OmeTiffWriters.OmeTiffWriter.constructor | lib/ome/files/out/OMETIFFWriter.cpp:355-367 | no files, no current file, no flags, an empty plane table, no OME-XML and BigTIFF unset |
| OmeTiffWriters.OmeTiffWriter.NextIfd | lib/ome/files/out/OMETIFFWriter.cpp:600-605 | the current file's directory is written and counted |
| OmeTiffWriters.OmeTiffWriter.NextSubIfd | lib/ome/files/out/OMETIFFWriter.cpp:607-611 | the current file's directory is written without being counted |
| OmeTiffWriters.OmeTiffWriter.SetupIfd | lib/ome/files/out/OMETIFFWriter.cpp:614-731 | the current file's directory becomes the OME directory setup for its directory count, and the call fails exactly when that does |
| OmeTiffWriters.OmeTiffWriter.SetId | lib/ome/files/out/OMETIFFWriter.cpp:381-474 | the current file again changes nothing; the first call builds the unwritten plane table and fixes the flags w or w8; a new file is registered with its UUID, directory count 0 and a set-up first directory; a known file only becomes current |
| OmeTiffWriters.OmeTiffWriter.PrepareTables | lib/ome/files/out/OMETIFFWriter.cpp:396-456 | the plane table is built only on the first call and the flags only when empty |
| OmeTiffWriters.OmeTiffWriter.SetSeries | lib/ome/files/out/OMETIFFWriter.cpp:532-543 | a refused change leaves the files; an accepted change to another series writes and counts one directory and sets up the next; the same series changes nothing |
| OmeTiffWriters.OmeTiffWriter.SetResolution | lib/ome/files/out/OMETIFFWriter.cpp:545-556 | as SetSeries, but the directory written is a SubIFD and is not counted |
| OmeTiffWriters.OmeTiffWriter.SetPlane | lib/ome/files/out/OMETIFFWriter.cpp:558-569 | as SetSeries, for the plane |
| OmeTiffWriters.OmeTiffWriter.SaveBytes | lib/ome/files/out/OMETIFFWriter.cpp:733-759 | a write needs an open file, selects the plane (a new plane writes and counts one directory and sets up the next, the same plane changes no file), needs its table entry and a set-up directory, and at full resolution only records the plane as present in the current file at that file's new directory count |
| OmeTiffWriters.OmeTiffWriter.Close | lib/ome/files/out/OMETIFFWriter.cpp:476-529 | the current file's last directory is flushed once, then the result is the TiffData fill; success drops every file, the flags, the plane table and the OME-XML; failure keeps them but not the current file; the shared writer is closed either way |
| OmeTiffWriters.OmeTiffWriter.TileSizeX | lib/ome/files/out/OMETIFFWriter.cpp:570-583 | with a file open and no zero request, the current directory's tile width, else the shared writer's answer |
| OmeTiffWriters.OmeTiffWriter.TileSizeY | lib/ome/files/out/OMETIFFWriter.cpp:585-598 | getTileSizeY as written: under the height request's condition, the tile width is reported |
| OmeTiffWriters.OmeTiffWriter.TileSizeYCorrected | lib/ome/files/out/OMETIFFWriter.cpp:585-598 | corrected, the current directory's tile height |
| OmeTiffWriters.OmeTiffWriter.ReportsRequestedTiles | lib/ome/files/out/OMETIFFWriter.cpp:570-598 | requested non-zero tile sizes are reported back by the width getter and the corrected height getter, while getTileSizeY as written reports the width and differs whenever the requests do |
| OmeTiffWriters.OmeTiffWriter.SetBigTiff | lib/ome/files/out/OMETIFFWriter.cpp:958-962 | the BigTIFF setting becomes the argument and nothing else changes |
| OmeTiffWriters.CloseSucceedsWhenAllWritten | lib/ome/files/out/OMETIFFWriter.cpp:476-529 | a writer that saved every plane at full resolution, on the table its first setId built, closes without error |
| OmeTiffMetadata.LastNonSpace | lib/ome/files/in/OMETIFFReader.cpp:1816 | the position found is the last character that is not white space, and none is found only in an all-space text |
| OmeTiffMetadata.SaneXml | lib/ome/files/in/OMETIFFReader.cpp:1815-1825 | the text passes exactly when it is non-empty, starts with '<' and has a '>' followed only by white space |
| OmeTiffMetadata.LastNonSpaceIsClosing | lib/ome/files/in/OMETIFFReader.cpp:1815-1825 | a '>' followed only by white space is the same as the last non-space character being '>' |
| OmeTiffMetadata.SaneXmlExamples | lib/ome/files/in/OMETIFFReader.cpp:1815-1825 | trailing white space is allowed; an empty text, leading white space, a missing '>' and plain text are rejected |
| OmeTiffMetadata.PlaneTotalPositive | lib/ome/files/in/OMETIFFReader.cpp:250-263 | with no zero size the plane total is positive exactly when there is an image |
| OmeTiffMetadata.SingleFileVerdict | lib/ome/files/in/OMETIFFReader.cpp:243-283 | a zero size is the exception that gives no verdict; otherwise the file is single exactly when it has images and their planes fit in its directories |
| OmeTiffMetadata.ValuesOf | lib/ome/files/in/OMETIFFReader.cpp:1366-1435 | a TiffData is usable exactly when it has planes; a missing plane count is 1 with an IFD and 0 without; a missing IFD and missing first coordinates are 0 |
| OmeTiffMetadata.FillDownUnreachable | lib/ome/files/in/OMETIFFReader.cpp:810-827 | a TiffData the reader goes on to use has at least one plane, so the fill-down after a zero plane count cannot run |
| OmeTiffMetadata.SeriesStart | lib/ome/files/in/OMETIFFReader.cpp:1293-1341 | a start exists exactly when the series has TiffData |
| OmeTiffMetadata.SeriesStartIsMinimum | lib/ome/files/in/OMETIFFReader.cpp:1293-1341 | the start is the least first coordinate on its axis, and some TiffData has it |
| OmeTiffMetadata.IndexStarts | lib/ome/files/in/OMETIFFReader.cpp:1293-1341 | as evidently intended, each axis' start is the minimum over that axis' own first coordinates |
| OmeTiffMetadata.IndexStartsAsWritten | lib/ome/files/in/OMETIFFReader.cpp:1293-1341 | as written the Z start is the C start; the T and C starts are the minima over their own axes |
| OmeTiffMetadata.SeriesStartAgree | lib/ome/files/in/OMETIFFReader.cpp:1299-1341 | two axes with equal first coordinates in every TiffData have the same start |
| OmeTiffMetadata.AsWrittenStartsAgree | lib/ome/files/in/OMETIFFReader.cpp:1316-1326 | where every TiffData's FirstZ equals its FirstC, the starts as written are the intended ones |
| OmeTiffMetadata.SeriesIndexStart | lib/ome/files/in/OMETIFFReader.cpp:1293-1341 | the pass over the TiffData computes exactly the starts as written, the Z one over the FirstC values |
| OmeTiffMetadata.Corrected | lib/ome/files/in/OMETIFFReader.cpp:741-748 | the start is subtracted only when it does not exceed the coordinate |
| OmeTiffMetadata.CorrectedByMinimum | lib/ome/files/in/OMETIFFReader.cpp:722-748 | with the series' own starts every coordinate moves down by exactly the series minimum, and some TiffData ends at 0 |
| OmeTiffMetadata.ZStartFromFirstC | lib/ome/files/in/OMETIFFReader.cpp:1316-1326 | a series 1-based in Z only gets Z start 0 as written, so its Z stays 1, while the corrected start brings it to 0 |
| OmeTiffMetadata.ChannelSamplesAsWritten | lib/ome/files/in/OMETIFFReader.cpp:973-1013 | as written every channel takes channel 0's sample count; without Channel elements there are SizeC channels of one sample |
| OmeTiffMetadata.ChannelSamples | lib/ome/files/in/OMETIFFReader.cpp:973-1013 | as evidently intended, one entry per channel holding its own sample count, 1 when absent; without Channel elements SizeC channels of one sample |
| OmeTiffMetadata.ChannelSampleList | lib/ome/files/in/OMETIFFReader.cpp:973-1013 | the loop builds exactly the list as written, every channel with channel 0's count |
| OmeTiffMetadata.ChannelZeroSpread | lib/ome/files/in/OMETIFFReader.cpp:989 | an RGB channel before a grey one gives [3, 3] as written and [3, 1] corrected |
| OmeTiffMetadata.FixImageCounts | lib/ome/files/in/OMETIFFReader.cpp:1437-1465 | a series of one image whose Z, T or channel count is not 1 becomes one plane keeping channel 0's samples; an empty channel list is the out-of-range error; other series and other fields are unchanged |
| OmeTiffMetadata.FixImageCountsIdempotent | lib/ome/files/in/OMETIFFReader.cpp:1437-1465 | repairing a repaired series changes nothing |
| OmeTiffMetadata.SampleTotal | lib/ome/files/in/OMETIFFReader.cpp:1556 | the channel total of a single channel is its sample count |
| OmeTiffMetadata.FixDimensions | lib/ome/files/in/OMETIFFReader.cpp:1551-1587 | only Z, T and the channels change, and a consistent series is unchanged |
| OmeTiffMetadata.FixDimensionsConsistent | lib/ome/files/in/OMETIFFReader.cpp:1551-1587 | after the repair Z x T x channels is the image count, keeping Z, else T, else the channels when one of them equals it |
| OmeTiffMetadata.FixDimensionsIdempotent | lib/ome/files/in/OMETIFFReader.cpp:1551-1587 | repairing a repaired series changes nothing |
| OmeTiffMetadata.FixOmeroMetadata | lib/ome/files/in/OMETIFFReader.cpp:1516-1549 | only the dimension order can change, only to XYZCT, and it changes exactly for a series with a named first channel, some TiffData, the OMERO export marker among the files and a full-resolution entry |
| OmeTiffMetadata.FixOmeroMetadataIdempotent | lib/ome/files/in/OMETIFFReader.cpp:1516-1549 | repairing twice is repairing once |
| OmeTiffMetadata.WithPlaneIndexes | lib/ome/files/in/OMETIFFReader.cpp:1467-1514 | no image is added or removed |
| OmeTiffMetadata.PlaneIndexesFilled | lib/ome/files/in/OMETIFFReader.cpp:1467-1514 | no Plane is added or removed, every TheZ, TheT and TheC ends up set, set ones keep their value, unset ones become 0, and nothing else changes |
| OmeTiffMetadata.FixMissingPlaneIndexes | lib/ome/files/in/OMETIFFReader.cpp:1467-1514 | the loops compute exactly the filled indexes |
| OmeTiffMetadata.CompareResolutionPreorder | lib/ome/files/in/OMETIFFReader.cpp:177-190 | the sub-resolution test accepts every image for itself and chains |
| OmeTiffMetadata.CompareResolution | lib/ome/files/in/OMETIFFReader.cpp:177-190 | an accepted sub-resolution is no larger than its full resolution in X, Y or Z, so the resolution sort's comparison never ranks it above its full resolution |
| OmeTiffReaders.AddedTiff | lib/ome/files/in/OMETIFFReader.cpp:1707-1711 | a path not yet cached is added unopened; every cached entry is kept as it was |
| OmeTiffReaders.TiffFrom | lib/ome/files/in/OMETIFFReader.cpp:1713-1752 | a path missing from the cache is an error; a cached open file is returned; an unopened one is opened and kept, or is an open error when it is not a TIFF; an error leaves the cache |
| OmeTiffReaders.TiffFromStable | lib/ome/files/in/OMETIFFReader.h:169-181 | asking again gives the same answer and cache, and on a faithful cache the answer is the file on disk, found exactly when the path is cached and is a TIFF |
| OmeTiffReaders.ValidTiffAsWritten | lib/ome/files/in/OMETIFFReader.cpp:1754-1759 | validTIFF as written succeeds, with true, exactly when getTIFF does, fails with getTIFF's error otherwise, and leaves getTIFF's cache |
| OmeTiffReaders.ValidTiffNeverFalse | lib/ome/files/in/OMETIFFReader.cpp:1754-1759 | as written validTIFF never answers false: a file that does not open is an open error instead |
| OmeTiffReaders.ValidFrom | lib/ome/files/in/OMETIFFReader.h:183-190 | as documented, the answer is true exactly when the file can be had from the cache, with the same cache as getTIFF leaves |
| OmeTiffReaders.UuidFile | lib/ome/files/in/OMETIFFReader.cpp:616-671 | no UUID means the current file; an existing named file is used; otherwise the current file when it has this UUID or an empty one, or no UUID at all, and an unmatched-UUID error when it has another |
| OmeTiffReaders.Registered | lib/ome/files/in/OMETIFFReader.cpp:673-681 | a new UUID is recorded, a known one must name the same file, and a clash reports both files |
| OmeTiffReaders.FilesFrom | lib/ome/files/in/OMETIFFReader.cpp:611-682 | the UUID map after the TiffData keeps every earlier entry and records the UUID of every TiffData |
| OmeTiffReaders.FilesFromGrows | lib/ome/files/in/OMETIFFReader.cpp:611-682 | the UUID map only grows, keeps earlier entries, records every TiffData's UUID with the file UuidFile gives it, and names only the current file or existing ones |
| OmeTiffReaders.TiffDataFile | lib/ome/files/in/OMETIFFReader.cpp:894-969 | without a FileName the invalid-file map is unchanged; with one it is unchanged or gains that name, mapped to the current file |
| OmeTiffReaders.TiffDataFileStable | lib/ome/files/in/OMETIFFReader.cpp:894-969 | the file is the current one or an existing one, the invalid-file map still maps to the current file, and asking again gives the same file and map |
| OmeTiffReaders.Relocated | lib/ome/files/in/OMETIFFReader.cpp:771-789 | an existing file is used; a missing one is looked for beside the current file, else the current file is used and counts as existing only when it is the single used file |
| OmeTiffReaders.Resized | lib/ome/files/in/OMETIFFReader.cpp:716 | the table gets the series' plane count, keeping the planes it had and adding default ones |
| OmeTiffReaders.Filled | lib/ome/files/in/OMETIFFReader.cpp:793-808 | a TiffData's planes go from its index on, at consecutive directories from its IFD, with nothing else changed; a plane past the table is an out-of-range error |
| OmeTiffReaders.FillPlanes | lib/ome/files/in/OMETIFFReader.cpp:793-808 | the loop computes exactly the filled table |
| OmeTiffReaders.Cleared | lib/ome/files/in/OMETIFFReader.cpp:834-847 | a plane still unknown loses its file; other planes are unchanged |
| OmeTiffReaders.ClearPlanes | lib/ome/files/in/OMETIFFReader.cpp:834-847 | the loop computes exactly the cleared table |
| OmeTiffReaders.Fallback | lib/ome/files/in/OMETIFFReader.cpp:867-879 | the fallback table maps plane p to directory p of the current file, for every directory |
| OmeTiffReaders.TiffDataStep | lib/ome/files/in/OMETIFFReader.cpp:724-832 | one TiffData keeps the table size; one without planes nulls the series and one outside the sizes stops the loop, both changing nothing else; otherwise a plane changes only by becoming a certain written one, and a found file that does not open fails the step with getTIFF's error |
| OmeTiffReaders.ScanTiffData | lib/ome/files/in/OMETIFFReader.cpp:724-832 | the TiffData loop, each step checking the found file with validTIFF as written, keeps the table size |
| OmeTiffReaders.ScanStopped | lib/ome/files/in/OMETIFFReader.cpp:736-758 | once a TiffData stops the loop, the TiffData after it change nothing |
| OmeTiffReaders.ScanPlanes | lib/ome/files/in/OMETIFFReader.cpp:724-832 | every plane is either as resized or written by some TiffData, and then certain |
| OmeTiffReaders.SeriesTable | lib/ome/files/in/OMETIFFReader.cpp:834-883 | a nulled series loses its entry and only then; a surviving table names a file at every plane |
| OmeTiffReaders.SeriesTableShape | lib/ome/files/in/OMETIFFReader.cpp:834-883 | a surviving table is the cleared one when every plane has a file; otherwise, on a faithful cache, it is one plane per directory of the current file |
| OmeTiffReaders.FindSeries | lib/ome/files/in/OMETIFFReader.cpp:700-891 | one series' pass, with the failures of validTIFF as written passed on, changes only the plane table of its full-resolution entry |
| OmeTiffReaders.StartsOf | lib/ome/files/in/OMETIFFReader.cpp:722-723 | every series gets the index starts of its own TiffData as seriesIndexStart writes them, the Z start the C start |
| OmeTiffReaders.TablesFor | lib/ome/files/in/OMETIFFReader.cpp:695-892 | findTiffData over n series, with the starts as written, gives n entries |
| OmeTiffReaders.TablesForStep | lib/ome/files/in/OMETIFFReader.cpp:700-891 | one more series extends the entries by what that series' pass gives, continuing from the earlier maps and cache |
| OmeTiffReaders.TablesForFails | lib/ome/files/in/OMETIFFReader.cpp:700-891 | a series that fails fails the whole pass |
| OmeTiffReaders.SubResolutions | lib/ome/files/in/OMETIFFReader.cpp:1619-1637 | the sub-resolutions are good exactly when every one fills and is accepted against the full resolution, and then entry k is SUBIFD k's metadata with offset k |
| OmeTiffReaders.BuildSubResolutions | lib/ome/files/in/OMETIFFReader.cpp:1619-1637 | the loop computes exactly the sub-resolutions |
| OmeTiffReaders.SeriesResolutions | lib/ome/files/in/OMETIFFReader.cpp:1589-1648 | as evidently intended, the full resolution is kept, followed by all sub-resolutions when they are good and by none otherwise |
| OmeTiffReaders.SeriesResolutionsAsWritten | lib/ome/files/in/OMETIFFReader.cpp:1604-1648 | as written the list always has the full resolution and one slot per SUBIFD entry |
| OmeTiffReaders.SubResolutionsPrefix | lib/ome/files/in/OMETIFFReader.cpp:1619-1637 | a prefix of the SUBIFD entries succeeds exactly when each of its entries fills and matches |
| OmeTiffReaders.EntryAfterFailure | lib/ome/files/in/OMETIFFReader.cpp:1613-1648 | when entry k is the first to fail, the slots before it hold the filled sub-resolutions, slot k its filled metadata if the fill succeeded, and later slots default-constructed entries |
| OmeTiffReaders.ResolutionsStopAt | lib/ome/files/in/OMETIFFReader.cpp:1613-1648 | a list filled up to the failing entry and default after it is exactly what addSubResolutions leaves |
| OmeTiffReaders.BuildSeriesResolutions | lib/ome/files/in/OMETIFFReader.cpp:1613-1648 | the resize and loop over the SUBIFD entries of one series build exactly the list as written |
| OmeTiffReaders.SubResolutionFailureKept | lib/ome/files/in/OMETIFFReader.cpp:1613-1648 | as written, one bad sub-resolution leaves every SUBIFD slot in the list; corrected, only the full resolution remains |
| OmeTiffReaders.OmeTiffReader.constructor | lib/ome/files/in/OMETIFFReader.cpp:194-211 | no current file, no UUID or invalid-file map entries, no cached TIFF, no metadata file, used files or cached metadata, and no series |
| OmeTiffReaders.OmeTiffReader.Close | lib/ome/files/in/OMETIFFReader.cpp:224-241 | the TIFF cache is emptied; unless only the file is closed, the maps, used files, metadata file, plate flag and cached metadata are dropped too |
| OmeTiffReaders.OmeTiffReader.AddTiff | lib/ome/files/in/OMETIFFReader.cpp:1707-1711 | the cache becomes the one addTIFF gives |
| OmeTiffReaders.OmeTiffReader.GetTiff | lib/ome/files/in/OMETIFFReader.cpp:1713-1752 | the answer and new cache are those getTIFF gives |
| OmeTiffReaders.OmeTiffReader.ValidTiff | lib/ome/files/in/OMETIFFReader.cpp:1754-1759 | the answer and new cache are those of validTIFF as written: true once getTIFF opens the file, getTIFF's error otherwise |
| OmeTiffReaders.OmeTiffReader.CacheMetadata | lib/ome/files/in/OMETIFFReader.cpp:1794-1836 | metadata cached for the same file is returned again; otherwise the file's ImageDescription is checked and parsed, and a success is cached while a failure leaves the cache |
| OmeTiffReaders.OmeTiffReader.IsSingleFile | lib/ome/files/in/OMETIFFReader.cpp:243-283 | a companion file never is; otherwise the verdict on the file's parsed metadata, or the generic answer when anything fails |
| OmeTiffReaders.OmeTiffReader.FindUsedFiles | lib/ome/files/in/OMETIFFReader.cpp:604-692 | success exactly when every TiffData's UUID resolves consistently; the map is then the one built, and the used files are sorted and are exactly the files it names |
| OmeTiffReaders.OmeTiffReader.RegisterTiffData | lib/ome/files/in/OMETIFFReader.cpp:613-682 | one image's TiffData are recorded in order, failing exactly where the map building fails |
| OmeTiffReaders.OmeTiffReader.TiffDataFilename | lib/ome/files/in/OMETIFFReader.cpp:894-969 | the name and the new invalid-file map are those TiffDataFile gives |
| OmeTiffReaders.OmeTiffReader.ScanStep | lib/ome/files/in/OMETIFFReader.cpp:724-832 | one pass of the TiffData loop computes exactly the step function, failing when validTIFF fails, and its maps become the object's |
| OmeTiffReaders.OmeTiffReader.ScanSeries | lib/ome/files/in/OMETIFFReader.cpp:724-832 | the TiffData loop of a series computes exactly the scan, failures of validTIFF included |
| OmeTiffReaders.OmeTiffReader.FinishSeries | lib/ome/files/in/OMETIFFReader.cpp:834-887 | the clearing and verifying passes compute exactly the series table |
| OmeTiffReaders.OmeTiffReader.FindSeriesEntry | lib/ome/files/in/OMETIFFReader.cpp:700-891 | one series' pass, with the index starts as written, computes exactly its entry, maps and cache |
| OmeTiffReaders.OmeTiffReader.FindTiffData | lib/ome/files/in/OMETIFFReader.cpp:695-892 | findTiffData fails exactly when the series-by-series specification does (a found file that is not a TIFF among the failures), and otherwise replaces every series' full-resolution entry by the one it gives, with the index starts as written |
| OmeTiffReaders.OmeTiffReader.CheckChannelSamplesPerPixel | lib/ome/files/in/OMETIFFReader.cpp:972-1013 | every series' full-resolution sample counts become the list as written, each channel with channel 0's count, nothing else changing |
| OmeTiffReaders.OmeTiffReader.FixImageCounts | lib/ome/files/in/OMETIFFReader.cpp:1437-1465 | succeeds exactly when every series has a full-resolution entry the repair accepts, and then applies the repair to each |
| OmeTiffReaders.OmeTiffReader.FixDimensions | lib/ome/files/in/OMETIFFReader.cpp:1551-1587 | a missing series is an error; a null entry is left; otherwise the entry's metadata is repaired |
| OmeTiffReaders.OmeTiffReader.FixOmeroMetadata | lib/ome/files/in/OMETIFFReader.cpp:1516-1549 | a missing series or an empty entry list changes nothing and raises nothing, since the lookup fails inside the try block; a null entry is left; otherwise the OMERO repair is applied with the reader's file map |
| OmeTiffReaders.OmeTiffReader.AddSubResolutions | lib/ome/files/in/OMETIFFReader.cpp:1589-1652 | on success every series whose directory of plane 0 has SUBIFD entries gets the list as written: the sub-resolutions when all are good, otherwise one slot per entry, filled up to the failing one and default after it; a directory without the field adds none; the number of series and the open-file table's names are kept; on failure some series k is not ready (no entry, a null entry, no plane 0, its file unknown or missing, or no such directory), the series before it are processed and it and those after it are as they were |
| OmeTiffReaders.OmeTiffReader.IfdAtIndex | lib/ome/files/in/OMETIFFReader.cpp:349-372 | a plane past the table is the failed-IFD error; a success is the plane's file and directory, which that file opens and holds |
| OmeTiffReaders.OmeTiffReader.SeriesUsedFiles | lib/ome/files/in/OMETIFFReader.cpp:380-403 | the list is sorted and holds, unless only non-pixel files are asked for, exactly the metadata file and every file a plane of the series names, none empty |
| OmeTiffReaders.ParsedFrom | lib/ome/files/in/OMETIFFReader.cpp:1803-1828 | a file that does not open is an open error; a success comes from an ImageDescription in the first directory that passes the check |
| OmeTiffReaders.SingleFileFrom | lib/ome/files/in/OMETIFFReader.cpp:252-277 | for a file that opens and metadata without a zero size, single exactly when there are images and all planes fit in the file's directories; the generic answer otherwise |
| PathOrder.LessIrreflexive | lib/ome/files/in/OMETIFFReader.cpp:685-691 | no path orders before itself, as the std::set of used files needs |
| PathOrder.LessTransitive | lib/ome/files/in/OMETIFFReader.cpp:685-691 | the path order is transitive |
| PathOrder.LessTotal | lib/ome/files/in/OMETIFFReader.cpp:685-691 | of two different paths one always orders before the other |
| PathOrder.SortedDistinct | lib/ome/files/in/OMETIFFReader.cpp:381-403 | a list sorted by the path order holds no path twice |
| PathOrder.Insert | lib/ome/files/in/OMETIFFReader.cpp:381-403 | inserting a new path into a sorted list keeps it sorted, one longer, holding exactly the old paths and the new one |
| PathOrder.SortedPaths | lib/ome/files/in/OMETIFFReader.cpp:685-691 | iterating a set of paths gives each of them exactly once, in path order |
| FormatWriters.FormatWriter.constructor | lib/ome/files/detail/FormatWriter.cpp:100-117 | a new writer holds the given properties, has no file, is at series, resolution and plane 0 with no compression, interleaving or tile sizes, not sequential, at zero frames per second, with placeholder metadata and no resolution levels |
| MetadataLists.CoreMetadataList.constructor | lib/ome/files/CoreMetadataList.h:55 | a new list holds no series |
| TiffFields.Field.constructor | lib/ome/files/tiff/Field.cpp:78-84 | a new field has its tag and no cached description |
| TiffIfd.TileWriteState.constructor | lib/ome/files/tiff/IFD.cpp:653-667 | the tile state starts with no coverage, no cached tiles and nothing written |
| TiffIfd.Ifd.constructor | lib/ome/files/tiff/IFD.cpp:721-732 | a new directory wraps the file's directory with an empty tag cache and a fresh, empty tile state |
| OmeTiffReaders.OmeTiffReader.FindTiffDataStep | lib/ome/files/in/OMETIFFReader.cpp:700-891 | one series' pass, with the index starts as written, extends the finished series by exactly the entry the specification gives, or fails the whole of findTiffData |

## Left out

- `lib/ome/files/tiff/IFDRange.cpp`, `PixelBuffer.h`, `TIFF.cpp` internals, FormatTools and the FormatReader and FormatHandler base classes are not part of this model. An IFD range is modelled as a record of file, begin and end. `getIndex`/`getZCTCoords` are specified as mixed-radix arithmetic over the dimension order.
- libtiff: encoding and decoding tiles and strips, writing directories, registering fields and seeking to sub-directories. A TIFF file is a list of directories with their tag values, and only the pixel data the BIT packing touches is modelled byte by byte.
- Pixel data transfer for the other pixel types. `readImage` and `writeImage` are modelled by their buffer checks, the tile flush rule and which directory is written. The tile geometry (`TileInfo`, the tile regions and their samples) is given as input.
- The OME-XML object model: `createOMEXMLMetadata`, `convert`, `validateModel`, `resolveReferences`, the `getOMEXML` serialiser, modulo annotations (`findModulo`) and acquisition dates. Metadata is a record with optional fields. Parsing the XML is a parameter of `cacheMetadata`.
- `fillCoreMetadata` reads sizes from the TIFF tags. The model takes the metadata it produces as input, so `findTiffData` and `addSubResolutions` do not derive core metadata from tags.
- Filesystem calls (`exists`, `canonical`, `make_relative`, boost iostreams). They are the `FileSystem` value: a path is canonical or not, exists or not, has a sibling or not. A name that cannot be canonicalised counts as not existing. `make_relative` and the relative names written into TiffData are not modelled.
- The ordering of `boost::filesystem::path` in the `std::set` of used files is modelled as plain character order (`PathOrder`).
- Random UUID generation is a parameter of the OME-TIFF writer's `setId`. The `enableBigTIFF` choice is also a parameter (`wantBig`).
- The NATIVE endian type is kept as its own value. Which byte order it means on the host, and byte swapping of pixel values, are not modelled.
- Logging and warning text. Error messages are kept as values only where an error kind cannot tell two failures apart. The messages of a null core entry and of a size that is not positive are plain error kinds.
- Paths in error messages are quoted with plain double quotes. Boost quoting and escaping are not modelled.
- The OMETIFFReader `initFile` sequence is not modelled as one method. Its steps are modelled one by one: finding used files, `findTiffData`, the sample and count checks, the fixes and sub-resolutions. `getLookupTable`, `openBytesImpl`, `closeTIFF`, `getDomains`, `isThisType`, `fileGroupOption`, `readMetadata`, companion-file handling and `cleanMetadata` are left out as I/O and plumbing.
- MinimalTIFFReader `getLookupTable`, `openBytesImpl` and `isFilenameThisTypeImpl` read pixel data or file headers through libtiff and are left out.
- After an exception the C++ objects may hold partially updated state. The model's methods that fail report the error. For `orderResolutions` and `addSubResolutions` the contract states the state after the failure: the series before the failing one are updated and the rest are left as they were.
- `assertId` is modelled as the error its failure throws.
- OmeTiffReaders.OmeTiffReader.FinishSeries: when a TiffData has no planes, findTiffData sets `core.at(series).at(0)` to null (OMETIFFReader.cpp:1395-1398). The clearing loop (834-842) then runs through the `coreMeta` reference taken at line 702, which now refers to a freed object. This is undefined behaviour. The model takes the path of the guard that follows: the series is dropped (`Ok(None)`) and nothing is cleared.
- OmeTiffReaders.OmeTiffReader.CacheMetadata: the source compares and stores the cache key as `canonical(id, dir)` (OMETIFFReader.cpp:1798, 1831). The model keys the cache on `id` as given. Two spellings of one file therefore miss the cache, and the error `canonical` throws for a missing file is not modelled.
- Smaller departures. OmeTiffWriters.OmeTiffWriter.SaveBytes returns `Err(IfdNotSetUp)` where the source would go on with a stale `currentIFD`. TiffComments.SaveComment leaves out the final `if (!in)` stream check, as stream state is not modelled. The end-of-file message in TiffComments.ParseHeaderAsWritten is approximated. OmeTiffReaders.Cleared does not reset `plane->ifd = 0`; a cleared plane has no file, so its directory is never read.
- PixelTypes.DecodePixelType: the error messages leave out the bit depth or SampleFormat value that getPixelType formats into them with boost::format.
- MinimalTiffReaders: `makeCoreMetadata` (the TIFF utilities) is not part of this model. A new series' record holds the first directory's decoded format, and a directory fails only where reading compare_ifd's tags fails: a missing size, samples, planar configuration, photometric or bit-depth tag, or a pair getPixelType rejects.
- OmeTiffReaders.OmeTiffReader.AddSubResolutions: the contract does not state that the new list is ordered largest first. The source calls `orderResolutions` after adding the sub-resolutions, and that call is not re-applied in this member.
- OmeTiffReaders.OmeTiffReader.CacheMetadata: the header comment (OMETIFFReader.h:221-234) says metadata is not cached once the reader is fully initialised. The code caches every successful parse, and the model follows the code.
- OmeTiffReaders.SingleFileFrom: the total number of planes is an unbounded integer. A sum that overflows 64 bits in the source is not modelled.
- TiffFields.StripsPerImageAsWritten: the source divides the wrapped 32-bit sum through single-precision floats and `std::floor`. The model divides it exactly, so the float rounding of sums above 2^24 is not modelled.
- `significantBitsPerPixel` of a pixel type lives in `PixelProperties`, which is not part of this model. It is a parameter of `setBitsPerSample`.
- MetadataLists.SortResolutions: `std::sort` with the source comparator (any of X, Y or Z larger) is not a strict weak order when sizes are not nested. It is modelled as an insertion sort with the same comparator, and order is proved only for series whose sizes are componentwise comparable.
- OmeTiffReaders.TiffFrom: the source dereferences the end iterator when building its error message for a missing file, which is undefined behaviour. The model returns a plain error naming the path.
- The default plane the reader resizes its table with is an empty file at directory 0, unknown and not certain, as the `OMETIFFPlane` constructor is not part of this model.
- OmeTiffWriters.OmeTiffWriter.Close: the loop that, after `fillMetadata`, serialises the OME-XML of each file with `getOMEXML` and writes it with `saveComment` (OMETIFFWriter.cpp:496-506) is not composed into this member. Serialising is outside the model; `saveComment` is modelled on its own as TiffComments.SaveComment.
- OmeTiffReaders.DEFAULT_CORE: a default-constructed `OMETIFFMetadata` takes the defaults of `Sized(1, 1, 1)`, since CoreMetadata.cpp, where they are set, is not part of this model. The fill of a sub-resolution whose `fillCoreMetadata` fails, which sets its channel sizes and offset before failing, is modelled as a default entry.
- OmeTiffReaders.OmeTiffReader.FixOmeroMetadata: the try block swallows every exception, so the model's method reports nothing. The metadata lookups that could throw inside it are modelled as optional fields.
- Concurrency and the example programs are not modelled.

## Findings

| source | as written | input that shows it | evidently intended | confidence | as-written member | corrected member |
|---|---|---|---|---|---|---|
| lib/ome/files/tiff/IFD.cpp:300-313 | the expected byte count of a BIT strip read is computed as if samples were whole bytes divided by 8, rounding down | 9 samples in 1 row: 1 byte expected, but sample 8 lies in byte 1 | the least byte count holding w·h·samples bits | not executed | BitPacking.ExpectedReadBitUndercounts | BitPacking.ExpectedReadCoversUnpack |
| lib/ome/files/tiff/Field.cpp:482 | the strip count adds RowsPerStrip - 1 to the length in 32-bit unsigned arithmetic | an image of 2 rows with RowsPerStrip 2^32 - 1: 0 strips | 1 strip | not executed | TiffFields.StripsPerImageWraps | TiffFields.StripsPerImage |
| lib/ome/files/tiff/Field.cpp:684-696 | the three-array setter passes a count of 3 to a variable-count field | three arrays of 4 entries each: stored and read back as three arrays of 3 | the array length as count | not executed | TiffFields.ArraySet3AsWrittenTruncates | TiffFields.ArraySet3RoundTrip |
| lib/ome/files/tiff/Field.cpp:124-132 | `getIFD` builds a `shared_ptr` from an expired `weak_ptr`, which throws `bad_weak_ptr` before the null check is reached | a field whose directory is gone | the "no longer valid" error | not executed | TiffFields.GetIfdAsWrittenDiffers | TiffFields.GetIfd |
| lib/ome/files/detail/FormatWriter.cpp:611-627 | an unset tile height falls back to the image width | a 512 x 256 image with no tile size: tiles 512 rows high | the image height, 256 | not executed | FormatWriters.TileSizeYFallbackUsesWidth | FormatWriters.TileSizeYFallback |
| lib/ome/files/out/MinimalTIFFWriter.cpp:154-169 | every series' directory range spans the current series' image count | series of 3, 1 and 1 planes opened at series 0: series 2 said to begin at directory 6, reached at 4 | each series' range spans its own image count | not executed | IfdRanges.AsWrittenMisplacesLaterSeries | MinimalTiffWriters.BuildRanges |
| lib/ome/files/in/MinimalTIFFReader.cpp:132-139 | `close` does not clear the series ranges, and `readIFDs` appends to them | a file of two matching directories, then one of two differing ones: series 0 keeps two planes in the first file | ranges rebuilt for the new file | not executed | MinimalTiffReaders.ReopenKeepsStaleRanges | MinimalTiffReaders.RangesAfterReopen |
| lib/ome/files/in/OMETIFFReader.cpp:1319 | the Z start of a series is the minimum of the FirstC values | one TiffData with FirstZ 1 and FirstC 0: Z start 0, Z coordinate 1 outside a Z size of 1 | the minimum of the FirstZ values | not executed | OmeTiffMetadata.ZStartFromFirstC | OmeTiffMetadata.IndexStarts |
| lib/ome/files/out/OMETIFFWriter.cpp:861 | the endian mark is read with formatted `>>`, which skips leading whitespace | a space followed by a classic little-endian header is accepted | bytes 0 and 1 checked as they are | not executed; medium, nothing in OMETIFFWriter.cpp turns off the skipping of whitespace | TiffComments.LeadingSpaceAccepted | TiffComments.ParseHeader |
| lib/ome/files/out/OMETIFFWriter.cpp:594 | `getTileSizeY` reports the directory's tile width | an open directory with 512 x 16 tiles: 512 reported | the tile height | not executed | OmeTiffWriters.OmeTiffWriter.ReportsRequestedTiles | OmeTiffWriters.OmeTiffWriter.TileSizeYCorrected |
| lib/ome/files/in/OMETIFFReader.cpp:989 | every channel takes channel 0's SamplesPerPixel | an RGB channel of 3 samples next to a grey channel of 1: [3, 3] | each channel's own count, [3, 1] | not executed | OmeTiffMetadata.ChannelZeroSpread | OmeTiffMetadata.ChannelSamples |
| lib/ome/files/in/OMETIFFReader.cpp:1754-1759 | `validTIFF` calls `getTIFF`, which throws for a file it cannot open, so false is never returned | a cached path that is not a TIFF: an error instead of false | false, as documented in OMETIFFReader.h:183-190 | not executed | OmeTiffReaders.ValidTiffNeverFalse | OmeTiffReaders.ValidFrom |
| lib/ome/files/in/OMETIFFReader.cpp:1613 | the resolution list is resized before the sub-resolutions are read, and the catch block does not shrink it again | a series whose one SUBIFD fails to read keeps an empty sub-resolution slot | only the full resolution kept | not executed | OmeTiffReaders.SubResolutionFailureKept | OmeTiffReaders.SeriesResolutions |
