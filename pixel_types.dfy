// The OME pixel types, listed in the order of VariantPixelBuffer's
// alternatives, and their encoding as a TIFF SampleFormat plus
// BitsPerSample (TIFF Revision 6.0, section 19).
module PixelTypes {
  import opened Wrappers

  datatype PixelType =
    | INT8 | INT16 | INT32 | UINT8 | UINT16 | UINT32
    | BIT | FLOAT | DOUBLE | COMPLEXFLOAT | COMPLEXDOUBLE

  /** The TIFF SampleFormat tag values the library distinguishes. */
  datatype SampleFormat =
    | UnsignedInt | SignedInt | IeeeFloat | Untyped | ComplexInt | ComplexFloat

  /** The SampleFormat family setPixelType writes for a pixel type. */
  function FormatOf(pt: PixelType): SampleFormat
  {
    match pt
    case BIT | UINT8 | UINT16 | UINT32 => UnsignedInt
    case INT8 | INT16 | INT32 => SignedInt
    case FLOAT | DOUBLE => IeeeFloat
    case COMPLEXFLOAT | COMPLEXDOUBLE => ComplexFloat
  }

  /** The bit depth a pixel type is stored with. */
  function NaturalBits(pt: PixelType): nat
  {
    match pt
    case BIT => 1
    case INT8 | UINT8 => 8
    case INT16 | UINT16 => 16
    case INT32 | UINT32 | FLOAT => 32
    case DOUBLE | COMPLEXFLOAT => 64
    case COMPLEXDOUBLE => 128
  }

  /** Size in bytes of one element of a buffer of the type. */
  function ElementBytes(pt: PixelType): nat
  {
    match pt
    case BIT | INT8 | UINT8 => 1
    case INT16 | UINT16 => 2
    case INT32 | UINT32 | FLOAT => 4
    case DOUBLE | COMPLEXFLOAT => 8
    case COMPLEXDOUBLE => 16
  }

  /**
   * IFD::getPixelType for a directory with no cached type: a missing
   * SampleFormat tag reads as unsigned integer; any other combination of
   * format and depth than the eleven below is an error.
   */
  function DecodePixelType(format: Option<SampleFormat>, bits: nat): (r: Result<PixelType>)
    ensures r.Ok? ==> FormatOf(r.value) == format.GetOr(UnsignedInt) && NaturalBits(r.value) == bits
    ensures format.GetOr(UnsignedInt) == Untyped || format.GetOr(UnsignedInt) == ComplexInt ==>
              r == Err("TIFF SampleFormat unsupported by OME data model PixelType")
  {
    match format.GetOr(UnsignedInt)
    case UnsignedInt =>
      if bits == 1 then Ok(BIT)
      else if bits == 8 then Ok(UINT8)
      else if bits == 16 then Ok(UINT16)
      else if bits == 32 then Ok(UINT32)
      else Err("Bit depth unsupported for unsigned integer pixel type")
    case SignedInt =>
      if bits == 8 then Ok(INT8)
      else if bits == 16 then Ok(INT16)
      else if bits == 32 then Ok(INT32)
      else Err("Bit depth unsupported for signed integer pixel type")
    case IeeeFloat =>
      if bits == 32 then Ok(FLOAT)
      else if bits == 64 then Ok(DOUBLE)
      else Err("Bit depth unsupported for floating point pixel type")
    case ComplexFloat =>
      if bits == 64 then Ok(COMPLEXFLOAT)
      else if bits == 128 then Ok(COMPLEXDOUBLE)
      else Err("Bit depth unsupported for complex floating point pixel type")
    case _ => Err("TIFF SampleFormat unsupported by OME data model PixelType")
  }

  /** Writing a type's format and natural depth and reading them back gives the type. */
  lemma EncodeDecodePixelType(pt: PixelType)
    ensures DecodePixelType(Some(FormatOf(pt)), NaturalBits(pt)) == Ok(pt)
  {
  }

  /**
   * Conversely, every pair that decodes is the encoding of what it
   * decodes to, except that a missing SampleFormat stands for unsigned.
   */
  lemma DecodedIsEncoding(format: Option<SampleFormat>, bits: nat)
    requires DecodePixelType(format, bits).Ok?
    ensures var pt := DecodePixelType(format, bits).value;
      FormatOf(pt) == format.GetOr(UnsignedInt) && NaturalBits(pt) == bits
  {
  }

  /** Several depths of one family decode to distinct types, and the untyped formats never decode. */
  lemma DecodeRejects(bits: nat)
    ensures DecodePixelType(Some(Untyped), bits).Err?
    ensures DecodePixelType(Some(ComplexInt), bits).Err?
    ensures DecodePixelType(None, bits) == DecodePixelType(Some(UnsignedInt), bits)
    ensures DecodePixelType(Some(SignedInt), 1).Err?
  {
  }
}
