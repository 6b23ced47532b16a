/**
 * `TGAImage` (with the fields of its `Image` base): loading a TGA file's
 * pixel data into a byte buffer, and the in-place and copying conversions
 * applied to that buffer. The file is given as its bytes, or `None` when it
 * cannot be opened.
 */
module TgaImage {
  import opened Base
  import opened MCommon
  import opened TgaFormat

  const NullPixelsMessage: string := "TGAImage::FlipVertical - Pixel data is a null pointer!"

  /** Type codes the loader gives a depth and a format to. */
  predicate KnownTypeCode(h: Header)
  {
    h.imageTypeCode in {TrueColour, Grayscale, CompressedTrueColour, CompressedGrayscale}
  }

  /** Colour depth after a load: 24 or 32 for true colour, 8 for grayscale, unchanged for other codes. */
  function LoadedDepth(h: Header, oldDepth: byte): byte
  {
    if h.imageTypeCode == TrueColour || h.imageTypeCode == CompressedTrueColour then
      (if ColourMode(h) == 3 then 24 else 32)
    else if h.imageTypeCode == Grayscale || h.imageTypeCode == CompressedGrayscale then 8
    else oldDepth
  }

  function LoadedFormat(h: Header, oldFormat: DataFormat): DataFormat
  {
    if h.imageTypeCode == TrueColour || h.imageTypeCode == CompressedTrueColour then
      (if ColourMode(h) == 3 then RGB else RGBA)
    else if h.imageTypeCode == Grayscale || h.imageTypeCode == CompressedGrayscale then Luminance
    else oldFormat
  }

  /** Bytes per pixel that `FlipVertical` and `SwapRedBlue` assume: none for depths they ignore. */
  function DepthBytes(depth: byte): nat
  {
    if depth == 32 then 4 else if depth == 24 then 3 else 0
  }

  /** `width * height * colourMode` as a number: the bytes the image really has. */
  function WideImageBytes(h: Header): nat
  {
    h.width * h.height * ColourMode(h)
  }

  /** The buffer the image needs: both sides widened to powers of two when asked. */
  function WideBufferBytes(h: Header, resizeToPow2: bool): nat
  {
    if resizeToPow2 then Pow2Ceil(h.width) * Pow2Ceil(h.height) * ColourMode(h) else WideImageBytes(h)
  }

  /**
   * `imageSize` as the loader computes it: a product of `unsigned int`s,
   * so it wraps modulo 2^32.
   */
  function ImageBytes(h: Header): (n: nat)
    ensures n < TwoTo32
  {
    WideImageBytes(h) % TwoTo32
  }

  /** `realImageSize`, the allocated buffer, also an `unsigned int` product that wraps modulo 2^32. */
  function BufferBytes(h: Header, resizeToPow2: bool): (n: nat)
    ensures n < TwoTo32
    ensures !resizeToPow2 ==> n == ImageBytes(h)
  {
    WideBufferBytes(h, resizeToPow2) % TwoTo32
  }

  /** The bytes the read step delivers: a block read, or the packet decoder's output. */
  function Payload(file: seq<byte>, h: Header): seq<byte>
  {
    var start := DataStart(h, |file|);
    if Uncompressed(h) then Available(file, start, ImageBytes(h))
    else RleStream(file, start, ColourMode(h), ImageBytes(h))
  }

  /** `FlipVertical`'s effect on the buffer. */
  function FlipFor(s: seq<byte>, depth: byte, width: nat, height: nat): seq<byte>
    requires width * DepthBytes(depth) * height <= |s|
  {
    if DepthBytes(depth) == 0 then s else Flipped(s, width * DepthBytes(depth), height)
  }

  /** `SwapRedBlue`'s effect on the buffer. */
  function SwapFor(s: seq<byte>, depth: byte, width: nat, height: nat): seq<byte>
    requires DepthBytes(depth) * (width * height) <= |s|
  {
    if DepthBytes(depth) == 0 then s else Swapped(s, DepthBytes(depth), width * height)
  }

  /** The rows the flip and the swap after a load touch lie inside the buffer. */
  predicate FlipSwapFits(h: Header, resizeToPow2: bool, oldDepth: byte)
  {
    h.width * DepthBytes(LoadedDepth(h, oldDepth)) * h.height <= BufferBytes(h, resizeToPow2)
  }

  /**
   * What a load the model can follow demands: a whole header, and, for an
   * image the loader accepts, a read that stays inside the allocated buffer
   * and a flip and swap that stay inside it too. A load breaking these
   * writes or reads past `pixelData`.
   */
  ghost predicate LoadDefined(file: Option<seq<byte>>, resizeToPow2: bool, oldDepth: byte)
  {
    file.Some? ==>
      && |file.value| >= HeaderSize
      && var h := ReadHeader(file.value);
         (Unsupported(h) || ColourMode(h) < 3 ||
          (|Payload(file.value, h)| <= BufferBytes(h, resizeToPow2) && FlipSwapFits(h, resizeToPow2, oldDepth)))
  }

  /** The buffer after the read step and the padding: the image bytes read, then zeros. */
  function Filled(file: seq<byte>, h: Header, resizeToPow2: bool): (r: seq<byte>)
    requires ImageBytes(h) <= |Payload(file, h)| <= BufferBytes(h, resizeToPow2)
    ensures |r| == BufferBytes(h, resizeToPow2) && ImageBytes(h) <= |r|
    ensures r[..ImageBytes(h)] == Payload(file, h)[..ImageBytes(h)]
    ensures forall k :: ImageBytes(h) <= k < |r| ==> r[k] == 0
  {
    Payload(file, h)[..ImageBytes(h)] + Zeros(BufferBytes(h, resizeToPow2) - ImageBytes(h))
  }

  /** The buffer a successful load leaves, when the file held a whole image. */
  function LoadedPixels(file: seq<byte>, h: Header, resizeToPow2: bool, oldDepth: byte): seq<byte>
    requires ColourMode(h) >= 3 && ImageBytes(h) <= |Payload(file, h)| <= BufferBytes(h, resizeToPow2)
    requires FlipSwapFits(h, resizeToPow2, oldDepth)
  {
    var depth := LoadedDepth(h, oldDepth);
    SwapWithinFlip(h.width, h.height, DepthBytes(depth));
    SwapFor(Oriented(Filled(file, h, resizeToPow2), h, depth), depth, h.width, h.height)
  }

  /** The buffer after the flip that a top-left origin calls for. */
  function Oriented(s: seq<byte>, h: Header, depth: byte): (r: seq<byte>)
    requires h.width * DepthBytes(depth) * h.height <= |s|
    ensures |r| == |s|
  {
    if (h.imageDescriptor as bv8) & TopLeft == TopLeft then FlipFor(s, depth, h.width, h.height) else s
  }

  /** The swap covers the same bytes as the flip. */
  lemma {:induction false} SwapWithinFlip(width: nat, height: nat, d: nat)
    ensures width * d * height == d * (width * height)
  {
  }

  /** Widening both sides never shrinks the buffer the image needs. */
  lemma {:induction false} ImageWithinBuffer(h: Header, resizeToPow2: bool)
    ensures WideImageBytes(h) <= WideBufferBytes(h, resizeToPow2)
  {
    if resizeToPow2 {
      var m := ColourMode(h);
      MulMonoLe(h.width, Pow2Ceil(h.width), h.height);
      MulMonoLe(h.height, Pow2Ceil(h.height), Pow2Ceil(h.width));
      MulMonoLe(h.width * h.height, Pow2Ceil(h.width) * Pow2Ceil(h.height), m);
    }
  }

  /**
   * While the buffer the image needs stays below 2^32 the loader's sizes
   * do not wrap, so the image fits in the buffer.
   */
  lemma {:induction false} SizesWithoutWrap(h: Header, resizeToPow2: bool)
    requires WideBufferBytes(h, resizeToPow2) < TwoTo32
    ensures ImageBytes(h) == WideImageBytes(h) && BufferBytes(h, resizeToPow2) == WideBufferBytes(h, resizeToPow2)
    ensures ImageBytes(h) <= BufferBytes(h, resizeToPow2)
  {
    ImageWithinBuffer(h, resizeToPow2);
  }

  /**
   * A 32769 by 32769 true-colour image widened to 65536 by 65536: the
   * buffer size wraps to 0 while the image size does not, so the loader
   * reads three gigabytes into an empty buffer.
   */
  lemma {:induction false} PaddedBufferWraps(h: Header)
    requires h.width == 32769 && h.height == 32769 && h.bitsPerPixel == 24
    ensures ImageBytes(h) == 3221422083 && BufferBytes(h, true) == 0
  {
    var v := 32769;
    assert Pow2From(2, v) == Pow2From(4, v) == Pow2From(8, v) == Pow2From(16, v) == Pow2From(32, v);
    assert Pow2From(32, v) == Pow2From(64, v) == Pow2From(128, v) == Pow2From(256, v) == Pow2From(512, v);
    assert Pow2From(512, v) == Pow2From(1024, v) == Pow2From(2048, v) == Pow2From(4096, v) == Pow2From(8192, v);
    assert Pow2From(8192, v) == Pow2From(16384, v) == Pow2From(32768, v) == Pow2From(65536, v) == 65536;
    assert WideBufferBytes(h, true) == 65536 * 65536 * 3 == 3 * TwoTo32;
  }

  /**
   * Without a wrap, a whole header, a type code the loader knows (or an
   * old depth the pixels can hold) and a decoder that stays in the buffer
   * are all a load needs.
   */
  lemma {:induction false} LoadDefinedWithoutWrap(file: seq<byte>, resizeToPow2: bool, oldDepth: byte)
    requires |file| >= HeaderSize
    requires var h := ReadHeader(file);
             && WideBufferBytes(h, resizeToPow2) < TwoTo32
             && (KnownTypeCode(h) || DepthBytes(oldDepth) <= ColourMode(h))
             && (Uncompressed(h) || |Payload(file, h)| <= BufferBytes(h, resizeToPow2))
    ensures LoadDefined(Some(file), resizeToPow2, oldDepth)
  {
    var h := ReadHeader(file);
    SizesWithoutWrap(h, resizeToPow2);
    if !Unsupported(h) && ColourMode(h) >= 3 {
      BufferCovers(h, resizeToPow2, LoadedDepth(h, oldDepth), oldDepth);
    }
  }

  /** Without a wrap, the flip and the swap after a load stay inside the buffer. */
  lemma {:induction false} BufferCovers(h: Header, resizeToPow2: bool, depth: byte, oldDepth: byte)
    requires ColourMode(h) >= 3 && depth == LoadedDepth(h, oldDepth)
    requires KnownTypeCode(h) || DepthBytes(oldDepth) <= ColourMode(h)
    requires WideBufferBytes(h, resizeToPow2) < TwoTo32
    ensures h.width * DepthBytes(depth) * h.height <= BufferBytes(h, resizeToPow2)
  {
    var m := ColourMode(h);
    var d := DepthBytes(depth);
    assert d <= m;
    MulMonoLe(d, m, h.width * h.height);
    assert h.width * d * h.height == d * (h.width * h.height) == (h.width * h.height) * d;
    assert WideImageBytes(h) == (h.width * h.height) * m;
    SizesWithoutWrap(h, resizeToPow2);
  }

  /**
   * A compressed 1 by 1 image whose only packet is a run of 128 pixels:
   * the decoder writes 384 bytes into a 3-byte buffer.
   */
  lemma {:induction false} RleOverrunsBuffer(file: seq<byte>)
    requires file == [0, 0, CompressedTrueColour, 0, 0, 0, 0, 0, 0, 0, 0, 0, 1, 0, 1, 0, 24, 0, 255, 7, 8, 9]
    ensures var h := ReadHeader(file);
            && BufferBytes(h, false) == 3 && |Payload(file, h)| == 384
            && !LoadDefined(Some(file), false, 24)
  {
    var h := ReadHeader(file);
    assert h.width == 1 && h.height == 1 && ColourMode(h) == 3 && DataStart(h, |file|) == 18;
    assert ImageBytes(h) == 3;
    RleStreamUnfold(file, 18, 3, 3);
    assert |PacketBytes(file, 18, 3)| == 384;
  }

  /**
   * On a compressed image the bytes a load keeps are those of the decoder
   * that stops at the image size.
   */
  lemma {:induction false} FilledIsClamped(file: seq<byte>, h: Header, resizeToPow2: bool)
    requires !Uncompressed(h)
    requires ImageBytes(h) <= |Payload(file, h)| <= BufferBytes(h, resizeToPow2)
    ensures Filled(file, h, resizeToPow2)[..ImageBytes(h)]
            == ClampedRle(file, DataStart(h, |file|), ColourMode(h), ImageBytes(h))
  {
    ClampedRleIsPrefix(file, DataStart(h, |file|), ColourMode(h), ImageBytes(h));
  }

  /** The sizes the loader computes, in `unsigned int` arithmetic. */
  method BufferSizes(h: Header, colourMode: nat, realWidth: nat, realHeight: nat, resizeToPow2: bool)
    returns (imageSize: nat, realImageSize: nat)
    requires colourMode == ColourMode(h)
    requires realWidth == (if resizeToPow2 then Pow2Ceil(h.width) else h.width)
    requires realHeight == (if resizeToPow2 then Pow2Ceil(h.height) else h.height)
    ensures imageSize == ImageBytes(h) && realImageSize == BufferBytes(h, resizeToPow2)
    ensures imageSize < TwoTo32 && realImageSize < TwoTo32
    ensures WideBufferBytes(h, resizeToPow2) < TwoTo32 ==> imageSize <= realImageSize
  {
    imageSize := (h.width * h.height * colourMode) % TwoTo32;
    realImageSize := (realWidth * realHeight * colourMode) % TwoTo32;
    if WideBufferBytes(h, resizeToPow2) < TwoTo32 {
      SizesWithoutWrap(h, resizeToPow2);
    }
  }

  /**
   * The allocation, the read or decoding step and the zero padding of a
   * load whose header passed the checks: `realImageSize` bytes, the image
   * bytes first.
   */
  method ReadPixels(file: seq<byte>, h: Header, resizeToPow2: bool, colourMode: nat, imageSize: nat, realImageSize: nat)
    returns (data: array<byte>)
    requires colourMode == ColourMode(h) && imageSize == ImageBytes(h) && realImageSize == BufferBytes(h, resizeToPow2)
    requires |Payload(file, h)| <= realImageSize
    ensures fresh(data) && data.Length == realImageSize
    ensures imageSize <= |Payload(file, h)| ==> data[..] == Filled(file, h, resizeToPow2)
  {
    data := new byte[realImageSize];
    var start := DataStart(h, |file|);
    ghost var payload := Payload(file, h);
    if Uncompressed(h) {
      ReadBlock(data, file, start, imageSize);
    } else {
      DecodeRle(data, file, start, colourMode, imageSize);
    }
    ghost var read := data[..];
    if resizeToPow2 {
      PadWithZeros(data, imageSize);
    }
    if imageSize <= |payload| {
      ReadIsFilled(file, h, resizeToPow2, read, data[..]);
    }
  }

  /** The read bytes, padded with zeros after the image when the buffer was widened, are the filled buffer. */
  lemma {:induction false} ReadIsFilled(file: seq<byte>, h: Header, resizeToPow2: bool, read: seq<byte>, padded: seq<byte>)
    requires ImageBytes(h) <= |Payload(file, h)| <= |read| == BufferBytes(h, resizeToPow2)
    requires read[..|Payload(file, h)|] == Payload(file, h)
    requires padded == if resizeToPow2 then read[..ImageBytes(h)] + Zeros(|read| - ImageBytes(h)) else read
    ensures padded == Filled(file, h, resizeToPow2)
  {
    var n := ImageBytes(h);
    var payload := Payload(file, h);
    assert read[..n] == payload[..n];
    if !resizeToPow2 {
      assert |payload| == n == |read|;
    }
  }

  class TgaImage {
    var pixelData: array?<byte>
    var width: nat
    var height: nat
    var imageSize: nat
    var colourDepth: byte
    var imageDataFormat: DataFormat

    /** The `Image` constructor: no pixel data and a zero size; depth and format are left unset. */
    constructor ()
      ensures pixelData == null && width == 0 && height == 0 && imageSize == 0
    {
      pixelData := null;
      width, height, imageSize := 0, 0, 0;
    }

    /**
     * `LoadFromFile(filename, resizeToPow2)`. Refused type codes return
     * false at once; fewer than 24 bits per pixel return false after the
     * width and height are stored. Otherwise the buffer is allocated, the
     * pixel data read or decoded, the padding zeroed, depth and format set,
     * the rows flipped for a top-left origin and red and blue swapped.
     */
    method LoadFromFile(file: Option<seq<byte>>, resizeToPow2: bool) returns (ok: bool)
      requires LoadDefined(file, resizeToPow2, colourDepth)
      modifies this
      ensures file.None? ==> !ok && unchanged(this)
      ensures file.Some? && Unsupported(ReadHeader(file.value)) ==> !ok && unchanged(this)
      ensures file.Some? && !Unsupported(ReadHeader(file.value)) ==>
                var h := ReadHeader(file.value);
                && width == h.width && height == h.height
                && (ColourMode(h) < 3 ==> !ok && pixelData == old(pixelData) && imageSize == old(imageSize)
                                          && colourDepth == old(colourDepth) && imageDataFormat == old(imageDataFormat))
                && (ColourMode(h) >= 3 ==>
                      && ok && pixelData != null && fresh(pixelData)
                      && imageSize == ImageBytes(h)
                      && pixelData.Length == BufferBytes(h, resizeToPow2)
                      && colourDepth == LoadedDepth(h, old(colourDepth))
                      && imageDataFormat == LoadedFormat(h, old(imageDataFormat))
                      && (ImageBytes(h) <= |Payload(file.value, h)| ==>
                            pixelData[..] == LoadedPixels(file.value, h, resizeToPow2, old(colourDepth))))
    {
      if file.None? {
        return false;
      }
      var f := file.value;
      var h := ReadHeader(f);
      if Unsupported(h) {
        return false;
      }
      width, height := h.width, h.height;
      var realWidth, realHeight := width, height;
      if resizeToPow2 {
        realWidth := ClosestPow2(width);
        realHeight := ClosestPow2(height);
      }
      var colourMode := h.bitsPerPixel / 8;
      if colourMode < 3 {
        return false;
      }
      var size, realImageSize := BufferSizes(h, colourMode, realWidth, realHeight, resizeToPow2);
      imageSize := size;
      pixelData := ReadPixels(f, h, resizeToPow2, colourMode, imageSize, realImageSize);
      SwapWithinFlip(width, height, DepthBytes(LoadedDepth(h, colourDepth)));
      FinishLoad(h);
      ok := true;
    }

    /**
     * The steps of a load after the read: depth and format from the type
     * code, the flip for a top-left origin, then the red/blue swap.
     */
    method FinishLoad(h: Header)
      requires width == h.width && height == h.height && pixelData != null
      requires width * DepthBytes(LoadedDepth(h, colourDepth)) * height <= pixelData.Length
      requires DepthBytes(LoadedDepth(h, colourDepth)) * (width * height) <= pixelData.Length
      modifies this`colourDepth, this`imageDataFormat, pixelData
      ensures colourDepth == LoadedDepth(h, old(colourDepth))
      ensures imageDataFormat == LoadedFormat(h, old(imageDataFormat))
      ensures pixelData[..] == SwapFor(Oriented(old(pixelData[..]), h, colourDepth), colourDepth, width, height)
    {
      var colourMode := h.bitsPerPixel / 8;
      if h.imageTypeCode == TrueColour || h.imageTypeCode == CompressedTrueColour {
        if colourMode == 3 {
          imageDataFormat, colourDepth := RGB, 24;
        } else {
          imageDataFormat, colourDepth := RGBA, 32;
        }
      } else if h.imageTypeCode == Grayscale || h.imageTypeCode == CompressedGrayscale {
        imageDataFormat, colourDepth := Luminance, 8;
      }
      if (h.imageDescriptor as bv8) & TopLeft == TopLeft {
        var _ := FlipVertical();
      }
      var _ := SwapRedBlue();
    }

    /** `LoadFromFile(filename)`: the same steps with no widening. */
    method LoadFromFileUnpadded(file: Option<seq<byte>>) returns (ok: bool)
      requires LoadDefined(file, false, colourDepth)
      modifies this
      ensures file.None? ==> !ok && unchanged(this)
      ensures file.Some? && Unsupported(ReadHeader(file.value)) ==> !ok && unchanged(this)
      ensures file.Some? && !Unsupported(ReadHeader(file.value)) ==>
                var h := ReadHeader(file.value);
                && width == h.width && height == h.height
                && (ColourMode(h) < 3 ==> !ok && pixelData == old(pixelData) && imageSize == old(imageSize)
                                          && colourDepth == old(colourDepth) && imageDataFormat == old(imageDataFormat))
                && (ColourMode(h) >= 3 ==>
                      && ok && pixelData != null && fresh(pixelData)
                      && imageSize == ImageBytes(h)
                      && pixelData.Length == ImageBytes(h)
                      && colourDepth == LoadedDepth(h, old(colourDepth))
                      && imageDataFormat == LoadedFormat(h, old(imageDataFormat))
                      && (ImageBytes(h) <= |Payload(file.value, h)| ==>
                            pixelData[..] == LoadedPixels(file.value, h, false, old(colourDepth))))
    {
      ok := LoadFromFile(file, false);
    }

    /**
     * `FlipVertical`: exchanges row `r` with row `height - 1 - r` for the
     * top half of the rows, a row being `width` pixels of the depth's size;
     * depths other than 24 and 32 are left alone. Throws when there is no
     * pixel data.
     */
    method FlipVertical() returns (r: Outcome<()>)
      requires pixelData != null ==> width * DepthBytes(colourDepth) * height <= pixelData.Length
      modifies pixelData
      ensures pixelData == null ==> r == Throw(NullPixelsMessage)
      ensures pixelData != null ==> r == Return(()) && pixelData[..] == FlipFor(old(pixelData[..]), colourDepth, width, height)
    {
      if pixelData == null {
        return Throw(NullPixelsMessage);
      }
      var colourMode: nat;
      if colourDepth == 32 {
        colourMode := 4;
      } else if colourDepth == 24 {
        colourMode := 3;
      } else {
        return Return(());
      }
      var lineWidth := width * colourMode;
      FlipRows(pixelData, lineWidth, height);
      r := Return(());
    }

    /** `SwapRedBlue`: exchanges bytes 0 and 2 of each of `width * height` pixels for depths 24 and 32. */
    method SwapRedBlue() returns (r: Outcome<()>)
      requires pixelData != null ==> DepthBytes(colourDepth) * (width * height) <= pixelData.Length
      modifies pixelData
      ensures pixelData == null ==> r == Throw(NullPixelsMessage)
      ensures pixelData != null ==> r == Return(()) && pixelData[..] == SwapFor(old(pixelData[..]), colourDepth, width, height)
    {
      if pixelData == null {
        return Throw(NullPixelsMessage);
      }
      if colourDepth == 32 {
        SwapComponents(pixelData, 4, width * height);
      } else if colourDepth == 24 {
        SwapComponents(pixelData, 3, width * height);
      }
      r := Return(());
    }

    /**
     * `ConvertRGBAToRGB`: only a 32-bit RGBA image is converted, into a new
     * buffer of `width * height` 3-byte pixels; anything else returns false
     * and changes nothing.
     */
    method ConvertRGBAToRGB() returns (ok: bool)
      requires colourDepth == 32 && imageDataFormat == RGBA ==>
                 pixelData != null && 4 * (width * height) <= pixelData.Length
      modifies this`pixelData, this`colourDepth, this`imageDataFormat
      ensures ok <==> old(colourDepth) == 32 && old(imageDataFormat) == RGBA
      ensures !ok ==> pixelData == old(pixelData) && colourDepth == old(colourDepth) && imageDataFormat == old(imageDataFormat)
      ensures ok ==> && pixelData != null && fresh(pixelData)
                     && pixelData[..] == DropAlpha(old(pixelData[..]), width * height)
                     && colourDepth == 24 && imageDataFormat == RGB
    {
      if colourDepth == 32 && imageDataFormat == RGBA {
        var newPixelData := DropAlphaCopy(pixelData[..], width * height);
        pixelData := newPixelData;
        colourDepth := 24;
        imageDataFormat := RGB;
        return true;
      }
      return false;
    }

    /**
     * `ConvertRGBToRGBA`: only a 24-bit RGB image is converted. The new
     * buffer holds `width * height` 4-byte pixels, but both loops run to
     * `height`, so `height * height` pixels are copied, each followed by
     * `alpha`; the rest of the buffer is not written.
     */
    method ConvertRGBToRGBA(alpha: byte) returns (ok: bool)
      requires colourDepth == 24 && imageDataFormat == RGB ==>
                 && pixelData != null && 3 * (height * height) <= pixelData.Length
                 && height * height <= width * height
      modifies this`pixelData, this`colourDepth, this`imageDataFormat
      ensures ok <==> old(colourDepth) == 24 && old(imageDataFormat) == RGB
      ensures !ok ==> pixelData == old(pixelData) && colourDepth == old(colourDepth) && imageDataFormat == old(imageDataFormat)
      ensures ok ==> && pixelData != null && fresh(pixelData)
                     && pixelData.Length == 4 * (width * height)
                     && pixelData[..4 * (height * height)] == AddAlpha(old(pixelData[..]), height * height, alpha)
                     && colourDepth == 32 && imageDataFormat == RGBA
    {
      if colourDepth == 24 && imageDataFormat == RGB {
        var newPixelData := AddAlphaCopy(pixelData[..], height * height, width * height, alpha);
        pixelData := newPixelData;
        colourDepth := 32;
        imageDataFormat := RGBA;
        return true;
      }
      return false;
    }
  }

  /**
   * The flip loop: `top` and `bottom` walk towards each other one line at a
   * time, and each pass exchanges the two lines through a temporary copy.
   */
  method FlipRows(data: array<byte>, lineWidth: nat, rows: nat)
    requires lineWidth * rows <= data.Length
    modifies data
    ensures data[..] == Flipped(old(data[..]), lineWidth, rows)
  {
    ghost var before := data[..];
    var top: nat := 0;
    var bottom: int := lineWidth * (rows - 1);
    PartFlipNone(before, lineWidth, rows);
    var i := 0;
    while i < rows / 2
      invariant i <= rows / 2 && data.Length == |before|
      invariant top == i * lineWidth && bottom == (rows - 1 - i) * lineWidth
      invariant data[..] == PartFlip(before, lineWidth, rows, i)
    {
      PassRows(lineWidth, rows, i, top, bottom);
      PartFlipStep(before, lineWidth, rows, i, top, bottom);
      ExchangeRows(data, top, bottom, lineWidth);
      MulSucc(i, lineWidth);
      MulSucc(rows - 1 - (i + 1), lineWidth);
      top := top + lineWidth;
      bottom := bottom - lineWidth;
      i := i + 1;
    }
    PartFlipAll(before, lineWidth, rows);
  }

  /** The three `memcpy`s of one pass. */
  method ExchangeRows(data: array<byte>, top: nat, bottom: nat, lineWidth: nat)
    requires top + lineWidth <= bottom && bottom + lineWidth <= data.Length
    modifies data
    ensures data[..] == Exchanged(old(data[..]), top, bottom, lineWidth)
  {
    var temp := data[top..top + lineWidth];
    forall k | 0 <= k < lineWidth {
      data[top + k] := data[bottom + k];
    }
    forall k | 0 <= k < lineWidth {
      data[bottom + k] := temp[k];
    }
    assert data[..] == Exchanged(old(data[..]), top, bottom, lineWidth);
  }

  /** The swap loop over `count` pixels of `w` bytes. */
  method SwapComponents(data: array<byte>, w: nat, count: nat)
    requires w >= 3 && w * count <= data.Length
    modifies data
    ensures data[..] == Swapped(old(data[..]), w, count)
  {
    ghost var before := data[..];
    ghost var k: nat := 0;
    var i := 0;
    assert Swapped(before, w, 0) == before;
    while i < count * w
      invariant k <= count && i == k * w
      invariant data[..] == Swapped(before, w, k)
    {
      MulCancelLess(k, count, w);
      SwappedStep(before, w, k, i);
      var temp := data[i];
      data[i] := data[i + 2];
      data[i + 2] := temp;
      i, k := i + w, k + 1;
    }
    if k < count {
      MulMonoLe(k + 1, count, w);
      MulSucc(k, w);
    }
    assert k == count;
  }

  /** `fread` into the buffer: the available bytes, at most `count`, from `start`. */
  method ReadBlock(data: array<byte>, file: seq<byte>, start: nat, count: nat)
    requires |Available(file, start, count)| <= data.Length
    modifies data
    ensures data[..] == Overwrite(old(data[..]), 0, Available(file, start, count))
  {
    var block := Available(file, start, count);
    forall k | 0 <= k < |block| {
      data[k] := block[k];
    }
    assert data[..] == Overwrite(old(data[..]), 0, block);
  }

  /** The padding loop: zeroes from `from` to the end, and nothing when `from` is past the end. */
  method PadWithZeros(data: array<byte>, from: nat)
    modifies data
    ensures from <= data.Length ==> data[..] == old(data[..])[..from] + Zeros(data.Length - from)
    ensures from > data.Length ==> data[..] == old(data[..])
  {
    if from > data.Length {
      return;
    }
    var i := from;
    while i < data.Length
      invariant from <= i <= data.Length
      invariant data[..] == old(data[..])[..from] + Zeros(i - from) + old(data[..])[i..]
    {
      data[i] := 0;
      assert Zeros(i + 1 - from) == Zeros(i - from) + [0];
      i := i + 1;
    }
  }

  /** The four (or three) byte assignments of one pixel. */
  method WritePixel(data: array<byte>, i: nat, pixel: seq<byte>) returns (next: nat)
    requires (|pixel| == 3 || |pixel| == 4) && i + |pixel| <= data.Length
    modifies data
    ensures next == i + |pixel|
    ensures data[..] == Overwrite(old(data[..]), i, pixel)
  {
    data[i] := pixel[0];
    data[i + 1] := pixel[1];
    data[i + 2] := pixel[2];
    if |pixel| == 4 {
      data[i + 3] := pixel[3];
    }
    next := i + |pixel|;
    assert data[..] == Overwrite(old(data[..]), i, pixel);
  }

  /** A run packet's loop: `count` copies of `pixel`. */
  method WriteRun(data: array<byte>, i: nat, pixel: seq<byte>, count: nat) returns (next: nat)
    requires |pixel| == 3 || |pixel| == 4
    requires i + count * |pixel| <= data.Length
    modifies data
    ensures next == i + count * |pixel|
    ensures data[..] == Overwrite(old(data[..]), i, Repeat(pixel, count))
  {
    ghost var before := data[..];
    ghost var done: nat := 0;
    var length: nat := count;
    next := i;
    OverwriteNothing(before, i);
    while length > 0
      invariant done + length == count && data.Length == |before|
      invariant next == i + done * |pixel|
      invariant data[..] == Overwrite(before, i, Repeat(pixel, done))
    {
      next := RunPixel(data, before, i, pixel, done, count, next);
      length, done := length - 1, done + 1;
    }
    assert done == count;
  }

  /** One pass of `WriteRun`'s loop: copy `done` of the pixel written. */
  method RunPixel(data: array<byte>, ghost before: seq<byte>, ghost i: nat, pixel: seq<byte>,
                  ghost done: nat, ghost count: nat, at: nat) returns (next: nat)
    requires |pixel| == 3 || |pixel| == 4
    requires done < count && i + count * |pixel| <= data.Length == |before|
    requires at == i + done * |pixel|
    requires data[..] == Overwrite(before, i, Repeat(pixel, done))
    modifies data
    ensures next == i + (done + 1) * |pixel|
    ensures data[..] == Overwrite(before, i, Repeat(pixel, done + 1))
  {
    MulSucc(done, |pixel|);
    MulMonoLe(done + 1, count, |pixel|);
    assert Repeat(pixel, done + 1) == Repeat(pixel, done) + pixel;
    next := WritePixel(data, at, pixel);
    OverwriteTwice(before, i, Repeat(pixel, done), at, pixel);
  }

  /** A literal packet's loop: `count` pixels read one after the other from `pos`. */
  method WriteLiteral(data: array<byte>, i: nat, file: seq<byte>, pos: nat, count: nat, w: nat)
    returns (next: nat, nextPos: nat)
    requires w == 3 || w == 4
    requires i + count * w <= data.Length
    modifies data
    ensures next == i + count * w && nextPos == pos + count * w
    ensures data[..] == Overwrite(old(data[..]), i, LiteralBytes(file, pos, count, w))
  {
    ghost var before := data[..];
    ghost var lit: seq<byte> := [];
    ghost var done: nat := 0;
    var length: nat := count;
    next, nextPos := i, pos;
    assert data[..] == Overwrite(before, i, lit);
    while length > 0
      invariant done + length == count && data.Length == |before|
      invariant lit == LiteralBytes(file, pos, done, w)
      invariant next == i + |lit| && nextPos == pos + |lit|
      invariant data[..] == Overwrite(before, i, lit)
    {
      next, nextPos := LiteralPixel(data, before, i, file, pos, done, count, w, next, nextPos);
      lit := LiteralBytes(file, pos, done + 1, w);
      length, done := length - 1, done + 1;
    }
    assert done == count;
  }

  /** One pass of `WriteLiteral`'s loop: pixel `done` of the packet read and written. */
  method LiteralPixel(data: array<byte>, ghost before: seq<byte>, ghost i: nat, file: seq<byte>, ghost pos: nat,
                      ghost done: nat, ghost count: nat, w: nat, at: nat, atPos: nat)
    returns (next: nat, nextPos: nat)
    requires w == 3 || w == 4
    requires done < count && i + count * w <= data.Length == |before|
    requires at == i + done * w && atPos == pos + done * w
    requires data[..] == Overwrite(before, i, LiteralBytes(file, pos, done, w))
    modifies data
    ensures next == i + (done + 1) * w && nextPos == pos + (done + 1) * w
    ensures data[..] == Overwrite(before, i, LiteralBytes(file, pos, done + 1, w))
  {
    MulSucc(done, w);
    MulMonoLe(done + 1, count, w);
    var pixel := ReadBytes(file, atPos, w);
    assert LiteralBytes(file, pos, done + 1, w) == LiteralBytes(file, pos, done, w) + pixel;
    next := WritePixel(data, at, pixel);
    OverwriteTwice(before, i, LiteralBytes(file, pos, done, w), at, pixel);
    nextPos := atPos + w;
  }

  /** One pass of the decoding loop: the packet whose header byte is at `pos`. */
  method WritePacket(data: array<byte>, i: nat, file: seq<byte>, pos: nat, colourMode: nat)
    returns (next: nat, nextPos: nat)
    requires i + |PacketBytes(file, pos, colourMode)| <= data.Length
    modifies data
    ensures next == i + |PacketBytes(file, pos, colourMode)| && nextPos == PacketEnd(file, pos, colourMode)
    ensures data[..] == Overwrite(old(data[..]), i, PacketBytes(file, pos, colourMode))
  {
    var w := if colourMode == 4 then 4 else 3;
    var id := ByteAt(file, pos);
    assert w == PixelBytes(colourMode);
    PacketForm(file, pos, colourMode);
    if id >= 128 {
      var pixel := ReadBytes(file, pos + 1, w);
      next := WriteRun(data, i, pixel, id - 127);
      nextPos := pos + 1 + w;
    } else {
      next, nextPos := WriteLiteral(data, i, file, pos + 1, id + 1, w);
    }
  }

  /** The decoding loop of a compressed image: packets until `imageSize` bytes are written. */
  method DecodeRle(data: array<byte>, file: seq<byte>, start: nat, colourMode: nat, imageSize: nat)
    requires |RleStream(file, start, colourMode, imageSize)| <= data.Length
    modifies data
    ensures data[..] == Overwrite(old(data[..]), 0, RleStream(file, start, colourMode, imageSize))
  {
    ghost var before := data[..];
    ghost var full := RleStream(file, start, colourMode, imageSize);
    ghost var written: seq<byte> := [];
    var i := 0;
    var pos := start;
    assert data[..] == Overwrite(before, 0, []);
    while i < imageSize
      invariant |written| == i && data.Length == |before|
      invariant written + RleStream(file, pos, colourMode, imageSize - i) == full
      invariant data[..] == Overwrite(before, 0, written)
      decreases imageSize - i
    {
      var next, nextPos := DecodePacket(data, before, written, i, file, pos, colourMode, imageSize);
      written := written + PacketBytes(file, pos, colourMode);
      i, pos := next, nextPos;
    }
    assert written == full;
  }

  /** One pass of `DecodeRle`'s loop: the packet at `pos` decoded after the `written` bytes. */
  method DecodePacket(data: array<byte>, ghost before: seq<byte>, ghost written: seq<byte>, at: nat,
                      file: seq<byte>, pos: nat, colourMode: nat, imageSize: nat)
    returns (next: nat, nextPos: nat)
    requires at == |written| && at < imageSize && data.Length == |before|
    requires |written| + |RleStream(file, pos, colourMode, imageSize - at)| <= data.Length
    requires data[..] == Overwrite(before, 0, written)
    modifies data
    ensures var packet := PacketBytes(file, pos, colourMode);
            && at < next == |written| + |packet| && nextPos == PacketEnd(file, pos, colourMode)
            && written + RleStream(file, pos, colourMode, imageSize - at)
               == (written + packet) + RleStream(file, nextPos, colourMode, imageSize - next)
            && data[..] == Overwrite(before, 0, written + packet)
  {
    ghost var packet := PacketBytes(file, pos, colourMode);
    ghost var rest := RleStream(file, PacketEnd(file, pos, colourMode), colourMode, imageSize - at - |packet|);
    RleStreamUnfold(file, pos, colourMode, imageSize - at);
    AppendAssociates(written, packet, rest);
    next, nextPos := WritePacket(data, at, file, pos, colourMode);
    assert imageSize - next == imageSize - at - |packet|;
    OverwriteTwice(before, 0, written, at, packet);
  }

  /**
   * `ConvertRGBAToRGB`'s loops: `n` pixels copied in order without their
   * alpha byte into a new buffer. The old buffer is only read, so it is
   * passed as its contents.
   */
  method DropAlphaCopy(src: seq<byte>, n: nat) returns (dst: array<byte>)
    requires 4 * n <= |src|
    ensures fresh(dst) && dst.Length == n * 3
    ensures dst[..] == DropAlpha(src, n)
  {
    dst := new byte[n * 3];
    var i, j := 0, 0;
    for p := 0 to n
      invariant i == 3 * p && j == 4 * p
      invariant dst[..i] == DropAlpha(src, p)
    {
      ghost var prev: seq<byte> := dst[..];
      var pixel := [src[j], src[j + 1], src[j + 2]];
      var _ := WritePixel(dst, i, pixel);
      OverwritePrefix(prev, i, pixel);
      DropAlphaSnoc(src, p);
      i, j := i + 3, j + 4;
    }
    assert dst[..] == dst[..i];
  }

  /**
   * `ConvertRGBToRGBA`'s loops: a new buffer of `size` 4-byte pixels whose
   * first `n` pixels are copied in order, each followed by `alpha`.
   */
  method AddAlphaCopy(src: seq<byte>, n: nat, size: nat, alpha: byte) returns (dst: array<byte>)
    requires 3 * n <= |src| && n <= size
    ensures fresh(dst) && dst.Length == size * 4
    ensures dst[..4 * n] == AddAlpha(src, n, alpha)
  {
    dst := new byte[size * 4];
    var i, j := 0, 0;
    for p := 0 to n
      invariant i == 4 * p && j == 3 * p
      invariant dst[..i] == AddAlpha(src, p, alpha)
    {
      ghost var prev: seq<byte> := dst[..];
      var pixel := [src[j], src[j + 1], src[j + 2], alpha];
      var _ := WritePixel(dst, i, pixel);
      OverwritePrefix(prev, i, pixel);
      AddAlphaSnoc(src, p, alpha);
      i, j := i + 4, j + 3;
    }
  }}
