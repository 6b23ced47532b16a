/**
 * The byte-level side of `TGAImage`: the 18-byte header, the run-length
 * packets of compressed images, and the whole-buffer rearrangements the
 * loader and the converters apply (row flip, red/blue swap, adding and
 * dropping an alpha byte). A file is a byte sequence; reading past its end
 * gives what `fgetc` returns there, `EOF` cast to `unsigned char`.
 */
module TgaFormat {
  import opened Base

  const HeaderSize: nat := 18

  /** The image type codes of the header's `imageTypeCode` byte. */
  const NoData: byte := 0
  const ColourMapped: byte := 1
  const TrueColour: byte := 2
  const Grayscale: byte := 3
  const CompressedColourMapped: byte := 9
  const CompressedTrueColour: byte := 10
  const CompressedGrayscale: byte := 11

  /** The `imageDescriptor` bit saying the first row is the top one. */
  const TopLeft: bv8 := 0x20

  datatype DataFormat = RGB | RGBA | Luminance

  /** The header fields the loader uses; `width` and `height` are little-endian `unsigned short`s. */
  datatype Header = Header(idLength: byte, imageTypeCode: byte, width: nat, height: nat,
                           bitsPerPixel: byte, imageDescriptor: byte)

  function ReadHeader(file: seq<byte>): (h: Header)
    requires |file| >= HeaderSize
    ensures h.width < 65536 && h.height < 65536
    ensures h.idLength == file[0] && h.imageTypeCode == file[2] && h.bitsPerPixel == file[16]
  {
    var w0: int, w1: int, h0: int, h1: int := file[12], file[13], file[14], file[15];
    Header(file[0], file[2], w0 + 256 * w1, h0 + 256 * h1, file[16], file[17])
  }

  /** Colour-mapped images and images without data are refused. */
  predicate Unsupported(h: Header)
  {
    h.imageTypeCode == NoData || h.imageTypeCode == ColourMapped || h.imageTypeCode == CompressedColourMapped
  }

  /** Uncompressed images are read in one block; every other accepted code goes through the packet decoder. */
  predicate Uncompressed(h: Header)
  {
    h.imageTypeCode == TrueColour || h.imageTypeCode == Grayscale
  }

  /** Bytes per pixel in memory: `bitsPerPixel / 8`. */
  function ColourMode(h: Header): nat
  {
    h.bitsPerPixel / 8
  }

  /** Bytes a decoded pixel occupies: 4 when the mode is 4, 3 for every other mode. */
  function PixelBytes(mode: int): (w: nat)
    ensures w == 3 || w == 4
  {
    if mode == 4 then 4 else 3
  }

  /**
   * Where pixel data starts. The loader passes the ID length as the
   * `whence` of `fseek` and `SEEK_CUR` (1) as the offset: a length of 1
   * moves one byte on, 2 moves past the end of the file, and any other
   * length is an invalid `whence` that leaves the position unchanged.
   */
  function DataStart(h: Header, fileLength: nat): (pos: nat)
    ensures h.idLength <= 1 ==> pos == HeaderSize + h.idLength
    ensures h.idLength >= 3 ==> pos == HeaderSize
    ensures h.idLength == 2 ==> pos > fileLength
  {
    if h.idLength == 1 then HeaderSize + 1
    else if h.idLength == 2 then fileLength + 1
    else HeaderSize
  }

  /** `fgetc`: the byte at `pos`, or 255 past the end. */
  function ByteAt(file: seq<byte>, pos: nat): byte
  {
    if pos < |file| then file[pos] else 255
  }

  /** `n` successive `fgetc` results from `pos`. */
  function ReadBytes(file: seq<byte>, pos: nat, n: nat): (r: seq<byte>)
    ensures |r| == n
    ensures forall k :: 0 <= k < n ==> r[k] == ByteAt(file, pos + k)
  {
    seq<byte>(n, k requires 0 <= k < n => ByteAt(file, pos + k))
  }

  /** `n` copies of one pixel. */
  function Repeat(pixel: seq<byte>, n: nat): (r: seq<byte>)
    ensures |r| == n * |pixel|
  {
    if n == 0 then [] else Repeat(pixel, n - 1) + pixel
  }

  /** `n` pixels of `w` bytes each, read one after the other from `pos`. */
  function LiteralBytes(file: seq<byte>, pos: nat, n: nat, w: nat): (r: seq<byte>)
    ensures |r| == n * w
  {
    if n == 0 then [] else LiteralBytes(file, pos, n - 1, w) + ReadBytes(file, pos + (n - 1) * w, w)
  }

  /** The bytes of `Repeat` are the pixel's, over and over. */
  lemma {:induction false} RepeatAt(pixel: seq<byte>, n: nat, m: nat, j: nat)
    requires m < n && j < |pixel|
    ensures Idx(m, j, |pixel|) < |Repeat(pixel, n)|
    ensures Repeat(pixel, n)[Idx(m, j, |pixel|)] == pixel[j]
  {
    var w := |pixel|;
    IdxBound(m, j, w, n);
    if m < n - 1 {
      RepeatAt(pixel, n - 1, m, j);
    } else {
      assert Idx(m, j, w) == (n - 1) * w + j;
    }
  }

  /** Literal pixels are consecutive file bytes. */
  lemma {:induction false} LiteralAt(file: seq<byte>, pos: nat, n: nat, w: nat, m: nat, j: nat)
    requires m < n && j < w
    ensures Idx(m, j, w) < |LiteralBytes(file, pos, n, w)|
    ensures LiteralBytes(file, pos, n, w)[Idx(m, j, w)] == ByteAt(file, pos + Idx(m, j, w))
  {
    IdxBound(m, j, w, n);
    if m < n - 1 {
      LiteralAt(file, pos, n - 1, w, m, j);
    } else {
      assert Idx(m, j, w) == (n - 1) * w + j;
    }
  }

  /** How many pixels the packet whose header byte is at `pos` produces. */
  function PacketPixels(file: seq<byte>, pos: nat): (count: nat)
    ensures 1 <= count <= 128
  {
    var id := ByteAt(file, pos);
    if id >= 128 then id - 127 else id + 1
  }

  /**
   * The bytes one packet writes: a header byte of 128 or more is a run of
   * `id - 127` copies of the one pixel that follows; a smaller one is
   * followed by `id + 1` literal pixels.
   */
  function PacketBytes(file: seq<byte>, pos: nat, mode: int): (r: seq<byte>)
    ensures |r| == PacketPixels(file, pos) * PixelBytes(mode)
  {
    var id := ByteAt(file, pos);
    var w := PixelBytes(mode);
    if id >= 128 then Repeat(ReadBytes(file, pos + 1, w), id - 127)
    else LiteralBytes(file, pos + 1, id + 1, w)
  }

  /** Where the next packet starts. */
  function PacketEnd(file: seq<byte>, pos: nat, mode: int): (next: nat)
    ensures next > pos
  {
    var id := ByteAt(file, pos);
    var w := PixelBytes(mode);
    if id >= 128 then pos + 1 + w else pos + 1 + (id + 1) * w
  }

  /** The two forms of a packet: a run of one pixel, or literal pixels, and where each ends. */
  lemma {:induction false} PacketForm(file: seq<byte>, pos: nat, mode: int)
    ensures var id := ByteAt(file, pos);
            var w := PixelBytes(mode);
            && (id >= 128 ==> PacketBytes(file, pos, mode) == Repeat(ReadBytes(file, pos + 1, w), id - 127)
                              && PacketEnd(file, pos, mode) == pos + 1 + w)
            && (id < 128 ==> PacketBytes(file, pos, mode) == LiteralBytes(file, pos + 1, id + 1, w)
                             && PacketEnd(file, pos, mode) == pos + 1 + (id + 1) * w)
  {
  }

  /** A run packet is its pixel repeated; a literal packet is the bytes after its header, in order. */
  lemma {:induction false} PacketMeaning(file: seq<byte>, pos: nat, mode: int, m: nat, j: nat)
    requires m < PacketPixels(file, pos) && j < PixelBytes(mode)
    ensures var w := PixelBytes(mode);
            var b := PacketBytes(file, pos, mode);
            && Idx(m, j, w) < |b|
            && b[Idx(m, j, w)] == if ByteAt(file, pos) >= 128 then ByteAt(file, pos + 1 + j)
                                 else ByteAt(file, pos + 1 + Idx(m, j, w))
  {
    var w := PixelBytes(mode);
    if ByteAt(file, pos) >= 128 {
      RepeatAt(ReadBytes(file, pos + 1, w), ByteAt(file, pos) - 127, m, j);
    } else {
      LiteralAt(file, pos + 1, ByteAt(file, pos) + 1, w, m, j);
    }
  }

  /**
   * The bytes the decoding loop writes: whole packets until at least
   * `remaining` bytes are out. The last packet is not cut short.
   */
  function RleStream(file: seq<byte>, pos: nat, mode: int, remaining: int): seq<byte>
    decreases remaining
  {
    if remaining <= 0 then []
    else
      var packet := PacketBytes(file, pos, mode);
      packet + RleStream(file, PacketEnd(file, pos, mode), mode, remaining - |packet|)
  }

  /** One packet off the front of the stream. */
  lemma {:induction false} RleStreamUnfold(file: seq<byte>, pos: nat, mode: int, remaining: int)
    requires remaining > 0
    ensures var packet := PacketBytes(file, pos, mode);
            RleStream(file, pos, mode, remaining) == packet + RleStream(file, PacketEnd(file, pos, mode), mode, remaining - |packet|)
  {
  }

  /** The decoder covers the image and overshoots it by less than one packet. */
  lemma {:induction false} RleStreamLength(file: seq<byte>, pos: nat, mode: int, remaining: int)
    ensures remaining <= 0 ==> RleStream(file, pos, mode, remaining) == []
    ensures remaining > 0 ==> remaining <= |RleStream(file, pos, mode, remaining)| < remaining + 128 * PixelBytes(mode)
    decreases remaining
  {
    if remaining > 0 {
      var packet := PacketBytes(file, pos, mode);
      assert |packet| <= 128 * PixelBytes(mode);
      RleStreamLength(file, PacketEnd(file, pos, mode), mode, remaining - |packet|);
    }
  }

  /**
   * A decoder that stops writing once `remaining` bytes are out, cutting
   * the last packet short: what the loop is evidently meant to do.
   */
  function ClampedRle(file: seq<byte>, pos: nat, mode: int, remaining: nat): (r: seq<byte>)
    ensures |r| == remaining
    decreases remaining
  {
    if remaining == 0 then []
    else
      var packet := PacketBytes(file, pos, mode);
      if remaining <= |packet| then packet[..remaining]
      else packet + ClampedRle(file, PacketEnd(file, pos, mode), mode, remaining - |packet|)
  }

  /** The clamped decoder writes the loop's bytes up to the image size and no further. */
  lemma {:induction false} ClampedRleIsPrefix(file: seq<byte>, pos: nat, mode: int, remaining: nat)
    ensures remaining <= |RleStream(file, pos, mode, remaining)|
    ensures ClampedRle(file, pos, mode, remaining) == RleStream(file, pos, mode, remaining)[..remaining]
    decreases remaining
  {
    RleStreamLength(file, pos, mode, remaining);
    if remaining > 0 {
      var packet := PacketBytes(file, pos, mode);
      var next := PacketEnd(file, pos, mode);
      RleStreamUnfold(file, pos, mode, remaining);
      if remaining > |packet| {
        ClampedRleIsPrefix(file, next, mode, remaining - |packet|);
        var rest := RleStream(file, next, mode, remaining - |packet|);
        assert (packet + rest)[..remaining] == packet + rest[..remaining - |packet|];
      }
    }
  }

  /** Where byte `p` of a vertically flipped buffer comes from. */
  function FlipSource(p: nat, lineWidth: nat, rows: nat): (q: nat)
    ensures p < lineWidth * rows ==> q < lineWidth * rows
    ensures p >= lineWidth * rows ==> q == p
  {
    if p < lineWidth * rows then
      IdxSplit(p, lineWidth);
      CellBelow(p, lineWidth, rows);
      IdxBound(rows - 1 - p / lineWidth, p % lineWidth, lineWidth, rows);
      Idx(rows - 1 - p / lineWidth, p % lineWidth, lineWidth)
    else p
  }

  /** `FlipVertical`: row `r` of the first `rows` rows becomes row `rows - 1 - r`; bytes after them stay. */
  function Flipped(s: seq<byte>, lineWidth: nat, rows: nat): (r: seq<byte>)
    requires lineWidth * rows <= |s|
    ensures |r| == |s|
  {
    seq(|s|, p requires 0 <= p < |s| => s[FlipSource(p, lineWidth, rows)])
  }

  lemma {:induction false} FlippedAt(s: seq<byte>, lineWidth: nat, rows: nat, r: nat, c: nat)
    requires lineWidth * rows <= |s| && r < rows && c < lineWidth
    ensures Idx(r, c, lineWidth) < |s| && Idx(rows - 1 - r, c, lineWidth) < |s|
    ensures Flipped(s, lineWidth, rows)[Idx(r, c, lineWidth)] == s[Idx(rows - 1 - r, c, lineWidth)]
  {
    IdxBound(r, c, lineWidth, rows);
    IdxBound(rows - 1 - r, c, lineWidth, rows);
    IdxUnique(r, c, lineWidth);
  }

  /** Flipping twice gives the buffer back. */
  lemma {:induction false} FlippedTwice(s: seq<byte>, lineWidth: nat, rows: nat)
    requires lineWidth * rows <= |s|
    ensures Flipped(Flipped(s, lineWidth, rows), lineWidth, rows) == s
  {
    var once := Flipped(s, lineWidth, rows);
    var twice := Flipped(once, lineWidth, rows);
    forall p | 0 <= p < |s|
      ensures twice[p] == s[p]
    {
      if p < lineWidth * rows {
        IdxSplit(p, lineWidth);
        var r, c := p / lineWidth, p % lineWidth;
        CellBelow(p, lineWidth, rows);
        FlippedAt(once, lineWidth, rows, r, c);
        FlippedAt(s, lineWidth, rows, rows - 1 - r, c);
      }
    }
  }

  /** The component the red/blue swap puts at byte `j` of a pixel. */
  function SwapComponent(j: nat): nat
  {
    if j == 0 then 2 else if j == 2 then 0 else j
  }

  /** Where byte `p` of a red/blue-swapped buffer comes from. */
  function SwapSource(p: nat, w: nat, count: nat): (q: nat)
    requires w >= 3
    ensures p < w * count ==> q < w * count
    ensures p >= w * count ==> q == p
  {
    if p < w * count then
      IdxSplit(p, w);
      CellBelow(p, w, count);
      IdxBound(p / w, SwapComponent(p % w), w, count);
      Idx(p / w, SwapComponent(p % w), w)
    else p
  }

  /** `SwapRedBlue`: bytes 0 and 2 of each of the first `count` pixels exchanged. */
  function Swapped(s: seq<byte>, w: nat, count: nat): (r: seq<byte>)
    requires w >= 3 && w * count <= |s|
    ensures |r| == |s|
  {
    seq(|s|, p requires 0 <= p < |s| => s[SwapSource(p, w, count)])
  }

  lemma {:induction false} SwappedAt(s: seq<byte>, w: nat, count: nat, k: nat, j: nat)
    requires w >= 3 && w * count <= |s| && k < count && j < w
    ensures Idx(k, j, w) < |s| && Idx(k, SwapComponent(j), w) < |s|
    ensures Swapped(s, w, count)[Idx(k, j, w)] == s[Idx(k, SwapComponent(j), w)]
  {
    IdxBound(k, j, w, count);
    IdxBound(k, SwapComponent(j), w, count);
    IdxUnique(k, j, w);
  }

  /** Swapping twice gives the buffer back. */
  lemma {:induction false} SwappedTwice(s: seq<byte>, w: nat, count: nat)
    requires w >= 3 && w * count <= |s|
    ensures Swapped(Swapped(s, w, count), w, count) == s
  {
    var once := Swapped(s, w, count);
    var twice := Swapped(once, w, count);
    forall p | 0 <= p < |s|
      ensures twice[p] == s[p]
    {
      if p < w * count {
        IdxSplit(p, w);
        var k, j := p / w, p % w;
        CellBelow(p, w, count);
        SwappedAt(once, w, count, k, j);
        SwappedAt(s, w, count, k, SwapComponent(j));
      }
    }
  }

  /** `ConvertRGBToRGBA`'s output: each of `n` 3-byte pixels followed by `alpha`. */
  function AddAlpha(s: seq<byte>, n: nat, alpha: byte): (r: seq<byte>)
    requires 3 * n <= |s|
    ensures |r| == 4 * n
  {
    if n == 0 then [] else AddAlpha(s, n - 1, alpha) + s[3 * (n - 1)..3 * n] + [alpha]
  }

  /** `ConvertRGBAToRGB`'s output: each of `n` 4-byte pixels without its last byte. */
  function DropAlpha(s: seq<byte>, n: nat): (r: seq<byte>)
    requires 4 * n <= |s|
    ensures |r| == 3 * n
  {
    if n == 0 then [] else DropAlpha(s, n - 1) + s[4 * (n - 1)..4 * n - 1]
  }

  /** One more pixel: its three colour bytes, then `alpha`. */
  lemma {:induction false} AddAlphaSnoc(s: seq<byte>, n: nat, alpha: byte)
    requires 3 * (n + 1) <= |s|
    ensures AddAlpha(s, n + 1, alpha) == AddAlpha(s, n, alpha) + [s[3 * n], s[3 * n + 1], s[3 * n + 2], alpha]
  {
    assert s[3 * n..3 * (n + 1)] == [s[3 * n], s[3 * n + 1], s[3 * n + 2]];
  }

  /** One more pixel: its first three bytes. */
  lemma {:induction false} DropAlphaSnoc(s: seq<byte>, n: nat)
    requires 4 * (n + 1) <= |s|
    ensures DropAlpha(s, n + 1) == DropAlpha(s, n) + [s[4 * n], s[4 * n + 1], s[4 * n + 2]]
  {
    assert s[4 * n..4 * (n + 1) - 1] == [s[4 * n], s[4 * n + 1], s[4 * n + 2]];
  }

  lemma {:induction false} AddAlphaAt(s: seq<byte>, n: nat, alpha: byte, k: nat, j: nat)
    requires 3 * n <= |s| && k < n && j < 4
    ensures Idx(k, j, 4) < 4 * n
    ensures AddAlpha(s, n, alpha)[Idx(k, j, 4)] == if j < 3 then s[Idx(k, j, 3)] else alpha
  {
    if k < n - 1 {
      AddAlphaAt(s, n - 1, alpha, k, j);
    }
  }

  lemma {:induction false} DropAlphaAt(s: seq<byte>, n: nat, k: nat, j: nat)
    requires 4 * n <= |s| && k < n && j < 3
    ensures Idx(k, j, 3) < 3 * n
    ensures DropAlpha(s, n)[Idx(k, j, 3)] == s[Idx(k, j, 4)]
  {
    if k < n - 1 {
      DropAlphaAt(s, n - 1, k, j);
    }
  }

  /** Adding an alpha byte and dropping it again gives the colour bytes back. */
  lemma {:induction false} DropAddAlpha(s: seq<byte>, n: nat, alpha: byte)
    requires 3 * n <= |s|
    ensures DropAlpha(AddAlpha(s, n, alpha), n) == s[..3 * n]
  {
    var a := AddAlpha(s, n, alpha);
    var d := DropAlpha(a, n);
    forall p | 0 <= p < 3 * n
      ensures d[p] == s[p]
    {
      IdxSplit(p, 3);
      var k, j := p / 3, p % 3;
      DropAlphaAt(a, n, k, j);
      AddAlphaAt(s, n, alpha, k, j);
    }
  }

  /** Dropping the alpha bytes and adding them back restores a buffer whose alphas were all `alpha`. */
  lemma {:induction false} AddDropAlpha(s: seq<byte>, n: nat, alpha: byte)
    requires 4 * n <= |s|
    requires forall k :: 0 <= k < n ==> s[Idx(k, 3, 4)] == alpha
    ensures AddAlpha(DropAlpha(s, n), n, alpha) == s[..4 * n]
  {
    var d := DropAlpha(s, n);
    var a := AddAlpha(d, n, alpha);
    forall p | 0 <= p < 4 * n
      ensures a[p] == s[p]
    {
      IdxSplit(p, 4);
      var k, j := p / 4, p % 4;
      AddAlphaAt(d, n, alpha, k, j);
      if j < 3 {
        DropAlphaAt(s, n, k, j);
      }
    }
  }

  /** What `fread` of `count` bytes from `start` delivers: fewer when the file ends first. */
  function Available(file: seq<byte>, start: nat, count: nat): (r: seq<byte>)
    ensures |r| <= count
    ensures start + count <= |file| ==> r == file[start..start + count]
    ensures forall k :: 0 <= k < |r| ==> start + k < |file| && r[k] == file[start + k]
  {
    if start >= |file| then []
    else if start + count <= |file| then file[start..start + count]
    else file[start..]
  }

  /** Where byte `p` comes from once rows `top..top+lw` and `bottom..bottom+lw` have been exchanged. */
  function ExchangeSource(p: nat, top: nat, bottom: nat, lineWidth: nat): (q: nat)
    requires top + lineWidth <= bottom
    ensures p < bottom + lineWidth ==> q < bottom + lineWidth
    ensures p >= bottom + lineWidth ==> q == p
  {
    if top <= p < top + lineWidth then bottom + (p - top)
    else if bottom <= p < bottom + lineWidth then top + (p - bottom)
    else p
  }

  /** One pass of the flip loop: three `memcpy`s through a temporary row. */
  function Exchanged(s: seq<byte>, top: nat, bottom: nat, lineWidth: nat): (r: seq<byte>)
    requires top + lineWidth <= bottom && bottom + lineWidth <= |s|
    ensures |r| == |s|
  {
    seq(|s|, p requires 0 <= p < |s| => s[ExchangeSource(p, top, bottom, lineWidth)])
  }

  /** Where byte `p` comes from after the first `i` rows have changed places with the last `i`. */
  function PartFlipSource(p: nat, lineWidth: nat, rows: nat, i: nat): (q: nat)
    ensures p < lineWidth * rows ==> q < lineWidth * rows
    ensures p >= lineWidth * rows ==> q == p
  {
    if p < lineWidth * rows then
      IdxSplit(p, lineWidth);
      CellBelow(p, lineWidth, rows);
      var r := p / lineWidth;
      if r < i || r >= rows - i then
        IdxBound(rows - 1 - r, p % lineWidth, lineWidth, rows);
        Idx(rows - 1 - r, p % lineWidth, lineWidth)
      else p
    else p
  }

  /** The buffer the flip loop has produced after `i` passes. */
  function PartFlip(s: seq<byte>, lineWidth: nat, rows: nat, i: nat): (r: seq<byte>)
    requires lineWidth * rows <= |s|
    ensures |r| == |s|
  {
    seq(|s|, p requires 0 <= p < |s| => s[PartFlipSource(p, lineWidth, rows, i)])
  }

  lemma {:induction false} PartFlipNone(s: seq<byte>, lineWidth: nat, rows: nat)
    requires lineWidth * rows <= |s|
    ensures PartFlip(s, lineWidth, rows, 0) == s
  {
    var a := PartFlip(s, lineWidth, rows, 0);
    forall p | 0 <= p < |s|
      ensures a[p] == s[p]
    {
      if p < lineWidth * rows {
        IdxSplit(p, lineWidth);
        CellBelow(p, lineWidth, rows);
      }
    }
  }

  /** After `rows / 2` passes the buffer is flipped: an odd middle row maps to itself. */
  lemma {:induction false} PartFlipAll(s: seq<byte>, lineWidth: nat, rows: nat)
    requires lineWidth * rows <= |s|
    ensures PartFlip(s, lineWidth, rows, rows / 2) == Flipped(s, lineWidth, rows)
  {
    var a := PartFlip(s, lineWidth, rows, rows / 2);
    var b := Flipped(s, lineWidth, rows);
    forall p | 0 <= p < |s|
      ensures a[p] == b[p]
    {
      if p < lineWidth * rows {
        IdxSplit(p, lineWidth);
        CellBelow(p, lineWidth, rows);
      }
    }
  }

  /** Pass `i` exchanges row `i` with row `rows - 1 - i` and so extends the partial flip by one row at each end. */
  lemma {:induction false} PartFlipStep(s: seq<byte>, lineWidth: nat, rows: nat, i: nat, top: nat, bottom: nat)
    requires lineWidth * rows <= |s| && i < rows / 2
    requires top == i * lineWidth && bottom == (rows - 1 - i) * lineWidth
    ensures top + lineWidth <= bottom && bottom + lineWidth <= lineWidth * rows
    ensures Exchanged(PartFlip(s, lineWidth, rows, i), top, bottom, lineWidth) == PartFlip(s, lineWidth, rows, i + 1)
  {
    PassRows(lineWidth, rows, i, top, bottom);
    var e := Exchanged(PartFlip(s, lineWidth, rows, i), top, bottom, lineWidth);
    var b := PartFlip(s, lineWidth, rows, i + 1);
    forall p | 0 <= p < |s|
      ensures e[p] == b[p]
    {
      if top <= p < top + lineWidth {
        PassTopRow(s, lineWidth, rows, i, top, bottom, p - top);
      } else if bottom <= p < bottom + lineWidth {
        PassBottomRow(s, lineWidth, rows, i, top, bottom, p - bottom);
      } else {
        PassOtherRow(s, lineWidth, rows, i, top, bottom, p);
      }
    }
  }

  /** The two rows pass `i` exchanges lie in order inside the image. */
  lemma {:induction false} PassRows(lineWidth: nat, rows: nat, i: nat, top: nat, bottom: int)
    requires i < rows / 2
    requires top == i * lineWidth && bottom == (rows - 1 - i) * lineWidth
    ensures top + lineWidth <= bottom && bottom + lineWidth <= lineWidth * rows
  {
    MulSucc(i, lineWidth);
    MulMonoLe(i + 1, rows - 1 - i, lineWidth);
    MulSucc(rows - 1 - i, lineWidth);
    MulMonoLe(rows - i, rows, lineWidth);
  }

  /** Byte `c` of row `i` after pass `i` is byte `c` of the last row but `i`. */
  lemma {:induction false} PassTopRow(s: seq<byte>, lineWidth: nat, rows: nat, i: nat, top: nat, bottom: nat, c: nat)
    requires lineWidth * rows <= |s| && i < rows / 2 && c < lineWidth
    requires top == i * lineWidth && bottom == (rows - 1 - i) * lineWidth
    ensures top + lineWidth <= bottom && bottom + lineWidth <= |s|
    ensures Exchanged(PartFlip(s, lineWidth, rows, i), top, bottom, lineWidth)[top + c]
            == PartFlip(s, lineWidth, rows, i + 1)[top + c]
  {
    PassRows(lineWidth, rows, i, top, bottom);
    IdxUnique(i, c, lineWidth);
    IdxUnique(rows - 1 - i, c, lineWidth);
    assert top + c == Idx(i, c, lineWidth);
    assert bottom + c == Idx(rows - 1 - i, c, lineWidth);
    FlipCell(s, lineWidth, rows, i, rows - 1 - i, c);
    FlipCell(s, lineWidth, rows, i + 1, i, c);
  }

  /** Byte `c` of the last row but `i` after pass `i` is byte `c` of row `i`. */
  lemma {:induction false} PassBottomRow(s: seq<byte>, lineWidth: nat, rows: nat, i: nat, top: nat, bottom: nat, c: nat)
    requires lineWidth * rows <= |s| && i < rows / 2 && c < lineWidth
    requires top == i * lineWidth && bottom == (rows - 1 - i) * lineWidth
    ensures top + lineWidth <= bottom && bottom + lineWidth <= |s|
    ensures Exchanged(PartFlip(s, lineWidth, rows, i), top, bottom, lineWidth)[bottom + c]
            == PartFlip(s, lineWidth, rows, i + 1)[bottom + c]
  {
    PassRows(lineWidth, rows, i, top, bottom);
    IdxUnique(i, c, lineWidth);
    IdxUnique(rows - 1 - i, c, lineWidth);
    assert bottom + c == Idx(rows - 1 - i, c, lineWidth);
    assert top + c == Idx(i, c, lineWidth);
    FlipCell(s, lineWidth, rows, i, i, c);
    FlipCell(s, lineWidth, rows, i + 1, rows - 1 - i, c);
  }

  /** Every byte outside the two rows of pass `i` is where the earlier passes left it. */
  lemma {:induction false} PassOtherRow(s: seq<byte>, lineWidth: nat, rows: nat, i: nat, top: nat, bottom: nat, p: nat)
    requires lineWidth * rows <= |s| && i < rows / 2 && p < |s|
    requires top == i * lineWidth && bottom == (rows - 1 - i) * lineWidth
    requires !(top <= p < top + lineWidth) && !(bottom <= p < bottom + lineWidth)
    ensures top + lineWidth <= bottom && bottom + lineWidth <= |s|
    ensures Exchanged(PartFlip(s, lineWidth, rows, i), top, bottom, lineWidth)[p]
            == PartFlip(s, lineWidth, rows, i + 1)[p]
  {
    PassRows(lineWidth, rows, i, top, bottom);
    if p < lineWidth * rows {
      IdxSplit(p, lineWidth);
      CellBelow(p, lineWidth, rows);
      var r := p / lineWidth;
      assert r != i && r != rows - 1 - i by {
        MulSucc(r, lineWidth);
      }
    }
  }

  /** Byte `c` of row `r` after `i` passes. */
  lemma {:induction false} FlipCell(s: seq<byte>, lineWidth: nat, rows: nat, i: nat, r: nat, c: nat)
    requires lineWidth * rows <= |s| && r < rows && c < lineWidth
    ensures Idx(r, c, lineWidth) < |s| && Idx(rows - 1 - r, c, lineWidth) < |s|
    ensures PartFlip(s, lineWidth, rows, i)[Idx(r, c, lineWidth)]
            == if r < i || r >= rows - i then s[Idx(rows - 1 - r, c, lineWidth)] else s[Idx(r, c, lineWidth)]
  {
    IdxBound(r, c, lineWidth, rows);
    IdxBound(rows - 1 - r, c, lineWidth, rows);
    IdxUnique(r, c, lineWidth);
  }

  /** One pass of the swap loop turns the first `k` swapped pixels into the first `k + 1`. */
  lemma {:induction false} SwappedStep(s: seq<byte>, w: nat, k: nat, i: nat)
    requires w >= 3 && w * (k + 1) <= |s| && i == k * w
    ensures i + 2 < w * (k + 1)
    ensures var cur := Swapped(s, w, k);
            cur[i := cur[i + 2]][i + 2 := cur[i]] == Swapped(s, w, k + 1)
  {
    MulSucc(k, w);
    var cur := Swapped(s, w, k);
    var next := Swapped(s, w, k + 1);
    var lhs := cur[i := cur[i + 2]][i + 2 := cur[i]];
    forall p | 0 <= p < |s|
      ensures lhs[p] == next[p]
    {
      if p < w * k {
        IdxSplit(p, w);
        CellBelow(p, w, k);
        SwappedAt(s, w, k, p / w, p % w);
        SwappedAt(s, w, k + 1, p / w, p % w);
      } else if p < w * (k + 1) {
        var j := p - i;
        assert p == Idx(k, j, w);
        SwappedAt(s, w, k + 1, k, j);
        assert i == Idx(k, 0, w) && i + 2 == Idx(k, 2, w);
      }
    }
  }
}
