/**
 * The DMF (Datriot Model File) byte format: the one-byte identifiers that
 * open the file and its chunks, how the loader's input stream reads them,
 * what each chunk fills, and the bytes the writer emits. Identifier bytes
 * are read as unsigned values, so the end marker 0xFF is recognised.
 */
module DmfFormat {
  import opened Base

  const FileId: byte := 0x0F
  const GeometrySpecId: byte := 0x02
  const VerticesId: byte := 0x12
  const TrianglesId: byte := 0x22
  const SkinSpecId: byte := 0x03
  const TexturesId: byte := 0x13
  const MaterialsId: byte := 0x23
  const SkinsId: byte := 0x33
  const AnimationSpecId: byte := 0x04
  const EndId: byte := 0xFF

  /** `get()` past the end returns `EOF`, which a `char` holds as 0xFF. */
  const EofByte: byte := 0xFF
  /** The character that ends a texture file name. */
  const NameEnd: byte := 0x3F

  /** Six 4-byte `int`s. */
  const HeaderSize: nat := 24
  /** A position (three floats), a texture coordinate (two) and a normal (three). */
  const VertexSize: nat := 32
  /** Three `int` vertex indexes. */
  const TriangleSize: nat := 12
  /** A skin ID, texture ID and material ID, each an `unsigned int`. */
  const SkinSize: nat := 12
  /** A material ID, then four colours of four floats and the specular power. */
  const MaterialSize: nat := 72
  /** The size of the buffer a texture file name is read into. */
  const MaxName: nat := 100

  type u32 = x: nat | x < TwoTo32

  datatype Header = Header(version: int, numVertices: int, numTriangles: int,
                           numSkins: int, numTextures: int, numMaterials: int)

  datatype DmfTexture = DmfTexture(id: u32, filename: string)

  /**
   * The vectors a load fills and the writer writes: vertices, triangles,
   * skins and materials as the bytes of their records, textures decoded.
   */
  datatype Contents = Contents(vertices: seq<byte>, triangles: seq<byte>, skins: seq<byte>,
                              textures: seq<DmfTexture>, materials: seq<byte>)

  /**
   * A binary input stream: the bytes not yet read and the end-of-file
   * flag, which is only ever set once nothing is left.
   */
  datatype Stream = Stream(rest: seq<byte>, eof: bool)
  type Cursor = s: Stream | s.eof ==> s.rest == [] witness Stream([], false)

  /** A stream just opened on a file holding `data`. */
  function Open(data: seq<byte>): Cursor
  {
    Stream(data, false)
  }

  /** What is left to read, plus one while the end has not been hit. */
  function Remaining(s: Cursor): nat
  {
    |s.rest| + (if s.eof then 0 else 1)
  }

  /** `get()`: the next byte, or `EOF` once the file is exhausted, which sets the end-of-file flag. */
  function Get(s: Cursor): (r: (byte, Cursor))
    ensures !s.eof ==> Remaining(r.1) < Remaining(s)
    ensures s.eof ==> r.1 == s
  {
    if |s.rest| > 0 then (s.rest[0], Stream(s.rest[1..], false)) else (EofByte, Stream([], true))
  }

  /** `read(n)`: the next `n` bytes, or what is left when fewer remain, which sets the end-of-file flag. */
  function Read(s: Cursor, n: nat): (r: (seq<byte>, Cursor))
    ensures Remaining(r.1) <= Remaining(s) && |r.0| <= n
    ensures s.rest == r.0 + r.1.rest
    ensures !r.1.eof <==> !s.eof && n <= |s.rest|
    ensures !r.1.eof ==> |r.0| == n
  {
    if !s.eof && n <= |s.rest| then (s.rest[..n], Stream(s.rest[n..], false))
    else (s.rest, Stream([], true))
  }

  /** A short read's bytes completed to `n`; the completion stands for memory the read left as it was. */
  function Pad(b: seq<byte>, n: nat): (r: seq<byte>)
    requires |b| <= n
    ensures |r| == n
  {
    b + Zeros(n - |b|)
  }

  /** `vector::resize(n)` on a vector of bytes: the prefix is kept, new bytes are zero. */
  function Resize(v: seq<byte>, n: nat): (r: seq<byte>)
    ensures |r| == n
  {
    if n <= |v| then v[..n] else v + Zeros(n - |v|)
  }

  /** `resize` keeps the elements that fit and fills the rest with zeros. */
  lemma {:induction false} ResizeKeeps(v: seq<byte>, n: nat)
    ensures forall k :: 0 <= k < n ==> Resize(v, n)[k] == if k < |v| then v[k] else 0
  {
  }

  /** The `int` stored little-endian at bytes `4k..4k+4`. */
  function IntAt(b: seq<byte>, k: nat): int
    requires 4 * k + 4 <= |b|
  {
    DecodeI32(b[4 * k..4 * k + 4])
  }

  /** The `unsigned int` stored little-endian at bytes `4k..4k+4`. */
  function WordAt(b: seq<byte>, k: nat): u32
    requires 4 * k + 4 <= |b|
  {
    DecodeU32(b[4 * k..4 * k + 4])
  }

  function DecodeHeader(b: seq<byte>): Header
    requires |b| == HeaderSize
  {
    Header(IntAt(b, 0), IntAt(b, 1), IntAt(b, 2), IntAt(b, 3), IntAt(b, 4), IntAt(b, 5))
  }

  /**
   * The scan for the file identifier: reads byte after byte until one is
   * 0x0F, and gives the stream just after it, or nothing at the end of the file.
   */
  function ScanForFile(s: Cursor): (r: Option<Cursor>)
    decreases Remaining(s)
  {
    if s.eof then None
    else
      var g := Get(s);
      if g.0 == FileId then Some(g.1) else ScanForFile(g.1)
  }

  /**
   * `resize(count)` and then one `read` of `count` records of `size` bytes
   * into the vector; nothing when the count is negative, for which
   * `resize` throws.
   */
  function ReadRecords(s: Cursor, v: seq<byte>, count: int, size: nat): (r: Option<(seq<byte>, Cursor)>)
    ensures r.Some? ==> Remaining(r.value.1) <= Remaining(s)
  {
    if count < 0 then None
    else
      var got := Read(s, count * size);
      Some((Overwrite(Resize(v, count * size), 0, got.0), got.1))
  }

  /** The bytes of a texture file name: up to `left` characters read one by one, stopping at and dropping a `'?'`. */
  function NameBytes(s: Cursor, left: nat): (r: (seq<byte>, Cursor))
    ensures Remaining(r.1) <= Remaining(s)
    decreases left
  {
    if left == 0 then ([], s)
    else
      var g := Get(s);
      if g.0 == NameEnd then ([], g.1)
      else
        var more := NameBytes(g.1, left - 1);
        ([g.0] + more.0, more.1)
  }

  /** The `std::string` built from a `char` buffer: the characters before the first NUL. */
  function CString(b: seq<byte>): (r: string)
    ensures |r| <= |b|
  {
    if |b| == 0 || b[0] == 0 then [] else [b[0] as char] + CString(b[1..])
  }

  /** One texture record: its `unsigned int` ID, then its file name. */
  function TextureRecord(s: Cursor): (r: (DmfTexture, Cursor))
    ensures Remaining(r.1) <= Remaining(s)
  {
    var id := Read(s, 4);
    var name := NameBytes(id.1, MaxName);
    (DmfTexture(DecodeU32(Pad(id.0, 4)), CString(name.0)), name.1)
  }

  /** `n` texture records in a row. */
  function TextureRecords(s: Cursor, n: nat): (r: (seq<DmfTexture>, Cursor))
    ensures |r.0| == n
    ensures Remaining(r.1) <= Remaining(s)
    decreases n
  {
    if n == 0 then ([], s)
    else
      var first := TextureRecord(s);
      var rest := TextureRecords(first.1, n - 1);
      ([first.0] + rest.0, rest.1)
  }

  /** A run of texture records is one record, its ID then its name, followed by the rest of the run. */
  lemma {:induction false} TextureRecordsStep(s: Cursor, n: nat, idBytes: seq<byte>, afterId: Cursor, name: string, after: Cursor)
    requires n > 0 && Read(s, 4) == (idBytes, afterId)
    requires name == CString(NameBytes(afterId, MaxName).0) && after == NameBytes(afterId, MaxName).1
    ensures TextureRecords(s, n).0 == [DmfTexture(DecodeU32(Pad(idBytes, 4)), name)] + TextureRecords(after, n - 1).0
    ensures TextureRecords(s, n).1 == TextureRecords(after, n - 1).1
  {
  }

  /** Where a chunk loop left off: the contents so far, the stream, and whether an exception ended the load. */
  datatype Progress = Progress(c: Contents, s: Cursor, failed: bool)

  /** What one identifier does inside a loop: go on reading, or leave the loop (by an exception or not). */
  datatype Step = More(c: Contents, s: Cursor) | Stop(c: Contents, s: Cursor, failed: bool)

  /**
   * One identifier inside a `GEOMETRY_SPEC` chunk, read from the stream
   * `s` that follows it: vertex records, triangle records, the end of the
   * chunk, or anything else, which is skipped.
   */
  function GeometryItem(id: byte, s: Cursor, h: Header, c: Contents): (r: Step)
    ensures Remaining(r.s) <= Remaining(s)
  {
    if id == VerticesId then
      match ReadRecords(s, c.vertices, h.numVertices, VertexSize)
      case None => Stop(c, s, true)
      case Some(got) => More(c.(vertices := got.0), got.1)
    else if id == TrianglesId then
      match ReadRecords(s, c.triangles, h.numTriangles, TriangleSize)
      case None => Stop(c, s, true)
      case Some(got) => More(c.(triangles := got.0), got.1)
    else if id == EndId then Stop(c, s, false)
    else More(c, s)
  }

  /** One identifier inside a `SKIN_SPEC` chunk: skin, texture or material records, or the end of the chunk. */
  function SkinItem(id: byte, s: Cursor, h: Header, c: Contents): (r: Step)
    ensures Remaining(r.s) <= Remaining(s)
  {
    if id == SkinsId then
      match ReadRecords(s, c.skins, h.numSkins, SkinSize)
      case None => Stop(c, s, true)
      case Some(got) => More(c.(skins := got.0), got.1)
    else if id == TexturesId then
      if h.numTextures < 0 then Stop(c, s, true)
      else
        var got := TextureRecords(s, h.numTextures);
        More(c.(textures := got.0), got.1)
    else if id == MaterialsId then
      match ReadRecords(s, c.materials, h.numMaterials, MaterialSize)
      case None => Stop(c, s, true)
      case Some(got) => More(c.(materials := got.0), got.1)
    else if id == EndId then Stop(c, s, false)
    else More(c, s)
  }

  /** The loop inside a `GEOMETRY_SPEC` chunk: identifiers until `END` or the end of the file. */
  function GeometryChunk(s: Cursor, h: Header, c: Contents): (r: Progress)
    ensures Remaining(r.s) <= Remaining(s)
    decreases Remaining(s)
  {
    if s.eof then Progress(c, s, false)
    else
      var g := Get(s);
      match GeometryItem(g.0, g.1, h, c)
      case More(c1, s1) => GeometryChunk(s1, h, c1)
      case Stop(c1, s1, failed) => Progress(c1, s1, failed)
  }

  /** The loop inside a `SKIN_SPEC` chunk: identifiers until `END` or the end of the file. */
  function SkinChunk(s: Cursor, h: Header, c: Contents): (r: Progress)
    ensures Remaining(r.s) <= Remaining(s)
    decreases Remaining(s)
  {
    if s.eof then Progress(c, s, false)
    else
      var g := Get(s);
      match SkinItem(g.0, g.1, h, c)
      case More(c1, s1) => SkinChunk(s1, h, c1)
      case Stop(c1, s1, failed) => Progress(c1, s1, failed)
  }

  /**
   * One top-level identifier: a geometry or skin chunk (an exception inside
   * it ends the load), or anything else, skipped; `ANIMATION_SPEC` has no
   * contents.
   */
  function ChunkItem(id: byte, s: Cursor, h: Header, c: Contents): (r: Step)
    ensures Remaining(r.s) <= Remaining(s)
  {
    if id == GeometrySpecId then
      var g := GeometryChunk(s, h, c);
      if g.failed then Stop(g.c, g.s, true) else More(g.c, g.s)
    else if id == SkinSpecId then
      var k := SkinChunk(s, h, c);
      if k.failed then Stop(k.c, k.s, true) else More(k.c, k.s)
    else More(c, s)
  }

  /** The top-level loop: chunk identifiers until the end of the file. */
  function Chunks(s: Cursor, h: Header, c: Contents): (r: Progress)
    decreases Remaining(s)
  {
    if s.eof then Progress(c, s, false)
    else
      var g := Get(s);
      match ChunkItem(g.0, g.1, h, c)
      case More(c1, s1) => Chunks(s1, h, c1)
      case Stop(c1, s1, failed) => Progress(c1, s1, failed)
  }

  /**
   * Reading a whole file into contents `c`: the header after the first
   * 0x0F, then the chunks. The result is the contents afterwards and
   * whether the read got through without an exception; records read before
   * an exception stay.
   */
  function ParseFile(data: seq<byte>, c: Contents): (r: (Contents, bool))
  {
    match ScanForFile(Open(data))
    case None => (c, false)
    case Some(s1) =>
      var header := Read(s1, HeaderSize);
      var p := Chunks(header.1, DecodeHeader(Pad(header.0, HeaderSize)), c);
      (p.c, !p.failed)
  }

  // ---------------------------------------------------------------------
  // Properties of reading

  /**
   * The header is read right after the first 0x0F of the file, and there
   * is one to read exactly when the file holds a 0x0F.
   */
  lemma {:induction false} ScanFindsFirstMarker(s: Cursor)
    ensures ScanForFile(s).Some? <==> !s.eof && FileId in s.rest
    ensures ScanForFile(s).Some? ==>
              var t := ScanForFile(s).value;
              var i := |s.rest| - |t.rest| - 1;
              && !t.eof && 0 <= i && s.rest == s.rest[..i] + [FileId] + t.rest
              && FileId !in s.rest[..i]
    decreases Remaining(s)
  {
    if !s.eof && |s.rest| > 0 {
      var next: Cursor := Stream(s.rest[1..], false);
      ScanSkip(s);
      if s.rest[0] != FileId {
        ScanFindsFirstMarker(next);
        if ScanForFile(next).Some? {
          var t := ScanForFile(next).value;
          MarkerAfterByte(s.rest[0], next.rest, |next.rest| - |t.rest| - 1, t.rest);
        }
      } else {
        assert s.rest == s.rest[..0] + [FileId] + next.rest;
      }
    }
  }

  /** One byte of the scan: a 0x0F ends it right after, any other byte passes it on. */
  lemma {:induction false} ScanSkip(s: Cursor)
    requires !s.eof && |s.rest| > 0
    ensures var next: Cursor := Stream(s.rest[1..], false);
            && s.rest == [s.rest[0]] + next.rest
            && (s.rest[0] == FileId ==> ScanForFile(s) == Some(next))
            && (s.rest[0] != FileId ==> ScanForFile(s) == ScanForFile(next))
  {
  }

  /** A byte other than 0x0F in front of a stream moves its first 0x0F one place on. */
  lemma {:induction false} MarkerAfterByte(b: byte, r: seq<byte>, i: nat, tail: seq<byte>)
    requires b != FileId && i <= |r| && r == r[..i] + [FileId] + tail && FileId !in r[..i]
    ensures [b] + r == ([b] + r)[..i + 1] + [FileId] + tail && FileId !in ([b] + r)[..i + 1]
  {
    assert ([b] + r)[..i + 1] == [b] + r[..i];
    AppendAssociates([b], r[..i] + [FileId], tail);
    AppendAssociates([b], r[..i], [FileId]);
  }

  /**
   * A record chunk leaves exactly `count` records, and when the file holds
   * them all they are the file's next `count * size` bytes, whatever the
   * vector held before.
   */
  lemma {:induction false} ReadRecordsCount(s: Cursor, v: seq<byte>, count: int, size: nat)
    ensures ReadRecords(s, v, count, size).Some? <==> count >= 0
    ensures count >= 0 ==> |ReadRecords(s, v, count, size).value.0| == count * size
    ensures count >= 0 && !s.eof && count * size <= |s.rest| ==>
              ReadRecords(s, v, count, size).value.0 == s.rest[..count * size]
  {
  }

  // ---------------------------------------------------------------------
  // Writing

  /** Every character of the string fits in a byte. */
  predicate Narrow(s: string)
  {
    forall k :: 0 <= k < |s| ==> (s[k] as int) < 256
  }

  function Bytes(s: string): (r: seq<byte>)
    requires Narrow(s)
    ensures |r| == |s| && forall k :: 0 <= k < |s| ==> r[k] == s[k] as int
  {
    seq(|s|, k requires 0 <= k < |s| => s[k] as int as byte)
  }

  /** The four bytes of an `int` in two's complement. */
  function IntBytes(x: int): (r: seq<byte>)
    requires -TwoTo31 <= x < TwoTo31
    ensures |r| == 4
  {
    U32Bytes(if x < 0 then x + TwoTo32 else x)
  }

  function HeaderBytes(h: Header): (r: seq<byte>)
    requires -TwoTo31 <= h.version < TwoTo31 && -TwoTo31 <= h.numVertices < TwoTo31
    requires -TwoTo31 <= h.numTriangles < TwoTo31 && -TwoTo31 <= h.numSkins < TwoTo31
    requires -TwoTo31 <= h.numTextures < TwoTo31 && -TwoTo31 <= h.numMaterials < TwoTo31
    ensures |r| == HeaderSize
  {
    IntBytes(h.version) + IntBytes(h.numVertices) + IntBytes(h.numTriangles)
      + IntBytes(h.numSkins) + IntBytes(h.numTextures) + IntBytes(h.numMaterials)
  }

  predicate NarrowNames(ts: seq<DmfTexture>)
  {
    forall i :: 0 <= i < |ts| ==> Narrow(ts[i].filename)
  }

  /** Record vectors hold whole records and every count fits the header's `int`s. */
  predicate Writable(c: Contents)
  {
    && |c.vertices| % VertexSize == 0 && |c.vertices| / VertexSize < TwoTo31
    && |c.triangles| % TriangleSize == 0 && |c.triangles| / TriangleSize < TwoTo31
    && |c.skins| % SkinSize == 0 && |c.skins| / SkinSize < TwoTo31
    && |c.materials| % MaterialSize == 0 && |c.materials| / MaterialSize < TwoTo31
    && |c.textures| < TwoTo31
    && NarrowNames(c.textures)
  }

  /** The header the writer puts in front: version 1 and the size of every vector. */
  function HeaderOf(c: Contents): (h: Header)
    requires Writable(c)
    ensures 0 <= h.numVertices < TwoTo31 && 0 <= h.numTriangles < TwoTo31 && 0 <= h.numSkins < TwoTo31
    ensures 0 <= h.numTextures < TwoTo31 && 0 <= h.numMaterials < TwoTo31
  {
    Header(1, |c.vertices| / VertexSize, |c.triangles| / TriangleSize, |c.skins| / SkinSize,
           |c.textures|, |c.materials| / MaterialSize)
  }

  /** A texture as written: its ID, its file name and a `'?'`. */
  function TextureBytes(t: DmfTexture): (r: seq<byte>)
    requires Narrow(t.filename)
  {
    U32Bytes(t.id) + (Bytes(t.filename) + [NameEnd])
  }

  function TexturesBytes(ts: seq<DmfTexture>): (r: seq<byte>)
    requires NarrowNames(ts)
  {
    if |ts| == 0 then [] else TextureBytes(ts[0]) + TexturesBytes(ts[1..])
  }

  /**
   * What `WriteToFile` writes after the header: the geometry chunk
   * (vertices, triangles, end), then the skin chunk (textures, materials,
   * skins, end).
   */
  function ChunkBytes(c: Contents): seq<byte>
    requires NarrowNames(c.textures)
  {
    [GeometrySpecId] + ([VerticesId] + (c.vertices + ([TrianglesId] + (c.triangles + ([EndId] +
    ([SkinSpecId] + ([TexturesId] + (TexturesBytes(c.textures) + ([MaterialsId] + (c.materials +
    ([SkinsId] + (c.skins + [EndId]))))))))))))
  }

  /** `WriteToFile`'s output: the file identifier, the header, then the chunks. */
  function Written(c: Contents): seq<byte>
    requires Writable(c)
  {
    [FileId] + (HeaderBytes(HeaderOf(c)) + ChunkBytes(c))
  }

  // ---------------------------------------------------------------------
  // Reading back what was written

  /** An open stream whose next bytes are `w` and then `more`. */
  function Ahead(w: seq<byte>, more: seq<byte>): Cursor
  {
    Stream(w + more, false)
  }

  lemma {:induction false} GetAhead(b: byte, more: seq<byte>)
    ensures Get(Ahead([b], more)) == (b, Stream(more, false))
  {
    assert ([b] + more)[1..] == more;
  }

  lemma {:induction false} ReadAhead(w: seq<byte>, more: seq<byte>)
    ensures Read(Ahead(w, more), |w|) == (w, Stream(more, false))
  {
    assert (w + more)[..|w|] == w;
    assert (w + more)[|w|..] == more;
  }

  /** A record vector read back from a file that holds all its records is exactly those records. */
  lemma {:induction false} RecordsAhead(v: seq<byte>, count: int, size: nat, w: seq<byte>, more: seq<byte>)
    requires count >= 0 && count * size == |w|
    ensures ReadRecords(Ahead(w, more), v, count, size) == Some((w, Stream(more, false)))
  {
    ReadAhead(w, more);
    var padded := Resize(v, |w|);
    assert Overwrite(padded, 0, w) == w by {
      assert padded[..0] == [] && padded[|w|..] == [];
    }
  }

  lemma {:induction false} IntBytesDecode(x: int)
    requires -TwoTo31 <= x < TwoTo31
    ensures DecodeI32(IntBytes(x)) == x
  {
  }

  lemma {:induction false} HeaderRoundTrip(h: Header)
    requires -TwoTo31 <= h.version < TwoTo31 && -TwoTo31 <= h.numVertices < TwoTo31
    requires -TwoTo31 <= h.numTriangles < TwoTo31 && -TwoTo31 <= h.numSkins < TwoTo31
    requires -TwoTo31 <= h.numTextures < TwoTo31 && -TwoTo31 <= h.numMaterials < TwoTo31
    ensures DecodeHeader(HeaderBytes(h)) == h
  {
    var b := HeaderBytes(h);
    assert b[0..4] == IntBytes(h.version);
    assert b[4..8] == IntBytes(h.numVertices);
    assert b[8..12] == IntBytes(h.numTriangles);
    assert b[12..16] == IntBytes(h.numSkins);
    assert b[16..20] == IntBytes(h.numTextures);
    assert b[20..24] == IntBytes(h.numMaterials);
    IntBytesDecode(h.version);
    IntBytesDecode(h.numVertices);
    IntBytesDecode(h.numTriangles);
    IntBytesDecode(h.numSkins);
    IntBytesDecode(h.numTextures);
    IntBytesDecode(h.numMaterials);
  }

  /** A name the reader gets back: shorter than the buffer, with no `'?'` and no NUL, every character a byte. */
  predicate PlainName(name: string)
  {
    |name| < MaxName && Narrow(name) && forall k :: 0 <= k < |name| ==> name[k] != '?' && name[k] != '\0'
  }

  predicate PlainNames(ts: seq<DmfTexture>)
  {
    NarrowNames(ts) && forall i :: 0 <= i < |ts| ==> PlainName(ts[i].filename)
  }

  lemma {:induction false} NameBytesAhead(w: seq<byte>, left: nat, more: seq<byte>)
    requires |w| < left && forall k :: 0 <= k < |w| ==> w[k] != NameEnd
    ensures NameBytes(Ahead(w, [NameEnd] + more), left) == (w, Stream(more, false))
    decreases left
  {
    if |w| == 0 {
      assert Ahead(w, [NameEnd] + more) == Ahead([NameEnd], more);
      GetAhead(NameEnd, more);
    } else {
      assert Ahead(w, [NameEnd] + more) == Ahead([w[0]], w[1..] + ([NameEnd] + more));
      GetAhead(w[0], w[1..] + ([NameEnd] + more));
      assert Stream(w[1..] + ([NameEnd] + more), false) == Ahead(w[1..], [NameEnd] + more);
      NameBytesAhead(w[1..], left - 1, more);
      HeadTail(w);
    }
  }

  lemma {:induction false} CStringBytes(name: string)
    requires Narrow(name) && forall k :: 0 <= k < |name| ==> name[k] != '\0'
    ensures CString(Bytes(name)) == name
  {
    if |name| > 0 {
      assert Bytes(name)[1..] == Bytes(name[1..]);
      CStringBytes(name[1..]);
      HeadTail(name);
    }
  }

  lemma {:induction false} TextureAhead(t: DmfTexture, more: seq<byte>)
    requires PlainName(t.filename)
    ensures TextureRecord(Ahead(TextureBytes(t), more)) == (t, Stream(more, false))
  {
    var idBytes := U32Bytes(t.id);
    var name := Bytes(t.filename);
    var after := name + ([NameEnd] + more);
    assert Ahead(TextureBytes(t), more) == Ahead(idBytes, after);
    ReadAhead(idBytes, after);
    assert Pad(idBytes, 4) == idBytes;
    assert Stream(after, false) == Ahead(name, [NameEnd] + more);
    NameBytesAhead(name, MaxName, more);
    CStringBytes(t.filename);
  }

  lemma {:induction false} TexturesAhead(ts: seq<DmfTexture>, more: seq<byte>)
    requires PlainNames(ts)
    ensures TextureRecords(Ahead(TexturesBytes(ts), more), |ts|) == (ts, Stream(more, false))
    decreases |ts|
  {
    if |ts| > 0 {
      var first := TextureBytes(ts[0]);
      var others := TexturesBytes(ts[1..]);
      assert Ahead(TexturesBytes(ts), more) == Ahead(first, others + more);
      TextureAhead(ts[0], others + more);
      assert Stream(others + more, false) == Ahead(others, more);
      assert PlainNames(ts[1..]);
      TexturesAhead(ts[1..], more);
      HeadTail(ts);
    } else {
      assert [] + more == more;
    }
  }

  // One identifier and its records at a time.

  lemma {:induction false} GeometryLoop(h: Header, c: Contents, id: byte, more: seq<byte>)
    ensures var st := GeometryItem(id, Stream(more, false), h, c);
            GeometryChunk(Ahead([id], more), h, c)
            == if st.More? then GeometryChunk(st.s, h, st.c) else Progress(st.c, st.s, st.failed)
  {
    GetAhead(id, more);
  }

  lemma {:induction false} SkinLoop(h: Header, c: Contents, id: byte, more: seq<byte>)
    ensures var st := SkinItem(id, Stream(more, false), h, c);
            SkinChunk(Ahead([id], more), h, c)
            == if st.More? then SkinChunk(st.s, h, st.c) else Progress(st.c, st.s, st.failed)
  {
    GetAhead(id, more);
  }

  lemma {:induction false} ChunksLoop(h: Header, c: Contents, id: byte, more: seq<byte>)
    ensures var st := ChunkItem(id, Stream(more, false), h, c);
            Chunks(Ahead([id], more), h, c)
            == if st.More? then Chunks(st.s, h, st.c) else Progress(st.c, st.s, st.failed)
  {
    GetAhead(id, more);
  }

  lemma {:induction false} VerticesStep(h: Header, c: Contents, v: seq<byte>, more: seq<byte>)
    requires h.numVertices >= 0 && h.numVertices * VertexSize == |v|
    ensures GeometryChunk(Ahead([VerticesId], v + more), h, c) == GeometryChunk(Stream(more, false), h, c.(vertices := v))
  {
    GeometryLoop(h, c, VerticesId, v + more);
    assert Stream(v + more, false) == Ahead(v, more);
    RecordsAhead(c.vertices, h.numVertices, VertexSize, v, more);
  }

  lemma {:induction false} TrianglesStep(h: Header, c: Contents, t: seq<byte>, more: seq<byte>)
    requires h.numTriangles >= 0 && h.numTriangles * TriangleSize == |t|
    ensures GeometryChunk(Ahead([TrianglesId], t + more), h, c) == GeometryChunk(Stream(more, false), h, c.(triangles := t))
  {
    GeometryLoop(h, c, TrianglesId, t + more);
    assert Stream(t + more, false) == Ahead(t, more);
    RecordsAhead(c.triangles, h.numTriangles, TriangleSize, t, more);
  }

  lemma {:induction false} GeometryEndStep(h: Header, c: Contents, more: seq<byte>)
    ensures GeometryChunk(Ahead([EndId], more), h, c) == Progress(c, Stream(more, false), false)
  {
    GeometryLoop(h, c, EndId, more);
  }

  lemma {:induction false} TexturesStep(h: Header, c: Contents, ts: seq<DmfTexture>, tb: seq<byte>, more: seq<byte>)
    requires h.numTextures == |ts| && TextureRecords(Ahead(tb, more), |ts|) == (ts, Stream(more, false))
    ensures SkinChunk(Ahead([TexturesId], tb + more), h, c) == SkinChunk(Stream(more, false), h, c.(textures := ts))
  {
    SkinLoop(h, c, TexturesId, tb + more);
    assert Stream(tb + more, false) == Ahead(tb, more);
  }

  lemma {:induction false} MaterialsStep(h: Header, c: Contents, m: seq<byte>, more: seq<byte>)
    requires h.numMaterials >= 0 && h.numMaterials * MaterialSize == |m|
    ensures SkinChunk(Ahead([MaterialsId], m + more), h, c) == SkinChunk(Stream(more, false), h, c.(materials := m))
  {
    SkinLoop(h, c, MaterialsId, m + more);
    assert Stream(m + more, false) == Ahead(m, more);
    RecordsAhead(c.materials, h.numMaterials, MaterialSize, m, more);
  }

  lemma {:induction false} SkinsStep(h: Header, c: Contents, k: seq<byte>, more: seq<byte>)
    requires h.numSkins >= 0 && h.numSkins * SkinSize == |k|
    ensures SkinChunk(Ahead([SkinsId], k + more), h, c) == SkinChunk(Stream(more, false), h, c.(skins := k))
  {
    SkinLoop(h, c, SkinsId, k + more);
    assert Stream(k + more, false) == Ahead(k, more);
    RecordsAhead(c.skins, h.numSkins, SkinSize, k, more);
  }

  lemma {:induction false} SkinEndStep(h: Header, c: Contents, more: seq<byte>)
    ensures SkinChunk(Ahead([EndId], more), h, c) == Progress(c, Stream(more, false), false)
  {
    SkinLoop(h, c, EndId, more);
  }

  /** A geometry chunk as written reads back into exactly its vertices and triangles. */
  lemma {:induction false} GeometryBack(h: Header, c: Contents, v: seq<byte>, t: seq<byte>, more: seq<byte>)
    requires h.numVertices >= 0 && h.numVertices * VertexSize == |v|
    requires h.numTriangles >= 0 && h.numTriangles * TriangleSize == |t|
    ensures GeometryChunk(Ahead([VerticesId], v + ([TrianglesId] + (t + ([EndId] + more)))), h, c)
            == Progress(c.(vertices := v, triangles := t), Stream(more, false), false)
  {
    VerticesStep(h, c, v, [TrianglesId] + (t + ([EndId] + more)));
    assert Stream([TrianglesId] + (t + ([EndId] + more)), false) == Ahead([TrianglesId], t + ([EndId] + more));
    TrianglesStep(h, c.(vertices := v), t, [EndId] + more);
    assert Stream([EndId] + more, false) == Ahead([EndId], more);
    GeometryEndStep(h, c.(vertices := v, triangles := t), more);
  }

  /** A skin chunk as written reads back into exactly its textures, materials and skins. */
  lemma {:induction false} SkinBack(h: Header, c: Contents, ts: seq<DmfTexture>, tb: seq<byte>, m: seq<byte>, k: seq<byte>,
                 more: seq<byte>)
    requires h.numTextures == |ts|
    requires h.numMaterials >= 0 && h.numMaterials * MaterialSize == |m|
    requires h.numSkins >= 0 && h.numSkins * SkinSize == |k|
    requires var after := [MaterialsId] + (m + ([SkinsId] + (k + ([EndId] + more))));
             TextureRecords(Ahead(tb, after), |ts|) == (ts, Stream(after, false))
    ensures SkinChunk(Ahead([TexturesId], tb + ([MaterialsId] + (m + ([SkinsId] + (k + ([EndId] + more)))))), h, c)
            == Progress(c.(textures := ts, materials := m, skins := k), Stream(more, false), false)
  {
    var after := [MaterialsId] + (m + ([SkinsId] + (k + ([EndId] + more))));
    TexturesStep(h, c, ts, tb, after);
    assert Stream(after, false) == Ahead([MaterialsId], m + ([SkinsId] + (k + ([EndId] + more))));
    var c1 := c.(textures := ts);
    MaterialsStep(h, c1, m, [SkinsId] + (k + ([EndId] + more)));
    assert Stream([SkinsId] + (k + ([EndId] + more)), false) == Ahead([SkinsId], k + ([EndId] + more));
    var c2 := c1.(materials := m);
    SkinsStep(h, c2, k, [EndId] + more);
    assert Stream([EndId] + more, false) == Ahead([EndId], more);
    SkinEndStep(h, c2.(skins := k), more);
  }

  lemma {:induction false} GeometrySpecStep(h: Header, c: Contents, v: seq<byte>, t: seq<byte>, more: seq<byte>)
    requires h.numVertices >= 0 && h.numVertices * VertexSize == |v|
    requires h.numTriangles >= 0 && h.numTriangles * TriangleSize == |t|
    ensures Chunks(Ahead([GeometrySpecId], [VerticesId] + (v + ([TrianglesId] + (t + ([EndId] + more))))), h, c)
            == Chunks(Stream(more, false), h, c.(vertices := v, triangles := t))
  {
    var body := [VerticesId] + (v + ([TrianglesId] + (t + ([EndId] + more))));
    ChunksLoop(h, c, GeometrySpecId, body);
    assert Stream(body, false) == Ahead([VerticesId], v + ([TrianglesId] + (t + ([EndId] + more))));
    GeometryBack(h, c, v, t, more);
  }

  lemma {:induction false} SkinSpecStep(h: Header, c: Contents, ts: seq<DmfTexture>, tb: seq<byte>, m: seq<byte>, k: seq<byte>,
                     more: seq<byte>)
    requires h.numTextures == |ts|
    requires h.numMaterials >= 0 && h.numMaterials * MaterialSize == |m|
    requires h.numSkins >= 0 && h.numSkins * SkinSize == |k|
    requires var after := [MaterialsId] + (m + ([SkinsId] + (k + ([EndId] + more))));
             TextureRecords(Ahead(tb, after), |ts|) == (ts, Stream(after, false))
    ensures Chunks(Ahead([SkinSpecId], [TexturesId] + (tb + ([MaterialsId] + (m + ([SkinsId] + (k + ([EndId] + more))))))), h, c)
            == Chunks(Stream(more, false), h, c.(textures := ts, materials := m, skins := k))
  {
    var body := [TexturesId] + (tb + ([MaterialsId] + (m + ([SkinsId] + (k + ([EndId] + more))))));
    ChunksLoop(h, c, SkinSpecId, body);
    assert Stream(body, false) == Ahead([TexturesId], tb + ([MaterialsId] + (m + ([SkinsId] + (k + ([EndId] + more))))));
    SkinBack(h, c, ts, tb, m, k, more);
  }

  lemma {:induction false} ChunksAtEnd(h: Header, c: Contents)
    ensures Chunks(Stream([], false), h, c) == Progress(c, Stream([], true), false)
  {
    var s := Stream([], false);
    assert Get(s) == (EofByte, Stream([], true));
    assert ChunkItem(EofByte, Stream([], true), h, c) == More(c, Stream([], true));
  }

  lemma {:induction false} WholeRecords(n: nat, size: nat)
    requires size > 0 && n % size == 0
    ensures (n / size) * size == n
  {
  }

  /** A file that starts with 0x0F and a header is read from the chunks right after that header. */
  lemma {:induction false} ParseHeader(hb: seq<byte>, chunks: seq<byte>, before: Contents)
    requires |hb| == HeaderSize
    ensures var p := Chunks(Stream(chunks, false), DecodeHeader(hb), before);
            ParseFile([FileId] + (hb + chunks), before) == (p.c, !p.failed)
  {
    GetAhead(FileId, hb + chunks);
    assert ScanForFile(Open([FileId] + (hb + chunks))) == Some(Ahead(hb, chunks));
    ReadAhead(hb, chunks);
    assert Pad(hb, HeaderSize) == hb;
  }

  /** The chunks as written read back into exactly the written contents, whatever was there before. */
  lemma {:induction false} ChunksWritten(c: Contents, before: Contents)
    requires Writable(c) && PlainNames(c.textures)
    ensures Chunks(Stream(ChunkBytes(c), false), HeaderOf(c), before) == Progress(c, Stream([], true), false)
  {
    var h := HeaderOf(c);
    var tb := TexturesBytes(c.textures);
    var v, t, ts, m, k := c.vertices, c.triangles, c.textures, c.materials, c.skins;
    WholeRecords(|v|, VertexSize);
    WholeRecords(|t|, TriangleSize);
    WholeRecords(|m|, MaterialSize);
    WholeRecords(|k|, SkinSize);
    var after := [MaterialsId] + (m + ([SkinsId] + (k + ([EndId] + []))));
    var skin := [SkinSpecId] + ([TexturesId] + (tb + after));
    assert k + [EndId] == k + ([EndId] + []);
    assert ChunkBytes(c) == [GeometrySpecId] + ([VerticesId] + (v + ([TrianglesId] + (t + ([EndId] + skin)))));
    GeometrySpecStep(h, before, v, t, skin);
    TexturesAhead(ts, after);
    SkinSpecStep(h, before.(vertices := v, triangles := t), ts, tb, m, k, []);
    assert before.(vertices := v, triangles := t).(textures := ts, materials := m, skins := k) == c;
    ChunksAtEnd(h, c);
  }

  /**
   * What `WriteToFile` writes, `LoadFromFile` reads back: whatever the
   * vectors held before, the load succeeds and leaves exactly the written
   * contents, provided every texture name is shorter than the name buffer
   * and holds neither `'?'` nor NUL.
   */
  lemma {:induction false} ParseWritten(c: Contents, before: Contents)
    requires Writable(c) && PlainNames(c.textures)
    ensures ParseFile(Written(c), before) == (c, true)
  {
    var h := HeaderOf(c);
    ParseHeader(HeaderBytes(h), ChunkBytes(c), before);
    HeaderRoundTrip(h);
    ChunksWritten(c, before);
  }
}
