# Parcel game engine: batching renderers and supporting cores, in Dafny

This project models the core of the Parcel game engine, a C++/OpenGL engine.
Its centre is the set of **batching renderers**. Each keeps a registry of
renderable objects with integer IDs. Each runs a two-pass protocol:

- `Update()` sums the memory sizes the objects report and maps a vertex
  buffer of that size. It walks every object tree depth-first and writes
  vertex data through running cursors. It records one `ArrayIndices{start,
  amount}` range per visited object, in post-order.
- `Render()` walks the same trees again. It pushes object matrices and binds
  a skin only when its ID differs from the one the device has bound. It
  issues one draw per drawable object, using the recorded range.

There are three variants of the renderer:

- `VBORenderer`: 8 values per vertex.
- `IndexedVBORenderer`: the same vertex data plus a second buffer of
  triangle indices.
- `SpriteRenderer`: 4 values per sprite vertex.

The capability interfaces (`IRenderable`, `IGroupRenderable`, `IMatrix`,
`IGeometry`, `ISkinned`, `IIndexedGeometry`, `ISprite`) become one
`Renderable` datatype. Its capabilities are optional, and a group holds a
sequence of entries.

The supporting cores are:

- The render device's pass flags and skin binding.
- The `SkinManager` tables of skins, materials and textures.
- The ID registry shared by `ARenderer` and `ALighting`.
- The `TGAImage` byte-buffer operations: RLE decoding, power-of-two padding,
  vertical flip, red/blue swap and RGB/RGBA conversion.
- The integer helpers `ClosestPow2` and `Quantize`.
- The DMF chunked model format: the loader, its skin resolution and the writer.
- Line splitting in `FontRenderer`.
- Glyph lookup in `Font`.
- The structural operations of `Matrix<int>`.

How the model represents the system:

- Each source file is one module.
- Classes whose fields the source updates in place are Dafny classes.
- Mapped GPU buffers are arrays sized from the reported byte counts.
- GL draw, bind and matrix calls are recorded as a sequence of events.
- Whether `glUnmapBuffer` succeeds is a parameter.
- Vertex components are opaque values that are only copied.
- Files are byte sequences, and an absent file is `None`.
- Decoded images are parameters of the skin tables.

Each imperative method is proved against a specification function on
values: `RenderTree`/`RenderList`, `TreeValues`/`TreeRanges`, `RleStream`,
`Flipped`, `Swapped`, `Split`, `Lookups`, `ParseFile`, `Resolve`, `Product`.
The lemmas beside those functions state what the source promises. The key
facts proved are:

- `Render` after `Update` draws every object with its own range when only
  leaves draw.
- A geometry group that has geometry entries draws an entry's range twice.
- The writes of `Update` fit in the buffer exactly when the reported sizes
  cover the vertices.
- What the DMF writer writes, the loader reads back.
- The TGA flip and swap are self-inverse.
- `ParseLines` inverts joining lines with `'\n'`.

## Model

| member | source | states |
|---|---|---|
| RenderInterfaces.ConformingSizeIsTreeBytes | include/RenderInterfaces.h:29-60 | when every object reports its own vertex bytes plus what its entries report, an object's reported size equals the vertex bytes of its whole subtree, so a group's size covers everything stored in it |
| RenderInterfaces.ConformingListSize | include/RenderInterfaces.h:44-60 | for conforming entries the summed reported size equals the summed vertex bytes of their subtrees |
| IdRegistry.Registry.constructor | include/ARenderer.h:43-48 | a new registry is empty, its ID counter is 0 and it remembers whether it owns its objects; `ALighting`'s constructor (include/ALighting.h:43-47) is the same |
| IdRegistry.Registry.Add | include/ARenderer.h:68-82 | appends the object and its ID; the ID is the incremented counter, greater than every ID already stored; objects and IDs stay aligned; the log line names the new ID; `AddLight` (include/ALighting.h:66-80) is the same |
| IdRegistry.Registry.Remove | include/ARenderer.h:87-127 | removes exactly the entry with the given ID, keeping the order of the rest, and reports it found iff the ID was stored; an unknown ID changes nothing; the object is never deleted; `RemoveLight` (include/ALighting.h:82-122) is the same |
| IdRegistry.Registry.Destroy | include/ARenderer.h:51-61 | the destructor deletes every stored object, once each, iff the registry owns them, and nothing otherwise; the lighting destructor (include/ALighting.h:49-63) is the same |
| IdRegistry.RemoveAtKeepsIssued | include/ARenderer.h:93-112 | erasing one position keeps the remaining IDs strictly increasing and below the counter, and the erased ID no longer occurs |
| IdRegistry.LogLinesDistinguishIds | include/ARenderer.h:76-80 | log lines for different IDs differ: the decimal rendering of IDs is injective |
| MCommon.ClosestPow2 | include/MCommon.h:64-71 | returns a power of two that is at least 2 and at least the value; it is the smallest such (2, or half of it is below the value); it is 2 for values up to 2 |
| MCommon.Pow2Ceil | include/MCommon.h:64-71 | the specification of the doubling loop: at least 2 and at least the value |
| MCommon.SmallestPow2Unique | include/MCommon.h:64-71 | there is only one smallest power of two at least 2 and at least the value, so the loop's result is determined |
| MCommon.TruncDiv | include/MCommon.h:80-85 | C++ integer division truncating toward zero: quotient times divisor plus the truncated remainder is the dividend |
| MCommon.QuantizeMagnitude | include/MCommon.h:80-85 | `Quantize(n, s)` is the magnitude of n rounded down to a multiple of the magnitude of s, with the sign of n, because the division happens on integers before the conversion to double |
| MCommon.QuantizeTowardZero | include/MCommon.h:74-85 | the result lies between 0 and n, fits in an `int`, and is closer than one step to n: it rounds toward zero, not to the nearest multiple |
| MCommon.QuantizeRoundsDownPastHalf | include/MCommon.h:74-85 | concrete cases against the comment's "nearest": 27 and -27 with step 10 give 20 and -20 |
| RenderDevice.RenderDevice.constructor | src/RenderDevice.cpp:27-42 | a new device has no pass started, is in 3D mode and has the no-skin and no-texture IDs bound; `Reset` (lines 78-79) leaves both projections the 4×4 identity, 1 exactly at every fifth of the 16 entries |
| RenderDevice.RenderDevice.SetRenderMode | src/RenderDevice.cpp:86-92 | stores the mode |
| RenderDevice.RenderDevice.IsRenderMode | src/RenderDevice.cpp:268-272 | true iff the given mode is the stored one |
| RenderDevice.RenderDevice.StartRendering | src/RenderDevice.cpp:136-157 | from idle it starts the pass and clears the skin and texture IDs; when already started it only reports that and keeps the binding |
| RenderDevice.RenderDevice.EndRendering | src/RenderDevice.cpp:160-171 | ends the pass and reports whether none was started |
| RenderDevice.RenderDevice.SetActiveTexture | src/RenderDevice.cpp:208-216 | binds the texture iff it is stored; otherwise the texture ID is unchanged |
| RenderDevice.RenderDevice.SetActiveSkin | src/RenderDevice.cpp:174-205 | the binding afterwards is `ActivateSkin`: the skin ID changes only when the skin, its material and (unless slot 0 is free) its first texture all exist |
| RenderDevice.ActivateSkinIdempotent | src/RenderDevice.cpp:174-205 | activating the same skin twice binds what activating it once binds |
| RenderDevice.ActivateSkinReportsID | src/RenderDevice.cpp:174-205 | after activation the current skin ID is the requested one iff the skin can be activated or was already bound |
| RenderDevice.RenderDevice.ClearSkinAndTexture | src/RenderDevice.cpp:249-265 | sets both current IDs to the one-character string built from -1 |
| RenderDevice.ClearedIDIsNotTheConstants | src/RenderDevice.cpp:249-265 | that cleared ID is neither the no-skin nor the no-texture constant |
| RenderDevice.RenderDevice.SetProjectionMatrix | src/RenderDevice.cpp:281-293 | replaces only the projection matrix of the given mode |
| SkinManager.GetSkin | src/SkinManager.cpp:41-49 | throws iff the ID is absent, and otherwise returns the stored skin |
| SkinManager.GetMaterial | src/SkinManager.cpp:50-56 | throws iff the ID is absent, and otherwise returns the stored material |
| SkinManager.GetTexture | src/SkinManager.cpp:57-63 | throws iff the ID is absent, and otherwise returns the stored texture |
| SkinManager.SkinManager.constructor | src/SkinManager.cpp:26-32 | all three tables start empty |
| SkinManager.SkinManager.AddSkin | src/SkinManager.cpp:74-128 | changes the tables as `AddSkinSpec` states; the lemmas below give its meaning |
| SkinManager.AddSkinThenGet | src/SkinManager.cpp:114-124 | after adding a new skin, `GetSkin` finds it without alpha and with all four slots free |
| SkinManager.AddSkinFrame | src/SkinManager.cpp:74-128 | a duplicate ID throws and changes nothing; otherwise exactly one skin is added, textures are untouched, and no stored skin or other material changes |
| SkinManager.AddSkinMaterialKey | src/SkinManager.cpp:84-113 | a new material is stored under id+"Material" and the skin points at it; when an equal material exists the skin points at the never-advanced counter key instead of the match |
| SkinManager.SkinManager.AddTexture | src/SkinManager.cpp:155-245 | a duplicate ID throws; a texture whose name is already stored, or whose image fails to load, gives false; otherwise the texture is stored under its ID |
| SkinManager.SkinManager.AddTextureToSkin | src/SkinManager.cpp:260-293 | changes the tables as `AddTextureToSkinSpec` states: false when the skin is missing or its last slot is used, otherwise the first free slot receives the texture ID |
| SkinManager.AddTextureToSkinIgnoresLoadFailure | src/SkinManager.cpp:266-287 | success is reported, and the slot filled, even when the image failed to load and no texture was stored |
| SkinManager.FirstFree | src/SkinManager.cpp:276-284 | the first free slot: every earlier slot is used |
| SkinManager.FillFirstFreeWritesFirst | src/SkinManager.cpp:276-284 | the texture ID is written into the first free slot and no other slot changes |
| SkinManager.SkinManager.DeleteSkin | src/SkinManager.cpp:318-335 | the one-argument overload is the three-argument one without deleting textures or material |
| SkinManager.SkinManager.DeleteSkinWith | src/SkinManager.cpp:337-373 | changes the tables as `DeleteSkinSpec` states |
| SkinManager.DeleteSkinRemovesOnly | src/SkinManager.cpp:318-373 | reports found iff the skin was stored, removes only that skin, and leaves textures and materials alone unless asked to delete them |
| SkinManager.SkinManager.DeleteTexture | src/SkinManager.cpp:375-399 | true iff the texture was stored; removes exactly that entry |
| SkinManager.SkinManager.DeleteMaterial | src/SkinManager.cpp:401-419 | true iff the material was stored; removes exactly that entry |
| SkinManager.SkinManager.DeleteAll | src/SkinManager.cpp:421-438 | all three tables are empty |
| Batching.FaceElements | src/IndexedVBORenderer.cpp:100-105 | the element data of a face list has three entries per face |
| Batching.FaceElementsVerbatim | src/IndexedVBORenderer.cpp:100-105 | face k occupies element positions 3k to 3k+2 and holds v1, v2, v3 unchanged, with no offset for vertices written earlier |
| Batching.AsUnsigned | src/IndexedVBORenderer.cpp:103-105 | the conversion into the unsigned element buffer: below 2^32, and the identity on values that fit |
| Batching.TreeRangesCount | src/VBORenderer.cpp:91-106 | one range is recorded per visited object, not one per top-level object |
| Batching.TreeRangesWithin | src/VBORenderer.cpp:53-106 | every recorded range lies inside the cursor interval the walk covers, and the last one recorded is the object's own, starting where it was entered and counting only its own vertices |
| Batching.TreeUnitsAreVertices | src/VBORenderer.cpp:73-87 | for the array renderers the range cursor counts exactly the vertices written |
| Batching.TreeUnitsAreElements | src/IndexedVBORenderer.cpp:100-111 | for the indexed renderer the range cursor counts exactly the elements written |
| Batching.LitIgnoresSprites | include/RenderInterfaces.h:149-160 | removing the sprite capability changes nothing the lit and indexed renderers write or record |
| Batching.FitsIffReportedCovers | src/VBORenderer.cpp:113-131 | the data written fits in the reported-bytes/4 floats of the buffer exactly when the vertex bytes are at most the reported size |
| Batching.ConformingRootsFit | include/RenderInterfaces.h:29-60 | when the top-level objects meet the capability contracts, the written data always fits in the buffer |
| Batching.GlPrimitive | src/VBORenderer.cpp:199-216 | a GL primitive exists exactly for the primitive types 0 to 9; any other type throws |
| Batching.DrawFor | src/VBORenderer.cpp:195-219 | an object's draw fails only in the lit renderer, and only for an object it would draw |
| Batching.EnterObject | src/VBORenderer.cpp:166-192 | pushing the matrix and binding the skin on entry records exactly the events and the binding `Enter` states |
| Batching.EnterBindsOnlyOnMismatch | src/VBORenderer.cpp:180-192 | a skin is bound iff the object carries a skin ID that differs from the device's current one; otherwise the binding is unchanged |
| Batching.RenderTree | src/VBORenderer.cpp:162-260 | rendering an object consumes at least one recorded range and at most one per object in its tree |
| Batching.RenderList | src/VBORenderer.cpp:222-233 | rendering a list of entries consumes at most one range per object in the list |
| Batching.ThrowAdvancesByOne | src/VBORenderer.cpp:202-259 | an unknown primitive type throws at that object: its entries are skipped, its matrix is not popped, and the index advances by exactly one |
| Batching.GeometryGroupDrawsEntryRangeTwice | src/VBORenderer.cpp:196-259 | with post-order ranges and the draw issued on entry, a geometry group with one geometry entry draws the entry's range twice and never its own |
| Batching.RenderMatchesIntendedAtLeaves | src/VBORenderer.cpp:162-260 | when only objects without drawing entries draw, rendering with the ranges of the same walk draws every object with its own range |
| Batching.RenderAfterUpdate | include/VBORenderer.h:59-61 | with nothing added or removed between `Update` and `Render`, the recorded ranges are exactly enough, and the render pass issues the intended draws and leaves the intended binding |
| VboRenderer.VboRenderer.constructor | src/VBORenderer.cpp:22-39 | a new renderer has an empty registry with the given ownership flag, an empty buffer and no ranges |
| VboRenderer.VboRenderer.ProcessRenderable | src/VBORenderer.cpp:51-107 | writes the tree's vertex data at the cursor and nothing else, advances the float cursor by 8 per vertex, and appends the tree's post-order ranges |
| VboRenderer.VboRenderer.WriteOwnVertices | src/VBORenderer.cpp:63-88 | writes position, texcoord and normal of each own vertex in order, and returns the object's own vertex count |
| VboRenderer.VboRenderer.ProcessGroup | src/VBORenderer.cpp:91-106 | after the object's own data, writes its entries' data and appends their ranges, then its own range |
| VboRenderer.VboRenderer.ProcessEntries | src/VBORenderer.cpp:93-103 | processes the non-null entries in order: their data in sequence and their ranges in sequence |
| VboRenderer.VboRenderer.Update | src/VBORenderer.cpp:110-159 | the buffer holds reported-bytes/4 floats; a zero size returns before the ranges are cleared; otherwise the buffer starts with all trees' data, the ranges are exactly the trees', and a failed unmap throws |
| VboRenderer.VboRenderer.RenderObject | src/VBORenderer.cpp:162-260 | records the events, binding and next index that `RenderTree` states |
| VboRenderer.VboRenderer.RenderEntries | src/VBORenderer.cpp:222-233 | records the events, binding and next index that `RenderList` states |
| VboRenderer.VboRenderer.Render | src/VBORenderer.cpp:263-300 | renders the registered objects from range 0 as `RenderList` states |
| IndexedVboRenderer.ConformingIndexSize | src/IndexedVBORenderer.cpp:141-153 | for conforming objects the index buffer size is the face bytes of the top-level indexed objects |
| IndexedVboRenderer.NestedFacesAreNotSized | src/IndexedVBORenderer.cpp:141-153 | a group whose indexed entry has faces gets an index buffer of size 0, although the walk writes its three elements |
| IndexedVboRenderer.AllTriangleBytesCoverElements | src/IndexedVBORenderer.cpp:141-153 | summing the triangle sizes over whole trees, entries included, gives a conforming scene exactly 4 bytes per element the walk writes |
| IndexedVboRenderer.TreeTriangleBytesCoverElements | src/IndexedVBORenderer.cpp:141-153 | the same for one conforming tree: its whole-tree triangle bytes are 4 per element it writes |
| IndexedVboRenderer.NestedFacesAreSizedByTree | src/IndexedVBORenderer.cpp:141-153 | on the nested scene the top-level size misses, the whole-tree size is the 12 bytes its 3 indices need |
| IndexedVboRenderer.IndexedVboRenderer.constructor | src/IndexedVBORenderer.cpp:18-46 | an empty registry with the ownership flag, two empty buffers and no ranges |
| IndexedVboRenderer.IndexedVboRenderer.ProcessRenderable | src/IndexedVBORenderer.cpp:58-130 | writes the tree's vertex data and face elements at their cursors; the element cursor advances by 3 per triangle; appends post-order ranges that start at the element cursor |
| IndexedVboRenderer.IndexedVboRenderer.WriteOwnIndexed | src/IndexedVBORenderer.cpp:73-111 | writes the own vertices (8 values each) and the own faces verbatim; the own amount is 3 times the triangle count |
| IndexedVboRenderer.IndexedVboRenderer.ProcessGroup | src/IndexedVBORenderer.cpp:113-129 | after the own data, writes the entries' data and elements and appends their ranges, then its own |
| IndexedVboRenderer.IndexedVboRenderer.ProcessEntries | src/IndexedVBORenderer.cpp:118-127 | processes the non-null entries in order, in both buffers |
| IndexedVboRenderer.IndexedVboRenderer.Update | src/IndexedVBORenderer.cpp:133-206 | buffers sized from the summed memory sizes and the top-level triangle sizes; either size zero returns before clearing the ranges; otherwise both buffers hold the walk's output and failed unmaps throw distinct messages, data buffer first |
| IndexedVboRenderer.IndexedVboRenderer.RenderObject | src/IndexedVBORenderer.cpp:210-297 | records what `RenderTree` states for the indexed variant: a range draw of triangles with element offset 0 |
| IndexedVboRenderer.IndexedVboRenderer.RenderEntries | src/IndexedVBORenderer.cpp:261-272 | records what `RenderList` states |
| IndexedVboRenderer.IndexedVboRenderer.Render | src/IndexedVBORenderer.cpp:300-339 | renders the registered objects from range 0 as `RenderList` states |
| SpriteRenderer.SpriteRenderer.constructor | src/SpriteRenderer.cpp:21-36 | an empty registry with the ownership flag, an empty buffer and no ranges |
| SpriteRenderer.SpriteRenderer.ProcessRenderable | src/SpriteRenderer.cpp:45-90 | writes only sprite vertices, 4 values each, and ignores geometry; appends post-order ranges starting at the vertex counter |
| SpriteRenderer.SpriteRenderer.WriteOwnSprite | src/SpriteRenderer.cpp:56-73 | writes position and texcoord of each own sprite vertex in order |
| SpriteRenderer.SpriteRenderer.ProcessGroup | src/SpriteRenderer.cpp:75-89 | the entries' data and ranges, then the object's own range |
| SpriteRenderer.SpriteRenderer.ProcessEntries | src/SpriteRenderer.cpp:78-86 | processes the non-null entries in order |
| SpriteRenderer.SpriteRenderer.Update | src/SpriteRenderer.cpp:92-139 | `vboMemorySize` becomes the sum of the top-level sizes; a zero size returns before clearing the ranges; otherwise the buffer holds the sprite data and the ranges are the trees' |
| SpriteRenderer.SpriteRenderer.RenderObject | src/SpriteRenderer.cpp:141-214 | with a non-positive buffer size it returns without drawing or advancing; otherwise it records what `RenderTree` states, drawing quads |
| SpriteRenderer.SpriteRenderer.RenderEntries | src/SpriteRenderer.cpp:179-190 | the same for a list of entries |
| SpriteRenderer.SpriteRenderer.Render | src/SpriteRenderer.cpp:216-244 | renders the registered objects from range 0, or nothing when the buffer size is not positive |
| TgaFormat.ReadHeader | include/TGAImage.h:20-40 | the header fields are the file's bytes at their offsets, sizes read little-endian |
| TgaFormat.DataStart | src/TGAImage.cpp:211 | where pixel data starts after the `fseek` with its arguments in the source's order |
| TgaFormat.PacketForm | src/TGAImage.cpp:224-266 | a header byte of at least 128 gives id-127 copies of one pixel; a smaller one gives id+1 literal pixels of colourMode bytes each |
| TgaFormat.PacketMeaning | src/TGAImage.cpp:224-266 | byte by byte: a run repeats the bytes right after the header, a literal packet copies the file's bytes in order |
| TgaFormat.RleStreamLength | src/TGAImage.cpp:224 | the decoded stream covers the image size and overshoots it by less than one packet: the last packet is not clamped |
| TgaFormat.FlippedAt | src/TGAImage.cpp:398-417 | row r of the flipped buffer is row height-1-r of the original |
| TgaFormat.FlippedTwice | src/TGAImage.cpp:380-418 | flipping twice restores the buffer |
| TgaFormat.SwappedAt | src/TGAImage.cpp:428-452 | bytes 0 and 2 of every pixel are exchanged and byte 1 (and 3) kept |
| TgaFormat.SwappedTwice | src/TGAImage.cpp:420-454 | swapping twice restores the buffer |
| TgaFormat.DropAlphaAt | src/TGAImage.cpp:318-338 | the RGB buffer holds the first three bytes of each RGBA pixel |
| TgaFormat.AddAlphaAt | src/TGAImage.cpp:352-372 | the RGBA buffer holds each RGB pixel followed by the given alpha |
| TgaFormat.DropAddAlpha | src/TGAImage.cpp:311-378 | dropping the alpha that was added gives the RGB pixels back |
| TgaFormat.AddDropAlpha | src/TGAImage.cpp:311-378 | adding an alpha to dropped pixels gives the RGBA pixels back except for the alpha value |
| TgaFormat.PartFlipAll | src/TGAImage.cpp:405-416 | the row-exchange loop run over half the rows is the full flip |
| TgaFormat.Available | src/TGAImage.cpp:216 | what an `fread` delivers: the requested bytes, or fewer at the end of the file |
| TgaImage.Filled | src/TGAImage.cpp:207-280 | the buffer is realImageSize bytes: the image bytes first, zeros from imageSize on |
| TgaFormat.ClampedRle | src/TGAImage.cpp:224-268 | the decoder as evidently intended, cutting the last packet short: exactly the image size in bytes |
| TgaFormat.ClampedRleIsPrefix | src/TGAImage.cpp:224-268 | the loop writes at least the image size, and its first image-size bytes are the clamped decoder's |
| TgaImage.FilledIsClamped | src/TGAImage.cpp:224-280 | on a compressed image the bytes a load keeps are the clamped decoder's, so the overshoot never survives in a load the model follows |
| TgaImage.RleOverrunsBuffer | src/TGAImage.cpp:224-266 | a 1 by 1 compressed image whose only packet is a run of 128 pixels makes the loop write 384 bytes into a 3-byte buffer, so that load is outside what the model follows |
| TgaImage.ImageWithinBuffer | src/TGAImage.cpp:188-208 | as unbounded numbers the power-of-two buffer is never smaller than the image |
| TgaImage.SizesWithoutWrap | src/TGAImage.cpp:207-208 | while the needed buffer stays below 2^32 the loader's 32-bit sizes are the real ones, and the image fits in the buffer |
| TgaImage.PaddedBufferWraps | src/TGAImage.cpp:194-209 | a 32769 by 32769 24-bit image widened to 65536 by 65536 gets a buffer size that wraps to 0 while the image size is 3221422083 |
| TgaImage.LoadDefinedWithoutWrap | src/TGAImage.cpp:168-309 | without a wrap, a whole header, a known type code (or an old depth the pixels can hold) and a decoder that stays in the buffer are all a load needs |
| TgaImage.BufferSizes | src/TGAImage.cpp:186-208 | imageSize is width·height·colourMode and the buffer size uses the padded dimensions when asked, both reduced modulo 2^32 as `unsigned int` products; without a wrap the image fits in the buffer |
| TgaImage.ReadPixels | src/TGAImage.cpp:211-280 | reads the raw or RLE pixel bytes and pads with zeros up to the buffer size |
| TgaImage.TgaImage.constructor | include/TGAImage.h:47-52 | no pixel data and zero sizes |
| TgaImage.TgaImage.LoadFromFile | src/TGAImage.cpp:168-309 | fails and changes nothing for no file and for image types 0, 1 and 9; fails after storing width and height for fewer than 24 bits per pixel; otherwise the buffer has the 32-bit padded size, imageSize the 32-bit image size, depth and format follow the type code (the old ones for unknown codes), and the pixels are the decoded image flipped and swapped |
| TgaImage.TgaImage.LoadFromFileUnpadded | src/TGAImage.cpp:19-166 | the one-argument overload: the same failures and fields, with a buffer of exactly imageSize bytes |
| TgaImage.TgaImage.FinishLoad | src/TGAImage.cpp:131-159 | sets RGB/24 for colourMode 3 and RGBA/32 otherwise, flips a top-left image and swaps red and blue |
| TgaImage.TgaImage.FlipVertical | src/TGAImage.cpp:380-418 | throws on missing pixel data; otherwise the buffer is the flip for 24- and 32-bit depths and unchanged for others |
| TgaImage.TgaImage.SwapRedBlue | src/TGAImage.cpp:420-454 | throws on missing pixel data; otherwise red and blue are swapped in every pixel |
| TgaImage.TgaImage.ConvertRGBAToRGB | src/TGAImage.cpp:311-345 | succeeds iff the image is 32-bit RGBA, then drops every fourth byte and becomes 24-bit RGB; otherwise nothing changes |
| TgaImage.TgaImage.ConvertRGBToRGBA | src/TGAImage.cpp:347-378 | succeeds iff the image is 24-bit RGB; the loops cover height × height pixels, each followed by the alpha, and the image becomes 32-bit RGBA |
| TgaImage.FlipRows | src/TGAImage.cpp:398-417 | the in-place row exchange loop leaves the flipped buffer |
| TgaImage.SwapComponents | src/TGAImage.cpp:428-452 | the in-place byte exchange loop leaves the swapped buffer |
| TgaImage.DecodeRle | src/TGAImage.cpp:220-268 | the RLE loop writes the decoded stream from position 0 and nothing else |
| TgaImage.WritePacket | src/TGAImage.cpp:226-265 | one packet writes its bytes at the cursor and moves the file position past it |
| TgaImage.PadWithZeros | src/TGAImage.cpp:272-280 | the bytes from imageSize to the end become zero |
| DmfFormat.Get | src/DMFModelLoader.cpp:45-46 | `get()` consumes one byte, or sets the end-of-file flag and changes nothing else |
| DmfFormat.Read | src/DMFModelLoader.cpp:51 | `read(n)` consumes n bytes, or what is left with the end-of-file flag set |
| DmfFormat.ResizeKeeps | src/DMFModelLoader.cpp:88 | `resize` keeps the elements that fit and fills the rest with zeros |
| DmfFormat.ScanFindsFirstMarker | src/DMFModelLoader.cpp:43-61 | the header is read right after the first 0x0F byte, and one exists to read iff the file contains 0x0F |
| DmfFormat.ReadRecordsCount | src/DMFModelLoader.cpp:85-100 | a record chunk leaves exactly the header's count of records, and they are the file's next bytes when the file holds them |
| DmfFormat.NameBytes | src/DMFModelLoader.cpp:148-160 | a name is read character by character, at most 100, stopping at and dropping `'?'` |
| DmfFormat.TextureRecords | src/DMFModelLoader.cpp:138-166 | reads the header's count of texture records, each an ID then a name |
| DmfFormat.GeometryChunk | src/DMFModelLoader.cpp:73-114 | the geometry sub-chunk loop never moves backwards in the file |
| DmfFormat.SkinChunk | src/DMFModelLoader.cpp:116-189 | the skin sub-chunk loop never moves backwards in the file |
| DmfFormat.HeaderOf | src/DMFModelLoader.cpp:303-315 | the writer's header: version 1 and every count equal to its vector's size |
| DmfFormat.HeaderRoundTrip | src/DMFModelLoader.cpp:303-315 | the header bytes decode back to the header |
| DmfFormat.RecordsAhead | src/DMFModelLoader.cpp:85-100 | a record vector read back from a file that holds it is exactly those records |
| DmfFormat.GeometryBack | src/DMFModelLoader.cpp:318-333 | a geometry chunk as written reads back into exactly its vertices and triangles |
| DmfFormat.SkinBack | src/DMFModelLoader.cpp:338-374 | a skin chunk as written reads back into exactly its textures, materials and skins |
| DmfFormat.ChunksWritten | src/DMFModelLoader.cpp:318-374 | the chunks in the writer's order read back into exactly the written contents, whatever the vectors held before |
| DmfFormat.ParseWritten | src/DMFModelLoader.cpp:285-404 | what the writer writes the loader parses back into the same contents, when every name is under 100 characters and has no `'?'` or NUL |
| DmfModelLoader.LastMatchFindsLast | src/DMFModelLoader.cpp:221-237 | the forward search finds a match iff the ID occurs, and keeps the last position that holds it |
| DmfModelLoader.PlanUsesLast | src/DMFModelLoader.cpp:213-241 | each skin uses the last texture and the last material whose IDs match, and each is found iff one matches |
| DmfModelLoader.SkinIdsDistinct | src/DMFModelLoader.cpp:208 | the skins of one file get different IDs, filename+"Skin"+i |
| DmfModelLoader.Register | src/DMFModelLoader.cpp:242-253 | registering keeps every stored skin, succeeds only with the skin stored, and fails when the ID is already taken |
| DmfModelLoader.RegisterAttaches | src/DMFModelLoader.cpp:242-253 | the texture key is in the skin's first slot iff the resolved file name is non-empty; with an empty name all slots stay free |
| DmfModelLoader.ResolveSkin | src/DMFModelLoader.cpp:205-257 | a turn of the loop succeeds only when the texture and the material were found and the skin was registered |
| DmfModelLoader.ResolveTurn | src/DMFModelLoader.cpp:205-257 | each successful turn appends the next skin ID; once a turn fails the rest change nothing |
| DmfModelLoader.ResolveLoadsIds | src/DMFModelLoader.cpp:205-208 | the loaded skin IDs are those of the skins reached, in order |
| DmfModelLoader.ResolveLoadsCount | src/DMFModelLoader.cpp:205-257 | all skins are loaded on success; on failure the failing skin's ID is already pushed |
| DmfModelLoader.MissingFails | src/DMFModelLoader.cpp:242-257 | a skin with no matching texture or material makes the whole load fail |
| DmfModelLoader.ResolveNeedsBoth | src/DMFModelLoader.cpp:242-257 | a successful resolution found a texture and a material for every skin |
| DmfModelLoader.ResolveRegisters | src/DMFModelLoader.cpp:205-257 | every skin reached by a successful resolution is stored in the skin manager |
| DmfModelLoader.ResolveKeepsSkins | src/DMFModelLoader.cpp:205-257 | skin resolution never removes a stored skin |
| DmfModelLoader.ReloadFails | src/DMFModelLoader.cpp:242-257 | loading a file whose first skin ID is already stored fails |
| DmfModelLoader.SecondLoadFails | src/DMFModelLoader.cpp:26-282 | loading a file with skins a second time under the same name fails, because its skin IDs are taken |
| DmfModelLoader.NoMarkerFails | src/DMFModelLoader.cpp:43-61 | a file without 0x0F loads nothing and returns false |
| DmfModelLoader.LoadWritten | src/DMFModelLoader.cpp:26-282 | loading what the writer wrote leaves the written contents, and succeeds iff the skins resolve |
| DmfModelLoader.FindFile | src/DMFModelLoader.cpp:43-55 | the scan loop stops right after the first 0x0F, and finds one iff the file contains it |
| DmfModelLoader.ReadName | src/DMFModelLoader.cpp:148-160 | the character loop reads the name `NameBytes` states |
| DmfModelLoader.FindLast | src/DMFModelLoader.cpp:221-237 | the search loop returns the last position holding the ID, and finds one iff the ID occurs |
| DmfModelLoader.ModelLoader.constructor | src/DMFModelLoader.cpp:18-20 | empty vectors and no loaded skins |
| DmfModelLoader.ModelLoader.LoadFromFile | src/DMFModelLoader.cpp:26-282 | changes the vectors, the loaded skins and the skin tables as `Load` states |
| DmfModelLoader.ModelLoader.Parse | src/DMFModelLoader.cpp:43-200 | reads the vectors as `ParseFile` states |
| DmfModelLoader.ModelLoader.ReadGeometry | src/DMFModelLoader.cpp:73-114 | the geometry sub-chunk loop as `GeometryChunk` states |
| DmfModelLoader.ModelLoader.ReadSkin | src/DMFModelLoader.cpp:116-189 | the skin sub-chunk loop as `SkinChunk` states |
| DmfModelLoader.ModelLoader.ResolveSkins | src/DMFModelLoader.cpp:205-257 | the resolution loop as `Resolve` states |
| DmfModelLoader.WriteContents | src/DMFModelLoader.cpp:299-374 | writes FILE, the header, GEOMETRY_SPEC, VERTICES, TRIANGLES, END, SKIN_SPEC, TEXTURES, MATERIALS, SKINS, END with their data |
| DmfModelLoader.WriteTextures | src/DMFModelLoader.cpp:345-358 | each texture is its ID followed by its name and a `'?'` |
| DmfModelLoader.ModelLoader.WriteToFile | src/DMFModelLoader.cpp:285-404 | false with nothing written when the file does not open; otherwise the file holds `Written` of the loaded contents, which the loader parses back (`ParseWritten`) |
| FontRendering.Split | src/FontRenderer.cpp:110-147 | splitting text at `'\n'` gives at least one line |
| FontRendering.SplitCount | src/FontRenderer.cpp:117-144 | there is one line more than there are `'\n'` characters |
| FontRendering.SplitLinesHaveNoNewline | src/FontRenderer.cpp:119-131 | no line contains `'\n'` |
| FontRendering.JoinSplit | src/FontRenderer.cpp:117-142 | joining the lines with `'\n'` gives the text back |
| FontRendering.SplitJoin | src/FontRenderer.cpp:117-142 | splitting lines joined with `'\n'` gives the lines back |
| FontRendering.EmptyAndTrailing | src/FontRenderer.cpp:135-143 | empty text gives one empty line, and a trailing `'\n'` gives an empty last line |
| FontRendering.LastLineEmpty | src/FontRenderer.cpp:135-143 | the last line is empty iff the text is empty or ends in `'\n'` |
| FontRendering.UpToNul | src/FontRenderer.cpp:117 | the C string the loop walks: the characters before the first NUL |
| FontRendering.ParseLines | src/FontRenderer.cpp:110-147 | the pointer loop returns the split of the text up to its first NUL |
| FontRendering.FontRenderer.constructor | src/FontRenderer.cpp:28-34 | zero margins and spacing, the origin as offset, and a fresh line |
| FontRendering.FontRenderer.Draw | src/FontRenderer.cpp:150-207 | a fresh line starts at the margin; each later line starts at the margin one line step lower; the offset ends after the last line; the next call starts fresh iff the last line is empty |
| FontRendering.FontRenderer.DrawLine | src/FontRenderer.cpp:178-202 | one line moves the offset by its glyph advances; a non-last line then goes to the next line at the margin |
| Fonts.Font.constructor | src/Font.cpp:195 | the newline glyph ID is the number of glyphs plus one |
| Fonts.Lookups | src/Font.cpp:254-266 | one index per character, each the lookup of that character |
| Fonts.ScanFindsLastMatch | src/Font.cpp:258-265 | a character gets the index of the last glyph with that character, or no index when none matches |
| Fonts.NewlineLookup | src/Font.cpp:258-262 | `'\n'` maps to the newline ID, but only when there is at least one glyph |
| Fonts.NewlineClashesAtCapacity | src/Font.cpp:195-262 | with a full glyph table the newline ID is out of range for the scan, so a newline fails to map |
| Fonts.NewlineNeverMissing | src/Font.cpp:195-262 | with a newline ID one past the not-found value, a newline maps to an ID that is neither not-found nor a glyph index, for every table the loader admits, and a text of newlines has no miss |
| Fonts.NewlinesHaveNoMiss | src/Font.cpp:252-268 | with that newline ID, no position of a text of newlines is a miss |
| Fonts.FirstMiss | src/Font.cpp:248-274 | the first examined position without a glyph, or the examined length when all match |
| Fonts.Font.GetGlyphIndexes | src/Font.cpp:242-278 | examines min(text length, numIndexes) characters; returns true iff all have a glyph, having written all their indexes; otherwise the positions before the first miss and the miss's sentinel are written and later ones are untouched |
| Fonts.Font.Write | src/Font.cpp:334-358 | draws the text's glyph indexes iff every character has a glyph, and nothing otherwise |
| Matrices.Matrix.constructor | include/Matrix.h:318-328 | `Matrix(nr, nc)` is nr by nc zeros |
| Matrices.Matrix.Default | include/Matrix.h:295-303 | `Matrix()` is 3 by 3 zeros |
| Matrices.Matrix.Square | include/Matrix.h:306-315 | `Matrix(n)` is n by n zeros |
| Matrices.Matrix.FromData | include/Matrix.h:331-352 | element (j, i) is `data[i + nc * j]` |
| Matrices.Matrix.Copy | include/Matrix.h:355 | the same dimensions and elements |
| Matrices.Matrix.SetElement | include/Matrix.h:789-791 | sets element (r, c) and no other |
| Matrices.Matrix.ToArrayInto | include/Matrix.h:819-826 | fills the first rows·columns positions with the flattened matrix and leaves the rest |
| Matrices.Matrix.ToArray | include/Matrix.h:805-818 | a fresh array holding the flattened matrix |
| Matrices.UnflattenFlatten | include/Matrix.h:331-352 | the data constructor reads back what `ToArray` wrote |
| Matrices.FlattenUnflatten | include/Matrix.h:805-818 | `ToArray` of `Matrix(nr, nc, data)` gives the first nr·nc values of data |
| Matrices.Matrix.Transpose | include/Matrix.h:527-537 | a fresh matrix with the dimensions swapped and T(c, r) = M(r, c) |
| Matrices.TransposeTwice | include/Matrix.h:527-537 | transposing twice gives the original |
| Matrices.Identity | include/Matrix.h:121-129 | n by n with 1 on the diagonal and 0 elsewhere |
| Matrices.Plus | include/Matrix.h:145-161 | m1's dimensions; the elementwise sum, or all zeros when the dimensions differ |
| Matrices.Minus | include/Matrix.h:163-179 | m1's dimensions; the elementwise difference, or all zeros when the dimensions differ |
| Matrices.CombinedCancel | include/Matrix.h:145-179 | adding then subtracting the same matrix gives the original |
| Matrices.Times | include/Matrix.h:249-266 | m1.rows by m2.columns with the standard sums, or a 3 by 3 zero matrix when m1.columns differs from m2.rows |
| Matrices.ProductIdentityLeft | include/Matrix.h:249-266 | the identity times a matrix is the matrix |
| Matrices.ProductIdentityRight | include/Matrix.h:249-266 | a matrix times the identity is the matrix |
| Matrices.Matrix.MulAssign | include/Matrix.h:383-409 | replaces the matrix by the product when the dimensions conform, and leaves it unchanged otherwise |
| Matrices.Matrix.ScaleAssign | include/Matrix.h:373-381 | multiplies every element by the scalar |
| Matrices.Matrix.AddAssign | include/Matrix.h:411-422 | adds elementwise when the dimensions agree, and leaves the matrix unchanged otherwise |
| Matrices.Matrix.SubAssign | include/Matrix.h:424-435 | subtracts elementwise when the dimensions agree, and leaves the matrix unchanged otherwise |
| Matrices.Matrix.Equals | include/Matrix.h:452-468 | true iff the dimensions and all elements agree, so false whenever the dimensions differ |
| Matrices.Matrix.NotEquals | include/Matrix.h:470-486 | the negation of `==`, so true whenever the dimensions differ |
| Matrices.DetIdentity | include/Matrix.h:587-641 | the determinant of an identity of size at least 2 is 1 |
| Matrices.DetZeroTopRow | include/Matrix.h:587-641 | a square matrix whose top row is zero has determinant 0 under the top-row cofactor expansion |
| Matrices.DeterminantOf | include/Matrix.h:587-641 | the loop over the top row, recursing on each minor, computes `Det`: 0 unless square and at least 2 by 2, `ad - bc` for 2 by 2, the alternating expansion otherwise; `DetIdentity` and `DetZeroTopRow` give its meaning |
| Matrices.Matrix.Determinant | include/Matrix.h:587-641 | the matrix's determinant is `Det` of its elements |

## Left out

- OpenGL. Buffer allocation, mapping, draws, matrix pushes and texture binds
  become arrays and recorded events. Whether an unmap succeeds is a
  parameter. The GL enumerator values are the numbers the code passes.
- Floating point. Vertex components, material colours and matrix rotations
  are opaque values that are only copied or compared structurally. Material
  equality is structural equality. Font offsets use exact reals, so
  `height / 0.63` has no rounding.
- File I/O and logging. Files are byte sequences, an absent file is `None`,
  and log output is not modelled except the registry's log lines.
- Memory exhaustion (`new` failing) is not modelled.
- Win32 plumbing, sound, Lua, FreeType rasterisation, shaders, cameras,
  quaternions, vectors, the animator and the game loop are not part of this
  model.
- `Font`'s `.dff` parsing: the constructor takes the loaded glyph list
  instead of a file name.
- `Matrix` `Cofactor`, `Adjoint`, `Inverse`, rotations and projections are
  left out: they are floating-point operations.
- `ToIdentity` and unary `-` are left out: they fall off the end without a
  return value, which is undefined behaviour.
- `RenderDevice::GetProjectionMatrix` is left out: it returns a reference to
  a temporary.
- The DMF identifiers are modelled as unsigned bytes. On platforms where
  `char` is signed, 0xFF never equals the end identifier. The model assumes
  it does.
- `ALighting` is modelled by the same `Registry` as `ARenderer`: its code is
  identical apart from names.
- IdRegistry.Registry.Add: the ID counter is unbounded. The 32-bit
  wrap-around of `idCount` after 2^32 additions is not modelled.
- MCommon.ClosestPow2: requires the value to be at most 2^30. Beyond that,
  the doubling overflows `int`, which is undefined behaviour.
- Matrices.Matrix.MulAssign: elements are unbounded integers. Overflow of
  `int` sums and products is not modelled. The same holds for
  Matrices.Matrix.ScaleAssign, Matrices.Matrix.AddAssign,
  Matrices.Matrix.SubAssign, Matrices.Plus, Matrices.Minus, Matrices.Times,
  Matrices.DeterminantOf and Matrices.Det.
- VboRenderer.VboRenderer.Update requires several things:
  - every top-level object is non-null, because the size loop dereferences
    it;
  - the reported total is not negative;
  - when the reported total is not zero, the written data fits in the
    mapped buffer, because writing past it is undefined behaviour. With a
    zero total the source returns before writing, and so does the model,
    whatever the trees hold.
  `Batching.FitsIffReportedCovers` says when the data fits. The same holds
  for the indexed and sprite variants. The indexed one asks for the fit only
  when both of its totals are non-zero, as it returns when either is zero.
- VboRenderer.VboRenderer.Render requires at least as many recorded ranges as
  objects, because indexing past `arrayIndices` is undefined behaviour. This
  makes explicit the rule that nothing is added or removed between `Update`
  and `Render`. The same holds for the other variants.
- SpriteRenderer.SpriteRenderer.constructor leaves `vboMemorySize`
  unspecified. The source never initialises it.
- TgaImage.TgaImage.LoadFromFile: the pixel contents are stated only when the
  file holds all the image bytes. On a short read, the rest of the freshly
  allocated buffer is indeterminate.
- TgaImage.TgaImage.LoadFromFile requires a file of at least 18 bytes. With a
  shorter file the header's unread fields are uninitialised memory.
- TgaImage.TgaImage.LoadFromFile requires the bytes read or decoded to fit in
  `realImageSize`. Two things break this, and both write past `pixelData`:
  - the 32-bit wrap of `realImageSize` (see Findings);
  - a last RLE packet that runs past the image (see Findings).
- TgaImage.TgaImage.LoadFromFile requires the flip and the swap to stay
  inside the buffer. For an unknown type code the old colour depth is kept.
  That depth may call for more bytes per pixel than were read. When the
  sizes wrap, the flip and swap over `width·height` pixels leave the buffer.
  Wrapped images whose flip and swap would stay in the buffer, such as a
  grayscale one, are therefore also excluded.
- TgaImage.TgaImage.LoadFromFile: `FlipVertical` computes
  `lineWidth * (height - 1)` as an `int`. The model treats it as exact. An
  image over 2^31 bytes overflows it.
- TgaImage.TgaImage.LoadFromFileUnpadded has the same requirements as
  `LoadFromFile`, with a buffer of exactly `imageSize` bytes.
- TgaImage.TgaImage.ConvertRGBToRGBA requires `height <= width` and a buffer
  of at least `3·height·height` bytes. Otherwise its height × height loop
  reads or writes out of bounds.
- TgaImage.TgaImage.ConvertRGBAToRGB requires a buffer of at least
  `4·width·height` bytes.
- DmfFormat.Pad: a short read of the header or of a texture ID is completed
  with zeros. In the source both are uninitialised locals, whose unread bytes
  are indeterminate. Record vectors keep their resized bytes on a short read,
  as in the source.
- DmfFormat.NameBytes: when no `'?'` comes within 100 characters, the
  source never terminates `filename`. This includes every record read at
  end of file, where `get()` keeps returning 0xFF. `std::string(filename)`
  then reads past the buffer, which is undefined behaviour. The model takes
  the 100 bytes read, cut at the first NUL among them, as if a terminator
  followed the buffer.
- DmfFormat.ParseWritten requires names shorter than 100 characters with no
  `'?'` or NUL. A longer name overruns the 100-character buffer, which is
  undefined behaviour.
- FontRendering.FontRenderer.Draw requires every character to have a glyph
  advance. Indexing past the glyph table is undefined behaviour.

## Findings

| source | as written | input that shows it | evidently intended | confidence | as-written member | corrected member |
|---|---|---|---|---|---|---|
| src/TGAImage.cpp:207-208 | `realImageSize = realWidth * realHeight * colourMode` is an `unsigned int` product, so it wraps modulo 2^32. The buffer can then be smaller than the `imageSize` bytes read into it. | a 32769 by 32769 image of 24 bits per pixel loaded with `resizeToPow2`: `imageSize` is 3221422083 and the buffer 0 bytes | a buffer that always holds the image: sizes computed without the wrap, or the load refused | high (follows from the arithmetic; not executed) | TgaImage.PaddedBufferWraps | TgaImage.ImageWithinBuffer |
| src/TGAImage.cpp:224-266 | the RLE loop stops only after a whole packet, so the last packet can write up to 127 pixels past the image and past the buffer | a 1 by 1 compressed 24-bit image whose only packet header is 255: 384 bytes written into 3 | writing stops at `imageSize`, cutting the last packet short | high (follows from the loop; not executed) | TgaImage.RleOverrunsBuffer | TgaFormat.ClampedRle |
| src/IndexedVBORenderer.cpp:141-153 | the index buffer is sized from the triangles of top-level objects only, but the walk also writes the faces of every group entry | a group whose only entry is an indexed object with one face: an index buffer of 0 bytes, so `Update` returns and the face is never drawn (or, beside a top-level indexed object, 3 indices written past the buffer) | the index size summed over whole trees, as the vertex size already is | high (follows from the loops; not executed) | IndexedVboRenderer.NestedFacesAreNotSized | IndexedVboRenderer.AllTriangleBytesCoverElements |
| src/Font.cpp:195-268 | `newlineID = numGlyphs + 1` equals the not-found value `maxGlyphs + 1` when the font has exactly `maxGlyphs` glyphs | a font with 200 glyphs and the text `"\n"`: the newline is reported as a missing glyph | a newline ID distinct from the not-found value and from every glyph index | high (follows from the constants; not executed) | Fonts.NewlineClashesAtCapacity | Fonts.NewlineNeverMissing |
