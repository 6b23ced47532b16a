/**
 * `DMFModelLoader`: loading a DMF model file into the loader's vectors and
 * registering its skins with a `SkinManager`, and writing the vectors back
 * out. The file's bytes are a parameter, `None` when the file does not
 * open; so are the images the texture loader would find on disk.
 */
module DmfModelLoader {
  import opened Base
  import RenderInterfaces
  import opened DmfFormat
  import opened SkinManager

  // ---------------------------------------------------------------------
  // The fields of the records the loader reads

  /** Record `i` of a vector of `size`-byte records lies inside the vector. */
  lemma {:induction false} RecordFits(i: nat, n: nat, size: nat)
    requires size > 0 && i < n / size
    ensures size * i + size <= n
  {
    MulMonoLe(i + 1, n / size, size);
  }

  function NumSkins(c: Contents): nat
  {
    |c.skins| / SkinSize
  }

  function NumMaterials(c: Contents): nat
  {
    |c.materials| / MaterialSize
  }

  /** `skins[i].textureID`. */
  function SkinTextureId(c: Contents, i: nat): u32
    requires i < NumSkins(c)
  {
    RecordFits(i, |c.skins|, SkinSize);
    WordAt(c.skins, 3 * i + 1)
  }

  /** `skins[i].materialID`. */
  function SkinMaterialId(c: Contents, i: nat): u32
    requires i < NumSkins(c)
  {
    RecordFits(i, |c.skins|, SkinSize);
    WordAt(c.skins, 3 * i + 2)
  }

  function TextureIds(ts: seq<DmfTexture>): (r: seq<u32>)
    ensures |r| == |ts| && forall j :: 0 <= j < |ts| ==> r[j] == ts[j].id
  {
    seq(|ts|, j requires 0 <= j < |ts| => ts[j].id)
  }

  /** `materials[j].id` for every material record. */
  function MaterialIds(m: seq<byte>): (r: seq<u32>)
    ensures |r| == |m| / MaterialSize
  {
    seq(|m| / MaterialSize, j requires 0 <= j < |m| / MaterialSize =>
      RecordFits(j, |m|, MaterialSize);
      WordAt(m, 18 * j))
  }

  /** The colour whose four components start at word `k`. */
  function ColourAt(m: seq<byte>, k: nat): Colour
    requires 4 * k + 16 <= |m|
  {
    Colour(WordAt(m, k), WordAt(m, k + 1), WordAt(m, k + 2), WordAt(m, k + 3))
  }

  /** `materials[j].material`: ambient, diffuse, specular and emissive colours, then the specular power. */
  function MaterialAt(m: seq<byte>, j: nat): Material
    requires j < |m| / MaterialSize
  {
    RecordFits(j, |m|, MaterialSize);
    var k := 18 * j;
    Material(ColourAt(m, k + 1), ColourAt(m, k + 5), ColourAt(m, k + 9), ColourAt(m, k + 13), WordAt(m, k + 17))
  }

  /** The last of the first `n` positions of `ids` that holds `id`: the match a forward search keeps. */
  function LastMatch(ids: seq<u32>, id: u32, n: nat): (r: Option<nat>)
    requires n <= |ids|
    ensures r.Some? ==> r.value < n && ids[r.value] == id
  {
    if n == 0 then None
    else if ids[n - 1] == id then Some(n - 1)
    else LastMatch(ids, id, n - 1)
  }

  /** The search finds a position exactly when `id` occurs, and no later position holds `id`. */
  lemma {:induction false} LastMatchFindsLast(ids: seq<u32>, id: u32, n: nat)
    requires n <= |ids|
    ensures LastMatch(ids, id, n).Some? <==> exists j :: 0 <= j < n && ids[j] == id
    ensures LastMatch(ids, id, n).Some? ==>
              var k := LastMatch(ids, id, n).value;
              k < n && ids[k] == id && forall j :: k < j < n ==> ids[j] != id
  {
    if n > 0 && ids[n - 1] != id {
      LastMatchFindsLast(ids, id, n - 1);
      if LastMatch(ids, id, n).None? {
        assert forall j :: 0 <= j < n ==> ids[j] != id by {
          forall j | 0 <= j < n
            ensures ids[j] != id
          {
            if j < n - 1 {
              assert !(0 <= j < n - 1 && ids[j] == id);
            }
          }
        }
      }
    }
  }

  /** The index of the texture skin `i` names, if any. */
  function SkinTexture(c: Contents, i: nat): Option<nat>
    requires i < NumSkins(c)
  {
    LastMatch(TextureIds(c.textures), SkinTextureId(c, i), |c.textures|)
  }

  /** The index of the material skin `i` names, if any. */
  function SkinMaterial(c: Contents, i: nat): Option<nat>
    requires i < NumSkins(c)
  {
    LastMatch(MaterialIds(c.materials), SkinMaterialId(c, i), NumMaterials(c))
  }

  /**
   * What the two searches of one turn of the resolution loop find for a
   * skin: the file name of the last texture and the last material whose
   * IDs match, or nothing.
   */
  datatype Plan = Plan(texture: Option<string>, material: Option<Material>)

  function PlanOf(c: Contents, i: nat): Plan
    requires i < NumSkins(c)
  {
    var tex := SkinTexture(c, i);
    var mat := SkinMaterial(c, i);
    Plan(if tex.Some? then Some(c.textures[tex.value].filename) else None,
         if mat.Some? then Some(MaterialAt(c.materials, mat.value)) else None)
  }

  function Plans(c: Contents): (r: seq<Plan>)
    ensures |r| == NumSkins(c)
  {
    seq(NumSkins(c), i requires 0 <= i < NumSkins(c) => PlanOf(c, i))
  }

  /**
   * A skin's texture is the last texture record with the skin's texture
   * ID, and there is one exactly when some record has that ID; likewise
   * for its material.
   */
  lemma {:induction false} PlanUsesLast(c: Contents, i: nat)
    requires i < NumSkins(c)
    ensures var p := PlanOf(c, i);
            && (p.texture.Some? <==> exists j :: 0 <= j < |c.textures| && c.textures[j].id == SkinTextureId(c, i))
            && (p.texture.Some? ==>
                  exists j :: (0 <= j < |c.textures| && p.texture.value == c.textures[j].filename
                               && c.textures[j].id == SkinTextureId(c, i)
                               && forall k :: j < k < |c.textures| ==> c.textures[k].id != SkinTextureId(c, i)))
            && (p.material.Some? <==> exists j :: 0 <= j < NumMaterials(c) && MaterialIds(c.materials)[j] == SkinMaterialId(c, i))
            && (p.material.Some? ==>
                  exists j :: (0 <= j < NumMaterials(c) && p.material.value == MaterialAt(c.materials, j)
                               && MaterialIds(c.materials)[j] == SkinMaterialId(c, i)
                               && forall k :: j < k < NumMaterials(c) ==> MaterialIds(c.materials)[k] != SkinMaterialId(c, i)))
  {
    var ids := TextureIds(c.textures);
    LastMatchFindsLast(ids, SkinTextureId(c, i), |c.textures|);
    LastMatchFindsLast(MaterialIds(c.materials), SkinMaterialId(c, i), NumMaterials(c));
    var tex := SkinTexture(c, i);
    if tex.Some? {
      var j := tex.value;
      assert forall k :: j < k < |c.textures| ==> c.textures[k].id != SkinTextureId(c, i) by {
        forall k | j < k < |c.textures|
          ensures c.textures[k].id != SkinTextureId(c, i)
        {
          assert ids[k] == c.textures[k].id;
        }
      }
    } else {
      assert forall j :: 0 <= j < |c.textures| ==> c.textures[j].id != SkinTextureId(c, i) by {
        forall j | 0 <= j < |c.textures|
          ensures c.textures[j].id != SkinTextureId(c, i)
        {
          assert ids[j] == c.textures[j].id;
        }
      }
    }
  }

  // ---------------------------------------------------------------------
  // Skin resolution

  /** The ID skin `i` of a model loaded from `filename` is registered under. */
  function SkinId(filename: string, i: nat): string
  {
    filename + "Skin" + NatToString(i)
  }

  /** The ID of the texture attached to skin `i`. */
  function SkinTextureKey(filename: string, i: nat): string
  {
    SkinId(filename, i) + "Texture" + NatToString(i)
  }

  /** The bit pattern of the `float` 1.0, the transparency every attached texture gets. */
  const OneFloat: RenderInterfaces.Scalar := 0x3F80_0000

  /** What loading the image file `name` gives, or nothing when it fails. */
  function ImageOf(images: map<string, LoadedImage>, name: string): Option<LoadedImage>
  {
    if name in images then Some(images[name]) else None
  }

  /** Where skin resolution stands: still going, the skin IDs pushed so far, and the skin manager's tables. */
  datatype Resolution = Resolution(ok: bool, loaded: seq<string>, tables: Tables)

  /**
   * Registering skin `i` once its texture and material are found:
   * `AddSkin`, then `AddTextureToSkin` when the texture's file name is not
   * empty. False when the skin manager throws.
   */
  function Register(filename: string, i: nat, name: string, mat: Material, images: map<string, LoadedImage>,
                    t: Tables): (r: (bool, Tables))
    ensures t.skins.Keys <= r.1.skins.Keys
    ensures r.0 ==> SkinId(filename, i) in r.1.skins
    ensures SkinId(filename, i) in t.skins ==> !r.0
  {
    var id := SkinId(filename, i);
    var added := AddSkinSpec(t, id, mat);
    if added.0.Throw? then (false, added.1)
    else if name == "" then (true, added.1)
    else
      var attached := AddTextureToSkinSpec(added.1, id, SkinTextureKey(filename, i),
                                           Texture(name, OneFloat, 0, 0), ImageOf(images, name));
      (attached.0.Return?, attached.1)
  }

  /**
   * One turn of the resolution loop for skin `i`: push its ID, then
   * register the skin. A missing texture or material, or an exception from
   * the skin manager, ends the load.
   */
  function ResolveSkin(filename: string, i: nat, p: Plan, images: map<string, LoadedImage>, r: Resolution): (r': Resolution)
    ensures r'.ok ==> p.texture.Some? && p.material.Some? && SkinId(filename, i) in r'.tables.skins
    ensures r.tables.skins.Keys <= r'.tables.skins.Keys
  {
    var loaded := r.loaded + [SkinId(filename, i)];
    if p.texture.None? || p.material.None? then Resolution(false, loaded, r.tables)
    else
      var reg := Register(filename, i, p.texture.value, p.material.value, images, r.tables);
      Resolution(reg.0, loaded, reg.1)
  }

  /** The first `n` turns of the resolution loop, starting from cleared `loadedSkins`. */
  function Resolve(filename: string, plans: seq<Plan>, t: Tables, images: map<string, LoadedImage>, n: nat): Resolution
    requires n <= |plans|
  {
    if n == 0 then Resolution(true, [], t)
    else
      var r := Resolve(filename, plans, t, images, n - 1);
      if r.ok then ResolveSkin(filename, n - 1, plans[n - 1], images, r) else r
  }

  /** The loader's fields and the skin manager's tables, as one value. */
  datatype LoadState = LoadState(contents: Contents, loaded: seq<string>, tables: Tables)

  /**
   * `LoadFromFile`: the result and the new state. A file that does not
   * open changes nothing; a parse that fails keeps what was read before
   * the failure; otherwise every skin is resolved.
   */
  function Load(filename: string, file: Option<seq<byte>>, images: map<string, LoadedImage>, st: LoadState): (bool, LoadState)
  {
    if file.None? then (false, st)
    else
      var parsed := ParseFile(file.value, st.contents);
      if !parsed.1 then (false, st.(contents := parsed.0))
      else
        var plans := Plans(parsed.0);
        var r := Resolve(filename, plans, st.tables, images, |plans|);
        (r.ok, LoadState(parsed.0, r.loaded, r.tables))
  }

  // ---------------------------------------------------------------------
  // Properties of resolution

  /** Different skins of one file get different IDs. */
  lemma {:induction false} SkinIdsDistinct(filename: string, i: nat, j: nat)
    requires i != j
    ensures SkinId(filename, i) != SkinId(filename, j)
  {
    if SkinId(filename, i) == SkinId(filename, j) {
      SuffixCancel(filename + "Skin", NatToString(i), NatToString(j));
      NatToStringInjective(i, j);
    }
  }

  /** Once a turn fails, the loop has ended: later turns change nothing. */
  lemma {:induction false} ResolveFailedStays(filename: string, plans: seq<Plan>, t: Tables, images: map<string, LoadedImage>,
                                              m: nat, n: nat)
    requires m <= n <= |plans| && !Resolve(filename, plans, t, images, m).ok
    ensures Resolve(filename, plans, t, images, n) == Resolve(filename, plans, t, images, m)
    decreases n - m
  {
    if m < n {
      ResolveFailedStays(filename, plans, t, images, m, n - 1);
    }
  }

  /**
   * `loadedSkins` holds one ID per skin the loop reached: all of them when
   * it succeeds, up to and including the one that failed otherwise.
   */
  lemma {:induction false} ResolveLoadsCount(filename: string, plans: seq<Plan>, t: Tables, images: map<string, LoadedImage>, n: nat)
    requires n <= |plans|
    ensures var r := Resolve(filename, plans, t, images, n);
            && |r.loaded| <= n
            && (r.ok ==> |r.loaded| == n)
            && (!r.ok ==> |r.loaded| >= 1)
  {
    if n > 0 {
      ResolveLoadsCount(filename, plans, t, images, n - 1);
      ResolveTurn(filename, plans, t, images, n);
    }
  }

  /** The IDs in `loadedSkins` are those of the skins the loop reached, in order. */
  lemma {:induction false} ResolveLoadsIds(filename: string, plans: seq<Plan>, t: Tables, images: map<string, LoadedImage>, n: nat)
    requires n <= |plans|
    ensures var r := Resolve(filename, plans, t, images, n);
            forall k :: 0 <= k < |r.loaded| ==> r.loaded[k] == SkinId(filename, k)
  {
    if n > 0 {
      ResolveLoadsIds(filename, plans, t, images, n - 1);
      ResolveLoadsCount(filename, plans, t, images, n - 1);
      ResolveTurn(filename, plans, t, images, n);
      IdsStep(filename, Resolve(filename, plans, t, images, n - 1), Resolve(filename, plans, t, images, n), n);
    }
  }

  /** Pushing the next skin's ID onto IDs that are in order keeps them in order. */
  lemma {:induction false} IdsStep(filename: string, r: Resolution, r': Resolution, n: nat)
    requires n > 0
    requires forall k :: 0 <= k < |r.loaded| ==> r.loaded[k] == SkinId(filename, k)
    requires r.ok ==> |r.loaded| == n - 1
    requires r.ok ==> r'.loaded == r.loaded + [SkinId(filename, n - 1)]
    requires !r.ok ==> r' == r
    ensures forall k :: 0 <= k < |r'.loaded| ==> r'.loaded[k] == SkinId(filename, k)
  {
    if r.ok {
      forall k | 0 <= k < |r'.loaded|
        ensures r'.loaded[k] == SkinId(filename, k)
      {
        if k < |r.loaded| {
          assert r'.loaded[k] == r.loaded[k];
        }
      }
    }
  }

  /** Turn `n - 1` pushes its skin's ID when the loop is still going, and changes nothing once it has ended. */
  lemma {:induction false} ResolveTurn(filename: string, plans: seq<Plan>, t: Tables, images: map<string, LoadedImage>, n: nat)
    requires 0 < n <= |plans|
    ensures var r := Resolve(filename, plans, t, images, n - 1);
            var r' := Resolve(filename, plans, t, images, n);
            && (r.ok ==> r'.loaded == r.loaded + [SkinId(filename, n - 1)])
            && (!r.ok ==> r' == r)
            && (r'.ok ==> r.ok)
  {
  }

  /** A skin that names a texture or material the file lacks makes the load fail. */
  lemma {:induction false} MissingFails(filename: string, plans: seq<Plan>, t: Tables, images: map<string, LoadedImage>, n: nat, i: nat)
    requires i < n <= |plans| && (plans[i].texture.None? || plans[i].material.None?)
    ensures !Resolve(filename, plans, t, images, n).ok
  {
    var r := Resolve(filename, plans, t, images, i);
    assert !Resolve(filename, plans, t, images, i + 1).ok by {
      if r.ok {
        assert Resolve(filename, plans, t, images, i + 1) == ResolveSkin(filename, i, plans[i], images, r);
      }
    }
    ResolveFailedStays(filename, plans, t, images, i + 1, n);
  }

  /** A resolution that succeeds found a texture and a material for every skin. */
  lemma {:induction false} ResolveNeedsBoth(filename: string, plans: seq<Plan>, t: Tables, images: map<string, LoadedImage>, n: nat)
    requires n <= |plans| && Resolve(filename, plans, t, images, n).ok
    ensures forall i :: 0 <= i < n ==> plans[i].texture.Some? && plans[i].material.Some?
  {
    forall i | 0 <= i < n
      ensures plans[i].texture.Some? && plans[i].material.Some?
    {
      if plans[i].texture.None? || plans[i].material.None? {
        MissingFails(filename, plans, t, images, n, i);
      }
    }
  }

  /**
   * A registration that goes through leaves skin `i` stored; its first
   * texture slot holds the texture's ID exactly when the texture's file
   * name is not empty, and every slot is free otherwise.
   */
  lemma {:induction false} RegisterAttaches(filename: string, i: nat, name: string, mat: Material, images: map<string, LoadedImage>, t: Tables)
    requires Register(filename, i, name, mat, images, t).0
    ensures var t' := Register(filename, i, name, mat, images, t).1;
            var id := SkinId(filename, i);
            && id in t'.skins
            && (t'.skins[id].textures[0] == SkinTextureKey(filename, i) <==> name != "")
            && (name == "" ==> t'.skins[id].textures == FreeSlots)
  {
    var id, key := SkinId(filename, i), SkinTextureKey(filename, i);
    var added := AddSkinSpec(t, id, mat);
    assert added.0.Return? && added.1.skins[id].textures == FreeSlots;
    if name != "" {
      var texture := Texture(name, OneFloat, 0, 0);
      var inner := AddTextureSpec(added.1, key, texture, ImageOf(images, name));
      assert !inner.0.Throw? && inner.1.skins == added.1.skins;
      assert FillFirstFree(FreeSlots, key) == FreeSlots[0 := key];
      assert |key| > 1;
      assert key != NoTexture;
    }
  }

  /** Resolution only adds skins: every skin stored before is still stored. */
  lemma {:induction false} ResolveKeepsSkins(filename: string, plans: seq<Plan>, t: Tables, images: map<string, LoadedImage>, n: nat)
    requires n <= |plans|
    ensures t.skins.Keys <= Resolve(filename, plans, t, images, n).tables.skins.Keys
  {
    if n > 0 {
      ResolveKeepsSkins(filename, plans, t, images, n - 1);
    }
  }

  /** A resolution that succeeds registers every skin of the file under its ID. */
  lemma {:induction false} ResolveRegisters(filename: string, plans: seq<Plan>, t: Tables, images: map<string, LoadedImage>, n: nat)
    requires n <= |plans| && Resolve(filename, plans, t, images, n).ok
    ensures forall i :: 0 <= i < n ==> SkinId(filename, i) in Resolve(filename, plans, t, images, n).tables.skins
  {
    if n > 0 {
      var r := Resolve(filename, plans, t, images, n - 1);
      var r' := Resolve(filename, plans, t, images, n);
      assert r.ok && r' == ResolveSkin(filename, n - 1, plans[n - 1], images, r);
      ResolveRegisters(filename, plans, t, images, n - 1);
      forall i | 0 <= i < n
        ensures SkinId(filename, i) in r'.tables.skins
      {
        if i < n - 1 {
          assert SkinId(filename, i) in r.tables.skins;
        }
      }
    }
  }

  /** A file whose first skin ID is already registered cannot be resolved: `AddSkin` throws. */
  lemma {:induction false} ReloadFails(filename: string, plans: seq<Plan>, t: Tables, images: map<string, LoadedImage>, n: nat)
    requires 1 <= n <= |plans| && SkinId(filename, 0) in t.skins
    ensures !Resolve(filename, plans, t, images, n).ok
  {
    assert !Resolve(filename, plans, t, images, 1).ok;
    ResolveFailedStays(filename, plans, t, images, 1, n);
  }

  /**
   * After a load with skins succeeds, loading any file with skins under
   * the same name fails.
   */
  lemma {:induction false} SecondLoadFails(filename: string, first: seq<byte>, second: seq<byte>, images: map<string, LoadedImage>,
                        st: LoadState)
    requires Load(filename, Some(first), images, st).0
    requires NumSkins(Load(filename, Some(first), images, st).1.contents) >= 1
    requires NumSkins(ParseFile(second, Load(filename, Some(first), images, st).1.contents).0) >= 1
    ensures !Load(filename, Some(second), images, Load(filename, Some(first), images, st).1).0
  {
    var st1 := Load(filename, Some(first), images, st).1;
    var plans := Plans(ParseFile(first, st.contents).0);
    ResolveRegisters(filename, plans, st.tables, images, |plans|);
    var parsed := ParseFile(second, st1.contents);
    if parsed.1 {
      var plans2 := Plans(parsed.0);
      ReloadFails(filename, plans2, st1.tables, images, |plans2|);
    }
  }

  /** A file without the 0x0F marker fails to load and changes nothing. */
  lemma {:induction false} NoMarkerFails(filename: string, data: seq<byte>, images: map<string, LoadedImage>, st: LoadState)
    requires FileId !in data
    ensures Load(filename, Some(data), images, st) == (false, st)
  {
    ScanFindsFirstMarker(Open(data));
  }

  /** Loading what `WriteToFile` wrote leaves exactly the written contents in the loader. */
  lemma {:induction false} LoadWritten(filename: string, c: Contents, images: map<string, LoadedImage>, st: LoadState)
    requires Writable(c) && PlainNames(c.textures)
    ensures Load(filename, Some(Written(c)), images, st).1.contents == c
    ensures Load(filename, Some(Written(c)), images, st).0 == Resolve(filename, Plans(c), st.tables, images, NumSkins(c)).ok
  {
    ParseWritten(c, st.contents);
  }

  // ---------------------------------------------------------------------
  // The loader

  /** The scan for the file identifier, one `get()` at a time. */
  method FindFile(s: Cursor) returns (found: Option<Cursor>)
    ensures found == ScanForFile(s)
    ensures found.Some? <==> !s.eof && FileId in s.rest
  {
    ScanFindsFirstMarker(s);
    var rest := s;
    while !rest.eof
      invariant ScanForFile(rest) == ScanForFile(s)
      decreases Remaining(rest)
    {
      var g := Get(rest);
      rest := g.1;
      if g.0 == FileId {
        return Some(rest);
      }
    }
    return None;
  }

  /** A texture file name: up to 100 `get()`s, stopping at `'?'`, then the characters before the first NUL. */
  method ReadName(s: Cursor) returns (name: string, rest: Cursor)
    ensures name == CString(NameBytes(s, MaxName).0) && rest == NameBytes(s, MaxName).1
  {
    ghost var whole := NameBytes(s, MaxName);
    ghost var left := MaxName;
    var buffer: seq<byte> := [];
    rest := s;
    assert buffer + whole.0 == whole.0;
    var j := 0;
    while j < MaxName
      invariant j <= MaxName && left == MaxName - j
      invariant buffer + NameBytes(rest, left).0 == whole.0
      invariant NameBytes(rest, left).1 == whole.1
    {
      var g := Get(rest);
      NameBytesStep(rest, left);
      if g.0 == NameEnd {
        assert buffer + [] == buffer;
        return CString(buffer), g.1;
      }
      AppendAssociates(buffer, [g.0], NameBytes(g.1, left - 1).0);
      buffer := buffer + [g.0];
      rest := g.1;
      j, left := j + 1, left - 1;
    }
    assert buffer + [] == buffer;
    name := CString(buffer);
  }

  /** One `get()` of the name loop: a `'?'` ends the name, any other byte starts it. */
  lemma {:induction false} NameBytesStep(s: Cursor, left: nat)
    requires left > 0
    ensures var g := Get(s);
            NameBytes(s, left) == if g.0 == NameEnd then ([], g.1)
                                  else ([g.0] + NameBytes(g.1, left - 1).0, NameBytes(g.1, left - 1).1)
  {
  }

  /** One texture record: its ID, then its name. */
  method ReadTexture(s: Cursor) returns (texture: DmfTexture, after: Cursor)
    ensures (texture, after) == TextureRecord(s)
  {
    var id := Read(s, 4);
    var name;
    name, after := ReadName(id.1);
    texture := DmfTexture(DecodeU32(Pad(id.0, 4)), name);
  }

  /** The texture loop: each position of `vec` in turn receives the next record. */
  method FillTextures(s: Cursor, vec: seq<DmfTexture>) returns (filled: seq<DmfTexture>, rest: Cursor)
    ensures filled == TextureRecords(s, |vec|).0 && rest == TextureRecords(s, |vec|).1
  {
    var n := |vec|;
    filled := vec;
    rest := s;
    assert filled[..0] + TextureRecords(s, n).0 == TextureRecords(s, n).0;
    for i := 0 to n
      invariant |filled| == n
      invariant TextureRecords(s, n).0 == filled[..i] + TextureRecords(rest, n - i).0
      invariant TextureRecords(s, n).1 == TextureRecords(rest, n - i).1
    {
      var texture, after := ReadTexture(rest);
      SetThenTake(filled, i, texture, TextureRecords(after, n - i - 1).0);
      filled := filled[i := texture];
      rest := after;
    }
    assert TextureRecords(rest, 0) == ([], rest);
    assert filled[..n] + [] == filled;
  }

  /** The last position of `ids` holding `id`, found by a forward search that keeps every match. */
  method FindLast(ids: seq<u32>, id: u32) returns (found: Option<nat>)
    ensures found == LastMatch(ids, id, |ids|)
    ensures found.Some? <==> id in ids
    ensures found.Some? ==> found.value < |ids| && ids[found.value] == id
                            && forall k :: found.value < k < |ids| ==> ids[k] != id
  {
    found := None;
    for j := 0 to |ids|
      invariant found == LastMatch(ids, id, j)
    {
      if ids[j] == id {
        found := Some(j);
      }
    }
    LastMatchFindsLast(ids, id, |ids|);
  }

  /** Writing `x` at position `i` and keeping the first `i + 1` elements extends the kept prefix by `x`. */
  lemma {:induction false} SetThenTake<T>(vec: seq<T>, i: nat, x: T, tail: seq<T>)
    requires i < |vec|
    ensures vec[..i] + ([x] + tail) == vec[i := x][..i + 1] + tail
  {
    assert vec[i := x][..i + 1] == vec[..i] + [x];
  }

  class ModelLoader {
    var vertices: seq<byte>
    var triangles: seq<byte>
    var skins: seq<byte>
    var textures: seq<DmfTexture>
    var materials: seq<byte>
    var loadedSkins: seq<string>
    const skinManager: SkinManager

    function Loaded(): Contents
      reads this
    {
      Contents(vertices, triangles, skins, textures, materials)
    }

    function State(): LoadState
      reads this, skinManager
    {
      LoadState(Loaded(), loadedSkins, skinManager.State())
    }

    constructor (sManager: SkinManager)
      ensures Loaded() == Contents([], [], [], [], []) && loadedSkins == [] && skinManager == sManager
    {
      vertices, triangles, skins, textures, materials := [], [], [], [], [];
      loadedSkins := [];
      skinManager := sManager;
    }

    /** `LoadFromFile`: the result and the new state are those `Load` gives. */
    method LoadFromFile(filename: string, file: Option<seq<byte>>, images: map<string, LoadedImage>) returns (ok: bool)
      modifies this, skinManager
      ensures (ok, State()) == Load(filename, file, images, old(State()))
    {
      if file.None? {
        return false;
      }
      var parsed := Parse(file.value);
      if !parsed {
        return false;
      }
      ok := ResolveSkins(filename, images);
    }

    /** The header scan and the chunk loop. */
    method Parse(data: seq<byte>) returns (parsed: bool)
      modifies this`vertices, this`triangles, this`skins, this`textures, this`materials
      ensures (Loaded(), parsed) == ParseFile(data, old(Loaded()))
    {
      var start := FindFile(Open(data));
      if start.None? {
        return false;
      }
      var header := Read(start.value, HeaderSize);
      var rest, failed := ReadChunks(header.1, DecodeHeader(Pad(header.0, HeaderSize)));
      parsed := !failed;
    }

    /** The top-level loop over chunk identifiers. */
    method ReadChunks(s: Cursor, h: Header) returns (rest: Cursor, failed: bool)
      modifies this`vertices, this`triangles, this`skins, this`textures, this`materials
      ensures Progress(Loaded(), rest, failed) == Chunks(s, h, old(Loaded()))
    {
      rest := s;
      while !rest.eof
        invariant Chunks(rest, h, Loaded()) == Chunks(s, h, old(Loaded()))
        decreases Remaining(rest)
      {
        var g := Get(rest);
        rest := g.1;
        if g.0 == GeometrySpecId {
          rest, failed := ReadGeometry(rest, h);
          if failed {
            return;
          }
        } else if g.0 == SkinSpecId {
          rest, failed := ReadSkin(rest, h);
          if failed {
            return;
          }
        }
      }
      failed := false;
    }

    /** The loop inside a `GEOMETRY_SPEC` chunk. */
    method ReadGeometry(s: Cursor, h: Header) returns (rest: Cursor, failed: bool)
      modifies this`vertices, this`triangles
      ensures Progress(Loaded(), rest, failed) == GeometryChunk(s, h, old(Loaded()))
    {
      rest := s;
      while !rest.eof
        invariant GeometryChunk(rest, h, Loaded()) == GeometryChunk(s, h, old(Loaded()))
        decreases Remaining(rest)
      {
        var g := Get(rest);
        rest := g.1;
        if g.0 == VerticesId {
          if h.numVertices < 0 {
            return rest, true;
          }
          var got := Read(rest, h.numVertices * VertexSize);
          vertices := Overwrite(Resize(vertices, h.numVertices * VertexSize), 0, got.0);
          rest := got.1;
        } else if g.0 == TrianglesId {
          if h.numTriangles < 0 {
            return rest, true;
          }
          var got := Read(rest, h.numTriangles * TriangleSize);
          triangles := Overwrite(Resize(triangles, h.numTriangles * TriangleSize), 0, got.0);
          rest := got.1;
        } else if g.0 == EndId {
          return rest, false;
        }
      }
      failed := false;
    }

    /** The loop inside a `SKIN_SPEC` chunk. */
    method ReadSkin(s: Cursor, h: Header) returns (rest: Cursor, failed: bool)
      modifies this`skins, this`textures, this`materials
      ensures Progress(Loaded(), rest, failed) == SkinChunk(s, h, old(Loaded()))
    {
      rest := s;
      while !rest.eof
        invariant SkinChunk(rest, h, Loaded()) == SkinChunk(s, h, old(Loaded()))
        decreases Remaining(rest)
      {
        var g := Get(rest);
        rest := g.1;
        if g.0 == SkinsId {
          if h.numSkins < 0 {
            return rest, true;
          }
          var got := Read(rest, h.numSkins * SkinSize);
          skins := Overwrite(Resize(skins, h.numSkins * SkinSize), 0, got.0);
          rest := got.1;
        } else if g.0 == TexturesId {
          if h.numTextures < 0 {
            return rest, true;
          }
          rest := ReadTextures(rest, h.numTextures);
        } else if g.0 == MaterialsId {
          if h.numMaterials < 0 {
            return rest, true;
          }
          var got := Read(rest, h.numMaterials * MaterialSize);
          materials := Overwrite(Resize(materials, h.numMaterials * MaterialSize), 0, got.0);
          rest := got.1;
        } else if g.0 == EndId {
          return rest, false;
        }
      }
      failed := false;
    }

    /** `textures.resize(n)`, then `n` texture records read into it in order. */
    method ReadTextures(s: Cursor, n: nat) returns (rest: Cursor)
      modifies this`textures
      ensures textures == TextureRecords(s, n).0 && rest == TextureRecords(s, n).1
    {
      var vec := textures;
      if n <= |vec| {
        vec := vec[..n];
      } else {
        vec := vec + seq(n - |vec|, _ => DmfTexture(0, ""));
      }
      textures, rest := FillTextures(s, vec);
    }

    /** The resolution loop over the skins just read; `loadedSkins` is cleared first. */
    method ResolveSkins(filename: string, images: map<string, LoadedImage>) returns (ok: bool)
      modifies this`loadedSkins, skinManager
      ensures var r := Resolve(filename, Plans(Loaded()), old(skinManager.State()), images, NumSkins(Loaded()));
              ok == r.ok && loadedSkins == r.loaded && skinManager.State() == r.tables
    {
      ok, loadedSkins := ResolveAll(filename, Loaded(), images, skinManager);
    }
    /**
     * `WriteToFile`: the bytes written, which are `Written` of the
     * model's contents, or nothing when the file does not open.
     */
    static method WriteToFile(model: ModelLoader, canOpen: bool) returns (ok: bool, file: seq<byte>)
      requires Writable(model.Loaded())
      ensures ok == canOpen
      ensures file == if canOpen then Written(model.Loaded()) else []
    {
      if !canOpen {
        return false, [];
      }
      ok := true;
      var c := model.Loaded();
      file := WriteContents(c);
    }
  }

  /**
   * Every skin record in turn: push its ID, search for its texture and
   * material, register it; stop at the first that fails.
   */
  method ResolveAll(filename: string, c: Contents, images: map<string, LoadedImage>, skinManager: SkinManager)
    returns (ok: bool, loaded: seq<string>)
    modifies skinManager
    ensures Resolution(ok, loaded, skinManager.State())
            == Resolve(filename, Plans(c), old(skinManager.State()), images, NumSkins(c))
  {
    ghost var t := skinManager.State();
    loaded := [];
    var i := 0;
    while i < |c.skins| / SkinSize
      invariant i <= NumSkins(c)
      invariant Resolve(filename, Plans(c), t, images, i) == Resolution(true, loaded, skinManager.State())
    {
      ghost var before := Resolution(true, loaded, skinManager.State());
      ok, loaded := ResolveStep(filename, c, images, skinManager, i, loaded);
      assert Resolve(filename, Plans(c), t, images, i + 1) == ResolveSkin(filename, i, Plans(c)[i], images, before);
      if !ok {
        ResolveFailedStays(filename, Plans(c), t, images, i + 1, NumSkins(c));
        return;
      }
      i := i + 1;
    }
    ok := true;
  }

  /** One turn of the loop for skin `i`, after the skin IDs pushed so far are `loaded`. */
  method ResolveStep(filename: string, c: Contents, images: map<string, LoadedImage>, skinManager: SkinManager,
                     i: nat, loaded: seq<string>)
    returns (ok: bool, loaded': seq<string>)
    requires i < |Plans(c)|
    modifies skinManager
    ensures Resolution(ok, loaded', skinManager.State())
            == ResolveSkin(filename, i, Plans(c)[i], images, Resolution(true, loaded, old(skinManager.State())))
  {
    loaded' := loaded + [SkinId(filename, i)];
    var tex := FindLast(TextureIds(c.textures), SkinTextureId(c, i));
    var mat := FindLast(MaterialIds(c.materials), SkinMaterialId(c, i));
    var plan := Plan(if tex.Some? then Some(c.textures[tex.value].filename) else None,
                     if mat.Some? then Some(MaterialAt(c.materials, mat.value)) else None);
    assert plan == Plans(c)[i] by {
      assert Plans(c)[i] == PlanOf(c, i);
    }
    if plan.texture.None? || plan.material.None? {
      ok := false;
    } else {
      ok := RegisterSkin(filename, i, plan.texture.value, plan.material.value, images, skinManager);
    }
  }

  /** `AddSkin`, then `AddTextureToSkin` when the texture has a file name; false when either throws. */
  method RegisterSkin(filename: string, i: nat, name: string, mat: Material, images: map<string, LoadedImage>,
                      skinManager: SkinManager)
    returns (ok: bool)
    modifies skinManager
    ensures (ok, skinManager.State()) == Register(filename, i, name, mat, images, old(skinManager.State()))
  {
    var id := SkinId(filename, i);
    var added := skinManager.AddSkin(id, mat);
    if added.Throw? {
      return false;
    }
    if name != "" {
      var attached := skinManager.AddTextureToSkin(id, SkinTextureKey(filename, i),
                                                   Texture(name, OneFloat, 0, 0), ImageOf(images, name));
      return attached.Return?;
    }
    return true;
  }

  /**
   * The writer's sequence of writes after the file has opened. Before
   * each write, `file` followed by what is still to be written is the
   * whole of `Written`; the tails still to be written are spelled out
   * from the last write back to the first.
   */
  method WriteContents(c: Contents) returns (file: seq<byte>)
    requires Writable(c)
    ensures file == Written(c)
  {
    ghost var afterSkins := [EndId];
    ghost var afterSkinsId := c.skins + afterSkins;
    ghost var afterMaterials := [SkinsId] + afterSkinsId;
    ghost var afterMaterialsId := c.materials + afterMaterials;
    ghost var afterTextures := [MaterialsId] + afterMaterialsId;
    ghost var afterTexturesId := TexturesBytes(c.textures) + afterTextures;
    ghost var afterSkinSpec := [TexturesId] + afterTexturesId;
    ghost var afterGeometry := [SkinSpecId] + afterSkinSpec;
    ghost var afterTriangles := [EndId] + afterGeometry;
    ghost var afterTrianglesId := c.triangles + afterTriangles;
    ghost var afterVertices := [TrianglesId] + afterTrianglesId;
    ghost var afterVerticesId := c.vertices + afterVertices;
    ghost var afterGeometrySpec := [VerticesId] + afterVerticesId;
    ghost var afterHeader := [GeometrySpecId] + afterGeometrySpec;
    var header := HeaderBytes(HeaderOf(c));
    ghost var afterFileId := header + afterHeader;
    assert [FileId] + afterFileId == Written(c);
    file := Put([], [FileId], afterFileId);
    file := Put(file, header, afterHeader);
    file := Put(file, [GeometrySpecId], afterGeometrySpec);
    file := Put(file, [VerticesId], afterVerticesId);
    file := Put(file, c.vertices, afterVertices);
    file := Put(file, [TrianglesId], afterTrianglesId);
    file := Put(file, c.triangles, afterTriangles);
    file := Put(file, [EndId], afterGeometry);
    file := Put(file, [SkinSpecId], afterSkinSpec);
    file := Put(file, [TexturesId], afterTexturesId);
    AppendAssociates(file, TexturesBytes(c.textures), afterTextures);
    file := WriteTextures(file, c.textures);
    file := Put(file, [MaterialsId], afterMaterialsId);
    file := Put(file, c.materials, afterMaterials);
    file := Put(file, [SkinsId], afterSkinsId);
    file := Put(file, c.skins, afterSkins);
    file := Put(file, [EndId], []);
    assert file + [] == file;
  }

  /**
   * One `fwrite` of `p`: when `p` and then `rest` complete what has been
   * written into `Written`, what is written after it and `rest` do too.
   */
  method Put(file: seq<byte>, p: seq<byte>, ghost rest: seq<byte>) returns (out: seq<byte>)
    ensures out == file + p
    ensures out + rest == file + (p + rest)
  {
    AppendAssociates(file, p, rest);
    out := file + p;
  }

  /** The texture loop: each record's ID, then its name and the `?` that ends it, appended to `file`. */
  method WriteTextures(file: seq<byte>, ts: seq<DmfTexture>) returns (out: seq<byte>)
    requires NarrowNames(ts)
    ensures out == file + TexturesBytes(ts)
  {
    out := file;
    for i := 0 to |ts|
      invariant out + TexturesBytes(ts[i..]) == file + TexturesBytes(ts)
    {
      assert ts[i..][1..] == ts[i + 1..];
      var rest := TexturesBytes(ts[i + 1..]);
      AppendAssociates(out, TextureBytes(ts[i]), rest);
      AppendAssociates(out, U32Bytes(ts[i].id), Bytes(ts[i].filename) + [NameEnd]);
      out := out + U32Bytes(ts[i].id);
      out := out + (Bytes(ts[i].filename) + [NameEnd]);
    }
    assert ts[|ts|..] == [];
    assert out + [] == out;
  }
}
