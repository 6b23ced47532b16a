/**
 * `SkinManager`: three string-keyed tables of skins, materials and textures.
 * A skin names one material and up to four textures; a free texture slot
 * holds the marker `"!"`. Image loading and the OpenGL texture upload are
 * outside the model: what the image loader reports is a parameter.
 */
module SkinManager {
  import opened Base
  import opened RenderInterfaces

  /** `skinMaxTextures`. */
  const MaxTextures: nat := 4
  /** `skinNoTexture`: the marker of a free texture slot. */
  const NoTexture: string := "!"

  /** The four texture slots of a skin. */
  type Slots = s: seq<string> | |s| == 4 witness ["!", "!", "!", "!"]

  const FreeSlots: Slots := [NoTexture, NoTexture, NoTexture, NoTexture]

  /** A colour of four `float` components, kept as their bit patterns. */
  datatype Colour = Colour(r: Scalar, g: Scalar, b: Scalar, a: Scalar)

  /** `graphics::Material`; equality compares every component, as its `operator==` does. */
  datatype Material = Material(ambient: Colour, diffuse: Colour, specular: Colour, emissive: Colour, specularPower: Scalar)

  datatype Skin = Skin(usesAlpha: bool, material: string, textures: Slots)

  /** A stored texture: its image file name, transparency and the loaded image's dimensions. */
  datatype Texture = Texture(name: string, transparency: Scalar, width: int, height: int)

  /** What the image loader reports for a texture file that loads. */
  datatype LoadedImage = LoadedImage(width: int, height: int)

  /** The three tables of a skin manager, as one value. */
  datatype Tables = Tables(skins: map<string, Skin>, materials: map<string, Material>, textures: map<string, Texture>)

  const EmptyTables: Tables := Tables(map[], map[], map[])

  /**
   * The material key `AddSkin` gives a skin whose material is already
   * stored: the `unsigned int` counter 0 assigned to a `std::string`, which
   * yields a one-character string holding NUL.
   */
  const CounterKey: string := [0 as char]

  /** `GetSkin`: the stored skin, or an exception when the ID is absent. */
  function GetSkin(t: Tables, id: string): (r: Outcome<Skin>)
    ensures r.Return? <==> id in t.skins
    ensures r.Return? ==> r.value == t.skins[id]
  {
    if id in t.skins then Return(t.skins[id])
    else Throw("SkinManager::GetSkin - Cannot find skin with given ID.")
  }

  /** `GetMaterial`: the stored material, or an exception when the ID is absent. */
  function GetMaterial(t: Tables, id: string): (r: Outcome<Material>)
    ensures r.Return? <==> id in t.materials
    ensures r.Return? ==> r.value == t.materials[id]
  {
    if id in t.materials then Return(t.materials[id])
    else Throw("SkinManager::GetMaterial - Cannot find material with given ID.")
  }

  /** `GetTexture`: the stored texture, or an exception when the ID is absent. */
  function GetTexture(t: Tables, id: string): (r: Outcome<Texture>)
    ensures r.Return? <==> id in t.textures
    ensures r.Return? ==> r.value == t.textures[id]
  {
    if id in t.textures then Return(t.textures[id])
    else Throw("SkinManager::GetTexture - Cannot find texture with given ID.")
  }

  predicate HasMaterial(t: Tables, mat: Material)
  {
    exists k :: k in t.materials && t.materials[k] == mat
  }

  predicate HasTextureNamed(t: Tables, name: string)
  {
    exists k :: k in t.textures && t.textures[k].name == name
  }

  /** The skin `AddSkin` stores, given the material key it settles on. */
  function NewSkin(materialKey: string): Skin
  {
    Skin(false, materialKey, FreeSlots)
  }

  /** The result and the new tables of `AddSkin(id, mat)`. */
  function AddSkinSpec(t: Tables, id: string, mat: Material): (Outcome<bool>, Tables)
  {
    if id in t.skins then
      (Throw("SkinManager::AddSkin - Skin with ID '" + id + "' already exists!"), t)
    else if HasMaterial(t, mat) then
      (Return(true), t.(skins := t.skins[id := NewSkin(CounterKey)]))
    else
      (Return(true), t.(skins := t.skins[id := NewSkin(id + "Material")],
                        materials := t.materials[id + "Material" := mat]))
  }

  /** The result and the new tables of `AddTexture(id, texture)` when loading the file gives `image`. */
  function AddTextureSpec(t: Tables, id: string, texture: Texture, image: Option<LoadedImage>): (Outcome<bool>, Tables)
  {
    if id in t.textures then
      (Throw("SkinManager::AddTexture - Texture with ID '" + id + "' already exists!"), t)
    else if HasTextureNamed(t, texture.name) || image.None? then
      (Return(false), t)
    else
      (Return(true), t.(textures := t.textures[id := texture.(width := image.value.width, height := image.value.height)]))
  }

  /** The index of the first free slot, or 4 when every slot is used. */
  function FirstFree(slots: Slots): (i: nat)
    ensures i <= MaxTextures
    ensures i < MaxTextures ==> slots[i] == NoTexture
    ensures forall j :: 0 <= j < i ==> slots[j] != NoTexture
  {
    if slots[0] == NoTexture then 0
    else if slots[1] == NoTexture then 1
    else if slots[2] == NoTexture then 2
    else if slots[3] == NoTexture then 3
    else 4
  }

  /** `slots` with `id` written into the first free slot, if there is one. */
  function FillFirstFree(slots: Slots, id: string): Slots
  {
    var i := FirstFree(slots);
    if i < MaxTextures then slots[i := id] else slots
  }

  /**
   * The result and the new tables of `AddTextureToSkin`. The inner
   * `AddTexture` result is ignored; only its exception escapes.
   */
  function AddTextureToSkinSpec(t: Tables, skinID: string, textureID: string, texture: Texture,
                                image: Option<LoadedImage>): (Outcome<bool>, Tables)
  {
    if skinID !in t.skins then (Return(false), t)
    else if t.skins[skinID].textures[MaxTextures - 1] != NoTexture then (Return(false), t)
    else
      var (inner, t1) := AddTextureSpec(t, textureID, texture, image);
      if inner.Throw? then (inner, t1)
      else
        var skin := t1.skins[skinID];
        (Return(true), t1.(skins := t1.skins[skinID := skin.(textures := FillFirstFree(skin.textures, textureID))]))
  }

  /** The texture IDs held in the used slots of a skin. */
  function UsedSlots(slots: seq<string>): set<string>
  {
    set id | id in slots && id != NoTexture
  }

  /** The new tables of `DeleteSkin(id, deleteTextures, deleteMaterial)`. */
  function DeleteSkinSpec(t: Tables, id: string, deleteTextures: bool, deleteMaterial: bool): (bool, Tables)
  {
    if id !in t.skins then (false, t)
    else
      var skin := t.skins[id];
      (true, Tables(t.skins - {id},
                    if deleteMaterial then t.materials - {skin.material} else t.materials,
                    if deleteTextures then t.textures - UsedSlots(skin.textures) else t.textures))
  }

  /** A manager whose tables the methods below change in place. */
  class SkinManager {
    var skins: map<string, Skin>
    var materials: map<string, Material>
    var textures: map<string, Texture>

    function State(): Tables
      reads this
    {
      Tables(skins, materials, textures)
    }

    constructor ()
      ensures State() == EmptyTables
    {
      skins, materials, textures := map[], map[], map[];
    }

    /** `AddSkin`: stores a new skin, reusing an equal stored material if there is one. */
    method AddSkin(id: string, mat: Material) returns (r: Outcome<bool>)
      modifies this
      ensures (r, State()) == AddSkinSpec(old(State()), id, mat)
    {
      if id in skins {
        return Throw("SkinManager::AddSkin - Skin with ID '" + id + "' already exists!");
      }
      var materialID := 0;
      var newMaterial := true;
      var key: string := "";
      var unvisited := materials.Keys;
      while unvisited != {}
        invariant unvisited <= materials.Keys
        invariant newMaterial
        invariant forall k :: k in materials && k !in unvisited ==> materials[k] != mat
        decreases |unvisited|
      {
        var k :| k in unvisited;
        if materials[k] == mat {
          assert HasMaterial(old(State()), mat);
          key := [materialID as char];
          newMaterial := false;
          break;
        }
        unvisited := unvisited - {k};
      }
      assert newMaterial <==> !HasMaterial(old(State()), mat);
      if newMaterial {
        key := id + "Material";
        materials := materials[key := mat];
      }
      var slots: seq<string> := [];
      for i := 0 to MaxTextures
        invariant slots == seq(i, _ => NoTexture)
      {
        slots := slots + [NoTexture];
      }
      assert slots == FreeSlots;
      skins := skins[id := Skin(false, key, slots)];
      r := Return(true);
    }

    /** `AddTexture`: stores a texture under a fresh ID unless one with its file name is stored or the file fails to load. */
    method AddTexture(id: string, texture: Texture, image: Option<LoadedImage>) returns (r: Outcome<bool>)
      modifies this
      ensures (r, State()) == AddTextureSpec(old(State()), id, texture, image)
    {
      if id in textures {
        return Throw("SkinManager::AddTexture - Texture with ID '" + id + "' already exists!");
      }
      var unvisited := textures.Keys;
      while unvisited != {}
        invariant unvisited <= textures.Keys
        invariant forall k :: k in textures && k !in unvisited ==> textures[k].name != texture.name
        decreases |unvisited|
      {
        var k :| k in unvisited;
        if textures[k].name == texture.name {
          return Return(false);
        }
        unvisited := unvisited - {k};
      }
      if image.None? {
        return Return(false);
      }
      textures := textures[id := texture.(width := image.value.width, height := image.value.height)];
      r := Return(true);
    }

    /** `AddTextureToSkin`: adds the texture and writes its ID into the skin's first free slot. */
    method AddTextureToSkin(skinID: string, textureID: string, texture: Texture, image: Option<LoadedImage>)
      returns (r: Outcome<bool>)
      modifies this
      ensures (r, State()) == AddTextureToSkinSpec(old(State()), skinID, textureID, texture, image)
    {
      if skinID !in skins {
        return Return(false);
      }
      if skins[skinID].textures[MaxTextures - 1] != NoTexture {
        return Return(false);
      }
      var inner := AddTexture(textureID, texture, image);
      if inner.Throw? {
        return inner;
      }
      var skin := skins[skinID];
      var slots := skin.textures;
      var i := 0;
      while i < MaxTextures
        invariant 0 <= i <= MaxTextures
        invariant forall j :: 0 <= j < i ==> skin.textures[j] != NoTexture
        invariant slots == skin.textures
      {
        if slots[i] == NoTexture {
          slots := slots[i := textureID];
          break;
        }
        i := i + 1;
      }
      skins := skins[skinID := skin.(textures := slots)];
      r := Return(true);
    }

    /** `DeleteSkin(id)`: true iff the skin was stored; removes only that skin. */
    method DeleteSkin(id: string) returns (found: bool)
      modifies this
      ensures (found, State()) == DeleteSkinSpec(old(State()), id, false, false)
    {
      found := id in skins;
      if found {
        skins := skins - {id};
      }
    }

    /** `DeleteSkin(id, deleteTextures, deleteMaterial)`: also deletes the skin's textures and/or material. */
    method DeleteSkinWith(id: string, deleteTextures: bool, deleteMaterial: bool) returns (found: bool)
      modifies this
      ensures (found, State()) == DeleteSkinSpec(old(State()), id, deleteTextures, deleteMaterial)
    {
      if id !in skins {
        return false;
      }
      var skin := skins[id];
      if deleteTextures {
        for i := 0 to MaxTextures
          invariant skins == old(skins) && materials == old(materials)
          invariant textures == old(textures) - UsedSlots(skin.textures[..i])
        {
          if skin.textures[i] != NoTexture {
            var _ := DeleteTexture(skin.textures[i]);
          }
          assert skin.textures[..i + 1] == skin.textures[..i] + [skin.textures[i]];
        }
        assert skin.textures[..MaxTextures] == skin.textures;
      }
      if deleteMaterial {
        var _ := DeleteMaterial(skin.material);
      }
      skins := skins - {id};
      found := true;
    }

    /** `DeleteTexture`: true iff the texture was stored; removes only that texture. */
    method DeleteTexture(id: string) returns (found: bool)
      modifies this
      ensures found <==> id in old(textures)
      ensures State() == old(State()).(textures := old(textures) - {id})
    {
      found := id in textures;
      textures := textures - {id};
    }

    /** `DeleteMaterial`: true iff the material was stored; removes only that material. */
    method DeleteMaterial(id: string) returns (found: bool)
      modifies this
      ensures found <==> id in old(materials)
      ensures State() == old(State()).(materials := old(materials) - {id})
    {
      found := id in materials;
      materials := materials - {id};
    }

    /** `DeleteAll`: empties all three tables. */
    method DeleteAll()
      modifies this
      ensures State() == EmptyTables
    {
      skins, textures, materials := map[], map[], map[];
    }
  }

  /** After a successful `AddSkin`, `GetSkin` finds a skin without alpha whose four slots are free. */
  lemma {:induction false} AddSkinThenGet(t: Tables, id: string, mat: Material)
    requires id !in t.skins
    ensures var (r, t') := AddSkinSpec(t, id, mat);
      && r == Return(true)
      && GetSkin(t', id).Return?
      && !GetSkin(t', id).value.usesAlpha
      && UsedSlots(GetSkin(t', id).value.textures) == {}
  {
  }

  /**
   * `AddSkin` adds one skin and at most one material, under the key
   * id + "Material", and changes no other stored entry; a duplicate ID
   * throws and changes nothing.
   */
  lemma {:induction false} AddSkinFrame(t: Tables, id: string, mat: Material)
    ensures var (r, t') := AddSkinSpec(t, id, mat);
      && (r.Throw? <==> id in t.skins)
      && (r.Throw? ==> t' == t)
      && (r.Return? ==> t'.skins.Keys == t.skins.Keys + {id} && t'.textures == t.textures)
      && (forall k :: k in t.skins ==> k in t'.skins && t'.skins[k] == t.skins[k])
      && (forall k :: k in t.materials && k != id + "Material" ==> k in t'.materials && t'.materials[k] == t.materials[k])
  {
  }

  /**
   * A skin whose material was new points at the stored material; a skin
   * whose material was already stored points at the NUL key instead of the
   * matching one, so its material is found only if some material is stored
   * under that key.
   */
  lemma {:induction false} AddSkinMaterialKey(t: Tables, id: string, mat: Material)
    requires id !in t.skins
    ensures var (_, t') := AddSkinSpec(t, id, mat);
      && (!HasMaterial(t, mat) ==> GetMaterial(t', t'.skins[id].material) == Return(mat))
      && (HasMaterial(t, mat) ==> t'.skins[id].material == CounterKey
                                  && (GetMaterial(t', t'.skins[id].material).Return? <==> CounterKey in t.materials))
  {
  }

  /** `DeleteSkin`, `DeleteTexture` and `DeleteMaterial` report presence and remove exactly the named entries. */
  lemma {:induction false} DeleteSkinRemovesOnly(t: Tables, id: string, deleteTextures: bool, deleteMaterial: bool)
    ensures var (found, t') := DeleteSkinSpec(t, id, deleteTextures, deleteMaterial);
      && (found <==> id in t.skins)
      && (!found ==> t' == t)
      && id !in t'.skins
      && (forall k :: k in t.skins && k != id ==> k in t'.skins && t'.skins[k] == t.skins[k])
      && (!deleteTextures ==> t'.textures == t.textures)
      && (!deleteMaterial ==> t'.materials == t.materials)
  {
  }

  /**
   * `AddTextureToSkin` can report success although no texture was stored:
   * when the file fails to load, the slot still receives the texture ID.
   */
  lemma {:induction false} AddTextureToSkinIgnoresLoadFailure(t: Tables, skinID: string, textureID: string, texture: Texture)
    requires skinID in t.skins && t.skins[skinID].textures[MaxTextures - 1] == NoTexture
    requires textureID !in t.textures && textureID != NoTexture
    ensures var (r, t') := AddTextureToSkinSpec(t, skinID, textureID, texture, None);
      && r == Return(true)
      && textureID !in t'.textures
      && textureID in UsedSlots(t'.skins[skinID].textures)
  {
    var slots := t.skins[skinID].textures;
    var i := FirstFree(slots);
    assert i < MaxTextures;
    assert FillFirstFree(slots, textureID)[i] == textureID;
    assert textureID in FillFirstFree(slots, textureID);
  }

  /** A skin accepts texture IDs until its last slot is used; the first free slot is the one written. */
  lemma {:induction false} FillFirstFreeWritesFirst(slots: Slots, id: string)
    requires slots[MaxTextures - 1] == NoTexture && id != NoTexture
    ensures var s' := FillFirstFree(slots, id);
      && id in UsedSlots(s')
      && exists i :: 0 <= i < MaxTextures && slots[i] == NoTexture && s'[i] == id
                   && (forall j :: 0 <= j < i ==> slots[j] != NoTexture)
                   && (forall j :: 0 <= j < MaxTextures && j != i ==> s'[j] == slots[j])
  {
    var i := FirstFree(slots);
    assert FillFirstFree(slots, id)[i] == id;
    assert id in FillFirstFree(slots, id);
  }
}
