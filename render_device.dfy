/**
 * `RenderDevice`: the render-pass flag, the 2D/3D mode with one projection
 * matrix per mode, and the IDs of the skin and texture currently bound,
 * which the renderers consult before binding a skin. The OpenGL state
 * changes that accompany these updates are outside the model.
 */
module RenderDevice {
  import opened Base
  import opened RenderInterfaces
  import opened SkinManager
  import Matrices

  datatype RenderMode = Mode2D | Mode3D

  /** `RenderDevice::noSkin` and `RenderDevice::noTexture`. */
  const NoSkinID: string := "NOSKIN!"
  const NoTextureID: string := "NOTEXTURE!"

  /**
   * What `currentSkinID = currentTextureID = -1` stores: assigning the int
   * -1 to a `std::string` gives the one-character string holding char(-1),
   * the byte 0xFF.
   */
  const ClearedID: string := [0xFF as char]

  /** The skin and texture IDs the device records as bound. */
  datatype Binding = Binding(skin: string, texture: string)

  /**
   * Whether `SetActiveSkin(id)` gets past every lookup: the skin, its
   * material and, when slot 0 is used, its first texture are all stored.
   */
  predicate CanActivate(t: Tables, id: string)
  {
    && id in t.skins
    && t.skins[id].material in t.materials
    && (t.skins[id].textures[0] == NoTexture || t.skins[id].textures[0] in t.textures)
  }

  /**
   * The binding after `SetActiveSkin(id)`: the skin and its slot-0 entry
   * (the marker `"!"` included) when every lookup succeeds; otherwise the
   * lookup's exception is swallowed and nothing changes.
   */
  function ActivateSkin(t: Tables, b: Binding, id: string): Binding
  {
    if CanActivate(t, id) then Binding(id, t.skins[id].textures[0]) else b
  }

  /** Once a skin is bound, binding it again changes nothing. */
  lemma {:induction false} ActivateSkinIdempotent(t: Tables, b: Binding, id: string)
    ensures ActivateSkin(t, ActivateSkin(t, b, id), id) == ActivateSkin(t, b, id)
  {
  }

  /**
   * After `SetActiveSkin(id)` the device reports `id` as current exactly when
   * the skin could be bound or was already current.
   */
  lemma {:induction false} ActivateSkinReportsID(t: Tables, b: Binding, id: string)
    ensures ActivateSkin(t, b, id).skin == id <==> CanActivate(t, id) || b.skin == id
  {
  }

  /** The cleared ID is neither of the "nothing bound" constants the constructor uses. */
  lemma {:induction false} ClearedIDIsNotTheConstants()
    ensures ClearedID != NoSkinID && ClearedID != NoTextureID && |ClearedID| == 1
  {
    assert ClearedID[0] != NoSkinID[0];
  }

  /** `matrixf::Identity(4)` in the array layout the projections are kept in. */
  const Identity4: MatrixArray := Matrices.Flatten(Matrices.IdentityGrid(4), 4, 4)

  /** The 16 entries of the flattened identity: 1 exactly on the diagonal, at every fifth position. */
  lemma {:induction false} IdentityLayout()
    ensures |Identity4| == 16 && forall k :: 0 <= k < 16 ==> Identity4[k] == if k % 5 == 0 then 1 else 0
  {
    forall k | 0 <= k < 16
      ensures Identity4[k] == if k % 5 == 0 then 1 else 0
    {
      Matrices.CellOf(k, 4, 4);
      assert k % 5 == 0 <==> k % 4 == k / 4;
    }
  }

  class RenderDevice {
    const skinManager: SkinManager
    var renderStarted: bool
    var mode: RenderMode
    var currentSkinID: string
    var currentTextureID: string
    var projection2D: MatrixArray
    var projection3D: MatrixArray

    function CurrentBinding(): Binding
      reads this
    {
      Binding(currentSkinID, currentTextureID)
    }

    /**
     * No pass started, 3D mode, the "no skin" / "no texture" IDs, and both
     * projections the 4x4 identity as `Reset` leaves them.
     */
    constructor (skins: SkinManager)
      ensures skinManager == skins
      ensures !renderStarted && mode == Mode3D
      ensures currentSkinID == NoSkinID && currentTextureID == NoTextureID
      ensures projection2D == projection3D == Identity4
      ensures |projection3D| == 16 && forall k :: 0 <= k < 16 ==> projection3D[k] == if k % 5 == 0 then 1 else 0
    {
      skinManager := skins;
      renderStarted := false;
      mode := Mode3D;
      currentSkinID := NoSkinID;
      currentTextureID := NoTextureID;
      IdentityLayout();
      projection2D := Identity4;
      projection3D := Identity4;
    }

    /** `SetRenderMode`: stores the mode (the device reset that follows only touches OpenGL). */
    method SetRenderMode(renderMode: RenderMode)
      modifies this`mode
      ensures mode == renderMode
    {
      mode := renderMode;
    }

    /** `IsRenderMode`: equality with the stored mode. */
    function IsRenderMode(renderMode: RenderMode): (r: bool)
      reads this
      ensures r <==> renderMode == mode
    {
      renderMode == mode
    }

    /**
     * `StartRendering`: from idle, starts the pass and clears the bound skin
     * and texture; during a pass it only logs, reported by `alreadyStarted`.
     */
    method StartRendering() returns (alreadyStarted: bool)
      modifies this`renderStarted, this`currentSkinID, this`currentTextureID
      ensures alreadyStarted == old(renderStarted)
      ensures renderStarted
      ensures alreadyStarted ==> CurrentBinding() == old(CurrentBinding())
      ensures !alreadyStarted ==> CurrentBinding() == Binding(ClearedID, ClearedID)
    {
      if !renderStarted {
        renderStarted := true;
      } else {
        return true;
      }
      ClearSkinAndTexture();
      alreadyStarted := false;
    }

    /** `EndRendering`: ends a started pass; while idle it only logs, reported by `notStarted`. */
    method EndRendering() returns (notStarted: bool)
      modifies this`renderStarted
      ensures notStarted == !old(renderStarted)
      ensures !renderStarted
    {
      if renderStarted {
        renderStarted := false;
        notStarted := false;
      } else {
        notStarted := true;
      }
    }

    /** `SetActiveTexture`: binds a stored texture and records it; an absent one throws. */
    method SetActiveTexture(textureID: string) returns (r: Outcome<()>)
      modifies this`currentTextureID
      ensures r.Return? <==> textureID in skinManager.textures
      ensures r.Return? ==> currentTextureID == textureID
      ensures r.Throw? ==> currentTextureID == old(currentTextureID)
    {
      var texture := GetTexture(skinManager.State(), textureID);
      if texture.Throw? {
        return Throw(texture.message);
      }
      currentTextureID := textureID;
      r := Return(());
    }

    /** `SetActiveSkin`: binds a skin's material and first texture; any failed lookup leaves the binding as it was. */
    method SetActiveSkin(skinID: string)
      modifies this`currentSkinID, this`currentTextureID
      ensures CurrentBinding() == ActivateSkin(skinManager.State(), old(CurrentBinding()), skinID)
    {
      var skin := GetSkin(skinManager.State(), skinID);
      if skin.Throw? {
        return;
      }
      var material := GetMaterial(skinManager.State(), skin.value.material);
      if material.Throw? {
        return;
      }
      var textures := skin.value.textures;
      if textures[0] != NoTexture {
        var bound := SetActiveTexture(textures[0]);
        if bound.Throw? {
          return;
        }
      }
      currentSkinID := skinID;
      currentTextureID := textures[0];
    }

    /** `ClearSkinAndTexture`: both current IDs become the one-character string of char(-1). */
    method ClearSkinAndTexture()
      modifies this`currentSkinID, this`currentTextureID
      ensures CurrentBinding() == Binding(ClearedID, ClearedID)
    {
      var cleared: char := 0xFF as char;
      currentTextureID := [cleared];
      currentSkinID := currentTextureID;
    }

    /** `SetProjectionMatrix`: replaces only the projection of the given mode. */
    method SetProjectionMatrix(renderMode: RenderMode, newProjection: MatrixArray)
      modifies this`projection2D, this`projection3D
      ensures renderMode == Mode2D ==> projection2D == newProjection && projection3D == old(projection3D)
      ensures renderMode == Mode3D ==> projection3D == newProjection && projection2D == old(projection2D)
    {
      if renderMode == Mode2D {
        projection2D := newProjection;
      } else if renderMode == Mode3D {
        projection3D := newProjection;
      }
    }
  }
}
