/**
 * `SpriteRenderer`: the 2D variant. It batches the `ISprite` vertices of
 * every registered object tree into one vertex buffer, 4 floats per vertex,
 * and draws each sprite as `GL_QUADS` over the range recorded for it.
 * `IGeometry` and `IIndexedGeometry` are ignored. The buffer's total size is
 * kept in the `vboMemorySize` field, and `RenderObject` draws nothing while
 * it is not positive.
 */
module SpriteRenderer {
  import opened Base
  import opened RenderInterfaces
  import opened SkinManager
  import opened RenderDevice
  import opened IdRegistry
  import opened Batching

  const CorruptedMessage: string := "SpriteRenderer::Update - VBO data got corrupted when changing data."

  class SpriteRenderer {
    /** The `ARenderer` base: the registered objects and their IDs. */
    const registry: Registry<Renderable>
    const device: RenderDevice
    /** The vertex buffer's contents. */
    var vboData: array<Scalar>
    /** The byte size `Update` last computed; the constructor leaves it uninitialised. */
    var vboMemorySize: int
    var arrayIndices: seq<ArrayIndices>

    /** An empty buffer and no recorded ranges; `vboMemorySize` is left unset. */
    constructor (renderDevice: RenderDevice, willDeleteAll: bool)
      ensures device == renderDevice && fresh(registry)
      ensures registry.Valid() && registry.deleteAll == willDeleteAll && registry.items == []
      ensures vboData.Length == 0 && arrayIndices == []
    {
      registry := new Registry<Renderable>("Renderable", willDeleteAll);
      device := renderDevice;
      vboData := new Scalar[0];
      arrayIndices := [];
    }

    /**
     * `ProcessRenderable`: writes the tree's sprite vertices from `vboIndex`
     * on, the object's own first, and appends one range per visited object,
     * the object's own after its entries'.
     */
    method ProcessRenderable(n: Renderable, vboIndex: nat, vertexNumber: nat)
      returns (nextVboIndex: nat, nextVertexNumber: nat)
      requires n.Obj?
      requires vboIndex + |TreeValues(Sprites, n)| <= vboData.Length
      modifies vboData, this`arrayIndices
      ensures nextVboIndex == vboIndex + |TreeValues(Sprites, n)|
      ensures nextVertexNumber == vertexNumber + TreeUnits(Sprites, n)
      ensures nextVboIndex - vboIndex == 4 * (nextVertexNumber - vertexNumber)
      ensures vboData[..] == Overwrite(old(vboData[..]), vboIndex, TreeValues(Sprites, n))
      ensures arrayIndices == old(arrayIndices) + TreeRanges(Sprites, n, vertexNumber)
      decreases n, 1
    {
      ghost var before := vboData[..];
      var amount;
      nextVboIndex, amount := WriteOwnSprite(n, vboIndex);
      nextVertexNumber := vertexNumber + amount;
      if n.isGroup {
        nextVboIndex, nextVertexNumber := ProcessGroup(n, vboIndex, vertexNumber, amount, before, nextVboIndex);
      } else {
        assert OwnValues(Sprites, n) + [] == OwnValues(Sprites, n);
        arrayIndices := arrayIndices + [ArrayIndices(vertexNumber, amount)];
      }
      TreeUnitsAreVertices(Sprites, n);
    }

    /**
     * The rest of `ProcessRenderable` for a group whose own vertices are
     * written: its entries' vertices follow from the cursors left, and its
     * own range is appended after the entries' ranges.
     */
    method ProcessGroup(n: Renderable, vboIndex: nat, vertexNumber: nat, amount: nat,
                        ghost before: seq<Scalar>, entriesIndex: nat)
      returns (nextVboIndex: nat, nextVertexNumber: nat)
      requires n.Obj? && n.isGroup
      requires amount == OwnUnits(Sprites, n) && entriesIndex == vboIndex + |OwnValues(Sprites, n)|
      requires vboData.Length == |before| && vboIndex + |TreeValues(Sprites, n)| <= vboData.Length
      requires vboData[..] == Overwrite(before, vboIndex, OwnValues(Sprites, n))
      modifies vboData, this`arrayIndices
      ensures nextVboIndex == vboIndex + |TreeValues(Sprites, n)|
      ensures nextVertexNumber == vertexNumber + TreeUnits(Sprites, n)
      ensures vboData[..] == Overwrite(before, vboIndex, TreeValues(Sprites, n))
      ensures arrayIndices == old(arrayIndices) + TreeRanges(Sprites, n, vertexNumber)
      decreases n, 0
    {
      GroupValues(Sprites, n);
      GroupUnits(Sprites, n);
      ghost var rangesBefore, dataOwn := arrayIndices, vboData[..];
      nextVboIndex, nextVertexNumber := ProcessEntries(n.entries, entriesIndex, vertexNumber + amount);
      ghost var rangesMid := arrayIndices;
      arrayIndices := arrayIndices + [ArrayIndices(vertexNumber, amount)];
      GroupDataAssembled(Sprites, n, vboIndex, entriesIndex, before, dataOwn, vboData[..]);
      GroupRangesAssembled(Sprites, n, vertexNumber, amount, vertexNumber + amount, rangesBefore, rangesMid, arrayIndices);
    }

    /**
     * The group part of `ProcessRenderable`, and the loop of `Update`: every
     * non-null entry in order, each continuing from the cursors the previous
     * one left.
     */
    method ProcessEntries(entries: seq<Renderable>, vboIndex: nat, vertexNumber: nat)
      returns (nextVboIndex: nat, nextVertexNumber: nat)
      requires vboIndex + |ListValues(Sprites, entries)| <= vboData.Length
      modifies vboData, this`arrayIndices
      ensures nextVboIndex == vboIndex + |ListValues(Sprites, entries)|
      ensures nextVertexNumber == vertexNumber + ListUnits(Sprites, entries)
      ensures vboData[..] == Overwrite(old(vboData[..]), vboIndex, ListValues(Sprites, entries))
      ensures arrayIndices == old(arrayIndices) + ListRanges(Sprites, entries, vertexNumber)
      decreases entries, 0
    {
      ghost var before := vboData[..];
      nextVboIndex, nextVertexNumber := vboIndex, vertexNumber;
      ListLengthsPrefix(Sprites, entries, 0);
      for i := 0 to |entries|
        invariant vboData.Length == |before|
        invariant nextVboIndex == vboIndex + |ListValues(Sprites, entries[..i])| <= |before|
        invariant nextVertexNumber == vertexNumber + ListUnits(Sprites, entries[..i])
        invariant vboData[..] == Overwrite(before, vboIndex, ListValues(Sprites, entries[..i]))
        invariant arrayIndices == old(arrayIndices) + ListRanges(Sprites, entries[..i], vertexNumber)
      {
        ListStep(Sprites, entries, i, vertexNumber, nextVertexNumber);
        ListLengthsPrefix(Sprites, entries, i + 1);
        if entries[i].Obj? {
          ghost var entryStart := nextVertexNumber;
          ghost var entryIndex := nextVboIndex;
          nextVboIndex, nextVertexNumber := ProcessRenderable(entries[i], nextVboIndex, nextVertexNumber);
          OverwriteTwice(before, vboIndex, ListValues(Sprites, entries[..i]), entryIndex, TreeValues(Sprites, entries[i]));
          AppendAssociates(old(arrayIndices), ListRanges(Sprites, entries[..i], vertexNumber), TreeRanges(Sprites, entries[i], entryStart));
        }
      }
      assert entries[..|entries|] == entries;
    }

    /** The `ISprite` part of `ProcessRenderable`: the object's own vertices, 4 floats each. */
    method WriteOwnSprite(n: Renderable, vboIndex: nat) returns (nextVboIndex: nat, amount: nat)
      requires vboIndex + |OwnValues(Sprites, n)| <= vboData.Length
      modifies vboData
      ensures nextVboIndex == vboIndex + |OwnValues(Sprites, n)|
      ensures amount == OwnUnits(Sprites, n)
      ensures vboData[..] == Overwrite(old(vboData[..]), vboIndex, OwnValues(Sprites, n))
    {
      if n.Obj? && n.sprite.Some? {
        var vertexData := n.sprite.value;
        nextVboIndex := WriteSpriteVertices(vboData, vboIndex, vertexData);
        amount := |vertexData|;
      } else {
        nextVboIndex, amount := vboIndex, 0;
        assert vboData[..] == Overwrite(old(vboData[..]), vboIndex, []);
      }
    }

    /**
     * `Update`: resets `vboMemorySize` and sums the top-level objects'
     * reported sizes into it. A zero total returns at once, keeping the
     * previous ranges; otherwise the buffer receives every tree's sprite
     * vertices in order, the ranges are rebuilt, and a failed unmap throws.
     */
    method Update(unmapSucceeds: bool) returns (r: Outcome<()>)
      requires forall i :: 0 <= i < |registry.items| ==> registry.items[i].Obj?
      requires ReportedSize(registry.items) >= 0
      requires ReportedSize(registry.items) != 0 ==>
                 |ListValues(Sprites, registry.items)| <= ReportedSize(registry.items) / 4
      modifies this`vboData, this`vboMemorySize, this`arrayIndices
      ensures vboMemorySize == ReportedSize(registry.items)
      ensures fresh(vboData) && vboData.Length == vboMemorySize / 4
      ensures vboMemorySize == 0 ==> r == Return(()) && arrayIndices == old(arrayIndices)
      ensures vboMemorySize != 0 ==>
                && vboData[..|ListValues(Sprites, registry.items)|] == ListValues(Sprites, registry.items)
                && arrayIndices == ListRanges(Sprites, registry.items, 0)
                && r == if unmapSucceeds then Return(()) else Throw(CorruptedMessage)
    {
      var roots := registry.items;
      vboMemorySize := 0;
      for i := 0 to |roots|
        invariant vboMemorySize == ReportedSize(roots[..i])
        invariant arrayIndices == old(arrayIndices)
      {
        assert roots[..i + 1][..i] == roots[..i];
        vboMemorySize := vboMemorySize + roots[i].memorySize;
      }
      assert roots[..|roots|] == roots;
      vboData := new Scalar[vboMemorySize / 4];
      if vboMemorySize == 0 {
        return Return(());
      }
      arrayIndices := [];
      var vboIndex, vertexNumber := ProcessEntries(roots, 0, 0);
      if !unmapSucceeds {
        return Throw(CorruptedMessage);
      }
      r := Return(());
    }

    /**
     * `RenderObject`: while `vboMemorySize` is not positive it returns at
     * once, issuing nothing and leaving the index where it was. Otherwise it
     * pushes the object's matrix, binds its skin when the device's current
     * skin differs, draws a sprite as quads with `arrayIndices[index]`,
     * renders its entries with the same running index, pops, and advances
     * the index by one.
     */
    method RenderObject(n: Renderable, index: nat) returns (next: nat, events: seq<Event>)
      requires n.Obj?
      requires vboMemorySize > 0 ==> index + TreeCount(n) <= |arrayIndices|
      modifies device`currentSkinID, device`currentTextureID
      ensures vboMemorySize <= 0 ==> next == index && events == [] && device.CurrentBinding() == old(device.CurrentBinding())
      ensures vboMemorySize > 0 ==>
                var p := RenderTree(Sprites, device.skinManager.State(), arrayIndices, n,
                                    DrawState(index, old(device.CurrentBinding())));
                next == p.state.index && events == p.events && device.CurrentBinding() == p.state.binding
      decreases n, 1
    {
      if vboMemorySize <= 0 {
        return index, [];
      }
      ghost var t := device.skinManager.State();
      ghost var entered := Enter(t, n, device.CurrentBinding());
      events := EnterObject(device, n);
      var drawn: seq<Event> := [];
      if n.sprite.Some? {
        drawn := [DrawArrays(GL_QUADS, arrayIndices[index].start, arrayIndices[index].amount)];
      }
      assert DrawFor(Sprites, n, arrayIndices[index]) == Some(drawn);
      var inner: seq<Event> := [];
      next := index;
      if n.isGroup {
        next, inner := RenderEntries(n.entries, index);
      }
      var popped: seq<Event> := [];
      if n.matrix.Some? {
        popped := [PopMatrix];
      }
      events := events + drawn + inner + popped;
      next := next + 1;
    }

    /**
     * The group part of `RenderObject`, and the loop of `Render`:
     * `RenderObject` on each non-null entry in order, threading the index.
     */
    method RenderEntries(entries: seq<Renderable>, index: nat) returns (next: nat, events: seq<Event>)
      requires vboMemorySize > 0 ==> index + ListCount(entries) <= |arrayIndices|
      modifies device`currentSkinID, device`currentTextureID
      ensures vboMemorySize <= 0 ==> next == index && events == [] && device.CurrentBinding() == old(device.CurrentBinding())
      ensures vboMemorySize > 0 ==>
                var p := RenderList(Sprites, device.skinManager.State(), arrayIndices, entries,
                                    DrawState(index, old(device.CurrentBinding())));
                next == p.state.index && events == p.events && device.CurrentBinding() == p.state.binding
      decreases entries, 0
    {
      ghost var t := device.skinManager.State();
      ghost var b := device.CurrentBinding();
      ghost var s := DrawState(index, b);
      next := index;
      events := [];
      for i := 0 to |entries|
        invariant vboMemorySize <= 0 ==> next == index && events == [] && device.CurrentBinding() == b
        invariant vboMemorySize > 0 ==> index + ListCount(entries[..i]) <= |arrayIndices|
        invariant vboMemorySize > 0 ==>
                    var p := RenderList(Sprites, t, arrayIndices, entries[..i], s);
                    next == p.state.index && events == p.events && device.CurrentBinding() == p.state.binding
      {
        if vboMemorySize > 0 {
          ListCountPrefix(entries, i + 1);
          RenderListStep(Sprites, t, arrayIndices, entries, i, s);
        }
        if entries[i].Obj? {
          var evs;
          next, evs := RenderObject(entries[i], next);
          events := events + evs;
        }
      }
      assert entries[..|entries|] == entries;
    }

    /**
     * `Render`: `RenderObject` on each non-null top-level object, the index
     * starting at 0; nothing is drawn while `vboMemorySize` is not positive.
     */
    method Render() returns (events: seq<Event>)
      requires vboMemorySize > 0 ==> ListCount(registry.items) <= |arrayIndices|
      modifies device`currentSkinID, device`currentTextureID
      ensures vboMemorySize <= 0 ==> events == [] && device.CurrentBinding() == old(device.CurrentBinding())
      ensures vboMemorySize > 0 ==>
                var p := RenderList(Sprites, device.skinManager.State(), arrayIndices, registry.items,
                                    DrawState(0, old(device.CurrentBinding())));
                events == p.events && device.CurrentBinding() == p.state.binding
    {
      var index;
      index, events := RenderEntries(registry.items, 0);
    }
  }
}
