/**
 * `VBORenderer`: batches the `IGeometry` vertex data of every registered
 * object tree into one vertex buffer, 8 floats per vertex, and draws each
 * object with the `glDrawArrays` range recorded for it.
 *
 * The mapped buffer is a Dafny array of reported-bytes / 4 slots; the draw,
 * matrix and skin calls `Render` makes are returned as an event log.
 */
module VboRenderer {
  import opened Base
  import opened RenderInterfaces
  import opened SkinManager
  import opened RenderDevice
  import opened IdRegistry
  import opened Batching

  const CorruptedMessage: string := "VBORenderer::Update - VBO data got corrupted when changing data."

  class VboRenderer {
    /** The `ARenderer` base: the registered objects and their IDs. */
    const registry: Registry<Renderable>
    const device: RenderDevice
    /** The vertex buffer's contents. */
    var vboData: array<Scalar>
    var arrayIndices: seq<ArrayIndices>

    /** An empty buffer and no recorded ranges. */
    constructor (renderDevice: RenderDevice, willDeleteAll: bool)
      ensures device == renderDevice && fresh(registry)
      ensures registry.Valid() && registry.deleteAll == willDeleteAll && registry.items == []
      ensures vboData.Length == 0 && arrayIndices == []
    {
      registry := new Registry<Renderable>("Renderable", willDeleteAll);
      device := renderDevice;
      vboData := new Scalar[0];
      arrayIndices := [];
    }

    /**
     * `ProcessRenderable`: writes the tree's vertex data from `vboIndex` on,
     * the object's own first, and appends one range per visited object,
     * the object's own after its entries'.
     */
    method ProcessRenderable(n: Renderable, vboIndex: nat, vertexNumber: nat)
      returns (nextVboIndex: nat, nextVertexNumber: nat)
      requires n.Obj?
      requires vboIndex + |TreeValues(Lit, n)| <= vboData.Length
      modifies vboData, this`arrayIndices
      ensures nextVboIndex == vboIndex + |TreeValues(Lit, n)|
      ensures nextVertexNumber == vertexNumber + TreeUnits(Lit, n)
      ensures nextVboIndex - vboIndex == 8 * (nextVertexNumber - vertexNumber)
      ensures vboData[..] == Overwrite(old(vboData[..]), vboIndex, TreeValues(Lit, n))
      ensures arrayIndices == old(arrayIndices) + TreeRanges(Lit, n, vertexNumber)
      decreases n, 1
    {
      ghost var before := vboData[..];
      var amount;
      nextVboIndex, amount := WriteOwnVertices(n, vboIndex);
      nextVertexNumber := vertexNumber + amount;
      if n.isGroup {
        nextVboIndex, nextVertexNumber := ProcessGroup(n, vboIndex, vertexNumber, amount, before, nextVboIndex);
      } else {
        assert OwnValues(Lit, n) + [] == OwnValues(Lit, n);
        arrayIndices := arrayIndices + [ArrayIndices(vertexNumber, amount)];
      }
      TreeUnitsAreVertices(Lit, n);
    }

    /**
     * The rest of `ProcessRenderable` for a group whose own vertices are
     * written: its entries' vertices follow from the cursors left, and its
     * own range is appended after the entries' ranges.
     */
    method ProcessGroup(n: Renderable, vboIndex: nat, vertexNumber: nat, amount: nat,
                        ghost before: seq<Scalar>, entriesIndex: nat)
      returns (nextVboIndex: nat, nextVertexNumber: nat)
      requires n.Obj? && n.isGroup
      requires amount == OwnUnits(Lit, n) && entriesIndex == vboIndex + |OwnValues(Lit, n)|
      requires vboData.Length == |before| && vboIndex + |TreeValues(Lit, n)| <= vboData.Length
      requires vboData[..] == Overwrite(before, vboIndex, OwnValues(Lit, n))
      modifies vboData, this`arrayIndices
      ensures nextVboIndex == vboIndex + |TreeValues(Lit, n)|
      ensures nextVertexNumber == vertexNumber + TreeUnits(Lit, n)
      ensures vboData[..] == Overwrite(before, vboIndex, TreeValues(Lit, n))
      ensures arrayIndices == old(arrayIndices) + TreeRanges(Lit, n, vertexNumber)
      decreases n, 0
    {
      GroupValues(Lit, n);
      GroupUnits(Lit, n);
      ghost var rangesBefore, dataOwn := arrayIndices, vboData[..];
      nextVboIndex, nextVertexNumber := ProcessEntries(n.entries, entriesIndex, vertexNumber + amount);
      ghost var rangesMid := arrayIndices;
      arrayIndices := arrayIndices + [ArrayIndices(vertexNumber, amount)];
      GroupDataAssembled(Lit, n, vboIndex, entriesIndex, before, dataOwn, vboData[..]);
      GroupRangesAssembled(Lit, n, vertexNumber, amount, vertexNumber + amount, rangesBefore, rangesMid, arrayIndices);
    }

    /**
     * The group part of `ProcessRenderable`, and the loop of `Update`: every
     * non-null entry in order, each continuing from the cursors the previous
     * one left.
     */
    method ProcessEntries(entries: seq<Renderable>, vboIndex: nat, vertexNumber: nat)
      returns (nextVboIndex: nat, nextVertexNumber: nat)
      requires vboIndex + |ListValues(Lit, entries)| <= vboData.Length
      modifies vboData, this`arrayIndices
      ensures nextVboIndex == vboIndex + |ListValues(Lit, entries)|
      ensures nextVertexNumber == vertexNumber + ListUnits(Lit, entries)
      ensures vboData[..] == Overwrite(old(vboData[..]), vboIndex, ListValues(Lit, entries))
      ensures arrayIndices == old(arrayIndices) + ListRanges(Lit, entries, vertexNumber)
      decreases entries, 0
    {
      ghost var before := vboData[..];
      nextVboIndex, nextVertexNumber := vboIndex, vertexNumber;
      ListLengthsPrefix(Lit, entries, 0);
      for i := 0 to |entries|
        invariant vboData.Length == |before|
        invariant nextVboIndex == vboIndex + |ListValues(Lit, entries[..i])| <= |before|
        invariant nextVertexNumber == vertexNumber + ListUnits(Lit, entries[..i])
        invariant vboData[..] == Overwrite(before, vboIndex, ListValues(Lit, entries[..i]))
        invariant arrayIndices == old(arrayIndices) + ListRanges(Lit, entries[..i], vertexNumber)
      {
        ListStep(Lit, entries, i, vertexNumber, nextVertexNumber);
        ListLengthsPrefix(Lit, entries, i + 1);
        if entries[i].Obj? {
          ghost var recorded := arrayIndices;
          ghost var entryStart := nextVertexNumber;
          ghost var entryIndex := nextVboIndex;
          nextVboIndex, nextVertexNumber := ProcessRenderable(entries[i], nextVboIndex, nextVertexNumber);
          OverwriteTwice(before, vboIndex, ListValues(Lit, entries[..i]), entryIndex, TreeValues(Lit, entries[i]));
          AppendAssociates(old(arrayIndices), ListRanges(Lit, entries[..i], vertexNumber), TreeRanges(Lit, entries[i], entryStart));
        }
      }
      assert entries[..|entries|] == entries;
    }

    /** The `IGeometry` part of `ProcessRenderable`: the object's own vertices, 8 floats each. */
    method WriteOwnVertices(n: Renderable, vboIndex: nat) returns (nextVboIndex: nat, amount: nat)
      requires vboIndex + |OwnValues(Lit, n)| <= vboData.Length
      modifies vboData
      ensures nextVboIndex == vboIndex + |OwnValues(Lit, n)|
      ensures amount == OwnUnits(Lit, n)
      ensures vboData[..] == Overwrite(old(vboData[..]), vboIndex, OwnValues(Lit, n))
    {
      if n.Obj? && n.geometry.Some? {
        var vertexData := n.geometry.value.vertices;
        nextVboIndex := WriteVertices(vboData, vboIndex, vertexData);
        amount := |vertexData|;
      } else {
        nextVboIndex, amount := vboIndex, 0;
        assert vboData[..] == Overwrite(old(vboData[..]), vboIndex, []);
      }
    }

    /**
     * `Update`: sizes the buffer from the top-level objects' reported sizes.
     * A zero total returns at once, keeping the previous ranges; otherwise
     * the buffer receives every tree's vertex data in order, the ranges are
     * rebuilt, and a failed unmap throws.
     */
    method Update(unmapSucceeds: bool) returns (r: Outcome<()>)
      requires forall i :: 0 <= i < |registry.items| ==> registry.items[i].Obj?
      requires ReportedSize(registry.items) >= 0
      requires ReportedSize(registry.items) != 0 ==>
                 |ListValues(Lit, registry.items)| <= ReportedSize(registry.items) / 4
      modifies this`vboData, this`arrayIndices
      ensures fresh(vboData) && vboData.Length == ReportedSize(registry.items) / 4
      ensures ReportedSize(registry.items) == 0 ==> r == Return(()) && arrayIndices == old(arrayIndices)
      ensures ReportedSize(registry.items) != 0 ==>
                && vboData[..|ListValues(Lit, registry.items)|] == ListValues(Lit, registry.items)
                && arrayIndices == ListRanges(Lit, registry.items, 0)
                && r == if unmapSucceeds then Return(()) else Throw(CorruptedMessage)
    {
      var roots := registry.items;
      var vboMemorySize := 0;
      for i := 0 to |roots|
        invariant vboMemorySize == ReportedSize(roots[..i])
      {
        assert roots[..i + 1][..i] == roots[..i];
        vboMemorySize := vboMemorySize + roots[i].memorySize;
      }
      assert roots[..|roots|] == roots;
      var buffer := new Scalar[vboMemorySize / 4];
      vboData := buffer;
      if vboMemorySize == 0 {
        return Return(());
      }
      arrayIndices := [];
      var vboIndex, vertexNumber := ProcessEntries(roots, 0, 0);
      if !unmapSucceeds {
        return Throw(CorruptedMessage);
      }
      r := Return(());
    }

    /**
     * `RenderObject`: pushes the object's matrix, binds its skin when the
     * device's current skin differs, draws with `arrayIndices[index]`,
     * renders its entries with the same running index, pops, and advances
     * the index by one. An unknown primitive type throws after the skin
     * bind; the throw is caught here and only the index advance follows.
     */
    method RenderObject(n: Renderable, index: nat) returns (next: nat, events: seq<Event>)
      requires n.Obj? && index + TreeCount(n) <= |arrayIndices|
      modifies device`currentSkinID, device`currentTextureID
      ensures var p := RenderTree(Lit, device.skinManager.State(), arrayIndices, n,
                                  DrawState(index, old(device.CurrentBinding())));
              next == p.state.index && events == p.events && device.CurrentBinding() == p.state.binding
      decreases n, 1
    {
      ghost var t := device.skinManager.State();
      ghost var entered := Enter(t, n, device.CurrentBinding());
      events := EnterObject(device, n);
      var drawn: seq<Event> := [];
      if n.geometry.Some? {
        var mode := GlPrimitive(n.geometry.value.primitiveType);
        if mode.None? {
          return index + 1, events;
        }
        drawn := [DrawArrays(mode.value, arrayIndices[index].start, arrayIndices[index].amount)];
      }
      assert DrawFor(Lit, n, arrayIndices[index]) == Some(drawn);
      var inner: seq<Event> := [];
      next := index;
      if n.isGroup {
        next, inner := RenderEntries(n.entries, index);
      }
      var popped: seq<Event> := [];
      if n.matrix.Some? {
        popped := [PopMatrix];
      }
      events := events + drawn + inner + popped;
      next := next + 1;
    }

    /**
     * The group part of `RenderObject`, and the loop of `Render`:
     * `RenderObject` on each non-null entry in order, threading the index.
     */
    method RenderEntries(entries: seq<Renderable>, index: nat) returns (next: nat, events: seq<Event>)
      requires index + ListCount(entries) <= |arrayIndices|
      modifies device`currentSkinID, device`currentTextureID
      ensures var p := RenderList(Lit, device.skinManager.State(), arrayIndices, entries,
                                  DrawState(index, old(device.CurrentBinding())));
              next == p.state.index && events == p.events && device.CurrentBinding() == p.state.binding
      decreases entries, 0
    {
      ghost var t := device.skinManager.State();
      ghost var s := DrawState(index, device.CurrentBinding());
      next := index;
      events := [];
      for i := 0 to |entries|
        invariant index + ListCount(entries[..i]) <= |arrayIndices|
        invariant var p := RenderList(Lit, t, arrayIndices, entries[..i], s);
                  next == p.state.index && events == p.events && device.CurrentBinding() == p.state.binding
      {
        ListCountPrefix(entries, i + 1);
        RenderListStep(Lit, t, arrayIndices, entries, i, s);
        if entries[i].Obj? {
          var evs;
          next, evs := RenderObject(entries[i], next);
          events := events + evs;
        }
      }
      assert entries[..|entries|] == entries;
    }

    /** `Render`: `RenderObject` on each non-null top-level object, the index starting at 0. */
    method Render() returns (events: seq<Event>)
      requires ListCount(registry.items) <= |arrayIndices|
      modifies device`currentSkinID, device`currentTextureID
      ensures var p := RenderList(Lit, device.skinManager.State(), arrayIndices, registry.items,
                                  DrawState(0, old(device.CurrentBinding())));
              events == p.events && device.CurrentBinding() == p.state.binding
    {
      var index;
      index, events := RenderEntries(registry.items, 0);
    }
  }
}
