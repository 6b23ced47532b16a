/**
 * `IndexedVBORenderer`: batches the `IIndexedGeometry` of every registered
 * object tree into two buffers, the vertex data (8 floats per vertex) and
 * the triangle indices (3 per face), and draws each object with one
 * `glDrawRangeElements` over the element range recorded for it.
 *
 * The two mapped buffers are Dafny arrays of reported-bytes / 4 slots; the
 * calls `Render` makes are returned as an event log.
 */
module IndexedVboRenderer {
  import opened Base
  import opened RenderInterfaces
  import opened SkinManager
  import opened RenderDevice
  import opened IdRegistry
  import opened Batching

  const DataCorruptedMessage: string := "IndexedVBORenderer::Update - VBO data got corrupted when changing data."
  const IndicesCorruptedMessage: string :=
    "IndexedVBORenderer::Update - VBO indices (elements) got corrupted when changing data."

  /**
   * The index-buffer size `Update` computes: `GetTriangleMemorySize` of each
   * top-level object that is `IIndexedGeometry`; entries of groups are not
   * counted.
   */
  function TopLevelTriangleBytes(roots: seq<Renderable>): int
  {
    if |roots| == 0 then 0
    else
      var last := roots[|roots| - 1];
      TopLevelTriangleBytes(roots[..|roots| - 1])
      + (if last.Obj? && last.indexed.Some? then last.indexed.value.triangleMemorySize else 0)
  }

  /** The triangles of the top-level indexed objects, the only ones the index size covers. */
  function TopLevelFaceCount(roots: seq<Renderable>): nat
  {
    if |roots| == 0 then 0
    else
      var last := roots[|roots| - 1];
      TopLevelFaceCount(roots[..|roots| - 1])
      + (if last.Obj? && last.indexed.Some? then |last.indexed.value.faces| else 0)
  }

  /**
   * When every object reports `sizeof(Triangle)` bytes per face, the index
   * size is 12 bytes per top-level face: room for exactly the 3 indices of
   * each.
   */
  lemma {:induction false} ConformingIndexSize(roots: seq<Renderable>)
    requires ListConforms(roots)
    ensures TopLevelTriangleBytes(roots) == TriangleSize * TopLevelFaceCount(roots)
  {
    if |roots| > 0 {
      ListConformsFront(roots);
      ConformingIndexSize(roots[..|roots| - 1]);
    }
  }

  /** A conforming list's prefix conforms, and so does its last tree. */
  lemma {:induction false} ListConformsFront(roots: seq<Renderable>)
    requires |roots| > 0 && ListConforms(roots)
    ensures ListConforms(roots[..|roots| - 1]) && Conforms(roots[|roots| - 1])
  {
  }

  /**
   * The index size ignores the faces of group entries: a group whose only
   * entry is an indexed object with one face yields an index size of 0, so
   * `Update` returns before writing anything, although the tree has 3
   * indices to write.
   */
  lemma {:induction false} NestedFacesAreNotSized(v: Vertex, f: Triangle)
    ensures var leaf := Obj(VertexSize, None, Some(IndexedGeometry([v], [f], TriangleSize)), None, None, None, false, []);
            var group := Obj(VertexSize, None, None, None, None, None, true, [leaf]);
            && TopLevelTriangleBytes([group]) == 0
            && |ListElements([group])| == 3
  {
    var leaf := Obj(VertexSize, None, Some(IndexedGeometry([v], [f], TriangleSize)), None, None, None, false, []);
    var group := Obj(VertexSize, None, None, None, None, None, true, [leaf]);
    assert [group][..0] == [];
    assert [leaf][..0] == [];
    assert FaceElements([f]) == [f.v1, f.v2, f.v3] by {
      assert [f][..0] == [];
    }
    assert TreeElements(leaf) == [f.v1, f.v2, f.v3];
    assert ListElements([leaf]) == [f.v1, f.v2, f.v3];
  }

  /**
   * The index size `Update` evidently intends: `GetTriangleMemorySize` of
   * every indexed object in the trees, the entries of groups included, in
   * the order the walk writes them.
   */
  function TreeTriangleBytes(n: Renderable): int
    decreases n, 1
  {
    if n.Null? then 0
    else
      (if n.indexed.Some? then n.indexed.value.triangleMemorySize else 0)
      + (if n.isGroup then AllTriangleBytes(n.entries) else 0)
  }

  function AllTriangleBytes(roots: seq<Renderable>): int
    decreases roots, 0
  {
    if |roots| == 0 then 0
    else AllTriangleBytes(roots[..|roots| - 1]) + TreeTriangleBytes(roots[|roots| - 1])
  }

  /**
   * With the whole-tree index size, a conforming tree's buffer has room for
   * exactly the indices the walk writes: 4 bytes per element.
   */
  lemma {:induction false} TreeTriangleBytesCoverElements(n: Renderable)
    requires Conforms(n)
    ensures TreeTriangleBytes(n) == 4 * |TreeElements(n)|
    decreases n, 1
  {
    if n.Obj? && n.isGroup {
      AllTriangleBytesCoverElements(n.entries);
    }
  }

  lemma {:induction false} AllTriangleBytesCoverElements(roots: seq<Renderable>)
    requires ListConforms(roots)
    ensures AllTriangleBytes(roots) == 4 * |ListElements(roots)|
    decreases roots, 0
  {
    if |roots| > 0 {
      ListConformsFront(roots);
      AllTriangleBytesCoverElements(roots[..|roots| - 1]);
      TreeTriangleBytesCoverElements(roots[|roots| - 1]);
    }
  }

  /** On the scene `NestedFacesAreNotSized` builds, the whole-tree size is the 12 bytes its 3 indices need. */
  lemma {:induction false} NestedFacesAreSizedByTree(v: Vertex, f: Triangle)
    ensures var leaf := Obj(VertexSize, None, Some(IndexedGeometry([v], [f], TriangleSize)), None, None, None, false, []);
            var group := Obj(VertexSize, None, None, None, None, None, true, [leaf]);
            && AllTriangleBytes([group]) == TriangleSize
            && 4 * |ListElements([group])| == AllTriangleBytes([group])
  {
    var leaf := Obj(VertexSize, None, Some(IndexedGeometry([v], [f], TriangleSize)), None, None, None, false, []);
    var group := Obj(VertexSize, None, None, None, None, None, true, [leaf]);
    assert [group][..0] == [];
    assert [leaf][..0] == [];
    assert TreeTriangleBytes(leaf) == TriangleSize;
    assert AllTriangleBytes([leaf]) == TriangleSize;
    assert TreeTriangleBytes(group) == TriangleSize;
    NestedFacesAreNotSized(v, f);
  }

  /** A group's element data: its own triangles, then its entries' from where its own end. */
  lemma {:induction false} GroupElementsAssembled(n: Renderable, elementIndex: nat, entriesElement: nat,
                                                  elementsBefore: seq<int>, elementsOwn: seq<int>, elementsAfter: seq<int>)
    requires n.Obj? && n.isGroup
    requires entriesElement == elementIndex + |OwnElements(n)|
    requires elementIndex + |TreeElements(n)| <= |elementsBefore|
    requires elementsOwn == Overwrite(elementsBefore, elementIndex, OwnElements(n))
    requires entriesElement + |ListElements(n.entries)| <= |elementsOwn|
    requires elementsAfter == Overwrite(elementsOwn, entriesElement, ListElements(n.entries))
    ensures elementsAfter == Overwrite(elementsBefore, elementIndex, TreeElements(n))
  {
    GroupElements(n);
    OverwriteParts(elementsBefore, elementIndex, OwnElements(n), ListElements(n.entries),
                   TreeElements(n), elementsOwn, elementsAfter);
  }

  class IndexedVboRenderer {
    /** The `ARenderer` base: the registered objects and their IDs. */
    const registry: Registry<Renderable>
    const device: RenderDevice
    /** The vertex buffer's contents. */
    var vboData: array<Scalar>
    /** The element (index) buffer's contents. */
    var indexVboData: array<int>
    var arrayIndices: seq<ArrayIndices>

    /** Two empty buffers and no recorded ranges. */
    constructor (renderDevice: RenderDevice, willDeleteAll: bool)
      ensures device == renderDevice && fresh(registry)
      ensures registry.Valid() && registry.deleteAll == willDeleteAll && registry.items == []
      ensures vboData.Length == 0 && indexVboData.Length == 0 && arrayIndices == []
    {
      registry := new Registry<Renderable>("Renderable", willDeleteAll);
      device := renderDevice;
      vboData := new Scalar[0];
      indexVboData := new int[0];
      arrayIndices := [];
    }

    /**
     * `ProcessRenderable`: writes the tree's vertex data from `dataIndex` and
     * its triangle indices from `elementIndex`, the object's own first, and
     * appends one element range per visited object, the object's own after
     * its entries'. `triangleNumber` counts the faces written.
     */
    method ProcessRenderable(n: Renderable, dataIndex: nat, elementIndex: nat, triangleNumber: nat)
      returns (nextDataIndex: nat, nextElementIndex: nat, nextTriangleNumber: nat)
      requires n.Obj? && vboData != indexVboData
      requires dataIndex + |TreeValues(Indexed, n)| <= vboData.Length
      requires elementIndex + |TreeElements(n)| <= indexVboData.Length
      modifies vboData, indexVboData, this`arrayIndices
      ensures nextDataIndex == dataIndex + |TreeValues(Indexed, n)|
      ensures nextElementIndex == elementIndex + TreeUnits(Indexed, n)
      ensures nextElementIndex - elementIndex == 3 * (nextTriangleNumber - triangleNumber)
      ensures vboData[..] == Overwrite(old(vboData[..]), dataIndex, TreeValues(Indexed, n))
      ensures indexVboData[..] == Overwrite(old(indexVboData[..]), elementIndex, TreeElements(n))
      ensures arrayIndices == old(arrayIndices) + TreeRanges(Indexed, n, elementIndex)
      decreases n, 1
    {
      ghost var dataBefore := vboData[..];
      ghost var elementsBefore := indexVboData[..];
      var amount, triangles;
      nextDataIndex, nextElementIndex, amount, triangles := WriteOwnIndexed(n, dataIndex, elementIndex);
      nextTriangleNumber := triangleNumber + triangles;
      if n.isGroup {
        nextDataIndex, nextElementIndex, nextTriangleNumber :=
          ProcessGroup(n, dataIndex, elementIndex, amount, dataBefore, elementsBefore,
                       nextDataIndex, nextElementIndex, nextTriangleNumber);
      } else {
        assert OwnValues(Indexed, n) + [] == OwnValues(Indexed, n);
        assert OwnElements(n) + [] == OwnElements(n);
        arrayIndices := arrayIndices + [ArrayIndices(elementIndex, amount)];
      }
    }

    /**
     * The rest of `ProcessRenderable` for a group whose own data is written:
     * its entries' data follows from the cursors `WriteOwnIndexed` left, and
     * its own range is appended after the entries' ranges.
     */
    method ProcessGroup(n: Renderable, dataIndex: nat, elementIndex: nat, amount: nat,
                        ghost dataBefore: seq<Scalar>, ghost elementsBefore: seq<int>,
                        entriesData: nat, entriesElement: nat, triangleNumber: nat)
      returns (nextDataIndex: nat, nextElementIndex: nat, nextTriangleNumber: nat)
      requires n.Obj? && n.isGroup && vboData != indexVboData
      requires amount == OwnUnits(Indexed, n)
      requires entriesData == dataIndex + |OwnValues(Indexed, n)|
      requires entriesElement == elementIndex + |OwnElements(n)|
      requires vboData.Length == |dataBefore| && indexVboData.Length == |elementsBefore|
      requires dataIndex + |TreeValues(Indexed, n)| <= vboData.Length
      requires elementIndex + |TreeElements(n)| <= indexVboData.Length
      requires vboData[..] == Overwrite(dataBefore, dataIndex, OwnValues(Indexed, n))
      requires indexVboData[..] == Overwrite(elementsBefore, elementIndex, OwnElements(n))
      modifies vboData, indexVboData, this`arrayIndices
      ensures nextDataIndex == dataIndex + |TreeValues(Indexed, n)|
      ensures nextElementIndex == entriesElement + ListUnits(Indexed, n.entries)
      ensures nextElementIndex - entriesElement == 3 * (nextTriangleNumber - triangleNumber)
      ensures vboData[..] == Overwrite(dataBefore, dataIndex, TreeValues(Indexed, n))
      ensures indexVboData[..] == Overwrite(elementsBefore, elementIndex, TreeElements(n))
      ensures arrayIndices == old(arrayIndices) + TreeRanges(Indexed, n, elementIndex)
      decreases n, 0
    {
      GroupValues(Indexed, n);
      GroupElements(n);
      ghost var rangesBefore, dataOwn, elementsOwn := arrayIndices, vboData[..], indexVboData[..];
      nextDataIndex, nextElementIndex, nextTriangleNumber :=
        ProcessEntries(n.entries, entriesData, entriesElement, triangleNumber);
      ghost var rangesMid := arrayIndices;
      arrayIndices := arrayIndices + [ArrayIndices(elementIndex, amount)];
      GroupDataAssembled(Indexed, n, dataIndex, entriesData, dataBefore, dataOwn, vboData[..]);
      GroupElementsAssembled(n, elementIndex, entriesElement, elementsBefore, elementsOwn, indexVboData[..]);
      assert entriesElement == elementIndex + amount;
      GroupRangesAssembled(Indexed, n, elementIndex, amount, entriesElement, rangesBefore, rangesMid, arrayIndices);
    }

    /**
     * The group part of `ProcessRenderable`, and the loop of `Update`: every
     * non-null entry in order, each continuing from the cursors the previous
     * one left.
     */
    method ProcessEntries(entries: seq<Renderable>, dataIndex: nat, elementIndex: nat, triangleNumber: nat)
      returns (nextDataIndex: nat, nextElementIndex: nat, nextTriangleNumber: nat)
      requires vboData != indexVboData
      requires dataIndex + |ListValues(Indexed, entries)| <= vboData.Length
      requires elementIndex + |ListElements(entries)| <= indexVboData.Length
      modifies vboData, indexVboData, this`arrayIndices
      ensures nextDataIndex == dataIndex + |ListValues(Indexed, entries)|
      ensures nextElementIndex == elementIndex + ListUnits(Indexed, entries)
      ensures nextElementIndex - elementIndex == 3 * (nextTriangleNumber - triangleNumber)
      ensures vboData[..] == Overwrite(old(vboData[..]), dataIndex, ListValues(Indexed, entries))
      ensures indexVboData[..] == Overwrite(old(indexVboData[..]), elementIndex, ListElements(entries))
      ensures arrayIndices == old(arrayIndices) + ListRanges(Indexed, entries, elementIndex)
      decreases entries, 0, 1
    {
      ghost var dataBefore := vboData[..];
      ghost var elementsBefore := indexVboData[..];
      ghost var rangesBefore := arrayIndices;
      nextDataIndex, nextElementIndex, nextTriangleNumber := dataIndex, elementIndex, triangleNumber;
      ListStart(Indexed, entries, elementIndex);
      OverwriteNothing(dataBefore, dataIndex);
      OverwriteNothing(elementsBefore, elementIndex);
      assert rangesBefore + [] == rangesBefore;
      for i := 0 to |entries|
        invariant vboData.Length == |dataBefore| && indexVboData.Length == |elementsBefore|
        invariant nextDataIndex == dataIndex + |ListValues(Indexed, entries[..i])| <= |dataBefore|
        invariant nextElementIndex == elementIndex + ListUnits(Indexed, entries[..i])
        invariant nextElementIndex - elementIndex == 3 * (nextTriangleNumber - triangleNumber)
        invariant ListUnits(Indexed, entries[..i]) == |ListElements(entries[..i])|
        invariant elementIndex + |ListElements(entries[..i])| <= |elementsBefore|
        invariant vboData[..] == Overwrite(dataBefore, dataIndex, ListValues(Indexed, entries[..i]))
        invariant indexVboData[..] == Overwrite(elementsBefore, elementIndex, ListElements(entries[..i]))
        invariant arrayIndices == rangesBefore + ListRanges(Indexed, entries[..i], elementIndex)
      {
        nextDataIndex, nextElementIndex, nextTriangleNumber :=
          ProcessEntry(entries, i, dataIndex, elementIndex, triangleNumber, dataBefore, elementsBefore, rangesBefore,
                       nextDataIndex, nextElementIndex, nextTriangleNumber);
      }
      assert entries[..|entries|] == entries;
    }

    /** One pass of the entries loop: entry `i` continues from the cursors entries `0..i` left. */
    method ProcessEntry(entries: seq<Renderable>, i: nat, dataIndex: nat, elementIndex: nat, triangleNumber: nat,
                        ghost dataBefore: seq<Scalar>, ghost elementsBefore: seq<int>, ghost rangesBefore: seq<ArrayIndices>,
                        dataAt: nat, elementAt: nat, triangleAt: nat)
      returns (nextDataIndex: nat, nextElementIndex: nat, nextTriangleNumber: nat)
      requires i < |entries| && vboData != indexVboData
      requires dataIndex + |ListValues(Indexed, entries)| <= |dataBefore|
      requires elementIndex + |ListElements(entries)| <= |elementsBefore|
      requires vboData.Length == |dataBefore| && indexVboData.Length == |elementsBefore|
      requires dataAt == dataIndex + |ListValues(Indexed, entries[..i])| <= |dataBefore|
      requires elementAt == elementIndex + ListUnits(Indexed, entries[..i])
      requires elementAt - elementIndex == 3 * (triangleAt - triangleNumber)
      requires ListUnits(Indexed, entries[..i]) == |ListElements(entries[..i])|
      requires elementIndex + |ListElements(entries[..i])| <= |elementsBefore|
      requires vboData[..] == Overwrite(dataBefore, dataIndex, ListValues(Indexed, entries[..i]))
      requires indexVboData[..] == Overwrite(elementsBefore, elementIndex, ListElements(entries[..i]))
      requires arrayIndices == rangesBefore + ListRanges(Indexed, entries[..i], elementIndex)
      modifies vboData, indexVboData, this`arrayIndices
      ensures vboData.Length == |dataBefore| && indexVboData.Length == |elementsBefore|
      ensures nextDataIndex == dataIndex + |ListValues(Indexed, entries[..i + 1])| <= |dataBefore|
      ensures nextElementIndex == elementIndex + ListUnits(Indexed, entries[..i + 1])
      ensures nextElementIndex - elementIndex == 3 * (nextTriangleNumber - triangleNumber)
      ensures ListUnits(Indexed, entries[..i + 1]) == |ListElements(entries[..i + 1])|
      ensures elementIndex + |ListElements(entries[..i + 1])| <= |elementsBefore|
      ensures vboData[..] == Overwrite(dataBefore, dataIndex, ListValues(Indexed, entries[..i + 1]))
      ensures indexVboData[..] == Overwrite(elementsBefore, elementIndex, ListElements(entries[..i + 1]))
      ensures arrayIndices == rangesBefore + ListRanges(Indexed, entries[..i + 1], elementIndex)
      decreases entries, 0, 0
    {
      nextDataIndex, nextElementIndex, nextTriangleNumber := dataAt, elementAt, triangleAt;
      ListStep(Indexed, entries, i, elementIndex, elementAt);
      ListLengthsPrefix(Indexed, entries, i + 1);
      TreeUnitsAreElements(entries[i]);
      if entries[i].Obj? {
        nextDataIndex, nextElementIndex, nextTriangleNumber :=
          ProcessRenderable(entries[i], dataAt, elementAt, triangleAt);
        OverwriteTwice(dataBefore, dataIndex, ListValues(Indexed, entries[..i]), dataAt, TreeValues(Indexed, entries[i]));
        OverwriteTwice(elementsBefore, elementIndex, ListElements(entries[..i]), elementAt, TreeElements(entries[i]));
        AppendAssociates(rangesBefore, ListRanges(Indexed, entries[..i], elementIndex), TreeRanges(Indexed, entries[i], elementAt));
      }
    }

    /**
     * The `IIndexedGeometry` part of `ProcessRenderable`: the object's own
     * vertices, 8 floats each, then its faces' indices, 3 per face, with
     * `amount` growing by 3 and the triangle counter by 1 per face.
     */
    method WriteOwnIndexed(n: Renderable, dataIndex: nat, elementIndex: nat)
      returns (nextDataIndex: nat, nextElementIndex: nat, amount: nat, triangles: nat)
      requires vboData != indexVboData
      requires dataIndex + |OwnValues(Indexed, n)| <= vboData.Length
      requires elementIndex + |OwnElements(n)| <= indexVboData.Length
      modifies vboData, indexVboData
      ensures nextDataIndex == dataIndex + |OwnValues(Indexed, n)|
      ensures nextElementIndex == elementIndex + |OwnElements(n)|
      ensures amount == OwnUnits(Indexed, n) == 3 * triangles
      ensures vboData[..] == Overwrite(old(vboData[..]), dataIndex, OwnValues(Indexed, n))
      ensures indexVboData[..] == Overwrite(old(indexVboData[..]), elementIndex, OwnElements(n))
    {
      if n.Obj? && n.indexed.Some? {
        var vertexData := n.indexed.value.vertices;
        nextDataIndex := WriteVertices(vboData, dataIndex, vertexData);
        var triangleData := n.indexed.value.faces;
        nextElementIndex := WriteFaces(indexVboData, elementIndex, triangleData);
        amount, triangles := 3 * |triangleData|, |triangleData|;
      } else {
        nextDataIndex, nextElementIndex, amount, triangles := dataIndex, elementIndex, 0, 0;
        assert vboData[..] == Overwrite(old(vboData[..]), dataIndex, []);
        assert indexVboData[..] == Overwrite(old(indexVboData[..]), elementIndex, []);
      }
    }

    /**
     * `Update`: sizes the vertex buffer from the top-level objects' reported
     * sizes and the index buffer from the top-level indexed objects' triangle
     * sizes. If either is zero it returns at once, keeping the previous
     * ranges; otherwise both buffers receive every tree's data in order, the
     * ranges are rebuilt, and a failed unmap of the vertex buffer, then of the
     * index buffer, throws.
     */
    method Update(dataUnmapSucceeds: bool, indexUnmapSucceeds: bool) returns (r: Outcome<()>)
      requires forall i :: 0 <= i < |registry.items| ==> registry.items[i].Obj?
      requires ReportedSize(registry.items) >= 0 && TopLevelTriangleBytes(registry.items) >= 0
      requires ReportedSize(registry.items) != 0 && TopLevelTriangleBytes(registry.items) != 0 ==>
                 && |ListValues(Indexed, registry.items)| <= ReportedSize(registry.items) / 4
                 && |ListElements(registry.items)| <= TopLevelTriangleBytes(registry.items) / 4
      modifies this`vboData, this`indexVboData, this`arrayIndices
      ensures fresh(vboData) && vboData.Length == ReportedSize(registry.items) / 4
      ensures fresh(indexVboData) && indexVboData.Length == TopLevelTriangleBytes(registry.items) / 4
      ensures ReportedSize(registry.items) == 0 || TopLevelTriangleBytes(registry.items) == 0 ==>
                r == Return(()) && arrayIndices == old(arrayIndices)
      ensures ReportedSize(registry.items) != 0 && TopLevelTriangleBytes(registry.items) != 0 ==>
                && vboData[..|ListValues(Indexed, registry.items)|] == ListValues(Indexed, registry.items)
                && indexVboData[..|ListElements(registry.items)|] == ListElements(registry.items)
                && arrayIndices == ListRanges(Indexed, registry.items, 0)
                && r == if !dataUnmapSucceeds then Throw(DataCorruptedMessage)
                        else if !indexUnmapSucceeds then Throw(IndicesCorruptedMessage)
                        else Return(())
    {
      var roots := registry.items;
      var dataVboMemorySize := 0;
      var indexVboMemorySize := 0;
      for i := 0 to |roots|
        invariant dataVboMemorySize == ReportedSize(roots[..i])
        invariant indexVboMemorySize == TopLevelTriangleBytes(roots[..i])
      {
        assert roots[..i + 1][..i] == roots[..i];
        dataVboMemorySize := dataVboMemorySize + roots[i].memorySize;
        if roots[i].indexed.Some? {
          indexVboMemorySize := indexVboMemorySize + roots[i].indexed.value.triangleMemorySize;
        }
      }
      assert roots[..|roots|] == roots;
      vboData := new Scalar[dataVboMemorySize / 4];
      indexVboData := new int[indexVboMemorySize / 4];
      if dataVboMemorySize == 0 || indexVboMemorySize == 0 {
        return Return(());
      }
      arrayIndices := [];
      ListUnitsAreElements(roots);
      var dataIndex, elementIndex, triangleNumber := ProcessEntries(roots, 0, 0, 0);
      if !dataUnmapSucceeds {
        return Throw(DataCorruptedMessage);
      }
      if !indexUnmapSucceeds {
        return Throw(IndicesCorruptedMessage);
      }
      r := Return(());
    }

    /**
     * `RenderObject`: pushes the object's matrix, binds its skin when the
     * device's current skin differs, draws its triangles with the element
     * range `arrayIndices[index]` (element offset 0), renders its entries
     * with the same running index, pops, and advances the index by one.
     */
    method RenderObject(n: Renderable, index: nat) returns (next: nat, events: seq<Event>)
      requires n.Obj? && index + TreeCount(n) <= |arrayIndices|
      modifies device`currentSkinID, device`currentTextureID
      ensures var p := RenderTree(Indexed, device.skinManager.State(), arrayIndices, n,
                                  DrawState(index, old(device.CurrentBinding())));
              next == p.state.index && events == p.events && device.CurrentBinding() == p.state.binding
      decreases n, 1
    {
      ghost var t := device.skinManager.State();
      ghost var entered := Enter(t, n, device.CurrentBinding());
      events := EnterObject(device, n);
      var drawn: seq<Event> := [];
      if n.indexed.Some? {
        var indices := arrayIndices[index];
        var highest := AsUnsigned(indices.start + indices.amount - 1);
        drawn := [DrawRangeElements(GL_TRIANGLES, indices.start, highest, indices.amount, 0)];
      }
      assert DrawFor(Indexed, n, arrayIndices[index]) == Some(drawn);
      var inner: seq<Event> := [];
      next := index;
      if n.isGroup {
        next, inner := RenderEntries(n.entries, index);
      }
      var popped: seq<Event> := [];
      if n.matrix.Some? {
        popped := [PopMatrix];
      }
      events := events + drawn + inner + popped;
      next := next + 1;
    }

    /**
     * The group part of `RenderObject`, and the loop of `Render`:
     * `RenderObject` on each non-null entry in order, threading the index.
     */
    method RenderEntries(entries: seq<Renderable>, index: nat) returns (next: nat, events: seq<Event>)
      requires index + ListCount(entries) <= |arrayIndices|
      modifies device`currentSkinID, device`currentTextureID
      ensures var p := RenderList(Indexed, device.skinManager.State(), arrayIndices, entries,
                                  DrawState(index, old(device.CurrentBinding())));
              next == p.state.index && events == p.events && device.CurrentBinding() == p.state.binding
      decreases entries, 0
    {
      ghost var t := device.skinManager.State();
      ghost var s := DrawState(index, device.CurrentBinding());
      next := index;
      events := [];
      for i := 0 to |entries|
        invariant index + ListCount(entries[..i]) <= |arrayIndices|
        invariant var p := RenderList(Indexed, t, arrayIndices, entries[..i], s);
                  next == p.state.index && events == p.events && device.CurrentBinding() == p.state.binding
      {
        ListCountPrefix(entries, i + 1);
        RenderListStep(Indexed, t, arrayIndices, entries, i, s);
        if entries[i].Obj? {
          var evs;
          next, evs := RenderObject(entries[i], next);
          events := events + evs;
        }
      }
      assert entries[..|entries|] == entries;
    }

    /** `Render`: `RenderObject` on each non-null top-level object, the index starting at 0. */
    method Render() returns (events: seq<Event>)
      requires ListCount(registry.items) <= |arrayIndices|
      modifies device`currentSkinID, device`currentTextureID
      ensures var p := RenderList(Indexed, device.skinManager.State(), arrayIndices, registry.items,
                                  DrawState(0, old(device.CurrentBinding())));
              events == p.events && device.CurrentBinding() == p.state.binding
    {
      var index;
      index, events := RenderEntries(registry.items, 0);
    }
  }
}
