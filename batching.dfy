/**
 * The two-pass protocol shared by the three batching renderers.
 *
 * `Update` walks every registered object tree depth-first: an object's own
 * vertex data goes into the mapped buffer before its children's, and one
 * `ArrayIndices{start, amount}` range is appended per visited object AFTER
 * its children (post-order). `Render` walks the same trees again with a
 * running `index` into those ranges: it reads `arrayIndices[index]` when it
 * enters an object and advances `index` once the object's children are done.
 *
 * The functions below state what each pass produces, for the three variants
 * the renderers implement; the renderer classes are proved against them.
 */
module Batching {
  import opened Base
  import opened RenderInterfaces
  import opened SkinManager
  import opened RenderDevice

  /**
   * `VBORenderer` draws `IGeometry`, `IndexedVBORenderer` draws
   * `IIndexedGeometry`, `SpriteRenderer` draws `ISprite`.
   */
  datatype Variant = Lit | Indexed | Sprites

  /** `general::ArrayIndices`: where an object's data starts and how much of it there is. */
  datatype ArrayIndices = ArrayIndices(start: nat, amount: nat)

  // ---------------------------------------------------------------------
  // What one object contributes

  /** A vertex as the 8 floats the lit renderers write: position x,y,z, texcoord x,y, normal x,y,z. */
  function VertexValues(v: Vertex): (r: seq<Scalar>)
    ensures |r| == 8
  {
    [v.position.x, v.position.y, v.position.z, v.texCoord.x, v.texCoord.y, v.normal.x, v.normal.y, v.normal.z]
  }

  /** A sprite vertex as the 4 floats the sprite renderer writes: position x,y, texcoord x,y. */
  function SpriteValues(v: SpriteVertex): (r: seq<Scalar>)
    ensures |r| == 4
  {
    [v.position.x, v.position.y, v.texCoord.x, v.texCoord.y]
  }

  function FlattenVertices(vs: seq<Vertex>): (r: seq<Scalar>)
    ensures |r| == 8 * |vs|
  {
    if |vs| == 0 then [] else FlattenVertices(vs[..|vs| - 1]) + VertexValues(vs[|vs| - 1])
  }

  function FlattenSprites(vs: seq<SpriteVertex>): (r: seq<Scalar>)
    ensures |r| == 4 * |vs|
  {
    if |vs| == 0 then [] else FlattenSprites(vs[..|vs| - 1]) + SpriteValues(vs[|vs| - 1])
  }

  /** An `int` index stored into the `unsigned int` element buffer. */
  function AsUnsigned(x: int): (r: nat)
    ensures r < TwoTo32
    ensures 0 <= x < TwoTo32 ==> r == x
  {
    x % TwoTo32
  }

  /** Triangle faces as the element buffer receives them: v1, v2, v3 per face, copied without any offset. */
  function FaceElements(fs: seq<Triangle>): (r: seq<int>)
    ensures |r| == 3 * |fs|
  {
    if |fs| == 0 then []
    else
      var f := fs[|fs| - 1];
      FaceElements(fs[..|fs| - 1]) + [f.v1, f.v2, f.v3]
  }

  /**
   * The element buffer holds every face's indices verbatim: the `k`th face
   * occupies positions 3k to 3k+2, unchanged by the vertices written
   * before it.
   */
  lemma {:induction false} FaceElementsVerbatim(fs: seq<Triangle>, k: nat)
    requires k < |fs|
    ensures FaceElements(fs)[3 * k] == fs[k].v1
    ensures FaceElements(fs)[3 * k + 1] == fs[k].v2
    ensures FaceElements(fs)[3 * k + 2] == fs[k].v3
  {
    var front := fs[..|fs| - 1];
    if k < |fs| - 1 {
      FaceElementsVerbatim(front, k);
    }
  }

  /** Bytes per vertex in the variant's vertex buffer: `sizeof(Vertex)` or `sizeof(SpriteVertex)`. */
  function VertexBytes(v: Variant): nat
  {
    if v == Sprites then SpriteVertexSize else VertexSize
  }

  /** The vertices of `n` itself that the variant writes. */
  function OwnVertexCount(v: Variant, n: Renderable): nat
  {
    if n.Null? then 0
    else match v
      case Lit => if n.geometry.Some? then |n.geometry.value.vertices| else 0
      case Indexed => if n.indexed.Some? then |n.indexed.value.vertices| else 0
      case Sprites => if n.sprite.Some? then |n.sprite.value| else 0
  }

  /** The floats `ProcessRenderable` writes for `n` itself. */
  function OwnValues(v: Variant, n: Renderable): (r: seq<Scalar>)
    ensures v == Sprites ==> |r| == 4 * OwnVertexCount(v, n)
    ensures v != Sprites ==> |r| == 8 * OwnVertexCount(v, n)
  {
    if n.Null? then []
    else match v
      case Lit => if n.geometry.Some? then FlattenVertices(n.geometry.value.vertices) else []
      case Indexed => if n.indexed.Some? then FlattenVertices(n.indexed.value.vertices) else []
      case Sprites => if n.sprite.Some? then FlattenSprites(n.sprite.value) else []
  }

  /** The element-buffer entries the indexed renderer writes for `n` itself. */
  function OwnElements(n: Renderable): seq<int>
  {
    if n.Obj? && n.indexed.Some? then FaceElements(n.indexed.value.faces) else []
  }

  /**
   * The `amount` recorded for `n` itself: its own vertices for the array
   * renderers, 3 per own triangle for the indexed renderer.
   */
  function OwnUnits(v: Variant, n: Renderable): nat
  {
    if v == Indexed then |OwnElements(n)| else OwnVertexCount(v, n)
  }

  // ---------------------------------------------------------------------
  // What a whole tree contributes, in visiting order

  /** The objects `Update` visits in a tree: every non-null one. */
  function TreeCount(n: Renderable): nat
    decreases n, 1
  {
    if n.Null? then 0 else 1 + (if n.isGroup then ListCount(n.entries) else 0)
  }

  function ListCount(cs: seq<Renderable>): nat
    decreases cs, 0
  {
    if |cs| == 0 then 0 else ListCount(cs[..|cs| - 1]) + TreeCount(cs[|cs| - 1])
  }

  /** All vertices the variant writes for a tree. */
  function TreeVertexCount(v: Variant, n: Renderable): nat
    decreases n, 1
  {
    OwnVertexCount(v, n) + (if n.Obj? && n.isGroup then ListVertexCount(v, n.entries) else 0)
  }

  function ListVertexCount(v: Variant, cs: seq<Renderable>): nat
    decreases cs, 0
  {
    if |cs| == 0 then 0 else ListVertexCount(v, cs[..|cs| - 1]) + TreeVertexCount(v, cs[|cs| - 1])
  }

  /** The vertex-buffer contents a tree produces: an object's own data, then its entries' in order. */
  function TreeValues(v: Variant, n: Renderable): (r: seq<Scalar>)
    ensures v == Sprites ==> |r| == 4 * TreeVertexCount(v, n)
    ensures v != Sprites ==> |r| == 8 * TreeVertexCount(v, n)
    decreases n, 1
  {
    OwnValues(v, n) + (if n.Obj? && n.isGroup then ListValues(v, n.entries) else [])
  }

  function ListValues(v: Variant, cs: seq<Renderable>): (r: seq<Scalar>)
    ensures v == Sprites ==> |r| == 4 * ListVertexCount(v, cs)
    ensures v != Sprites ==> |r| == 8 * ListVertexCount(v, cs)
    decreases cs, 0
  {
    if |cs| == 0 then [] else ListValues(v, cs[..|cs| - 1]) + TreeValues(v, cs[|cs| - 1])
  }

  /** The element-buffer contents a tree produces for the indexed renderer. */
  function TreeElements(n: Renderable): seq<int>
    decreases n, 1
  {
    OwnElements(n) + (if n.Obj? && n.isGroup then ListElements(n.entries) else [])
  }

  function ListElements(cs: seq<Renderable>): seq<int>
    decreases cs, 0
  {
    if |cs| == 0 then [] else ListElements(cs[..|cs| - 1]) + TreeElements(cs[|cs| - 1])
  }

  /** How far the range cursor (`vertexNumber` or `elementVBOIndex`) moves over a tree. */
  function TreeUnits(v: Variant, n: Renderable): nat
    decreases n, 1
  {
    OwnUnits(v, n) + (if n.Obj? && n.isGroup then ListUnits(v, n.entries) else 0)
  }

  function ListUnits(v: Variant, cs: seq<Renderable>): nat
    decreases cs, 0
  {
    if |cs| == 0 then 0 else ListUnits(v, cs[..|cs| - 1]) + TreeUnits(v, cs[|cs| - 1])
  }

  /**
   * The ranges `Update` appends for a tree whose walk starts with the range
   * cursor at `start`: the entries' ranges, then the object's own, which
   * starts at the cursor on entry and spans only its own data.
   */
  function TreeRanges(v: Variant, n: Renderable, start: nat): seq<ArrayIndices>
    decreases n, 1
  {
    if n.Null? then []
    else
      (if n.isGroup then ListRanges(v, n.entries, start + OwnUnits(v, n)) else [])
      + [ArrayIndices(start, OwnUnits(v, n))]
  }

  function ListRanges(v: Variant, cs: seq<Renderable>, start: nat): seq<ArrayIndices>
    decreases cs, 0
  {
    if |cs| == 0 then []
    else ListRanges(v, cs[..|cs| - 1], start) + TreeRanges(v, cs[|cs| - 1], start + ListUnits(v, cs[..|cs| - 1]))
  }

  // ---------------------------------------------------------------------
  // Facts about the Update pass

  /** One range per visited object, not one per top-level object. */
  lemma {:induction false} TreeRangesCount(v: Variant, n: Renderable, start: nat)
    ensures |TreeRanges(v, n, start)| == TreeCount(n)
    decreases n, 1
  {
    if n.Obj? && n.isGroup {
      ListRangesCount(v, n.entries, start + OwnUnits(v, n));
    }
  }

  lemma {:induction false} ListRangesCount(v: Variant, cs: seq<Renderable>, start: nat)
    ensures |ListRanges(v, cs, start)| == ListCount(cs)
    decreases cs, 0
  {
    if |cs| > 0 {
      ListRangesCount(v, cs[..|cs| - 1], start);
      TreeRangesCount(v, cs[|cs| - 1], start + ListUnits(v, cs[..|cs| - 1]));
    }
  }

  /**
   * The ranges tile the cursor interval of the walk: each lies inside
   * [start, start + units), and the last one recorded, the tree root's,
   * starts where the walk started.
   */
  lemma {:induction false} TreeRangesWithin(v: Variant, n: Renderable, start: nat)
    ensures forall r :: r in TreeRanges(v, n, start) ==> start <= r.start && r.start + r.amount <= start + TreeUnits(v, n)
    ensures n.Obj? ==> TreeRanges(v, n, start)[|TreeRanges(v, n, start)| - 1] == ArrayIndices(start, OwnUnits(v, n))
    decreases n, 1
  {
    if n.Obj? && n.isGroup {
      ListRangesWithin(v, n.entries, start + OwnUnits(v, n));
    }
  }

  lemma {:induction false} ListRangesWithin(v: Variant, cs: seq<Renderable>, start: nat)
    ensures forall r :: r in ListRanges(v, cs, start) ==> start <= r.start && r.start + r.amount <= start + ListUnits(v, cs)
    decreases cs, 0
  {
    if |cs| > 0 {
      ListRangesWithin(v, cs[..|cs| - 1], start);
      TreeRangesWithin(v, cs[|cs| - 1], start + ListUnits(v, cs[..|cs| - 1]));
    }
  }

  /** For the array renderers the range cursor counts exactly the vertices written. */
  lemma {:induction false} TreeUnitsAreVertices(v: Variant, n: Renderable)
    requires v != Indexed
    ensures TreeUnits(v, n) == TreeVertexCount(v, n)
    decreases n, 1
  {
    if n.Obj? && n.isGroup {
      ListUnitsAreVertices(v, n.entries);
    }
  }

  lemma {:induction false} ListUnitsAreVertices(v: Variant, cs: seq<Renderable>)
    requires v != Indexed
    ensures ListUnits(v, cs) == ListVertexCount(v, cs)
    decreases cs, 0
  {
    if |cs| > 0 {
      ListUnitsAreVertices(v, cs[..|cs| - 1]);
      TreeUnitsAreVertices(v, cs[|cs| - 1]);
    }
  }

  /** For the indexed renderer the element cursor counts exactly the elements written. */
  lemma {:induction false} TreeUnitsAreElements(n: Renderable)
    ensures TreeUnits(Indexed, n) == |TreeElements(n)|
    decreases n, 1
  {
    if n.Obj? && n.isGroup {
      ListUnitsAreElements(n.entries);
    }
  }

  lemma {:induction false} ListUnitsAreElements(cs: seq<Renderable>)
    ensures ListUnits(Indexed, cs) == |ListElements(cs)|
    decreases cs, 0
  {
    if |cs| > 0 {
      ListUnitsAreElements(cs[..|cs| - 1]);
      TreeUnitsAreElements(cs[|cs| - 1]);
    }
  }

  /** The walk over a prefix of entries writes a prefix of what the whole walk writes. */
  lemma {:induction false} ListValuesPrefix(v: Variant, cs: seq<Renderable>, i: nat)
    requires i <= |cs|
    ensures ListValues(v, cs[..i]) <= ListValues(v, cs)
    ensures ListElements(cs[..i]) <= ListElements(cs)
    decreases |cs|
  {
    if i < |cs| {
      assert cs[..|cs| - 1][..i] == cs[..i];
      ListValuesPrefix(v, cs[..|cs| - 1], i);
    } else {
      assert cs[..i] == cs;
    }
  }

  /** What the walk over a prefix of entries writes fits in what the whole walk writes. */
  lemma {:induction false} ListLengthsPrefix(v: Variant, cs: seq<Renderable>, i: nat)
    requires i <= |cs|
    ensures |ListValues(v, cs[..i])| <= |ListValues(v, cs)|
    ensures |ListElements(cs[..i])| <= |ListElements(cs)|
  {
    ListValuesPrefix(v, cs, i);
  }

  /** The empty prefix of the entries contributes nothing. */
  lemma {:induction false} ListStart(v: Variant, cs: seq<Renderable>, start: nat)
    ensures ListValues(v, cs[..0]) == [] && ListElements(cs[..0]) == []
    ensures ListUnits(v, cs[..0]) == 0 && ListCount(cs[..0]) == 0 && ListRanges(v, cs[..0], start) == []
  {
    assert cs[..0] == [];
  }

  /** A group's vertex data: its own, then its entries'. */
  lemma {:induction false} GroupValues(v: Variant, n: Renderable)
    requires n.Obj? && n.isGroup
    ensures TreeValues(v, n) == OwnValues(v, n) + ListValues(v, n.entries)
  {
  }

  /** A group's element data: its own, then its entries'. */
  lemma {:induction false} GroupElements(n: Renderable)
    requires n.Obj? && n.isGroup
    ensures TreeElements(n) == OwnElements(n) + ListElements(n.entries)
  {
  }

  /** How far a group moves the range cursor: over its own part, then its entries'. */
  lemma {:induction false} GroupUnits(v: Variant, n: Renderable)
    requires n.Obj? && n.isGroup
    ensures TreeUnits(v, n) == OwnUnits(v, n) + ListUnits(v, n.entries)
  {
  }

  /** A group's ranges: its entries', then its own. */
  lemma {:induction false} GroupRanges(v: Variant, n: Renderable, start: nat)
    requires n.Obj? && n.isGroup
    ensures TreeRanges(v, n, start) == ListRanges(v, n.entries, start + OwnUnits(v, n)) + [ArrayIndices(start, OwnUnits(v, n))]
  {
  }

  /**
   * Extending a prefix of the entries by one entry extends each walk by that
   * entry's tree, whose ranges start where the prefix's cursor stopped, at
   * `at`; a null entry extends nothing.
   */
  lemma {:induction false} ListStep(v: Variant, cs: seq<Renderable>, i: nat, start: nat, at: nat)
    requires i < |cs| && at == start + ListUnits(v, cs[..i])
    ensures ListValues(v, cs[..i + 1]) == ListValues(v, cs[..i]) + TreeValues(v, cs[i])
    ensures ListUnits(v, cs[..i + 1]) == ListUnits(v, cs[..i]) + TreeUnits(v, cs[i])
    ensures ListRanges(v, cs[..i + 1], start) == ListRanges(v, cs[..i], start) + TreeRanges(v, cs[i], at)
    ensures ListElements(cs[..i + 1]) == ListElements(cs[..i]) + TreeElements(cs[i])
    ensures ListCount(cs[..i + 1]) == ListCount(cs[..i]) + TreeCount(cs[i])
    ensures cs[i].Null? ==>
              && ListValues(v, cs[..i + 1]) == ListValues(v, cs[..i])
              && ListUnits(v, cs[..i + 1]) == ListUnits(v, cs[..i])
              && ListRanges(v, cs[..i + 1], start) == ListRanges(v, cs[..i], start)
              && ListElements(cs[..i + 1]) == ListElements(cs[..i])
  {
    ListStepValues(v, cs, i);
    ListStepCounts(v, cs, i);
    ListStepRanges(v, cs, i, start, at);
  }

  lemma {:induction false} ListStepValues(v: Variant, cs: seq<Renderable>, i: nat)
    requires i < |cs|
    ensures ListValues(v, cs[..i + 1]) == ListValues(v, cs[..i]) + TreeValues(v, cs[i])
    ensures ListElements(cs[..i + 1]) == ListElements(cs[..i]) + TreeElements(cs[i])
    ensures cs[i].Null? ==> ListValues(v, cs[..i + 1]) == ListValues(v, cs[..i])
    ensures cs[i].Null? ==> ListElements(cs[..i + 1]) == ListElements(cs[..i])
  {
    assert cs[..i + 1][..i] == cs[..i];
    if cs[i].Null? {
      assert TreeValues(v, cs[i]) == [] && TreeElements(cs[i]) == [];
      assert ListValues(v, cs[..i]) + [] == ListValues(v, cs[..i]);
      assert ListElements(cs[..i]) + [] == ListElements(cs[..i]);
    }
  }

  lemma {:induction false} ListStepCounts(v: Variant, cs: seq<Renderable>, i: nat)
    requires i < |cs|
    ensures ListUnits(v, cs[..i + 1]) == ListUnits(v, cs[..i]) + TreeUnits(v, cs[i])
    ensures ListCount(cs[..i + 1]) == ListCount(cs[..i]) + TreeCount(cs[i])
  {
    assert cs[..i + 1][..i] == cs[..i];
  }

  lemma {:induction false} ListStepRanges(v: Variant, cs: seq<Renderable>, i: nat, start: nat, at: nat)
    requires i < |cs| && at == start + ListUnits(v, cs[..i])
    ensures ListRanges(v, cs[..i + 1], start) == ListRanges(v, cs[..i], start) + TreeRanges(v, cs[i], at)
    ensures cs[i].Null? ==> ListRanges(v, cs[..i + 1], start) == ListRanges(v, cs[..i], start)
  {
    var pre := cs[..i + 1];
    assert pre[..|pre| - 1] == cs[..i] && pre[|pre| - 1] == cs[i];
    ListRangesSnoc(v, pre, start, cs[..i], cs[i], at);
    if cs[i].Null? {
      assert ListRanges(v, cs[..i], start) + [] == ListRanges(v, cs[..i], start);
    }
  }

  /** Visiting a prefix of the entries visits no more objects than visiting them all. */
  lemma {:induction false} ListCountPrefix(cs: seq<Renderable>, i: nat)
    requires i <= |cs|
    ensures ListCount(cs[..i]) <= ListCount(cs)
    decreases |cs|
  {
    if i < |cs| {
      assert cs[..|cs| - 1][..i] == cs[..i];
      ListCountPrefix(cs[..|cs| - 1], i);
    } else {
      assert cs[..i] == cs;
    }
  }

  /** The sprite capability does not change what the lit renderers write or record. */
  lemma {:induction false} LitIgnoresSprites(v: Variant, n: Renderable)
    requires v != Sprites && n.Obj?
    ensures TreeValues(v, n) == TreeValues(v, n.(sprite := None))
    ensures TreeRanges(v, n, 0) == TreeRanges(v, n.(sprite := None), 0)
    ensures TreeElements(n) == TreeElements(n.(sprite := None))
  {
  }

  /**
   * Update's buffer holds reported-bytes / 4 floats. The data written fits
   * in it exactly when the reported bytes cover 4 bytes per float written:
   * 32 bytes per vertex for the lit renderers, 16 for the sprite renderer.
   */
  lemma {:induction false} FitsIffReportedCovers(v: Variant, cs: seq<Renderable>, reported: int)
    requires reported >= 0
    ensures |ListValues(v, cs)| <= reported / 4 <==> VertexBytes(v) * ListVertexCount(v, cs) <= reported
  {
    assert reported == 4 * (reported / 4) + reported % 4;
  }

  /** The bytes a variant's vertex data occupies, tree by tree. */
  lemma {:induction false} VariantBytesWithinTree(v: Variant, n: Renderable)
    ensures 4 * |TreeValues(v, n)| <= TreeVertexBytes(n)
    decreases n, 1
  {
    assert 4 * |OwnValues(v, n)| <= OwnVertexBytes(n);
    if n.Obj? && n.isGroup {
      VariantBytesWithinList(v, n.entries);
    }
  }

  lemma {:induction false} VariantBytesWithinList(v: Variant, cs: seq<Renderable>)
    ensures 4 * |ListValues(v, cs)| <= ListVertexBytes(cs)
    decreases cs, 0
  {
    if |cs| > 0 {
      VariantBytesWithinList(v, cs[..|cs| - 1]);
      VariantBytesWithinTree(v, cs[|cs| - 1]);
    }
  }

  /**
   * When the top-level objects conform to the capability contracts, the
   * summed reported size covers all the vertex data Update writes.
   */
  lemma {:induction false} ConformingRootsFit(v: Variant, roots: seq<Renderable>)
    requires ListConforms(roots)
    ensures 4 * |ListValues(v, roots)| <= ReportedSize(roots)
  {
    ConformingListSize(roots);
    VariantBytesWithinList(v, roots);
  }

  // ---------------------------------------------------------------------
  // The Render pass

  /** OpenGL's primitive-mode constants. */
  const GL_POINTS: int := 0x0000
  const GL_LINE_LOOP: int := 0x0002
  const GL_LINE_STRIP: int := 0x0003
  const GL_TRIANGLES: int := 0x0004
  const GL_TRIANGLE_STRIP: int := 0x0005
  const GL_TRIANGLE_FAN: int := 0x0006
  const GL_QUADS: int := 0x0007
  const GL_QUAD_STRIP: int := 0x0008
  const GL_POLYGON: int := 0x0009
  /** The polygon-mode constants `GL_POINT` and `GL_LINE`. */
  const GL_POINT: int := 0x1B00
  const GL_LINE: int := 0x1B01

  /**
   * The OpenGL enumerator `VBORenderer` passes for each `PRIMITIVETYPE_*`
   * value (0 to 9); any other value throws.
   */
  function GlPrimitive(primitiveType: int): (r: Option<int>)
    ensures r.Some? <==> 0 <= primitiveType <= 9
  {
    match primitiveType
    case 0 => Some(GL_POINT)
    case 1 => Some(GL_LINE)
    case 2 => Some(GL_LINE_STRIP)
    case 3 => Some(GL_LINE_LOOP)
    case 4 => Some(GL_TRIANGLES)
    case 5 => Some(GL_TRIANGLE_STRIP)
    case 6 => Some(GL_TRIANGLE_FAN)
    case 7 => Some(GL_QUADS)
    case 8 => Some(GL_QUAD_STRIP)
    case 9 => Some(GL_POLYGON)
    case _ => None
  }

  /** What `Render` asks of OpenGL and of the render device, in order. */
  datatype Event =
    | PushMatrix(values: MatrixArray)
    | PopMatrix
    | BindSkin(skinID: string)
    | DrawArrays(mode: int, first: nat, count: nat)
    | DrawRangeElements(mode: int, lowest: nat, highest: nat, count: nat, offset: nat)

  /** The walk's running `index` and the device's binding. */
  datatype DrawState = DrawState(index: nat, binding: Binding)

  /** A binding and the events that led to it. */
  datatype Drawn = Drawn(binding: Binding, events: seq<Event>)

  /** The walk's state afterwards and the events it issued. */
  datatype Pass = Pass(state: DrawState, events: seq<Event>)

  /** Whether the object carries the variant's drawable capability. */
  predicate Drawable(v: Variant, n: Renderable)
  {
    n.Obj? && match v
      case Lit => n.geometry.Some?
      case Indexed => n.indexed.Some?
      case Sprites => n.sprite.Some?
  }

  /**
   * The draw an object issues with range `r`: none when it has nothing to
   * draw, `None` when its primitive type throws.
   */
  function DrawFor(v: Variant, n: Renderable, r: ArrayIndices): (d: Option<seq<Event>>)
    ensures d.None? ==> v == Lit && Drawable(v, n)
  {
    if !Drawable(v, n) then Some([])
    else match v
      case Lit =>
        var mode := GlPrimitive(n.geometry.value.primitiveType);
        if mode.None? then None else Some([DrawArrays(mode.value, r.start, r.amount)])
      case Indexed =>
        Some([DrawRangeElements(GL_TRIANGLES, r.start, AsUnsigned(r.start + r.amount - 1), r.amount, 0)])
      case Sprites =>
        Some([DrawArrays(GL_QUADS, r.start, r.amount)])
  }

  /** The matrix push and skin bind `RenderObject` performs on entering an object. */
  function Enter(t: Tables, n: Renderable, b: Binding): Drawn
    requires n.Obj?
  {
    var pushed := if n.matrix.Some? then [PushMatrix(n.matrix.value)] else [];
    if n.skinID.Some? && b.skin != n.skinID.value then
      Drawn(ActivateSkin(t, b, n.skinID.value), pushed + [BindSkin(n.skinID.value)])
    else Drawn(b, pushed)
  }

  /** The entry part each renderer's `RenderObject` shares: push the matrix, then bind the skin if it differs. */
  method EnterObject(device: RenderDevice, n: Renderable) returns (events: seq<Event>)
    requires n.Obj?
    modifies device`currentSkinID, device`currentTextureID
    ensures Drawn(device.CurrentBinding(), events) == Enter(device.skinManager.State(), n, old(device.CurrentBinding()))
  {
    events := [];
    if n.matrix.Some? {
      events := events + [PushMatrix(n.matrix.value)];
    }
    if n.skinID.Some? {
      if device.currentSkinID != n.skinID.value {
        device.SetActiveSkin(n.skinID.value);
        events := events + [BindSkin(n.skinID.value)];
      }
    }
  }

  /**
   * `RenderObject` as written: on entry it draws with `ranges[index]`, then
   * renders its entries with the same running index, pops its matrix and
   * advances `index` by one. A primitive type that throws skips the
   * entries and the pop, and still advances `index` by one.
   */
  function RenderTree(v: Variant, t: Tables, ranges: seq<ArrayIndices>, n: Renderable, s: DrawState): (p: Pass)
    requires n.Obj? && s.index + TreeCount(n) <= |ranges|
    ensures s.index + 1 <= p.state.index <= s.index + TreeCount(n)
    decreases n, 1
  {
    var e := Enter(t, n, s.binding);
    var draw := DrawFor(v, n, ranges[s.index]);
    if draw.None? then Pass(DrawState(s.index + 1, e.binding), e.events)
    else
      var inner := if n.isGroup then RenderList(v, t, ranges, n.entries, DrawState(s.index, e.binding))
                   else Pass(DrawState(s.index, e.binding), []);
      Pass(DrawState(inner.state.index + 1, inner.state.binding),
           e.events + draw.value + inner.events + (if n.matrix.Some? then [PopMatrix] else []))
  }

  /** `RenderObject` applied to each non-null entry in order. */
  function RenderList(v: Variant, t: Tables, ranges: seq<ArrayIndices>, cs: seq<Renderable>, s: DrawState): (p: Pass)
    requires s.index + ListCount(cs) <= |ranges|
    ensures s.index <= p.state.index <= s.index + ListCount(cs)
    decreases cs, 0
  {
    if |cs| == 0 then Pass(s, [])
    else
      var front := RenderList(v, t, ranges, cs[..|cs| - 1], s);
      var last := cs[|cs| - 1];
      if last.Null? then front
      else
        var p := RenderTree(v, t, ranges, last, front.state);
        Pass(p.state, front.events + p.events)
  }

  /**
   * The intended drawing of a tree whose walk starts with the range cursor at
   * `start`: each object draws with the range `Update` recorded for it,
   * ArrayIndices(cursor on entry, own amount), and otherwise behaves as
   * `RenderObject` does.
   */
  function IntendedTree(v: Variant, t: Tables, n: Renderable, start: nat, b: Binding): Drawn
    requires n.Obj?
    decreases n, 1
  {
    var e := Enter(t, n, b);
    var draw := DrawFor(v, n, ArrayIndices(start, OwnUnits(v, n)));
    if draw.None? then e
    else
      var inner := if n.isGroup then IntendedList(v, t, n.entries, start + OwnUnits(v, n), e.binding)
                   else Drawn(e.binding, []);
      Drawn(inner.binding, e.events + draw.value + inner.events + (if n.matrix.Some? then [PopMatrix] else []))
  }

  function IntendedList(v: Variant, t: Tables, cs: seq<Renderable>, start: nat, b: Binding): Drawn
    decreases cs, 0
  {
    if |cs| == 0 then Drawn(b, [])
    else
      var front := IntendedList(v, t, cs[..|cs| - 1], start, b);
      var last := cs[|cs| - 1];
      if last.Null? then front
      else
        var d := IntendedTree(v, t, last, start + ListUnits(v, cs[..|cs| - 1]), front.binding);
        Drawn(d.binding, front.events + d.events)
  }

  /**
   * Entering an object binds a skin only when it carries one whose ID
   * differs from the device's current skin ID, and then binds exactly that
   * skin; the binding is otherwise left alone.
   */
  lemma {:induction false} EnterBindsOnlyOnMismatch(t: Tables, n: Renderable, b: Binding, id: string)
    requires n.Obj?
    ensures BindSkin(id) in Enter(t, n, b).events <==> n.skinID == Some(id) && b.skin != id
    ensures (n.skinID.None? || n.skinID.value == b.skin) ==> Enter(t, n, b).binding == b
  {
    var pushed := if n.matrix.Some? then [PushMatrix(n.matrix.value)] else [];
    assert BindSkin(id) !in pushed;
  }

  /**
   * A primitive type the switch does not know throws at that object: its
   * entries are skipped, a pushed matrix is not popped, and the running
   * index still advances by exactly one, whatever the size of its subtree.
   */
  lemma {:induction false} ThrowAdvancesByOne(t: Tables, ranges: seq<ArrayIndices>, n: Renderable, s: DrawState)
    requires n.Obj? && n.geometry.Some? && !(0 <= n.geometry.value.primitiveType <= 9)
    requires s.index + TreeCount(n) <= |ranges|
    ensures RenderTree(Lit, t, ranges, n, s).state.index == s.index + 1
    ensures RenderTree(Lit, t, ranges, n, s).events == Enter(t, n, s.binding).events
    ensures PopMatrix !in RenderTree(Lit, t, ranges, n, s).events
  {
    var e := Enter(t, n, s.binding);
    assert forall x | x in e.events :: x.PushMatrix? || x.BindSkin?;
  }

  /**
   * A geometry object with a geometry entry breaks the alignment: with the
   * ranges its own Update recorded, [entry's, own], the object draws with
   * its entry's range, the entry draws with that same range again, and the
   * object's own vertex is never drawn.
   */
  lemma {:induction false} GeometryGroupDrawsEntryRangeTwice(t: Tables, b: Binding, vertex: Vertex)
    ensures var leaf := Obj(VertexSize, Some(Geometry([vertex], 4)), None, None, None, None, false, []);
            var group := Obj(2 * VertexSize, Some(Geometry([vertex], 4)), None, None, None, None, true, [leaf]);
            var ranges := TreeRanges(Lit, group, 0);
            && TreeCount(group) == 2
            && ranges == [ArrayIndices(1, 1), ArrayIndices(0, 1)]
            && RenderTree(Lit, t, ranges, group, DrawState(0, b)).events
               == [DrawArrays(GL_TRIANGLES, 1, 1), DrawArrays(GL_TRIANGLES, 1, 1)]
            && IntendedTree(Lit, t, group, 0, b).events
               == [DrawArrays(GL_TRIANGLES, 0, 1), DrawArrays(GL_TRIANGLES, 1, 1)]
  {
    var leaf := Obj(VertexSize, Some(Geometry([vertex], 4)), None, None, None, None, false, []);
    var group := Obj(2 * VertexSize, Some(Geometry([vertex], 4)), None, None, None, None, true, [leaf]);
    assert [leaf][..0] == [];
    assert ListCount([leaf]) == 1;
    assert ListRanges(Lit, [leaf], 1) == [ArrayIndices(1, 1)];
    var ranges := TreeRanges(Lit, group, 0);
    assert RenderList(Lit, t, ranges, [leaf], DrawState(0, b)).events == [DrawArrays(GL_TRIANGLES, 1, 1)];
    assert IntendedList(Lit, t, [leaf], 1, b).events == [DrawArrays(GL_TRIANGLES, 1, 1)];
  }

  /** Every object with the variant's drawable capability has no non-null entries. */
  predicate DrawsOnlyAtLeaves(v: Variant, n: Renderable)
    decreases n, 1
  {
    n.Obj? ==>
      && (Drawable(v, n) && n.isGroup ==> ListCount(n.entries) == 0)
      && (n.isGroup ==> ListDrawsOnlyAtLeaves(v, n.entries))
  }

  predicate ListDrawsOnlyAtLeaves(v: Variant, cs: seq<Renderable>)
    decreases cs, 0
  {
    |cs| > 0 ==> ListDrawsOnlyAtLeaves(v, cs[..|cs| - 1]) && DrawsOnlyAtLeaves(v, cs[|cs| - 1])
  }

  /**
   * With the ranges of an Update of the same trees, `Render` draws every
   * object with its own recorded range and consumes exactly one index per
   * object, provided drawable objects have no entries. Leaves and groups
   * without the drawable capability therefore line up with the post-order
   * ranges.
   */
  lemma {:induction false} RenderMatchesIntendedAtLeaves(v: Variant, t: Tables, ranges: seq<ArrayIndices>,
                                                         n: Renderable, s: DrawState, start: nat)
    requires n.Obj? && DrawsOnlyAtLeaves(v, n)
    requires s.index + TreeCount(n) <= |ranges|
    requires ranges[s.index..s.index + TreeCount(n)] == TreeRanges(v, n, start)
    ensures RenderTree(v, t, ranges, n, s).state.index == s.index + TreeCount(n)
    ensures RenderTree(v, t, ranges, n, s).state.binding == IntendedTree(v, t, n, start, s.binding).binding
    ensures RenderTree(v, t, ranges, n, s).events == IntendedTree(v, t, n, start, s.binding).events
    decreases n, 1, 0
  {
    AlignedHead(v, ranges, n, s.index, start);
    if DrawFor(v, n, ranges[s.index]).Some? && n.isGroup {
      var inner := DrawState(s.index, Enter(t, n, s.binding).binding);
      RenderListMatchesIntended(v, t, ranges, n.entries, inner, start + OwnUnits(v, n));
      GroupMatches(v, t, ranges, n, s, start);
    } else {
      LeafMatches(v, t, ranges, n, s, start);
    }
  }

  /** An object that draws nothing further: its entries are skipped or it has none. */
  lemma {:induction false} LeafMatches(v: Variant, t: Tables, ranges: seq<ArrayIndices>, n: Renderable, s: DrawState, start: nat)
    requires n.Obj? && DrawsOnlyAtLeaves(v, n) && s.index + TreeCount(n) <= |ranges|
    requires DrawFor(v, n, ranges[s.index]) == DrawFor(v, n, ArrayIndices(start, OwnUnits(v, n)))
    requires DrawFor(v, n, ranges[s.index]).None? || !n.isGroup
    ensures RenderTree(v, t, ranges, n, s).state.index == s.index + TreeCount(n)
    ensures RenderTree(v, t, ranges, n, s).state.binding == IntendedTree(v, t, n, start, s.binding).binding
    ensures RenderTree(v, t, ranges, n, s).events == IntendedTree(v, t, n, start, s.binding).events
  {
    var e := Enter(t, n, s.binding);
    var draw := DrawFor(v, n, ranges[s.index]);
    var pop := if n.matrix.Some? then [PopMatrix] else [];
    if draw.None? {
      assert RenderTree(v, t, ranges, n, s) == Pass(DrawState(s.index + 1, e.binding), e.events);
      assert IntendedTree(v, t, n, start, s.binding) == e;
    } else {
      assert RenderTree(v, t, ranges, n, s) == Pass(DrawState(s.index + 1, e.binding), e.events + draw.value + [] + pop);
      assert IntendedTree(v, t, n, start, s.binding) == Drawn(e.binding, e.events + draw.value + [] + pop);
    }
  }

  /** A drawing group: its entries, rendered as intended, sit between its draw and its pop. */
  lemma {:induction false} GroupMatches(v: Variant, t: Tables, ranges: seq<ArrayIndices>, n: Renderable, s: DrawState, start: nat)
    requires n.Obj? && n.isGroup && s.index + TreeCount(n) <= |ranges|
    requires TreeCount(n) == 1 + ListCount(n.entries)
    requires DrawFor(v, n, ranges[s.index]) == DrawFor(v, n, ArrayIndices(start, OwnUnits(v, n)))
    requires DrawFor(v, n, ranges[s.index]).Some?
    requires var e := Enter(t, n, s.binding);
             var p := RenderList(v, t, ranges, n.entries, DrawState(s.index, e.binding));
             var q := IntendedList(v, t, n.entries, start + OwnUnits(v, n), e.binding);
             p.state.index == s.index + ListCount(n.entries) && p.state.binding == q.binding && p.events == q.events
    ensures RenderTree(v, t, ranges, n, s).state.index == s.index + TreeCount(n)
    ensures RenderTree(v, t, ranges, n, s).state.binding == IntendedTree(v, t, n, start, s.binding).binding
    ensures RenderTree(v, t, ranges, n, s).events == IntendedTree(v, t, n, start, s.binding).events
  {
    RenderGroupUnfold(v, t, ranges, n, s);
    IntendedGroupUnfold(v, t, n, start, s.binding);
  }

  /** `RenderTree` on a group whose draw succeeds: the draw, the entries, then the pop. */
  lemma {:induction false} RenderGroupUnfold(v: Variant, t: Tables, ranges: seq<ArrayIndices>, n: Renderable, s: DrawState)
    requires n.Obj? && n.isGroup && s.index + TreeCount(n) <= |ranges|
    requires DrawFor(v, n, ranges[s.index]).Some?
    ensures var e := Enter(t, n, s.binding);
            var p := RenderList(v, t, ranges, n.entries, DrawState(s.index, e.binding));
            RenderTree(v, t, ranges, n, s)
            == Pass(DrawState(p.state.index + 1, p.state.binding),
                    e.events + DrawFor(v, n, ranges[s.index]).value + p.events
                    + (if n.matrix.Some? then [PopMatrix] else []))
  {
  }

  /** `IntendedTree` on a group whose draw succeeds: the draw, the entries, then the pop. */
  lemma {:induction false} IntendedGroupUnfold(v: Variant, t: Tables, n: Renderable, start: nat, b: Binding)
    requires n.Obj? && n.isGroup
    requires DrawFor(v, n, ArrayIndices(start, OwnUnits(v, n))).Some?
    ensures var e := Enter(t, n, b);
            var q := IntendedList(v, t, n.entries, start + OwnUnits(v, n), e.binding);
            IntendedTree(v, t, n, start, b)
            == Drawn(q.binding, e.events + DrawFor(v, n, ArrayIndices(start, OwnUnits(v, n))).value + q.events
                                + (if n.matrix.Some? then [PopMatrix] else []))
  {
  }

  /**
   * Where a tree's post-order ranges sit in `ranges`: the entries' ranges
   * come first, so the range read on entry is the object's own only when it
   * has no non-null entries, which is all `DrawFor` needs when it draws.
   */
  lemma {:induction false} AlignedHead(v: Variant, ranges: seq<ArrayIndices>, n: Renderable, index: nat, start: nat)
    requires n.Obj? && DrawsOnlyAtLeaves(v, n)
    requires index + TreeCount(n) <= |ranges|
    requires ranges[index..index + TreeCount(n)] == TreeRanges(v, n, start)
    ensures DrawFor(v, n, ranges[index]) == DrawFor(v, n, ArrayIndices(start, OwnUnits(v, n)))
    ensures n.isGroup ==> TreeCount(n) == 1 + ListCount(n.entries)
    ensures n.isGroup ==> ranges[index..index + ListCount(n.entries)] == ListRanges(v, n.entries, start + OwnUnits(v, n))
  {
    AlignedOwn(v, ranges, n, index, start);
    if Drawable(v, n) {
      assert ranges[index] == ArrayIndices(start, OwnUnits(v, n));
    }
  }

  /**
   * The post-order layout of a tree's ranges: the entries' ranges, then the
   * object's own, which is therefore the first one when there are no entries.
   */
  lemma {:induction false} AlignedOwn(v: Variant, ranges: seq<ArrayIndices>, n: Renderable, index: nat, start: nat)
    requires n.Obj?
    requires index + TreeCount(n) <= |ranges|
    requires ranges[index..index + TreeCount(n)] == TreeRanges(v, n, start)
    ensures n.isGroup ==> TreeCount(n) == 1 + ListCount(n.entries)
    ensures n.isGroup ==> ranges[index..index + ListCount(n.entries)] == ListRanges(v, n.entries, start + OwnUnits(v, n))
    ensures !n.isGroup || ListCount(n.entries) == 0 ==> ranges[index] == ArrayIndices(start, OwnUnits(v, n))
  {
    var own := ArrayIndices(start, OwnUnits(v, n));
    var kids := if n.isGroup then ListRanges(v, n.entries, start + OwnUnits(v, n)) else [];
    var kidCount := if n.isGroup then ListCount(n.entries) else 0;
    assert TreeRanges(v, n, start) == kids + [own] && |kids| == kidCount && TreeCount(n) == kidCount + 1 by {
      if n.isGroup {
        GroupRanges(v, n, start);
        ListRangesCount(v, n.entries, start + OwnUnits(v, n));
      }
    }
    SliceSplit(ranges, index, TreeCount(n), TreeRanges(v, n, start), kids, [own], kidCount, 1);
    assert ranges[index + kidCount] == ranges[index + kidCount..index + kidCount + 1][0];
  }


  lemma {:induction false} RenderListMatchesIntended(v: Variant, t: Tables, ranges: seq<ArrayIndices>,
                                                     cs: seq<Renderable>, s: DrawState, start: nat)
    requires ListDrawsOnlyAtLeaves(v, cs)
    requires s.index + ListCount(cs) <= |ranges|
    requires ranges[s.index..s.index + ListCount(cs)] == ListRanges(v, cs, start)
    ensures RenderList(v, t, ranges, cs, s).state.index == s.index + ListCount(cs)
    ensures RenderList(v, t, ranges, cs, s).state.binding == IntendedList(v, t, cs, start, s.binding).binding
    ensures RenderList(v, t, ranges, cs, s).events == IntendedList(v, t, cs, start, s.binding).events
    decreases cs, 0, 1
  {
    if |cs| > 0 {
      var front := cs[..|cs| - 1];
      var last := cs[|cs| - 1];
      assert ListDrawsOnlyAtLeaves(v, front) && DrawsOnlyAtLeaves(v, last);
      var m, k := AlignedSplit(v, ranges, cs, s.index, start);
      RenderListMatchesIntended(v, t, ranges, front, s, start);
      if last.Obj? {
        LastEntryMatches(v, t, ranges, cs, s, start, m, k);
      } else {
        NullLastMatches(v, t, ranges, cs, s, start);
      }
    }
  }

  /** The step for a last entry that is an object: its tree, aligned after the entries before it, renders as intended. */
  lemma {:induction false} LastEntryMatches(v: Variant, t: Tables, ranges: seq<ArrayIndices>, cs: seq<Renderable>,
                                            s: DrawState, start: nat, m: nat, k: nat)
    requires |cs| > 0 && cs[|cs| - 1].Obj? && DrawsOnlyAtLeaves(v, cs[|cs| - 1])
    requires s.index + ListCount(cs) <= |ranges|
    requires m == ListCount(cs[..|cs| - 1]) && k == TreeCount(cs[|cs| - 1]) && ListCount(cs) == m + k
    requires ranges[s.index + m..s.index + m + k] == TreeRanges(v, cs[|cs| - 1], start + ListUnits(v, cs[..|cs| - 1]))
    requires RenderList(v, t, ranges, cs[..|cs| - 1], s).state.index == s.index + ListCount(cs[..|cs| - 1])
    requires RenderList(v, t, ranges, cs[..|cs| - 1], s).state.binding == IntendedList(v, t, cs[..|cs| - 1], start, s.binding).binding
    requires RenderList(v, t, ranges, cs[..|cs| - 1], s).events == IntendedList(v, t, cs[..|cs| - 1], start, s.binding).events
    ensures RenderList(v, t, ranges, cs, s).state.index == s.index + ListCount(cs)
    ensures RenderList(v, t, ranges, cs, s).state.binding == IntendedList(v, t, cs, start, s.binding).binding
    ensures RenderList(v, t, ranges, cs, s).events == IntendedList(v, t, cs, start, s.binding).events
    decreases cs, 0, 0
  {
    var front, last := cs[..|cs| - 1], cs[|cs| - 1];
    var u := start + ListUnits(v, front);
    var fr := RenderList(v, t, ranges, front, s);
    var fi := IntendedList(v, t, front, start, s.binding);
    var at := fr.state;
    assert at.index == s.index + m;
    assert at.index + k <= |ranges| && ranges[at.index..at.index + k] == TreeRanges(v, last, u);
    RenderMatchesIntendedAtLeaves(v, t, ranges, last, at, u);
    var p := RenderTree(v, t, ranges, last, at);
    var d := IntendedTree(v, t, last, u, fi.binding);
    assert p.state.index == at.index + k && p.state.binding == d.binding && p.events == d.events;
    assert RenderList(v, t, ranges, cs, s) == Pass(p.state, fr.events + p.events);
    IntendedListStep(v, t, cs, start, s.binding);
    JoinLast(RenderList(v, t, ranges, cs, s), IntendedList(v, t, cs, start, s.binding), fr, fi, p, d);
  }

  /** A list's pass and its intended drawing agree when the entries before the last and the last tree each agree. */
  lemma {:induction false} JoinLast(r: Pass, i: Drawn, fr: Pass, fi: Drawn, p: Pass, d: Drawn)
    requires r == Pass(p.state, fr.events + p.events) && i == Drawn(d.binding, fi.events + d.events)
    requires fr.events == fi.events && p.state.binding == d.binding && p.events == d.events
    ensures r.state == p.state && r.state.binding == i.binding && r.events == i.events
  {
  }

  /** A list whose last entry is null renders and draws as the entries before it. */
  lemma {:induction false} NullLastMatches(v: Variant, t: Tables, ranges: seq<ArrayIndices>, cs: seq<Renderable>, s: DrawState, start: nat)
    requires |cs| > 0 && cs[|cs| - 1].Null?
    requires s.index + ListCount(cs) <= |ranges|
    requires var fr := RenderList(v, t, ranges, cs[..|cs| - 1], s);
             var fi := IntendedList(v, t, cs[..|cs| - 1], start, s.binding);
             && fr.state.index == s.index + ListCount(cs[..|cs| - 1])
             && fr.state.binding == fi.binding && fr.events == fi.events
    ensures RenderList(v, t, ranges, cs, s).state.index == s.index + ListCount(cs)
    ensures RenderList(v, t, ranges, cs, s).state.binding == IntendedList(v, t, cs, start, s.binding).binding
    ensures RenderList(v, t, ranges, cs, s).events == IntendedList(v, t, cs, start, s.binding).events
  {
    ListCountSnoc(cs);
    assert RenderList(v, t, ranges, cs, s) == RenderList(v, t, ranges, cs[..|cs| - 1], s);
    assert IntendedList(v, t, cs, start, s.binding) == IntendedList(v, t, cs[..|cs| - 1], start, s.binding);
  }

  /**
   * `Update` followed by `Render` with nothing added or removed in between:
   * the ranges the update records are exactly enough for the render pass,
   * which draws every object as intended when drawable objects have no
   * entries.
   */
  lemma {:induction false} RenderAfterUpdate(v: Variant, t: Tables, roots: seq<Renderable>, b: Binding)
    requires ListDrawsOnlyAtLeaves(v, roots)
    ensures |ListRanges(v, roots, 0)| == ListCount(roots)
    ensures var p := RenderList(v, t, ListRanges(v, roots, 0), roots, DrawState(0, b));
            && p.state.index == ListCount(roots)
            && p.events == IntendedList(v, t, roots, 0, b).events
            && p.state.binding == IntendedList(v, t, roots, 0, b).binding
  {
    var ranges := ListRanges(v, roots, 0);
    ListRangesCount(v, roots, 0);
    assert ranges[0..ListCount(roots)] == ranges;
    RenderListMatchesIntended(v, t, ranges, roots, DrawState(0, b), 0);
  }

  /** Rendering one more entry of a list: a null entry adds nothing. */
  lemma {:induction false} RenderListStep(v: Variant, t: Tables, ranges: seq<ArrayIndices>, cs: seq<Renderable>, i: nat, s: DrawState)
    requires i < |cs| && s.index + ListCount(cs[..i + 1]) <= |ranges|
    ensures ListCount(cs[..i + 1]) == ListCount(cs[..i]) + TreeCount(cs[i])
    ensures cs[i].Null? ==> RenderList(v, t, ranges, cs[..i + 1], s) == RenderList(v, t, ranges, cs[..i], s)
    ensures cs[i].Obj? ==>
              var f := RenderList(v, t, ranges, cs[..i], s);
              f.state.index + TreeCount(cs[i]) <= |ranges|
              && var p := RenderTree(v, t, ranges, cs[i], f.state);
              RenderList(v, t, ranges, cs[..i + 1], s) == Pass(p.state, f.events + p.events)
  {
    assert cs[..i + 1][..i] == cs[..i];
  }

  lemma {:induction false} IntendedListStep(v: Variant, t: Tables, cs: seq<Renderable>, start: nat, b: Binding)
    requires |cs| > 0 && cs[|cs| - 1].Obj?
    ensures var front := IntendedList(v, t, cs[..|cs| - 1], start, b);
            var d := IntendedTree(v, t, cs[|cs| - 1], start + ListUnits(v, cs[..|cs| - 1]), front.binding);
            IntendedList(v, t, cs, start, b) == Drawn(d.binding, front.events + d.events)
  {
  }

  /** Where the ranges of the entries before the last, and of the last, sit in `ranges`. */
  lemma {:induction false} AlignedSplit(v: Variant, ranges: seq<ArrayIndices>, cs: seq<Renderable>, index: nat, start: nat)
    returns (m: nat, n: nat)
    requires |cs| > 0
    requires index + ListCount(cs) <= |ranges|
    requires ranges[index..index + ListCount(cs)] == ListRanges(v, cs, start)
    ensures m == ListCount(cs[..|cs| - 1]) && n == TreeCount(cs[|cs| - 1]) && ListCount(cs) == m + n
    ensures ranges[index..index + m] == ListRanges(v, cs[..|cs| - 1], start)
    ensures ranges[index + m..index + m + n] == TreeRanges(v, cs[|cs| - 1], start + ListUnits(v, cs[..|cs| - 1]))
  {
    var front := cs[..|cs| - 1];
    var a := ListRanges(v, front, start);
    var b := TreeRanges(v, cs[|cs| - 1], start + ListUnits(v, front));
    m, n := ListCount(front), TreeCount(cs[|cs| - 1]);
    assert ListRanges(v, cs, start) == a + b && ListCount(cs) == m + n && |a| == m && |b| == n by {
      ListCountSnoc(cs);
      ListRangesSnoc(v, cs, start, front, cs[|cs| - 1], start + ListUnits(v, front));
      ListRangesCount(v, front, start);
      TreeRangesCount(v, cs[|cs| - 1], start + ListUnits(v, front));
    }
    SliceSplit(ranges, index, ListCount(cs), ListRanges(v, cs, start), a, b, m, n);
  }

  /** One step of `ListCount`: the last entry's objects after the ones before it. */
  lemma {:induction false} ListCountSnoc(cs: seq<Renderable>)
    requires |cs| > 0
    ensures ListCount(cs) == ListCount(cs[..|cs| - 1]) + TreeCount(cs[|cs| - 1])
  {
  }

  /** One step of `ListRanges`: the last entry's ranges after the ones before it. */
  lemma {:induction false} ListRangesSnoc(v: Variant, cs: seq<Renderable>, start: nat,
                                          front: seq<Renderable>, last: Renderable, at: nat)
    requires |cs| > 0 && front == cs[..|cs| - 1] && last == cs[|cs| - 1]
    requires at == start + ListUnits(v, front)
    ensures ListRanges(v, cs, start) == ListRanges(v, front, start) + TreeRanges(v, last, at)
  {
  }

  /** A group's vertex data: its own values, then its entries' from where its own end. */
  lemma {:induction false} GroupDataAssembled(v: Variant, n: Renderable, dataIndex: nat, entriesData: nat,
                                              dataBefore: seq<Scalar>, dataOwn: seq<Scalar>, dataAfter: seq<Scalar>)
    requires n.Obj? && n.isGroup
    requires entriesData == dataIndex + |OwnValues(v, n)|
    requires dataIndex + |TreeValues(v, n)| <= |dataBefore|
    requires dataOwn == Overwrite(dataBefore, dataIndex, OwnValues(v, n))
    requires entriesData + |ListValues(v, n.entries)| <= |dataOwn|
    requires dataAfter == Overwrite(dataOwn, entriesData, ListValues(v, n.entries))
    ensures dataAfter == Overwrite(dataBefore, dataIndex, TreeValues(v, n))
  {
    GroupValues(v, n);
    OverwriteParts(dataBefore, dataIndex, OwnValues(v, n), ListValues(v, n.entries),
                   TreeValues(v, n), dataOwn, dataAfter);
  }

  /** A group's ranges: its entries', recorded while they are processed, then its own. */
  lemma {:induction false} GroupRangesAssembled(v: Variant, n: Renderable, start: nat, amount: nat, entriesStart: nat,
                                                rangesBefore: seq<ArrayIndices>, rangesMid: seq<ArrayIndices>,
                                                rangesAfter: seq<ArrayIndices>)
    requires n.Obj? && n.isGroup
    requires amount == OwnUnits(v, n) && entriesStart == start + amount
    requires rangesMid == rangesBefore + ListRanges(v, n.entries, entriesStart)
    requires rangesAfter == rangesMid + [ArrayIndices(start, amount)]
    ensures rangesAfter == rangesBefore + TreeRanges(v, n, start)
  {
    GroupRanges(v, n, start);
    AppendParts(rangesBefore, ListRanges(v, n.entries, entriesStart),
                [ArrayIndices(start, amount)], TreeRanges(v, n, start), rangesMid, rangesAfter);
  }

  // ---------------------------------------------------------------------
  // Writing one vertex through the running cursor

  /** The eight `vboData[vboIndex++] = ...` stores of one lit vertex. */
  method WriteVertex(a: array<Scalar>, at: nat, v: Vertex)
    requires at + 8 <= a.Length
    modifies a
    ensures a[..] == Overwrite(old(a[..]), at, VertexValues(v))
  {
    a[at] := v.position.x;
    a[at + 1] := v.position.y;
    a[at + 2] := v.position.z;
    a[at + 3] := v.texCoord.x;
    a[at + 4] := v.texCoord.y;
    a[at + 5] := v.normal.x;
    a[at + 6] := v.normal.y;
    a[at + 7] := v.normal.z;
    ghost var w := VertexValues(v);
    OverwriteAt(old(a[..]), at, w);
    assert forall j | 0 <= j < a.Length :: a[j] == if at <= j < at + 8 then w[j - at] else old(a[j]);
    assert a[..] == Overwrite(old(a[..]), at, w);
  }

  /** The four stores of one sprite vertex. */
  method WriteSpriteVertex(a: array<Scalar>, at: nat, v: SpriteVertex)
    requires at + 4 <= a.Length
    modifies a
    ensures a[..] == Overwrite(old(a[..]), at, SpriteValues(v))
  {
    a[at] := v.position.x;
    a[at + 1] := v.position.y;
    a[at + 2] := v.texCoord.x;
    a[at + 3] := v.texCoord.y;
  }

  /** The three `indexVBOData[elementVBOIndex++] = ...` stores of one face. */
  method WriteFace(a: array<int>, at: nat, f: Triangle)
    requires at + 3 <= a.Length
    modifies a
    ensures a[..] == Overwrite(old(a[..]), at, [f.v1, f.v2, f.v3])
  {
    a[at] := f.v1;
    a[at + 1] := f.v2;
    a[at + 2] := f.v3;
  }

  /** The vertex loop of the lit renderers: every vertex's 8 floats in order, from `at` on. */
  method WriteVertices(a: array<Scalar>, at: nat, vs: seq<Vertex>) returns (next: nat)
    requires at + 8 * |vs| <= a.Length
    modifies a
    ensures next == at + 8 * |vs|
    ensures a[..] == Overwrite(old(a[..]), at, FlattenVertices(vs))
  {
    ghost var before := a[..];
    next := at;
    for i := 0 to |vs|
      invariant next == at + 8 * i
      invariant a[..] == Overwrite(before, at, FlattenVertices(vs[..i]))
    {
      assert vs[..i + 1][..i] == vs[..i];
      OverwriteTwice(before, at, FlattenVertices(vs[..i]), next, VertexValues(vs[i]));
      WriteVertex(a, next, vs[i]);
      next := next + 8;
    }
    assert vs[..|vs|] == vs;
  }

  /** The vertex loop of the sprite renderer: every vertex's 4 floats in order, from `at` on. */
  method WriteSpriteVertices(a: array<Scalar>, at: nat, vs: seq<SpriteVertex>) returns (next: nat)
    requires at + 4 * |vs| <= a.Length
    modifies a
    ensures next == at + 4 * |vs|
    ensures a[..] == Overwrite(old(a[..]), at, FlattenSprites(vs))
  {
    ghost var before := a[..];
    next := at;
    for i := 0 to |vs|
      invariant next == at + 4 * i
      invariant a[..] == Overwrite(before, at, FlattenSprites(vs[..i]))
    {
      assert vs[..i + 1][..i] == vs[..i];
      OverwriteTwice(before, at, FlattenSprites(vs[..i]), next, SpriteValues(vs[i]));
      WriteSpriteVertex(a, next, vs[i]);
      next := next + 4;
    }
    assert vs[..|vs|] == vs;
  }

  /** The face loop of the indexed renderer: every face's three indices in order, from `at` on. */
  method WriteFaces(a: array<int>, at: nat, fs: seq<Triangle>) returns (next: nat)
    requires at + 3 * |fs| <= a.Length
    modifies a
    ensures next == at + 3 * |fs|
    ensures a[..] == Overwrite(old(a[..]), at, FaceElements(fs))
  {
    ghost var before := a[..];
    next := at;
    for i := 0 to |fs|
      invariant next == at + 3 * i
      invariant a[..] == Overwrite(before, at, FaceElements(fs[..i]))
    {
      assert fs[..i + 1][..i] == fs[..i];
      OverwriteTwice(before, at, FaceElements(fs[..i]), next, [fs[i].v1, fs[i].v2, fs[i].v3]);
      WriteFace(a, next, fs[i]);
      next := next + 3;
    }
    assert fs[..|fs|] == fs;
  }
}
