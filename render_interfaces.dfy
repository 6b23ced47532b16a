/**
 * The capability interfaces a renderable object may implement (`IRenderable`,
 * `IGroupRenderable`, `IMatrix`, `IGeometry`, `ISkinned`, `IIndexedGeometry`,
 * `ISprite`). The engine discovers them with `dynamic_cast`; here an object is
 * one value whose optional fields are the capabilities it implements, and a
 * null pointer is the constructor `Null`.
 */
module RenderInterfaces {
  import opened Base

  /** A `float` component. The renderers only copy such values, so they stay opaque. */
  type Scalar = int

  datatype Vector2 = Vector2(x: Scalar, y: Scalar)
  datatype Vector3 = Vector3(x: Scalar, y: Scalar, z: Scalar)

  /** `graphics::Vertex`: 8 floats, 32 bytes. */
  datatype Vertex = Vertex(position: Vector3, texCoord: Vector2, normal: Vector3)
  /** `graphics::SpriteVertex`: 4 floats, 16 bytes. */
  datatype SpriteVertex = SpriteVertex(position: Vector2, texCoord: Vector2)
  /** `graphics::Triangle`: three signed vertex indices, 12 bytes. */
  datatype Triangle = Triangle(v1: int, v2: int, v3: int)

  /** The 16 values `IMatrix::GetMatrixAsArray` hands to the matrix stack. */
  type MatrixArray = seq<Scalar>

  const VertexSize: nat := 32
  const SpriteVertexSize: nat := 16
  const TriangleSize: nat := 12

  /** `IGeometry`: vertices plus the primitive type they are drawn as. */
  datatype Geometry = Geometry(vertices: seq<Vertex>, primitiveType: int)

  /**
   * `IIndexedGeometry`: vertices, triangle faces indexing them, and the byte
   * size of the faces. There is no primitive type: indexed geometry is always
   * triangles.
   */
  datatype IndexedGeometry = IndexedGeometry(vertices: seq<Vertex>, faces: seq<Triangle>, triangleMemorySize: int)

  /**
   * A pointer to an `IRenderable`: `Null`, or an object with its reported
   * memory size (`GetMemorySize`) and the capabilities it implements.
   * `isGroup` says whether it implements `IGroupRenderable`; `entries` then
   * holds what `GetRenderable(i)` returns for each `i` below
   * `GetAmountOfRenderables()`, null entries included.
   */
  datatype Renderable =
    | Null
    | Obj(memorySize: int,
          geometry: Option<Geometry>,
          indexed: Option<IndexedGeometry>,
          sprite: Option<seq<SpriteVertex>>,
          skinID: Option<string>,
          matrix: Option<MatrixArray>,
          isGroup: bool,
          entries: seq<Renderable>)

  /** The group's entries the renderers walk: none when the object is null or not a group. */
  function Children(n: Renderable): seq<Renderable>
  {
    if n.Obj? && n.isGroup then n.entries else []
  }

  /** The bytes of vertex data the object itself holds: what `GetMemorySize` accounts for, children aside. */
  function OwnVertexBytes(n: Renderable): nat
  {
    if n.Null? then 0
    else
      (if n.geometry.Some? then VertexSize * |n.geometry.value.vertices| else 0)
      + (if n.indexed.Some? then VertexSize * |n.indexed.value.vertices| else 0)
      + (if n.sprite.Some? then SpriteVertexSize * |n.sprite.value| else 0)
  }

  /** Vertex bytes held by the whole tree below `n`. */
  function TreeVertexBytes(n: Renderable): nat
    decreases n, 1
  {
    OwnVertexBytes(n) + (if n.Obj? && n.isGroup then ListVertexBytes(n.entries) else 0)
  }

  function ListVertexBytes(cs: seq<Renderable>): nat
    decreases cs, 0
  {
    if |cs| == 0 then 0 else ListVertexBytes(cs[..|cs| - 1]) + TreeVertexBytes(cs[|cs| - 1])
  }

  /** The sum of the reported memory sizes of the non-null entries. */
  function ReportedSize(cs: seq<Renderable>): int
  {
    if |cs| == 0 then 0
    else ReportedSize(cs[..|cs| - 1]) + (if cs[|cs| - 1].Null? then 0 else cs[|cs| - 1].memorySize)
  }

  /**
   * The capability contracts of the interface header, for one object:
   * its memory size is its own vertex data plus what its group entries
   * report; it is not both `IGeometry` and `IIndexedGeometry`; and
   * `GetTriangleMemorySize` is the byte size of its faces.
   */
  predicate ConformsLocally(n: Renderable)
  {
    n.Obj? ==>
      && n.memorySize == OwnVertexBytes(n) + ReportedSize(Children(n))
      && !(n.geometry.Some? && n.indexed.Some?)
      && (n.indexed.Some? ==> n.indexed.value.triangleMemorySize == TriangleSize * |n.indexed.value.faces|)
  }

  /** Every object in the tree meets the capability contracts. */
  predicate Conforms(n: Renderable)
    decreases n, 1
  {
    ConformsLocally(n) && (n.Obj? && n.isGroup ==> ListConforms(n.entries))
  }

  predicate ListConforms(cs: seq<Renderable>)
    decreases cs, 0
  {
    |cs| > 0 ==> ListConforms(cs[..|cs| - 1]) && Conforms(cs[|cs| - 1])
  }

  /**
   * In a conforming tree every object's reported size is exactly the vertex
   * data of its whole subtree, so a group's size covers all renderables
   * stored in it.
   */
  lemma {:induction false} ConformingSizeIsTreeBytes(n: Renderable)
    requires n.Obj? && Conforms(n)
    ensures n.memorySize == TreeVertexBytes(n)
    decreases n, 1
  {
    if n.isGroup {
      ConformingListSize(n.entries);
    }
  }

  lemma {:induction false} ConformingListSize(cs: seq<Renderable>)
    requires ListConforms(cs)
    ensures ReportedSize(cs) == ListVertexBytes(cs)
    decreases cs, 0
  {
    if |cs| > 0 {
      ConformingListSize(cs[..|cs| - 1]);
      if cs[|cs| - 1].Obj? {
        ConformingSizeIsTreeBytes(cs[|cs| - 1]);
      }
    }
  }
}
