/**
 * A dense 16x16x16 chunk (Chunk.h, Chunk.cpp): cell addressing, voxel
 * access, the face-culling rule and the mesh of 9-float vertices that
 * generateMesh emits. The specification functions work on the cell
 * sequence; the Chunk class keeps the cells in an array and is proved
 * against them.
 */
module Chunks {
  import opened Geometry
  import opened Voxels

  const CHUNK_SIZE: int := 16
  const CHUNK_VOLUME: int := 4096

  /** Floats per vertex (position, colour, normal) and per emitted face (two triangles). */
  const VERTEX_FLOATS: int := 9
  const FACE_FLOATS: int := 54

  predicate InBounds(x: int, y: int, z: int) {
    0 <= x < CHUNK_SIZE && 0 <= y < CHUNK_SIZE && 0 <= z < CHUNK_SIZE
  }

  /** The coordinates of cell `i`. */
  function CellX(i: int): int { i % CHUNK_SIZE }
  function CellY(i: int): int { (i / CHUNK_SIZE) % CHUNK_SIZE }
  function CellZ(i: int): int { i / (CHUNK_SIZE * CHUNK_SIZE) }

  /** `getIndex`: x varies fastest, then y, then z. */
  function Index(x: int, y: int, z: int): (i: nat)
    requires InBounds(x, y, z)
    ensures i < CHUNK_VOLUME
  {
    x + CHUNK_SIZE * (y + CHUNK_SIZE * z)
  }

  /** An index gives back the coordinates it was computed from. */
  lemma IndexCoords(x: int, y: int, z: int)
    requires InBounds(x, y, z)
    ensures CellX(Index(x, y, z)) == x && CellY(Index(x, y, z)) == y && CellZ(Index(x, y, z)) == z
  {
  }

  /** Every index below 4096 is the index of exactly the in-bounds cell its coordinates name. */
  lemma IndexOnto(i: int)
    requires 0 <= i < CHUNK_VOLUME
    ensures InBounds(CellX(i), CellY(i), CellZ(i))
    ensures Index(CellX(i), CellY(i), CellZ(i)) == i
  {
  }

  /** Distinct in-bounds cells have distinct indices. */
  lemma IndexInjective(x: int, y: int, z: int, u: int, v: int, w: int)
    requires InBounds(x, y, z) && InBounds(u, v, w)
    requires Index(x, y, z) == Index(u, v, w)
    ensures x == u && y == v && z == w
  {
  }

  predicate IsCells(cells: seq<Voxel>) { |cells| == CHUNK_VOLUME }

  /** The cells of a new chunk: all air. */
  function AirCells(): (cells: seq<Voxel>)
    ensures IsCells(cells) && forall i :: 0 <= i < |cells| ==> cells[i] == DefaultVoxel()
  {
    seq(CHUNK_VOLUME, _ => DefaultVoxel())
  }

  /** Const `getVoxel`: the cell, or the shared default voxel outside the chunk. */
  function CellAt(cells: seq<Voxel>, x: int, y: int, z: int): Voxel
    requires IsCells(cells)
  {
    if InBounds(x, y, z) then cells[Index(x, y, z)] else DefaultVoxel()
  }

  /** `setVoxel` on the cells: one cell changes, and only when in bounds. */
  function SetCell(cells: seq<Voxel>, x: int, y: int, z: int, v: Voxel): (r: seq<Voxel>)
    requires IsCells(cells)
    ensures IsCells(r)
  {
    if InBounds(x, y, z) then cells[Index(x, y, z) := v] else cells
  }

  /** Reading after a write: the written cell holds the voxel, every other read is unchanged. */
  lemma SetThenGet(cells: seq<Voxel>, x: int, y: int, z: int, v: Voxel, u: int, w: int, t: int)
    requires IsCells(cells)
    ensures CellAt(SetCell(cells, x, y, z, v), u, w, t) ==
      if InBounds(x, y, z) && (u, w, t) == (x, y, z) then v else CellAt(cells, u, w, t)
  {
    if InBounds(x, y, z) && InBounds(u, w, t) && (u, w, t) != (x, y, z) {
      if Index(u, w, t) == Index(x, y, z) {
        IndexInjective(u, w, t, x, y, z);
      }
    }
  }

  /** The six face directions, in the order generateMesh tests them. */
  datatype Dir = PosZ | NegZ | PosX | NegX | PosY | NegY

  /** The `k`-th face generateMesh tests. */
  function FaceOrder(k: int): Dir
    requires 0 <= k < 6
  {
    if k == 0 then PosZ else if k == 1 then NegZ else if k == 2 then PosX
    else if k == 3 then NegX else if k == 4 then PosY else NegY
  }

  /** The unit normal of a face, which is also the offset to the neighbour it faces. */
  function Normal(d: Dir): IVec3 {
    match d
    case PosZ => IVec3(0, 0, 1)
    case NegZ => IVec3(0, 0, -1)
    case PosX => IVec3(1, 0, 0)
    case NegX => IVec3(-1, 0, 0)
    case PosY => IVec3(0, 1, 0)
    case NegY => IVec3(0, -1, 0)
  }

  /** The six corner offsets (two triangles) of a face, in emission order. */
  function Corners(d: Dir): seq<IVec3> {
    match d
    case PosZ => [IVec3(0, 0, 1), IVec3(1, 0, 1), IVec3(0, 1, 1), IVec3(1, 0, 1), IVec3(1, 1, 1), IVec3(0, 1, 1)]
    case NegZ => [IVec3(1, 0, 0), IVec3(0, 0, 0), IVec3(1, 1, 0), IVec3(0, 0, 0), IVec3(0, 1, 0), IVec3(1, 1, 0)]
    case PosX => [IVec3(1, 0, 1), IVec3(1, 0, 0), IVec3(1, 1, 1), IVec3(1, 0, 0), IVec3(1, 1, 0), IVec3(1, 1, 1)]
    case NegX => [IVec3(0, 0, 0), IVec3(0, 0, 1), IVec3(0, 1, 0), IVec3(0, 0, 1), IVec3(0, 1, 1), IVec3(0, 1, 0)]
    case PosY => [IVec3(0, 1, 1), IVec3(1, 1, 1), IVec3(0, 1, 0), IVec3(1, 1, 1), IVec3(1, 1, 0), IVec3(0, 1, 0)]
    case NegY => [IVec3(0, 0, 0), IVec3(1, 0, 0), IVec3(0, 0, 1), IVec3(1, 0, 0), IVec3(1, 0, 1), IVec3(0, 0, 1)]
  }

  /** The component of `v` along the axis of `d`. */
  function Along(v: IVec3, d: Dir): int {
    match d
    case PosZ => v.z
    case NegZ => v.z
    case PosX => v.x
    case NegX => v.x
    case PosY => v.y
    case NegY => v.y
  }

  /** Every corner of a face lies on the side of the unit cube its normal points to. */
  lemma CornersOnFace(d: Dir, k: int)
    requires 0 <= k < 6
    ensures |Corners(d)| == 6
    ensures Along(Corners(d)[k], d) == (if Along(Normal(d), d) > 0 then 1 else 0)
    ensures var c := Corners(d)[k]; 0 <= c.x <= 1 && 0 <= c.y <= 1 && 0 <= c.z <= 1
  {
  }

  /** `shouldRenderFace`: the neighbour across the face is outside the chunk or not solid. */
  predicate Exposed(cells: seq<Voxel>, x: int, y: int, z: int, d: Dir)
    requires IsCells(cells)
  {
    var n := Add(IVec3(x, y, z), Normal(d));
    !InBounds(n.x, n.y, n.z) || !CellAt(cells, n.x, n.y, n.z).isActive
  }

  /** One vertex: world position, colour, normal. */
  function Vertex(p: IVec3, c: Color, n: IVec3): (r: seq<real>)
    ensures |r| == VERTEX_FLOATS
  {
    [p.x as real, p.y as real, p.z as real, c.r, c.g, c.b, n.x as real, n.y as real, n.z as real]
  }

  /** The vertices of the corners `cs` of a face, in order. */
  function VertexRun(base: IVec3, c: Color, n: IVec3, cs: seq<IVec3>): (r: seq<real>)
    ensures |r| == VERTEX_FLOATS * |cs|
  {
    if cs == [] then [] else Vertex(Add(base, cs[0]), c, n) + VertexRun(base, c, n, cs[1..])
  }

  /** The 54 floats of one face of the unit cube at `base`. */
  function FaceVertices(base: IVec3, c: Color, d: Dir): (r: seq<real>)
    ensures |r| == FACE_FLOATS
  {
    VertexRun(base, c, Normal(d), Corners(d))
  }

  lemma {:induction false} VertexRunContents(base: IVec3, c: Color, n: IVec3, cs: seq<IVec3>, k: int)
    requires 0 <= k < |cs|
    ensures VertexRun(base, c, n, cs)[VERTEX_FLOATS * k .. VERTEX_FLOATS * (k + 1)] == Vertex(Add(base, cs[k]), c, n)
  {
    var r := VertexRun(base, c, n, cs);
    var v := Vertex(Add(base, cs[0]), c, n);
    var rest := VertexRun(base, c, n, cs[1..]);
    assert r == v + rest;
    if k == 0 {
      assert r[..VERTEX_FLOATS] == v;
    } else {
      VertexRunContents(base, c, n, cs[1..], k - 1);
      assert r[VERTEX_FLOATS * k .. VERTEX_FLOATS * (k + 1)] == rest[VERTEX_FLOATS * (k - 1) .. VERTEX_FLOATS * k];
    }
  }

  /** Vertex `k` of a face is the `k`-th corner, with the face's colour and normal. */
  lemma FaceVertexContents(base: IVec3, c: Color, d: Dir, k: int)
    requires 0 <= k < 6
    ensures |Corners(d)| == 6
    ensures FaceVertices(base, c, d)[VERTEX_FLOATS * k .. VERTEX_FLOATS * (k + 1)] ==
      Vertex(Add(base, Corners(d)[k]), c, Normal(d))
  {
    VertexRunContents(base, c, Normal(d), Corners(d), k);
  }

  /** The floats one face contributes: its vertices when exposed, nothing otherwise. */
  function FaceMesh(cells: seq<Voxel>, x: int, y: int, z: int, base: IVec3, c: Color, d: Dir): seq<real>
    requires IsCells(cells)
  {
    if Exposed(cells, x, y, z, d) then FaceVertices(base, c, d) else []
  }

  /** World position of the cell at local (x, y, z) in the chunk at `cpos`. */
  function WorldBase(cpos: IVec3, x: int, y: int, z: int): IVec3 {
    IVec3(x + cpos.x * CHUNK_SIZE, y + cpos.y * CHUNK_SIZE, z + cpos.z * CHUNK_SIZE)
  }

  /** The faces among the first `k` faces of FaceOrder that the cell at (x, y, z) emits. */
  function FacesUpTo(cells: seq<Voxel>, x: int, y: int, z: int, base: IVec3, c: Color, k: int): seq<real>
    requires IsCells(cells) && 0 <= k <= 6
  {
    if k == 0 then [] else FacesUpTo(cells, x, y, z, base, c, k - 1) + FaceMesh(cells, x, y, z, base, c, FaceOrder(k - 1))
  }

  /** Appending the next face in FaceOrder extends the faces emitted so far. */
  lemma FaceStep(start: seq<real>, cells: seq<Voxel>, x: int, y: int, z: int, base: IVec3, c: Color, k: int,
                 before: seq<real>, after: seq<real>)
    requires IsCells(cells) && 0 <= k < 6
    requires k == 0 ==> before == start
    requires k > 0 ==> before == start + FacesUpTo(cells, x, y, z, base, c, k)
    requires after == before + FaceMesh(cells, x, y, z, base, c, FaceOrder(k))
    ensures after == start + FacesUpTo(cells, x, y, z, base, c, k + 1)
  {
  }

  /** The floats generateMesh emits for cell `i`: nothing for an inactive voxel, else its exposed faces in order. */
  function CellMesh(cells: seq<Voxel>, cpos: IVec3, i: int): seq<real>
    requires IsCells(cells) && 0 <= i < CHUNK_VOLUME
  {
    var x, y, z := CellX(i), CellY(i), CellZ(i);
    var v := cells[i];
    if !v.isActive then [] else FacesUpTo(cells, x, y, z, WorldBase(cpos, x, y, z), v.color, 6)
  }

  /** The mesh of the first `n` cells in index order (z outermost, x innermost). */
  function MeshUpTo(cells: seq<Voxel>, cpos: IVec3, n: int): seq<real>
    requires IsCells(cells) && 0 <= n <= CHUNK_VOLUME
  {
    if n == 0 then [] else MeshUpTo(cells, cpos, n - 1) + CellMesh(cells, cpos, n - 1)
  }

  /** The whole vertex buffer of a chunk. */
  function ChunkMesh(cells: seq<Voxel>, cpos: IVec3): seq<real>
    requires IsCells(cells)
  {
    MeshUpTo(cells, cpos, CHUNK_VOLUME)
  }

  function B2N(b: bool): nat { if b then 1 else 0 }

  /** Exposed faces among the first `k` faces of FaceOrder. */
  function ExposedCount(cells: seq<Voxel>, x: int, y: int, z: int, k: int): nat
    requires IsCells(cells) && 0 <= k <= 6
  {
    if k == 0 then 0 else ExposedCount(cells, x, y, z, k - 1) + B2N(Exposed(cells, x, y, z, FaceOrder(k - 1)))
  }

  /** Exposed faces of cell `i` (none for an inactive voxel). */
  function ExposedFaces(cells: seq<Voxel>, i: int): nat
    requires IsCells(cells) && 0 <= i < CHUNK_VOLUME
  {
    if !cells[i].isActive then 0 else ExposedCount(cells, CellX(i), CellY(i), CellZ(i), 6)
  }

  function ExposedUpTo(cells: seq<Voxel>, n: int): nat
    requires IsCells(cells) && 0 <= n <= CHUNK_VOLUME
  {
    if n == 0 then 0 else ExposedUpTo(cells, n - 1) + ExposedFaces(cells, n - 1)
  }

  lemma {:induction false} FacesSize(cells: seq<Voxel>, x: int, y: int, z: int, base: IVec3, c: Color, k: int)
    requires IsCells(cells) && 0 <= k <= 6
    ensures |FacesUpTo(cells, x, y, z, base, c, k)| == FACE_FLOATS * ExposedCount(cells, x, y, z, k)
  {
    if k > 0 {
      FacesSize(cells, x, y, z, base, c, k - 1);
    }
  }

  /** The mesh holds exactly 54 floats (six whole vertices of 9 floats) per exposed face. */
  lemma {:induction false} MeshSize(cells: seq<Voxel>, cpos: IVec3, n: int)
    requires IsCells(cells) && 0 <= n <= CHUNK_VOLUME
    ensures |MeshUpTo(cells, cpos, n)| == FACE_FLOATS * ExposedUpTo(cells, n)
    ensures |MeshUpTo(cells, cpos, n)| == VERTEX_FLOATS * (6 * ExposedUpTo(cells, n))
  {
    if n > 0 {
      MeshSize(cells, cpos, n - 1);
      var i := n - 1;
      if cells[i].isActive {
        FacesSize(cells, CellX(i), CellY(i), CellZ(i), WorldBase(cpos, CellX(i), CellY(i), CellZ(i)), cells[i].color, 6);
      }
    }
  }

  /** A chunk with no solid voxel has an empty mesh. */
  lemma {:induction false} NoSolidNoMesh(cells: seq<Voxel>, cpos: IVec3, n: int)
    requires IsCells(cells) && 0 <= n <= CHUNK_VOLUME
    requires forall i :: 0 <= i < n ==> !cells[i].isActive
    ensures MeshUpTo(cells, cpos, n) == []
  {
    if n > 0 {
      NoSolidNoMesh(cells, cpos, n - 1);
    }
  }

  /** Culled faces of cell `i`, as calculateStatistics counts them: solid in-bounds neighbours of a solid cell. */
  function CulledFaces(cells: seq<Voxel>, i: int): nat
    requires IsCells(cells) && 0 <= i < CHUNK_VOLUME
  {
    var x, y, z := CellX(i), CellY(i), CellZ(i);
    if !cells[i].isActive then 0
    else B2N(x > 0 && CellAt(cells, x - 1, y, z).isActive) +
         B2N(x < CHUNK_SIZE - 1 && CellAt(cells, x + 1, y, z).isActive) +
         B2N(y > 0 && CellAt(cells, x, y - 1, z).isActive) +
         B2N(y < CHUNK_SIZE - 1 && CellAt(cells, x, y + 1, z).isActive) +
         B2N(z > 0 && CellAt(cells, x, y, z - 1).isActive) +
         B2N(z < CHUNK_SIZE - 1 && CellAt(cells, x, y, z + 1).isActive)
  }

  function ActiveUpTo(cells: seq<Voxel>, n: int): nat
    requires IsCells(cells) && 0 <= n <= CHUNK_VOLUME
  {
    if n == 0 then 0 else ActiveUpTo(cells, n - 1) + B2N(cells[n - 1].isActive)
  }

  function CulledUpTo(cells: seq<Voxel>, n: int): nat
    requires IsCells(cells) && 0 <= n <= CHUNK_VOLUME
  {
    if n == 0 then 0 else CulledUpTo(cells, n - 1) + CulledFaces(cells, n - 1)
  }

  /** For a solid cell, each of the six faces is either emitted or counted as culled. */
  lemma CellFacesSplit(cells: seq<Voxel>, i: int)
    requires IsCells(cells) && 0 <= i < CHUNK_VOLUME
    ensures ExposedFaces(cells, i) + CulledFaces(cells, i) == 6 * B2N(cells[i].isActive)
  {
    IndexOnto(i);
    var x, y, z := CellX(i), CellY(i), CellZ(i);
    assert ExposedCount(cells, x, y, z, 1) == B2N(Exposed(cells, x, y, z, PosZ));
    assert ExposedCount(cells, x, y, z, 2) == ExposedCount(cells, x, y, z, 1) + B2N(Exposed(cells, x, y, z, NegZ));
    assert ExposedCount(cells, x, y, z, 3) == ExposedCount(cells, x, y, z, 2) + B2N(Exposed(cells, x, y, z, PosX));
    assert ExposedCount(cells, x, y, z, 4) == ExposedCount(cells, x, y, z, 3) + B2N(Exposed(cells, x, y, z, NegX));
    assert ExposedCount(cells, x, y, z, 5) == ExposedCount(cells, x, y, z, 4) + B2N(Exposed(cells, x, y, z, PosY));
    assert ExposedCount(cells, x, y, z, 6) == ExposedCount(cells, x, y, z, 5) + B2N(Exposed(cells, x, y, z, NegY));
  }

  /** The statistics and the mesher agree: 6 faces per solid voxel minus the culled ones are the emitted faces. */
  lemma {:induction false} StatisticsMatchMesh(cells: seq<Voxel>, n: int)
    requires IsCells(cells) && 0 <= n <= CHUNK_VOLUME
    ensures 6 * ActiveUpTo(cells, n) == ExposedUpTo(cells, n) + CulledUpTo(cells, n)
  {
    if n > 0 {
      StatisticsMatchMesh(cells, n - 1);
      CellFacesSplit(cells, n - 1);
    }
  }

  /**
   * A chunk: its position, its cells in an array (the std::array) and its
   * vertex buffer. The owning World pointer of the declaration is not part of
   * the definition, which takes only the position.
   */
  class Chunk {
    const position: IVec3
    const voxels: array<Voxel>
    var vertexData: seq<real>

    ghost predicate Valid()
      reads this
    {
      voxels.Length == CHUNK_VOLUME
    }

    /** Every cell starts as the default air voxel and the vertex buffer is empty. */
    constructor(pos: IVec3)
      ensures Valid() && fresh(voxels)
      ensures position == pos && voxels[..] == AirCells() && vertexData == []
    {
      position := pos;
      vertexData := [];
      var a := new Voxel[CHUNK_VOLUME];
      var i := 0;
      while i < CHUNK_VOLUME
        invariant 0 <= i <= CHUNK_VOLUME
        invariant forall j :: 0 <= j < i ==> a[j] == DefaultVoxel()
      {
        a[i] := DefaultVoxel();
        i := i + 1;
      }
      voxels := a;
      assert a[..] == AirCells();
    }

    /** `getVoxel`: the cell at (x, y, z), or the default voxel outside the chunk. */
    function GetVoxel(x: int, y: int, z: int): (v: Voxel)
      requires Valid()
      reads this, voxels
      ensures v == CellAt(voxels[..], x, y, z)
    {
      if InBounds(x, y, z) then voxels[Index(x, y, z)] else DefaultVoxel()
    }

    /** `setVoxel`: writes the one cell when in bounds, else does nothing. */
    method SetVoxel(x: int, y: int, z: int, v: Voxel)
      requires Valid()
      modifies voxels
      ensures voxels[..] == SetCell(old(voxels[..]), x, y, z, v)
    {
      if InBounds(x, y, z) {
        voxels[Index(x, y, z)] := v;
      }
    }

    /** `shouldRenderFace` in direction `d`. */
    predicate ShouldRenderFace(x: int, y: int, z: int, d: Dir)
      requires Valid()
      reads this, voxels
      ensures ShouldRenderFace(x, y, z, d) == Exposed(voxels[..], x, y, z, d)
    {
      var n := Add(IVec3(x, y, z), Normal(d));
      !InBounds(n.x, n.y, n.z) || !GetVoxel(n.x, n.y, n.z).isActive
    }

    /**
     * `generateMesh`: clears the buffer and appends, for each solid voxel
     * in index order, the 54 floats of each exposed face in the order
     * +Z, -Z, +X, -X, +Y, -Y.
     */
    method GenerateMesh()
      requires Valid()
      modifies this
      ensures vertexData == ChunkMesh(voxels[..], position)
    {
      vertexData := [];
      var z := 0;
      while z < CHUNK_SIZE
        invariant 0 <= z <= CHUNK_SIZE
        invariant vertexData == MeshUpTo(voxels[..], position, CHUNK_SIZE * CHUNK_SIZE * z)
      {
        var y := 0;
        while y < CHUNK_SIZE
          invariant 0 <= y <= CHUNK_SIZE
          invariant vertexData == MeshUpTo(voxels[..], position, CHUNK_SIZE * (y + CHUNK_SIZE * z))
        {
          var x := 0;
          while x < CHUNK_SIZE
            invariant 0 <= x <= CHUNK_SIZE
            invariant vertexData == MeshUpTo(voxels[..], position, x + CHUNK_SIZE * (y + CHUNK_SIZE * z))
          {
            EmitCell(x, y, z);
            x := x + 1;
          }
          y := y + 1;
        }
        z := z + 1;
      }
    }

    /** One face block of generateMesh: append the face when shouldRenderFace allows it. */
    method EmitFace(x: int, y: int, z: int, pos: IVec3, c: Color, d: Dir)
      requires Valid()
      modifies this
      ensures vertexData == old(vertexData) + FaceMesh(voxels[..], x, y, z, pos, c, d)
    {
      if ShouldRenderFace(x, y, z, d) {
        vertexData := vertexData + FaceVertices(pos, c, d);
      }
    }

    /** The body of generateMesh's innermost loop: the faces of the one cell at (x, y, z). */
    method EmitCell(x: int, y: int, z: int)
      requires Valid() && InBounds(x, y, z)
      modifies this
      ensures vertexData == old(vertexData) + CellMesh(voxels[..], position, Index(x, y, z))
    {
      IndexCoords(x, y, z);
      var voxel := GetVoxel(x, y, z);
      if !voxel.isActive {
        return;
      }
      var pos := WorldBase(position, x, y, z);
      ghost var cells := voxels[..];
      ghost var before := vertexData;
      EmitFace(x, y, z, pos, voxel.color, PosZ);
      FaceStep(old(vertexData), cells, x, y, z, pos, voxel.color, 0, before, vertexData);
      before := vertexData;
      EmitFace(x, y, z, pos, voxel.color, NegZ);
      FaceStep(old(vertexData), cells, x, y, z, pos, voxel.color, 1, before, vertexData);
      before := vertexData;
      EmitFace(x, y, z, pos, voxel.color, PosX);
      FaceStep(old(vertexData), cells, x, y, z, pos, voxel.color, 2, before, vertexData);
      before := vertexData;
      EmitFace(x, y, z, pos, voxel.color, NegX);
      FaceStep(old(vertexData), cells, x, y, z, pos, voxel.color, 3, before, vertexData);
      before := vertexData;
      EmitFace(x, y, z, pos, voxel.color, PosY);
      FaceStep(old(vertexData), cells, x, y, z, pos, voxel.color, 4, before, vertexData);
      before := vertexData;
      EmitFace(x, y, z, pos, voxel.color, NegY);
      FaceStep(old(vertexData), cells, x, y, z, pos, voxel.color, 5, before, vertexData);
    }
  }
}
