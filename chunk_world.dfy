/**
 * The dense chunk world (World.h, World.cpp): world-to-chunk coordinates,
 * the chunk table keyed by chunk position, voxel access through it and the
 * test-world generator. Each chunk is owned by exactly one table entry
 * (a unique_ptr) and never shared, so the table holds chunk states as
 * values; the in-place Chunk operations are proved against the same
 * functions in module Chunks.
 */
module ChunkWorld {
  import opened Wrappers
  import opened Geometry
  import opened Voxels
  import opened Chunks

  const INT_MIN: int := -0x8000_0000
  const INT_MAX: int := 0x7FFF_FFFF

  /** A coordinate for which `c - CHUNK_SIZE + 1` does not overflow a 32-bit int. */
  predicate SafeCoord(c: int) {
    INT_MIN + CHUNK_SIZE - 1 <= c <= INT_MAX
  }

  /** `worldToChunkPos` on one axis: shift negative values down by 15, then divide truncating. */
  function ChunkCoord(c: int): int
    requires SafeCoord(c)
  {
    TDiv(if c >= 0 then c else c - CHUNK_SIZE + 1, CHUNK_SIZE)
  }

  /** `worldToLocalPos` on one axis. */
  function LocalCoord(c: int): int
    requires SafeCoord(c)
  {
    c - ChunkCoord(c) * CHUNK_SIZE
  }

  lemma DivUnique(a: int, q: int, r: int)
    requires a == CHUNK_SIZE * q + r && 0 <= r < CHUNK_SIZE
    ensures a / CHUNK_SIZE == q && a % CHUNK_SIZE == r
  {
  }

  /** The shifted truncating division is floor division: the chunk holding `c`. */
  lemma ChunkCoordIsFloor(c: int)
    requires SafeCoord(c)
    ensures ChunkCoord(c) == c / CHUNK_SIZE
    ensures LocalCoord(c) == c % CHUNK_SIZE
  {
    var q, r := c / CHUNK_SIZE, c % CHUNK_SIZE;
    DivUnique(c, q, r);
    if c < 0 {
      var a := c - CHUNK_SIZE + 1;
      DivUnique(-a, -q, CHUNK_SIZE - 1 - r);
      assert TDiv(a, CHUNK_SIZE) == -((-a) / CHUNK_SIZE);
    }
  }

  /** The local coordinate lies in the chunk, and chunk origin plus local coordinate gives back the world coordinate. */
  lemma LocalInChunk(c: int)
    requires SafeCoord(c)
    ensures 0 <= LocalCoord(c) < CHUNK_SIZE
    ensures ChunkCoord(c) * CHUNK_SIZE + LocalCoord(c) == c
  {
    ChunkCoordIsFloor(c);
  }

  /** Two world coordinates with the same chunk and local coordinates are equal. */
  lemma ChunkLocalInjective(c: int, d: int)
    requires SafeCoord(c) && SafeCoord(d)
    requires ChunkCoord(c) == ChunkCoord(d) && LocalCoord(c) == LocalCoord(d)
    ensures c == d
  {
    LocalInChunk(c);
    LocalInChunk(d);
  }

  predicate SafePos(x: int, y: int, z: int) { SafeCoord(x) && SafeCoord(y) && SafeCoord(z) }

  function WorldToChunkPos(x: int, y: int, z: int): (c: IVec3)
    requires SafePos(x, y, z)
    ensures c == ChunkOf(x, y, z)
  {
    ChunkCoordIsFloor(x);
    ChunkCoordIsFloor(y);
    ChunkCoordIsFloor(z);
    IVec3(ChunkCoord(x), ChunkCoord(y), ChunkCoord(z))
  }

  function WorldToLocalPos(x: int, y: int, z: int): (l: IVec3)
    requires SafePos(x, y, z)
    ensures 0 <= l.x < CHUNK_SIZE && 0 <= l.y < CHUNK_SIZE && 0 <= l.z < CHUNK_SIZE
    ensures var c := WorldToChunkPos(x, y, z);
      x == CHUNK_SIZE * c.x + l.x && y == CHUNK_SIZE * c.y + l.y && z == CHUNK_SIZE * c.z + l.z
  {
    ChunkCoordIsFloor(x);
    ChunkCoordIsFloor(y);
    ChunkCoordIsFloor(z);
    IVec3(LocalCoord(x), LocalCoord(y), LocalCoord(z))
  }

  /** A chunk as the table owns it. */
  datatype ChunkState = ChunkState(position: IVec3, cells: seq<Voxel>, vertexData: seq<real>)

  /** `std::make_unique<Chunk>(position)`: all air, empty vertex buffer. */
  function NewChunk(p: IVec3): ChunkState {
    ChunkState(p, AirCells(), [])
  }

  type Table = map<IVec3, ChunkState>

  /**
   * Every entry is a chunk at its own key with 4096 cells whose vertex
   * buffer is the mesh of its cells: true of a new chunk, and kept by
   * setVoxel, which regenerates the mesh of the chunk it writes.
   */
  ghost predicate TableValid(ch: Table) {
    forall p {:trigger ChunkOk(ch[p], p)} :: p in ch ==> ChunkOk(ch[p], p)
  }

  /** One entry of a valid table: at its own key, 4096 cells, and the vertex buffer is the mesh of those cells. */
  ghost predicate ChunkOk(c: ChunkState, p: IVec3) {
    c.position == p && IsCells(c.cells) && c.vertexData == ChunkMesh(c.cells, p)
  }

  /** A new chunk's empty buffer is the mesh of its all-air cells. */
  lemma NewChunkMeshCurrent(p: IVec3)
    ensures IsCells(NewChunk(p).cells) && NewChunk(p).vertexData == ChunkMesh(NewChunk(p).cells, p)
  {
    NoSolidNoMesh(AirCells(), p, CHUNK_VOLUME);
  }

  /**
   * The voxel at a world position: the cell of its chunk, or the default air
   * voxel when that chunk is absent. (The floor-division chunk position
   * equals worldToChunkPos; see ChunkCoordIsFloor.)
   */
  function VoxelAt(ch: Table, x: int, y: int, z: int): Voxel {
    var cp := IVec3(x / CHUNK_SIZE, y / CHUNK_SIZE, z / CHUNK_SIZE);
    if cp in ch && IsCells(ch[cp].cells) then CellAt(ch[cp].cells, x % CHUNK_SIZE, y % CHUNK_SIZE, z % CHUNK_SIZE)
    else DefaultVoxel()
  }

  /** `createChunk`: insert a new chunk only when the key is absent. */
  function CreateChunkIn(ch: Table, p: IVec3): Table {
    if p in ch then ch else ch[p := NewChunk(p)]
  }

  /** `setVoxel`: create the chunk on demand, write the local cell, regenerate that chunk's mesh. */
  function SetVoxelIn(ch: Table, x: int, y: int, z: int, v: Voxel): Table
    requires TableValid(ch)
  {
    var cp := IVec3(x / CHUNK_SIZE, y / CHUNK_SIZE, z / CHUNK_SIZE);
    assert cp in ch ==> ChunkOk(ch[cp], cp);
    var c := if cp in ch then ch[cp] else NewChunk(cp);
    var cells := SetCell(c.cells, x % CHUNK_SIZE, y % CHUNK_SIZE, z % CHUNK_SIZE, v);
    ch[cp := ChunkState(cp, cells, ChunkMesh(cells, cp))]
  }

  /** Creating a chunk keeps the table valid, keeps every existing entry and changes no voxel. */
  lemma CreateChunkFacts(ch: Table, p: IVec3)
    requires TableValid(ch)
    ensures TableValid(CreateChunkIn(ch, p))
    ensures p in CreateChunkIn(ch, p) && (p in ch ==> CreateChunkIn(ch, p)[p] == ch[p])
    ensures forall q :: q in ch ==> q in CreateChunkIn(ch, p) && CreateChunkIn(ch, p)[q] == ch[q]
    ensures forall x, y, z :: VoxelAt(CreateChunkIn(ch, p), x, y, z) == VoxelAt(ch, x, y, z)
  {
    NewChunkMeshCurrent(p);
  }

  /** Writing a voxel keeps the table valid; exactly that world position reads the new voxel. */
  lemma SetVoxelFacts(ch: Table, x: int, y: int, z: int, v: Voxel)
    requires TableValid(ch)
    ensures TableValid(SetVoxelIn(ch, x, y, z, v))
    ensures forall u, w, t ::
      VoxelAt(SetVoxelIn(ch, x, y, z, v), u, w, t) == if (u, w, t) == (x, y, z) then v else VoxelAt(ch, u, w, t)
    ensures forall q :: q in ch ==> q in SetVoxelIn(ch, x, y, z, v)
  {
    var cp := IVec3(x / CHUNK_SIZE, y / CHUNK_SIZE, z / CHUNK_SIZE);
    NewChunkMeshCurrent(cp);
    assert cp in ch ==> ChunkOk(ch[cp], cp);
    var c := if cp in ch then ch[cp] else NewChunk(cp);
    var r := SetVoxelIn(ch, x, y, z, v);
    forall u, w, t ensures VoxelAt(r, u, w, t) == if (u, w, t) == (x, y, z) then v else VoxelAt(ch, u, w, t) {
      var cq := IVec3(u / CHUNK_SIZE, w / CHUNK_SIZE, t / CHUNK_SIZE);
      if cq == cp {
        SetThenGet(c.cells, x % CHUNK_SIZE, y % CHUNK_SIZE, z % CHUNK_SIZE, v, u % CHUNK_SIZE, w % CHUNK_SIZE, t % CHUNK_SIZE);
        if (u % CHUNK_SIZE, w % CHUNK_SIZE, t % CHUNK_SIZE) == (x % CHUNK_SIZE, y % CHUNK_SIZE, z % CHUNK_SIZE) {
          assert u == CHUNK_SIZE * (u / CHUNK_SIZE) + u % CHUNK_SIZE;
          assert x == CHUNK_SIZE * (x / CHUNK_SIZE) + x % CHUNK_SIZE;
          assert w == CHUNK_SIZE * (w / CHUNK_SIZE) + w % CHUNK_SIZE;
          assert y == CHUNK_SIZE * (y / CHUNK_SIZE) + y % CHUNK_SIZE;
          assert t == CHUNK_SIZE * (t / CHUNK_SIZE) + t % CHUNK_SIZE;
          assert z == CHUNK_SIZE * (z / CHUNK_SIZE) + z % CHUNK_SIZE;
        }
      }
    }
  }

  predicate InBox(u: int, w: int, t: int, x0: int, x1: int, y0: int, y1: int, z0: int, z1: int) {
    x0 <= u < x1 && y0 <= w < y1 && z0 <= t < z1
  }

  /** (a, b, c) comes before (i, j, k) in the order of three nested loops. */
  predicate LexBefore(a: int, b: int, c: int, i: int, j: int, k: int) {
    a < i || (a == i && (b < j || (b == j && c < k)))
  }

  /** The block the test world puts at height `y` of each filled column: stone below 8, dirt at 8, grass at 9. */
  function LayerType(y: int): VoxelType {
    if y < CHUNK_SIZE / 2 then STONE else if y == CHUNK_SIZE / 2 then DIRT else GRASS
  }

  /** Height of the lowest trunk voxel of a tree: two above the dirt layer. */
  const TREE_BASE: int := CHUNK_SIZE / 2 + 2

  /** Trunk cells of the tree at (x, z) that its leaves do not overwrite. */
  predicate InTrunk(x: int, z: int, u: int, w: int, t: int) {
    u == x && t == z && TREE_BASE <= w < TREE_BASE + 5
  }

  /** Leaf cells of the tree at (x, z): a 5x4x5 block without its four vertical corner edges. */
  predicate InCanopy(x: int, z: int, u: int, w: int, t: int) {
    -2 <= u - x <= 2 && TREE_BASE + 3 <= w <= TREE_BASE + 6 && -2 <= t - z <= 2 &&
    !((u - x == 2 || u - x == -2) && (t - z == 2 || t - z == -2))
  }

  /** What one addTree call leaves at (u, w, t), over the table `before`. */
  function TreeOver(before: Table, x: int, z: int, u: int, w: int, t: int): Voxel {
    if InCanopy(x, z, u, w, t) then Block(LEAVES)
    else if InTrunk(x, z, u, w, t) then Block(WOOD)
    else VoxelAt(before, u, w, t)
  }

  /** A complete tree at (x, z): wood up to the canopy, leaves in all of the canopy. */
  ghost predicate TreeAt(ch: Table, x: int, z: int) {
    (forall w :: TREE_BASE <= w < TREE_BASE + 3 ==> VoxelAt(ch, x, w, z) == Block(WOOD)) &&
    (forall u, w, t :: InCanopy(x, z, u, w, t) ==> VoxelAt(ch, u, w, t) == Block(LEAVES))
  }

  /** The test world's ground: stone, dirt and grass in every column of the 3x3 chunks around the origin. */
  ghost predicate Ground(ch: Table) {
    forall u, w, t :: InBox(u, w, t, -CHUNK_SIZE, 2 * CHUNK_SIZE, 0, CHUNK_SIZE / 2 + 2, -CHUNK_SIZE, 2 * CHUNK_SIZE) ==>
      VoxelAt(ch, u, w, t) == Block(LayerType(w))
  }

  /** Five addTree calls in sequence over the ground leave the ground and all five trees. */
  lemma TreesFacts(ground: Table, t1: Table, t2: Table, t3: Table, t4: Table, t5: Table)
    requires Ground(ground)
    requires forall u, w, t :: VoxelAt(t1, u, w, t) == TreeOver(ground, 0, 0, u, w, t)
    requires forall u, w, t :: VoxelAt(t2, u, w, t) == TreeOver(t1, 10, 10, u, w, t)
    requires forall u, w, t :: VoxelAt(t3, u, w, t) == TreeOver(t2, -10, -10, u, w, t)
    requires forall u, w, t :: VoxelAt(t4, u, w, t) == TreeOver(t3, 10, -10, u, w, t)
    requires forall u, w, t :: VoxelAt(t5, u, w, t) == TreeOver(t4, -10, 10, u, w, t)
    ensures forall u, w, t :: !InTestTree(u, w, t) ==> VoxelAt(t5, u, w, t) == VoxelAt(ground, u, w, t)
    ensures Ground(t5)
    ensures TreeAt(t5, 0, 0) && TreeAt(t5, 10, 10) && TreeAt(t5, -10, -10)
    ensures TreeAt(t5, 10, -10) && TreeAt(t5, -10, 10)
  {
  }

  /**
   * A valid table is determined by its keys and the voxel at every world
   * position: the cells of each chunk are read back through VoxelAt and
   * its mesh and position follow from validity.
   */
  lemma TableExtensional(a: Table, b: Table)
    requires TableValid(a) && TableValid(b) && a.Keys == b.Keys
    requires forall u, w, t :: VoxelAt(a, u, w, t) == VoxelAt(b, u, w, t)
    ensures a == b
  {
    forall p | p in a ensures a[p] == b[p] {
      assert ChunkOk(a[p], p) && ChunkOk(b[p], p);
      forall i | 0 <= i < CHUNK_VOLUME ensures a[p].cells[i] == b[p].cells[i] {
        IndexOnto(i);
        var u, w, t := p.x * CHUNK_SIZE + CellX(i), p.y * CHUNK_SIZE + CellY(i), p.z * CHUNK_SIZE + CellZ(i);
        DivUnique(u, p.x, CellX(i));
        DivUnique(w, p.y, CellY(i));
        DivUnique(t, p.z, CellZ(i));
        assert VoxelAt(a, u, w, t) == a[p].cells[i];
        assert VoxelAt(b, u, w, t) == b[p].cells[i];
      }
      assert a[p].cells == b[p].cells;
    }
  }

  /** The keys and voxels setVoxel's contract gives determine the table: it is SetVoxelIn's. */
  lemma SetVoxelDetermined(before: Table, after: Table, x: int, y: int, z: int, v: Voxel)
    requires TableValid(before) && TableValid(after)
    requires after.Keys == before.Keys + {IVec3(x / CHUNK_SIZE, y / CHUNK_SIZE, z / CHUNK_SIZE)}
    requires forall u, w, t ::
      VoxelAt(after, u, w, t) == if (u, w, t) == (x, y, z) then v else VoxelAt(before, u, w, t)
    ensures after == SetVoxelIn(before, x, y, z, v)
  {
    SetVoxelFacts(before, x, y, z, v);
    TableExtensional(after, SetVoxelIn(before, x, y, z, v));
  }

  /**
   * The cells a run of three nested write loops covers: a box of nx by ny by
   * nz cells at (x0, y0, z0), without its four vertical corner edges when
   * `cut` is set.
   */
  datatype Box = Box(x0: int, y0: int, z0: int, nx: int, ny: int, nz: int, cut: bool)

  predicate Corner(b: Box, u: int, t: int) {
    (u - b.x0 == 0 || u - b.x0 == b.nx - 1) && (t - b.z0 == 0 || t - b.z0 == b.nz - 1)
  }

  predicate InFull(b: Box, u: int, w: int, t: int) {
    0 <= u - b.x0 < b.nx && 0 <= w - b.y0 < b.ny && 0 <= t - b.z0 < b.nz && !(b.cut && Corner(b, u, t))
  }

  /** The cells of the box the loops have written once they reach iteration (i, j, k). */
  predicate InRegion(b: Box, u: int, w: int, t: int, i: int, j: int, k: int) {
    InFull(b, u, w, t) && LexBefore(u - b.x0, w - b.y0, t - b.z0, i, j, k)
  }

  /** `now` is `base` with the written part of the box overwritten by `v`. */
  ghost predicate Painted(now: Table, base: Table, b: Box, v: Voxel, i: int, j: int, k: int) {
    forall u, w, t ::
      VoxelAt(now, u, w, t) == if InRegion(b, u, w, t, i, j, k) then v else VoxelAt(base, u, w, t)
  }

  function StoneBox(x: int, z: int): Box { Box(x * CHUNK_SIZE, 0, z * CHUNK_SIZE, CHUNK_SIZE, CHUNK_SIZE / 2, CHUNK_SIZE, false) }
  function LayerBox(x: int, z: int, y: int): Box { Box(x * CHUNK_SIZE, y, z * CHUNK_SIZE, CHUNK_SIZE, 1, CHUNK_SIZE, false) }
  function TrunkBox(x: int, z: int): Box { Box(x, TREE_BASE, z, 1, 5, 1, false) }
  function CanopyBox(x: int, z: int): Box { Box(x - 2, TREE_BASE + 3, z - 2, 5, 4, 5, true) }

  lemma PaintStart(base: Table, b: Box, v: Voxel)
    ensures Painted(base, base, b, v, 0, 0, 0)
  {
  }

  /** Writing the cell of iteration (i, j, k) extends the written region by that cell. */
  lemma PaintStep(now: Table, next: Table, base: Table, b: Box, v: Voxel, i: int, j: int, k: int)
    requires Painted(now, base, b, v, i, j, k)
    requires 0 <= i < b.nx && 0 <= j < b.ny && 0 <= k < b.nz && !(b.cut && Corner(b, b.x0 + i, b.z0 + k))
    requires forall u, w, t ::
      VoxelAt(next, u, w, t) == if (u, w, t) == (b.x0 + i, b.y0 + j, b.z0 + k) then v else VoxelAt(now, u, w, t)
    ensures Painted(next, base, b, v, i, j, k + 1)
  {
  }

  /** A skipped corner iteration writes nothing and the region still advances. */
  lemma PaintSkip(now: Table, base: Table, b: Box, v: Voxel, i: int, j: int, k: int)
    requires Painted(now, base, b, v, i, j, k)
    requires b.cut && Corner(b, b.x0 + i, b.z0 + k)
    ensures Painted(now, base, b, v, i, j, k + 1)
  {
  }

  /** The end of the innermost loop is the start of the next middle iteration. */
  lemma PaintCarryZ(now: Table, base: Table, b: Box, v: Voxel, i: int, j: int)
    requires Painted(now, base, b, v, i, j, b.nz)
    ensures Painted(now, base, b, v, i, j + 1, 0)
  {
  }

  /** The end of the middle loop is the start of the next outer iteration. */
  lemma PaintCarryY(now: Table, base: Table, b: Box, v: Voxel, i: int)
    requires Painted(now, base, b, v, i, b.ny, 0)
    ensures Painted(now, base, b, v, i + 1, 0, 0)
  {
  }

  /** After the last outer iteration the whole box is written. */
  lemma PaintDone(now: Table, base: Table, b: Box, v: Voxel)
    requires Painted(now, base, b, v, b.nx, 0, 0)
    ensures forall u, w, t :: VoxelAt(now, u, w, t) == if InFull(b, u, w, t) then v else VoxelAt(base, u, w, t)
  {
  }

  /** The key of the chunk holding world position (u, w, t). */
  function ChunkOf(u: int, w: int, t: int): IVec3 {
    IVec3(u / CHUNK_SIZE, w / CHUNK_SIZE, t / CHUNK_SIZE)
  }

  /** `now` keeps every chunk of `base` and adds only chunks among `k`. */
  ghost predicate KeysWithin(now: Table, base: Table, k: set<IVec3>) {
    base.Keys <= now.Keys <= base.Keys + k
  }

  /** The chunk columns generateTestWorld creates: the 3x3 around the origin. */
  const GROUND_CHUNKS: set<IVec3> := set a, c | -1 <= a <= 1 && -1 <= c <= 1 :: IVec3(a, 0, c)

  /** The chunks a tree within 12 of the origin can reach: its cells lie within 14 of it, at heights 10 to 16. */
  const TREE_CHUNKS: set<IVec3> := set a, b, c | -1 <= a <= 0 && 0 <= b <= 1 && -1 <= c <= 0 :: IVec3(a, b, c)

  /** Every chunk of the test world: the ground, and the four above it that the canopy over the origin reaches. */
  const TEST_WORLD_CHUNKS: set<IVec3> := GROUND_CHUNKS + set a, c | -1 <= a <= 0 && -1 <= c <= 0 :: IVec3(a, 1, c)

  /** A cell some tree at (x, z) writes. */
  predicate InTree(x: int, z: int, u: int, w: int, t: int) {
    InCanopy(x, z, u, w, t) || InTrunk(x, z, u, w, t)
  }

  /** A cell one of generateTestWorld's five trees writes. */
  predicate InTestTree(u: int, w: int, t: int) {
    InTree(0, 0, u, w, t) || InTree(10, 10, u, w, t) || InTree(-10, -10, u, w, t) ||
    InTree(10, -10, u, w, t) || InTree(-10, 10, u, w, t)
  }

  /** A cell of a tree within 12 of the origin lies in one of TREE_CHUNKS. */
  lemma TreeCellChunk(u: int, w: int, t: int)
    requires -14 <= u <= 14 && TREE_BASE <= w <= TREE_BASE + 6 && -14 <= t <= 14
    ensures ChunkOf(u, w, t) in TREE_CHUNKS
  {
    var c := ChunkOf(u, w, t);
    assert -1 <= c.x <= 0 && 0 <= c.y <= 1 && -1 <= c.z <= 0;
  }

  /** A cell of chunk column (x, z) below height 16 lies in chunk (x, 0, z). */
  lemma ColumnCellChunk(x: int, z: int, lx: int, y: int, lz: int)
    requires 0 <= lx < CHUNK_SIZE && 0 <= y < CHUNK_SIZE && 0 <= lz < CHUNK_SIZE
    ensures ChunkOf(x * CHUNK_SIZE + lx, y, z * CHUNK_SIZE + lz) == IVec3(x, 0, z)
  {
    DivUnique(x * CHUNK_SIZE + lx, x, lx);
    DivUnique(y, 0, y);
    DivUnique(z * CHUNK_SIZE + lz, z, lz);
  }

  /** A world position that reads other than the default voxel lies in a chunk of the table. */
  lemma VisibleHasChunk(ch: Table, u: int, w: int, t: int)
    requires VoxelAt(ch, u, w, t) != DefaultVoxel()
    ensures ChunkOf(u, w, t) in ch
  {
  }

  /**
   * The test world holds exactly the chunks it started with and TEST_WORLD_CHUNKS:
   * the ground and the trees add no chunk outside them, and the stone at the
   * bottom of each ground column and the leaves at the top of the canopy over
   * the origin show that each of them is there.
   */
  lemma {:induction false} TestWorldKeys(start: Table, ground: Table, t1: Table, t2: Table, t3: Table, t4: Table, t5: Table)
    requires KeysWithin(ground, start, GROUND_CHUNKS)
    requires KeysWithin(t1, ground, TREE_CHUNKS) && KeysWithin(t2, t1, TREE_CHUNKS) && KeysWithin(t3, t2, TREE_CHUNKS)
    requires KeysWithin(t4, t3, TREE_CHUNKS) && KeysWithin(t5, t4, TREE_CHUNKS)
    requires Ground(t5) && TreeAt(t5, 0, 0)
    ensures t5.Keys == start.Keys + TEST_WORLD_CHUNKS
  {
    forall p | p in TREE_CHUNKS ensures p in TEST_WORLD_CHUNKS {
      if p.y == 0 {
        assert p in GROUND_CHUNKS;
      }
    }
    forall p | p in TEST_WORLD_CHUNKS ensures p in t5 {
      if p.y == 0 {
        ColumnCellChunk(p.x, p.z, 0, 0, 0);
        assert VoxelAt(t5, p.x * CHUNK_SIZE, 0, p.z * CHUNK_SIZE) == Block(STONE);
        VisibleHasChunk(t5, p.x * CHUNK_SIZE, 0, p.z * CHUNK_SIZE);
      } else {
        assert InCanopy(0, 0, p.x, TREE_BASE + 6, p.z);
        assert ChunkOf(p.x, TREE_BASE + 6, p.z) == p;
        VisibleHasChunk(t5, p.x, TREE_BASE + 6, p.z);
      }
    }
  }

  /** The chunk table of the legacy world. */
  class World {
    var chunks: Table

    ghost predicate Valid()
      reads this
    {
      TableValid(chunks)
    }

    constructor()
      ensures Valid() && chunks == map[]
    {
      chunks := map[];
    }

    /** `getChunk`: the chunk at the key, None for an absent key. */
    function GetChunk(p: IVec3): (r: Option<ChunkState>)
      reads this
      ensures r.Some? <==> p in chunks
      ensures r.Some? ==> r.value == chunks[p]
    {
      if p in chunks then Some(chunks[p]) else None
    }

    /** `createChunk`: idempotent, never replaces an existing chunk. */
    method CreateChunk(p: IVec3)
      requires Valid()
      modifies this
      ensures Valid() && chunks == CreateChunkIn(old(chunks), p)
    {
      if p !in chunks {
        chunks := chunks[p := NewChunk(p)];
      }
      CreateChunkFacts(old(chunks), p);
    }

    /** `removeChunk`: erases that key only. */
    method RemoveChunk(p: IVec3)
      requires Valid()
      modifies this
      ensures Valid() && chunks == old(chunks) - {p}
    {
      chunks := chunks - {p};
    }

    /** `getVoxel`, through worldToChunkPos and worldToLocalPos. */
    method GetVoxel(x: int, y: int, z: int) returns (v: Voxel)
      requires Valid() && SafePos(x, y, z)
      ensures v == VoxelAt(chunks, x, y, z)
    {
      var chunkPos := WorldToChunkPos(x, y, z);
      var localPos := WorldToLocalPos(x, y, z);
      ChunkCoordIsFloor(x);
      ChunkCoordIsFloor(y);
      ChunkCoordIsFloor(z);
      assert chunkPos in chunks ==> ChunkOk(chunks[chunkPos], chunkPos);
      var chunk := GetChunk(chunkPos);
      if chunk.None? {
        return DefaultVoxel();
      }
      v := CellAt(chunk.value.cells, localPos.x, localPos.y, localPos.z);
    }

    /** `setVoxel`: create the chunk if needed, write the cell, regenerate that chunk's mesh. */
    method SetVoxel(x: int, y: int, z: int, v: Voxel)
      requires Valid() && SafePos(x, y, z)
      modifies this
      ensures Valid() && chunks.Keys == old(chunks).Keys + {IVec3(x / CHUNK_SIZE, y / CHUNK_SIZE, z / CHUNK_SIZE)}
      ensures forall u, w, t ::
        VoxelAt(chunks, u, w, t) == if (u, w, t) == (x, y, z) then v else VoxelAt(old(chunks), u, w, t)
    {
      var chunkPos := WorldToChunkPos(x, y, z);
      var localPos := WorldToLocalPos(x, y, z);
      ChunkCoordIsFloor(x);
      ChunkCoordIsFloor(y);
      ChunkCoordIsFloor(z);
      assert chunkPos in chunks ==> ChunkOk(chunks[chunkPos], chunkPos);
      var chunk := GetChunk(chunkPos);
      if chunk.None? {
        CreateChunk(chunkPos);
        chunk := GetChunk(chunkPos);
      }
      var cells := SetCell(chunk.value.cells, localPos.x, localPos.y, localPos.z, v);
      chunks := chunks[chunkPos := ChunkState(chunkPos, cells, ChunkMesh(cells, chunkPos))];
      assert chunks == SetVoxelIn(old(chunks), x, y, z, v);
      SetVoxelFacts(old(chunks), x, y, z, v);
    }

    /**
     * One write of a box-filling loop: the cell of iteration (i, j, k)
     * becomes `v`, which extends the written region by that cell.
     */
    method PaintCell(b: Box, v: Voxel, i: int, j: int, k: int, ghost base: Table, ghost keys: set<IVec3>)
      requires Valid() && Painted(chunks, base, b, v, i, j, k) && KeysWithin(chunks, base, keys)
      requires ChunkOf(b.x0 + i, b.y0 + j, b.z0 + k) in keys
      requires 0 <= i < b.nx && 0 <= j < b.ny && 0 <= k < b.nz && !(b.cut && Corner(b, b.x0 + i, b.z0 + k))
      requires SafePos(b.x0 + i, b.y0 + j, b.z0 + k)
      modifies this
      ensures Valid() && Painted(chunks, base, b, v, i, j, k + 1) && KeysWithin(chunks, base, keys)
    {
      ghost var before := chunks;
      SetVoxel(b.x0 + i, b.y0 + j, b.z0 + k, v);
      PaintStep(before, chunks, base, b, v, i, j, k);
    }

    /**
     * The stone loops of generateTestWorld for the chunk column (x, z):
     * every cell of its lower half becomes stone, nothing else changes.
     */
    method FillStone(x: int, z: int)
      requires Valid() && -1 <= x <= 1 && -1 <= z <= 1
      modifies this
      ensures Valid() && Painted(chunks, old(chunks), StoneBox(x, z), Block(STONE), CHUNK_SIZE, 0, 0)
      ensures KeysWithin(chunks, old(chunks), {IVec3(x, 0, z)})
    {
      var box := StoneBox(x, z);
      PaintStart(chunks, box, Block(STONE));
      var lx := 0;
      while lx < CHUNK_SIZE
        invariant 0 <= lx <= CHUNK_SIZE && Valid()
        invariant Painted(chunks, old(chunks), box, Block(STONE), lx, 0, 0)
        invariant KeysWithin(chunks, old(chunks), {IVec3(x, 0, z)})
      {
        var ly := 0;
        while ly < CHUNK_SIZE / 2
          invariant 0 <= ly <= CHUNK_SIZE / 2 && Valid()
          invariant Painted(chunks, old(chunks), box, Block(STONE), lx, ly, 0)
          invariant KeysWithin(chunks, old(chunks), {IVec3(x, 0, z)})
        {
          var lz := 0;
          while lz < CHUNK_SIZE
            invariant 0 <= lz <= CHUNK_SIZE && Valid()
            invariant Painted(chunks, old(chunks), box, Block(STONE), lx, ly, lz)
            invariant KeysWithin(chunks, old(chunks), {IVec3(x, 0, z)})
          {
            ColumnCellChunk(x, z, lx, ly, lz);
            PaintCell(box, Block(STONE), lx, ly, lz, old(chunks), {IVec3(x, 0, z)});
            lz := lz + 1;
          }
          PaintCarryZ(chunks, old(chunks), box, Block(STONE), lx, ly);
          ly := ly + 1;
        }
        PaintCarryY(chunks, old(chunks), box, Block(STONE), lx);
        lx := lx + 1;
      }
    }

    /** The dirt or grass loops of generateTestWorld: every cell of the column at height `y` becomes `b`. */
    method FillLayer(x: int, z: int, y: int, b: Voxel)
      requires Valid() && -1 <= x <= 1 && -1 <= z <= 1 && 0 <= y < CHUNK_SIZE
      modifies this
      ensures Valid() && Painted(chunks, old(chunks), LayerBox(x, z, y), b, CHUNK_SIZE, 0, 0)
      ensures KeysWithin(chunks, old(chunks), {IVec3(x, 0, z)})
    {
      var box := LayerBox(x, z, y);
      PaintStart(chunks, box, b);
      var lx := 0;
      while lx < CHUNK_SIZE
        invariant 0 <= lx <= CHUNK_SIZE && Valid()
        invariant Painted(chunks, old(chunks), box, b, lx, 0, 0)
        invariant KeysWithin(chunks, old(chunks), {IVec3(x, 0, z)})
      {
        var lz := 0;
        while lz < CHUNK_SIZE
          invariant 0 <= lz <= CHUNK_SIZE && Valid()
          invariant Painted(chunks, old(chunks), box, b, lx, 0, lz)
          invariant KeysWithin(chunks, old(chunks), {IVec3(x, 0, z)})
        {
          ColumnCellChunk(x, z, lx, y, lz);
          PaintCell(box, b, lx, 0, lz, old(chunks), {IVec3(x, 0, z)});
          lz := lz + 1;
        }
        PaintCarryZ(chunks, old(chunks), box, b, lx, 0);
        PaintCarryY(chunks, old(chunks), box, b, lx);
        lx := lx + 1;
      }
    }

    /** One chunk column of generateTestWorld: create the chunk, then stone, dirt and grass. */
    method FillColumn(x: int, z: int)
      requires Valid() && -1 <= x <= 1 && -1 <= z <= 1
      modifies this
      ensures Valid()
      ensures forall u, w, t ::
          VoxelAt(chunks, u, w, t) ==
            if InBox(u, w, t, x * CHUNK_SIZE, (x + 1) * CHUNK_SIZE, 0, CHUNK_SIZE / 2 + 2, z * CHUNK_SIZE, (z + 1) * CHUNK_SIZE)
            then Block(LayerType(w)) else VoxelAt(old(chunks), u, w, t)
      ensures chunks.Keys == old(chunks).Keys + {IVec3(x, 0, z)}
    {
      CreateChunk(IVec3(x, 0, z));
      CreateChunkFacts(old(chunks), IVec3(x, 0, z));
      ghost var created := chunks;
      FillStone(x, z);
      ghost var stone := chunks;
      var dirtLayer := CHUNK_SIZE / 2;
      FillLayer(x, z, dirtLayer, Block(DIRT));
      ghost var dirt := chunks;
      var grassLayer := dirtLayer + 1;
      FillLayer(x, z, grassLayer, Block(GRASS));
      PaintDone(stone, created, StoneBox(x, z), Block(STONE));
      PaintDone(dirt, stone, LayerBox(x, z, dirtLayer), Block(DIRT));
      PaintDone(chunks, dirt, LayerBox(x, z, grassLayer), Block(GRASS));
    }

    /** The trunk loop of the addTree lambda: five wood cells upward from height 10. */
    method PlaceTrunk(x: int, z: int)
      requires Valid() && -12 <= x <= 12 && -12 <= z <= 12
      modifies this
      ensures Valid() && Painted(chunks, old(chunks), TrunkBox(x, z), Block(WOOD), 1, 0, 0)
      ensures KeysWithin(chunks, old(chunks), TREE_CHUNKS)
    {
      var baseY := TREE_BASE;
      var box := TrunkBox(x, z);
      PaintStart(chunks, box, Block(WOOD));
      var y := 0;
      while y < 5
        invariant 0 <= y <= 5 && Valid()
        invariant Painted(chunks, old(chunks), box, Block(WOOD), 0, y, 0)
        invariant KeysWithin(chunks, old(chunks), TREE_CHUNKS)
      {
        TreeCellChunk(x, baseY + y, z);
        PaintCell(box, Block(WOOD), 0, y, 0, old(chunks), TREE_CHUNKS);
        PaintCarryZ(chunks, old(chunks), box, Block(WOOD), 0, y);
        y := y + 1;
      }
      PaintCarryY(chunks, old(chunks), box, Block(WOOD), 0);
    }

    /** One row of the leaf loops of the addTree lambda, skipping the canopy's corner columns. */
    method PlaceLeafRow(x: int, z: int, dx: int, dy: int, ghost base: Table)
      requires Valid() && -12 <= x <= 12 && -12 <= z <= 12 && -2 <= dx <= 2 && 3 <= dy <= 6
      requires Painted(chunks, base, CanopyBox(x, z), Block(LEAVES), dx + 2, dy - 3, 0)
      requires KeysWithin(chunks, base, TREE_CHUNKS)
      modifies this
      ensures Valid() && Painted(chunks, base, CanopyBox(x, z), Block(LEAVES), dx + 2, dy - 3, 5)
      ensures KeysWithin(chunks, base, TREE_CHUNKS)
    {
      var box := CanopyBox(x, z);
      var dz := -2;
      while dz <= 2
        invariant -2 <= dz <= 3 && Valid()
        invariant Painted(chunks, base, box, Block(LEAVES), dx + 2, dy - 3, dz + 2)
        invariant KeysWithin(chunks, base, TREE_CHUNKS)
      {
        if (dx == 2 || dx == -2) && (dz == 2 || dz == -2) {
          PaintSkip(chunks, base, box, Block(LEAVES), dx + 2, dy - 3, dz + 2);
          dz := dz + 1;
          continue;
        }
        TreeCellChunk(x + dx, TREE_BASE + dy, z + dz);
        PaintCell(box, Block(LEAVES), dx + 2, dy - 3, dz + 2, base, TREE_CHUNKS);
        dz := dz + 1;
      }
    }

    /** The leaf loops of the addTree lambda: a 5 by 4 by 5 block over the trunk without its corner columns. */
    method PlaceCanopy(x: int, z: int)
      requires Valid() && -12 <= x <= 12 && -12 <= z <= 12
      modifies this
      ensures Valid() && Painted(chunks, old(chunks), CanopyBox(x, z), Block(LEAVES), 5, 0, 0)
      ensures KeysWithin(chunks, old(chunks), TREE_CHUNKS)
    {
      var box := CanopyBox(x, z);
      PaintStart(chunks, box, Block(LEAVES));
      var dx := -2;
      while dx <= 2
        invariant -2 <= dx <= 3 && Valid()
        invariant Painted(chunks, old(chunks), box, Block(LEAVES), dx + 2, 0, 0)
        invariant KeysWithin(chunks, old(chunks), TREE_CHUNKS)
      {
        var dy := 3;
        while dy <= 6
          invariant 3 <= dy <= 7 && Valid()
          invariant Painted(chunks, old(chunks), box, Block(LEAVES), dx + 2, dy - 3, 0)
          invariant KeysWithin(chunks, old(chunks), TREE_CHUNKS)
        {
          PlaceLeafRow(x, z, dx, dy, old(chunks));
          PaintCarryZ(chunks, old(chunks), box, Block(LEAVES), dx + 2, dy - 3);
          dy := dy + 1;
        }
        PaintCarryY(chunks, old(chunks), box, Block(LEAVES), dx + 2);
        dx := dx + 1;
      }
    }

    /** The addTree lambda of generateTestWorld: a five-high trunk, then the leaves over its top. */
    method AddTree(x: int, z: int)
      requires Valid() && -12 <= x <= 12 && -12 <= z <= 12
      modifies this
      ensures Valid()
      ensures forall u, w, t :: VoxelAt(chunks, u, w, t) == TreeOver(old(chunks), x, z, u, w, t)
      ensures KeysWithin(chunks, old(chunks), TREE_CHUNKS)
    {
      PlaceTrunk(x, z);
      ghost var trunk := chunks;
      PlaceCanopy(x, z);
      PaintDone(trunk, old(chunks), TrunkBox(x, z), Block(WOOD));
      PaintDone(chunks, trunk, CanopyBox(x, z), Block(LEAVES));
    }

    /**
     * `generateTestWorld`: stone, dirt and grass in the 3x3 chunk columns
     * around the origin, then five trees standing on the grass. The trees
     * start above the grass, so the ground survives them, and their
     * canopies are disjoint, so every tree survives the later ones.
     */
    method GenerateTestWorld()
      requires Valid()
      modifies this
      ensures Valid() && Ground(chunks)
      ensures TreeAt(chunks, 0, 0) && TreeAt(chunks, 10, 10) && TreeAt(chunks, -10, -10)
      ensures TreeAt(chunks, 10, -10) && TreeAt(chunks, -10, 10)
      ensures chunks.Keys == old(chunks).Keys + TEST_WORLD_CHUNKS
      ensures forall u, w, t ::
        (!InBox(u, w, t, -CHUNK_SIZE, 2 * CHUNK_SIZE, 0, CHUNK_SIZE / 2 + 2, -CHUNK_SIZE, 2 * CHUNK_SIZE) && !InTestTree(u, w, t)) ==>
          VoxelAt(chunks, u, w, t) == VoxelAt(old(chunks), u, w, t)
    {
      var x := -1;
      while x <= 1
        invariant -1 <= x <= 2 && Valid() && KeysWithin(chunks, old(chunks), GROUND_CHUNKS)
        invariant forall u, w, t :: !InBox(u, w, t, -CHUNK_SIZE, 2 * CHUNK_SIZE, 0, CHUNK_SIZE / 2 + 2, -CHUNK_SIZE, 2 * CHUNK_SIZE) ==>
          VoxelAt(chunks, u, w, t) == VoxelAt(old(chunks), u, w, t)
        invariant forall u, w, t :: InBox(u, w, t, -CHUNK_SIZE, x * CHUNK_SIZE, 0, CHUNK_SIZE / 2 + 2, -CHUNK_SIZE, 2 * CHUNK_SIZE) ==>
          VoxelAt(chunks, u, w, t) == Block(LayerType(w))
      {
        var z := -1;
        while z <= 1
          invariant -1 <= z <= 2 && Valid() && KeysWithin(chunks, old(chunks), GROUND_CHUNKS)
          invariant forall u, w, t :: !InBox(u, w, t, -CHUNK_SIZE, 2 * CHUNK_SIZE, 0, CHUNK_SIZE / 2 + 2, -CHUNK_SIZE, 2 * CHUNK_SIZE) ==>
            VoxelAt(chunks, u, w, t) == VoxelAt(old(chunks), u, w, t)
          invariant forall u, w, t :: InBox(u, w, t, -CHUNK_SIZE, x * CHUNK_SIZE, 0, CHUNK_SIZE / 2 + 2, -CHUNK_SIZE, 2 * CHUNK_SIZE) ==>
            VoxelAt(chunks, u, w, t) == Block(LayerType(w))
          invariant forall u, w, t :: InBox(u, w, t, x * CHUNK_SIZE, (x + 1) * CHUNK_SIZE, 0, CHUNK_SIZE / 2 + 2, -CHUNK_SIZE, z * CHUNK_SIZE) ==>
            VoxelAt(chunks, u, w, t) == Block(LayerType(w))
        {
          assert IVec3(x, 0, z) in GROUND_CHUNKS;
          FillColumn(x, z);
          z := z + 1;
        }
        x := x + 1;
      }
      ghost var ground := chunks;
      AddTree(0, 0);
      ghost var t1 := chunks;
      AddTree(10, 10);
      ghost var t2 := chunks;
      AddTree(-10, -10);
      ghost var t3 := chunks;
      AddTree(10, -10);
      ghost var t4 := chunks;
      AddTree(-10, 10);
      TreesFacts(ground, t1, t2, t3, t4, chunks);
      TestWorldKeys(old(chunks), ground, t1, t2, t3, t4, chunks);
    }
  }
}
