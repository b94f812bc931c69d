/**
 * The dense-world voxel (Voxel.h): a block type, a solidity flag and a base
 * colour. Colours are glm::vec3 floats, held here as exact reals.
 */
module Voxels {
  /** The six block types, in declaration order. */
  datatype VoxelType = AIR | DIRT | GRASS | STONE | WOOD | LEAVES

  datatype Color = Color(r: real, g: real, b: real)

  datatype Voxel = Voxel(vtype: VoxelType, isActive: bool, color: Color)

  const WHITE: Color := Color(1.0, 1.0, 1.0)

  /** The enumerator's underlying value. */
  function Ordinal(t: VoxelType): (n: nat)
    ensures n < 6
  {
    match t
    case AIR => 0
    case DIRT => 1
    case GRASS => 2
    case STONE => 3
    case WOOD => 4
    case LEAVES => 5
  }

  /** The enumerator with underlying value `n`. */
  function TypeOf(n: nat): VoxelType
    requires n < 6
  {
    [AIR, DIRT, GRASS, STONE, WOOD, LEAVES][n]
  }

  /** The enumeration has exactly six values, numbered 0 to 5 in declaration order. */
  lemma OrdinalBijective()
    ensures forall t: VoxelType :: TypeOf(Ordinal(t)) == t
    ensures forall n: nat :: n < 6 ==> Ordinal(TypeOf(n)) == n
  {
    forall t: VoxelType ensures TypeOf(Ordinal(t)) == t {
      match t
      case AIR =>
      case DIRT =>
      case GRASS =>
      case STONE =>
      case WOOD =>
      case LEAVES =>
    }
  }

  /** A voxel is solid exactly when it is not air: the rule both constructors establish. */
  predicate Consistent(v: Voxel) {
    v.isActive <==> v.vtype != AIR
  }

  /** `Voxel()`: air, inactive, white. */
  function DefaultVoxel(): (v: Voxel)
    ensures Consistent(v) && v.vtype == AIR && v.color == WHITE
  {
    Voxel(AIR, false, WHITE)
  }

  /** `Voxel(t, c)`: the type and colour given, solid unless the type is air. */
  function MakeVoxel(t: VoxelType, c: Color): (v: Voxel)
    ensures Consistent(v) && v.vtype == t && v.color == c
  {
    Voxel(t, t != AIR, c)
  }

  /** `getDefaultColor`: the colour table; air and any unlisted type are white. */
  function DefaultColor(t: VoxelType): Color {
    match t
    case DIRT => Color(0.6, 0.3, 0.0)
    case GRASS => Color(0.0, 0.8, 0.0)
    case STONE => Color(0.5, 0.5, 0.5)
    case WOOD => Color(0.6, 0.4, 0.2)
    case LEAVES => Color(0.0, 0.6, 0.0)
    case AIR => WHITE
  }

  /** Only air maps to white, and the five solid types have pairwise different colours. */
  lemma DefaultColorsDistinct(s: VoxelType, t: VoxelType)
    ensures DefaultColor(s) == WHITE <==> s == AIR
    ensures DefaultColor(s) == DefaultColor(t) ==> s == t
  {
  }

  /** A voxel made from a type and its default colour, as the world generator builds them. */
  function Block(t: VoxelType): (v: Voxel)
    ensures Consistent(v) && v.vtype == t && (v.isActive <==> t != AIR)
  {
    MakeVoxel(t, DefaultColor(t))
  }
}
