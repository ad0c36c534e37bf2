/** Geometry of the seven-floor building: where each floor slab and each of
    its five markers is placed when the scene is built. Distances are world
    units; the source's literals (3, 1.5, 0.75) are exact rationals, so they
    are modelled as `real`. */
module Layout {

  /** A point in world space (Three.js `Vector3`). */
  datatype Vec3 = Vec3(x: real, y: real, z: real)

  /** Every newly created mesh sits at the origin. */
  const Origin: Vec3 := Vec3(0.0, 0.0, 0.0)

  /** Number of floor slabs in the building. */
  const FloorCount: nat := 7
  /** Vertical distance between two consecutive floor slabs. */
  const FloorSpacing: real := 3.0
  /** Number of markers created on each floor. */
  const MarkersPerFloor: nat := 5
  /** Horizontal distance between two neighbouring markers of one floor. */
  const MarkerSpacing: real := 1.5
  /** Height of a marker above its floor slab. */
  const MarkerLift: real := 0.75

  /** Height of floor `i`: floor `i` is built by `createFloor(i * 3)`. */
  function FloorY(i: nat): (y: real)
    ensures y == i as real * FloorSpacing
    ensures y >= 0.0
  {
    (i * 3) as real
  }

  /** Position of floor slab `i`: only its height is set, x and z stay 0. */
  function FloorPosition(i: nat): (p: Vec3)
    ensures p.x == 0.0 && p.z == 0.0 && p.y == FloorY(i)
  {
    Origin.(y := FloorY(i))
  }

  /** Offset of marker `k` from the position of its floor. */
  function MarkerOffset(k: nat): (d: Vec3)
    ensures d.x == (k as real - 2.0) * MarkerSpacing
    ensures d.y == MarkerLift && d.z == 0.0
  {
    Vec3((k as int - 2) as real * 1.5, 0.75, 0.0)
  }

  /** Position of marker `k` of the floor that sits at `floor`: a copy of the
      floor's position moved by the marker's offset. */
  function MarkerPosition(floor: Vec3, k: nat): (p: Vec3)
    ensures p.x - floor.x == MarkerOffset(k).x
    ensures p.y - floor.y == MarkerLift
    ensures p.z == floor.z
  {
    var d := MarkerOffset(k);
    Vec3(floor.x + d.x, floor.y + d.y, floor.z + d.z)
  }

  /** Floors are stacked in index order: a higher index is strictly higher,
      one `FloorSpacing` per index. */
  lemma FloorsAscend(i: nat, j: nat)
    requires i < j
    ensures FloorY(i) < FloorY(j)
    ensures FloorY(j) - FloorY(i) == (j - i) as real * FloorSpacing
  {
  }

  /** The five markers of a floor are spread symmetrically about the floor's
      centre: marker `k` and marker `4 - k` sit at opposite x offsets, and the
      middle marker sits straight above the centre. */
  lemma MarkersSymmetric(k: nat)
    requires k < MarkersPerFloor
    ensures MarkerOffset(k).x == -MarkerOffset(MarkersPerFloor - 1 - k).x
    ensures MarkerOffset(2).x == 0.0
  {
  }

  /** The x offsets of a floor's markers run from -3 to 3 in equal steps, so
      no two markers of one floor share a position. */
  lemma MarkersDistinct(floor: Vec3, k: nat, l: nat)
    requires k < MarkersPerFloor && l < MarkersPerFloor && k != l
    ensures MarkerPosition(floor, k) != MarkerPosition(floor, l)
    ensures -3.0 <= MarkerOffset(k).x <= 3.0
  {
  }

  /** Markers of different floors never coincide either: they are at the
      heights of their floors plus the same lift. */
  lemma MarkersOfFloorsDistinct(i: nat, j: nat, k: nat, l: nat)
    requires i != j
    ensures MarkerPosition(FloorPosition(i), k) != MarkerPosition(FloorPosition(j), l)
  {
  }
}
