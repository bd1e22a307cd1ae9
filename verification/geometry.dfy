/** Triples, 3x3 matrices and the geometric description of a volume. */
module Geometry {

  /** Three reals. In ITK's axis order `c0` is x and `c2` is z; in the canonical order used for
      assembled volumes `c0` is z and `c2` is x. */
  datatype Vec3 = Vec3(c0: real, c1: real, c2: real)

  /** A 3x3 matrix stored by rows. */
  datatype Mat3 = Mat3(r0: Vec3, r1: Vec3, r2: Vec3)

  /** The voxel counts ITK reports for an image, in ITK's (x, y, z) order. */
  datatype Size3 = Size3(x: nat, y: nat, z: nat)

  /** The dimension of an assembled volume in canonical (z, y, x) order. */
  datatype Dimension = Dimension(slices: nat, rows: nat, columns: nat)

  /** Where a volume sits in space: all in canonical (z, y, x) order. */
  datatype ImageGeometry = ImageGeometry(origin: Vec3, spacing: Vec3, orientation: Mat3, dimension: Dimension)

  /** Component `k` of a triple. */
  function Component(v: Vec3, k: nat): real
    requires k < 3
  {
    if k == 0 then v.c0 else if k == 1 then v.c1 else v.c2
  }

  /** Row `i` of a matrix. */
  function Row(m: Mat3, i: nat): Vec3
    requires i < 3
  {
    if i == 0 then m.r0 else if i == 1 then m.r1 else m.r2
  }

  /** Entry `(i, j)` of a matrix. */
  function Entry(m: Mat3, i: nat, j: nat): real
    requires i < 3 && j < 3
  {
    Component(Row(m, i), j)
  }

  /** `v[::-1]`: the triple in the opposite axis order. */
  function Reverse(v: Vec3): (r: Vec3)
    ensures forall k :: 0 <= k < 3 ==> Component(r, k) == Component(v, 2 - k)
  {
    Vec3(v.c2, v.c1, v.c0)
  }

  /** `v / s` for a triple and a non-zero scalar. */
  function Divide(v: Vec3, s: real): (r: Vec3)
    requires s != 0.0
    ensures forall k :: 0 <= k < 3 ==> Component(r, k) == Component(v, k) / s
  {
    Vec3(v.c0 / s, v.c1 / s, v.c2 / s)
  }
}
