/** The orientation matrix of an assembled stack (`ImageITKFileStack.complete`, lines 88-101). */
module Orientation {
  import opened Rounding
  import opened Geometry
  import SliceOrdering

  /** `np.reshape(np.ravel(m)[::-1], [3, 3])`: the direction matrix flattened, reversed and
      reshaped, which turns ITK (x, y, z) axes into canonical (z, y, x) axes on both sides. */
  function ReverseFlatten(m: Mat3): (r: Mat3)
    ensures forall i, j :: 0 <= i < 3 && 0 <= j < 3 ==> Entry(r, i, j) == Entry(m, 2 - i, 2 - j)
  {
    Mat3(Reverse(m.r2), Reverse(m.r1), Reverse(m.r0))
  }

  /** Reversing twice gives the matrix back. */
  lemma ReverseFlattenInvolution(m: Mat3)
    ensures ReverseFlatten(ReverseFlatten(m)) == m
  {
  }

  /** `np.diff` of axis `k` of the positions. */
  function Steps(ps: seq<Vec3>, k: nat): (d: seq<real>)
    requires 1 <= |ps| && k < 3
    ensures |d| == |ps| - 1
    ensures forall i :: 0 <= i < |d| ==> d[i] == Component(ps[i + 1], k) - Component(ps[i], k)
  {
    seq(|ps| - 1, i requires 0 <= i < |ps| - 1 => Component(ps[i + 1], k) - Component(ps[i], k))
  }

  /** `np.min(np.diff(...))` along axis `k`: the smallest step between consecutive positions. */
  function MinStep(ps: seq<Vec3>, k: nat): (m: real)
    requires 2 <= |ps| && k < 3
    ensures m in Steps(ps, k)
    ensures forall i :: 0 <= i < |ps| - 1 ==> m <= Steps(ps, k)[i]
  {
    SliceOrdering.Min(Steps(ps, k))
  }

  /** Lines 93-97: the z-row, made of the smallest step along each canonical axis, rounded to five
      decimals, divided by the resolved slice spacing. */
  function ZRow(ps: seq<Vec3>, spacing: real): (z: Vec3)
    requires 2 <= |ps| && spacing != 0.0
    ensures z.c0 == Around5(MinStep(ps, 0)) / spacing
    ensures z.c1 == Around5(MinStep(ps, 1)) / spacing
    ensures z.c2 == Around5(MinStep(ps, 2)) / spacing
  {
    Divide(Vec3(Around5(MinStep(ps, 0)), Around5(MinStep(ps, 1)), Around5(MinStep(ps, 2))), spacing)
  }

  /** Lines 89-101: the reversed direction matrix of the first slice with its row 0 replaced by the
      z-row. */
  function StackOrientation(direction: Mat3, ps: seq<Vec3>, spacing: real): (o: Mat3)
    requires 2 <= |ps| && spacing != 0.0
    ensures o.r0 == ZRow(ps, spacing)
    ensures forall i, j :: 1 <= i < 3 && 0 <= j < 3 ==> Entry(o, i, j) == Entry(direction, 2 - i, 2 - j)
  {
    ReverseFlatten(direction).(r0 := ZRow(ps, spacing))
  }

  /** Positions ascending along z give a z-row whose z component is not negative. */
  lemma ZRowAlongStack(ps: seq<Vec3>, spacing: real)
    requires 2 <= |ps| && 0.0 < spacing
    requires forall i, j :: 0 <= i <= j < |ps| ==> ps[i].c0 <= ps[j].c0
    ensures 0.0 <= ZRow(ps, spacing).c0
  {
    var m := MinStep(ps, 0);
    var d := Steps(ps, 0);
    var i :| 0 <= i < |d| && d[i] == m;
    assert d[i] == ps[i + 1].c0 - ps[i].c0;
    assert 0.0 <= m;
    QuotientNonNegative(Around5(m), spacing);
  }

  lemma QuotientNonNegative(a: real, s: real)
    requires 0.0 <= a && 0.0 < s
    ensures 0.0 <= a / s
  {
    SliceOrdering.DivideCompare(a, s, 0.0);
  }

  /** Equal steps along an axis: the smallest step is that step. */
  lemma EqualStepsMin(ps: seq<Vec3>, k: nat, c: real)
    requires 2 <= |ps| && k < 3
    requires forall i :: 0 <= i < |ps| - 1 ==> Steps(ps, k)[i] == c
    ensures MinStep(ps, k) == c
  {
    var d := Steps(ps, k);
    var i :| 0 <= i < |d| && d[i] == MinStep(ps, k);
  }

  lemma UnitQuotients(a: real)
    requires a != 0.0
    ensures a / a == 1.0 && 0.0 / a == 0.0
  {
  }

  /** A stack running straight along z in equal steps `s`, with the slice spacing resolved from
      those steps: the z-row is the unit vector along z. */
  lemma StraightStackZRow(ps: seq<Vec3>, s: real)
    requires 2 <= |ps| && Around5(s) != 0.0
    requires forall i :: 0 <= i < |ps| - 1 ==> Steps(ps, 0)[i] == s
    requires forall i :: 0 <= i < |ps| - 1 ==> Steps(ps, 1)[i] == 0.0
    requires forall i :: 0 <= i < |ps| - 1 ==> Steps(ps, 2)[i] == 0.0
    ensures ZRow(ps, Around5(s)) == Vec3(1.0, 0.0, 0.0)
  {
    EqualStepsMin(ps, 0, s);
    EqualStepsMin(ps, 1, 0.0);
    EqualStepsMin(ps, 2, 0.0);
    Around5Zero();
    UnitQuotients(Around5(s));
  }

  /** Three slices one unit apart along z with identity direction cosines: the orientation is the
      identity matrix. */
  lemma UnitStackOrientation()
    ensures var identity := Mat3(Vec3(1.0, 0.0, 0.0), Vec3(0.0, 1.0, 0.0), Vec3(0.0, 0.0, 1.0));
      StackOrientation(identity, [Vec3(0.0, 0.0, 0.0), Vec3(1.0, 0.0, 0.0), Vec3(2.0, 0.0, 0.0)], 1.0)
        == identity
  {
    var ps := [Vec3(0.0, 0.0, 0.0), Vec3(1.0, 0.0, 0.0), Vec3(2.0, 0.0, 0.0)];
    assert Steps(ps, 0) == [1.0, 1.0];
    assert Steps(ps, 1) == [0.0, 0.0];
    assert Steps(ps, 2) == [0.0, 0.0];
    Around5Fixed(1.0);
    Around5Fixed(0.0);
  }
}
