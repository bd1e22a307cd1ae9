/** Ordering slices by position and resolving the distance between them
    (`ImageITKFileStack.complete`, lines 27-79). */
module SliceOrdering {
  import opened Results
  import opened Rounding
  import opened Geometry

  /** Why a slice stack cannot be assembled. */
  datatype StackError =
    | EmptyStack        // no slice files: there is no first file to read the origin from
    | SingleSlice       // one slice: there is no gap to take the minimum of
    | CoincidentSlices  // the smallest gap is not positive: two slices share a position
    | ZeroSliceSpacing  // the resolved spacing rounds to zero, and the z-row divides by it

  /** A gap more than this many times the smallest gap marks the stack as irregular. */
  const IrregularThreshold: real := 1.2

  // ---------------------------------------------------------------------------------------------
  // The position table and its order

  /** One row of the position table: the slice's index in the input collection and its origin in
      canonical (z, y, x) order. */
  datatype PositionRow = PositionRow(order: nat, z: real, y: real, x: real)

  function Position(row: PositionRow): Vec3 {
    Vec3(row.z, row.y, row.x)
  }

  /** Strict lexicographic order on canonical positions: by z, then y, then x. */
  predicate PositionBefore(p: Vec3, q: Vec3) {
    || p.c0 < q.c0
    || (p.c0 == q.c0 && p.c1 < q.c1)
    || (p.c0 == q.c0 && p.c1 == q.c1 && p.c2 < q.c2)
  }

  predicate PositionAtMost(p: Vec3, q: Vec3) {
    PositionBefore(p, q) || p == q
  }

  /** The order a stable sort by (z, y, x) leaves rows in: by position, and rows at the same
      position in their input order. */
  predicate RowBefore(a: PositionRow, b: PositionRow) {
    || PositionBefore(Position(a), Position(b))
    || (Position(a) == Position(b) && a.order < b.order)
  }

  lemma RowBeforeTransitive(a: PositionRow, b: PositionRow, c: PositionRow)
    requires RowBefore(a, b) && RowBefore(b, c)
    ensures RowBefore(a, c)
  {
  }

  lemma RowBeforeTotal(a: PositionRow, b: PositionRow)
    requires a != b
    ensures RowBefore(a, b) || RowBefore(b, a)
  {
  }

  predicate DistinctRows(t: seq<PositionRow>) {
    forall i, j :: 0 <= i < j < |t| ==> t[i] != t[j]
  }

  predicate StrictlySorted(t: seq<PositionRow>) {
    forall i, j :: 0 <= i < j < |t| ==> RowBefore(t[i], t[j])
  }

  /** The position table built from the slice origins, each reversed from ITK (x, y, z) order. */
  function PositionTable(origins: seq<Vec3>): (t: seq<PositionRow>)
    ensures |t| == |origins|
    ensures forall i :: 0 <= i < |t| ==> t[i].order == i && Position(t[i]) == Reverse(origins[i])
    ensures DistinctRows(t)
  {
    seq(|origins|, i requires 0 <= i < |origins| =>
      PositionRow(i, origins[i].c2, origins[i].c1, origins[i].c0))
  }

  /** Inserts a row into a sorted table. */
  function Insert(row: PositionRow, t: seq<PositionRow>): (r: seq<PositionRow>)
    requires StrictlySorted(t)
    requires row !in t
    ensures StrictlySorted(r)
    ensures multiset(r) == multiset(t) + multiset{row}
    decreases |t|
  {
    if |t| == 0 then [row]
    else if RowBefore(row, t[0]) then
      assert forall j :: 0 < j < |t| ==> RowBefore(row, t[j]) by {
        forall j | 0 < j < |t| {
          RowBeforeTransitive(row, t[0], t[j]);
        }
      }
      [row] + t
    else
      RowBeforeTotal(row, t[0]);
      var rest := Insert(row, t[1..]);
      assert t == [t[0]] + t[1..];
      forall k | 0 <= k < |rest|
        ensures RowBefore(t[0], rest[k])
      {
        assert rest[k] in multiset(rest);
        if rest[k] != row {
          assert rest[k] in multiset(t[1..]);
          var j :| 0 <= j < |t[1..]| && t[1..][j] == rest[k];
          assert t[j + 1] == rest[k];
        }
      }
      [t[0]] + rest
  }

  /** `sort_values(by=["position_z", "position_y", "position_x"])`: the table in ascending
      position order. */
  function SortRows(t: seq<PositionRow>): (r: seq<PositionRow>)
    requires DistinctRows(t)
    ensures StrictlySorted(r)
    ensures multiset(r) == multiset(t)
    ensures |r| == |t|
    decreases |t|
  {
    if |t| == 0 then []
    else
      var init := t[..|t| - 1];
      var last := t[|t| - 1];
      DistinctInit(t);
      var sorted := SortRows(init);
      assert last !in sorted by {
        LastNotInInit(t);
        assert last !in multiset(init);
      }
      assert multiset(t) == multiset(init) + multiset{last} by {
        assert t == init + [last];
      }
      Insert(last, sorted)
  }

  lemma DistinctInit(t: seq<PositionRow>)
    requires DistinctRows(t) && |t| > 0
    ensures DistinctRows(t[..|t| - 1])
  {
  }

  lemma LastNotInInit(t: seq<PositionRow>)
    requires DistinctRows(t) && |t| > 0
    ensures t[|t| - 1] !in t[..|t| - 1]
  {
  }

  /** The sorted table orders positions lexicographically by (z, y, x). */
  lemma SortedPositionsAscend(t: seq<PositionRow>, i: int, j: int)
    requires StrictlySorted(t)
    requires 0 <= i <= j < |t|
    ensures PositionAtMost(Position(t[i]), Position(t[j]))
  {
  }

  /** The positions column of a table, in table order. */
  function Positions(t: seq<PositionRow>): (ps: seq<Vec3>)
    ensures |ps| == |t|
  {
    seq(|t|, i requires 0 <= i < |t| => Position(t[i]))
  }

  // ---------------------------------------------------------------------------------------------
  // Gaps between consecutive slices

  /** What the model needs of the Euclidean distance between slice origins (the square root of
      the summed squared per-axis differences): it is non-negative, and zero exactly between equal
      positions. */
  ghost predicate IsDistance(distance: (Vec3, Vec3) -> real) {
    forall p, q :: 0.0 <= distance(p, q) && (distance(p, q) == 0.0 <==> p == q)
  }

  /** The distances between consecutive positions. */
  function Gaps(ps: seq<Vec3>, distance: (Vec3, Vec3) -> real): (g: seq<real>)
    ensures |g| == if |ps| == 0 then 0 else |ps| - 1
    ensures forall i :: 0 <= i < |g| ==> g[i] == distance(ps[i], ps[i + 1])
  {
    if |ps| == 0 then []
    else seq(|ps| - 1, i requires 0 <= i < |ps| - 1 => distance(ps[i], ps[i + 1]))
  }

  // ---------------------------------------------------------------------------------------------
  // Reductions over sequences of reals

  /** `np.min`. */
  function Min(s: seq<real>): (m: real)
    requires |s| > 0
    ensures m in s
    ensures forall i :: 0 <= i < |s| ==> m <= s[i]
  {
    if |s| == 1 then s[0]
    else
      var rest := Min(s[1..]);
      if s[0] <= rest then s[0] else rest
  }

  /** The sum of a sequence, added up from the front. */
  function Sum(s: seq<real>): real
    decreases |s|
  {
    if |s| == 0 then 0.0 else Sum(s[..|s| - 1]) + s[|s| - 1]
  }

  /** `np.mean` of a non-empty sequence. */
  function Mean(s: seq<real>): (m: real)
    requires |s| > 0
    ensures m * |s| as real == Sum(s)
  {
    Sum(s) / |s| as real
  }

  lemma {:induction false} SumBounds(s: seq<real>, lo: real, hi: real)
    requires forall i :: 0 <= i < |s| ==> lo <= s[i] <= hi
    ensures |s| as real * lo <= Sum(s) <= |s| as real * hi
    decreases |s|
  {
    if |s| > 0 {
      var init := s[..|s| - 1];
      SumBounds(init, lo, hi);
      assert |s| as real * lo == |init| as real * lo + lo;
      assert |s| as real * hi == |init| as real * hi + hi;
    }
  }

  /** The mean of values in `[lo, hi]` lies in `[lo, hi]`. */
  lemma MeanBounds(s: seq<real>, lo: real, hi: real)
    requires |s| > 0
    requires forall i :: 0 <= i < |s| ==> lo <= s[i] <= hi
    ensures lo <= Mean(s) <= hi
  {
    SumBounds(s, lo, hi);
    var n := |s| as real;
    assert Sum(s) / n >= n * lo / n;
    assert Sum(s) / n <= n * hi / n;
  }

  /** Comparing a quotient by a positive divisor is comparing the dividend with the scaled bound. */
  lemma DivideCompare(a: real, m: real, t: real)
    requires 0.0 < m
    ensures a / m * m == a
    ensures a / m > t <==> a > t * m
    ensures a / m == t <==> a == t * m
  {
    var q := a / m;
    assert q * m == a;
    assert (q - t) * m == a - t * m;
    if q > t {
      assert (q - t) * m > 0.0;
    } else if q < t {
      assert (t - q) * m > 0.0;
    }
  }

  /** `values[mask]`: the values whose mask entry is true, in order. */
  function Select(values: seq<real>, mask: seq<bool>): (r: seq<real>)
    requires |values| == |mask|
    ensures |r| <= |values|
    ensures forall i :: 0 <= i < |values| && mask[i] ==> values[i] in r
    decreases |values|
  {
    if |values| == 0 then []
    else
      var rest := Select(values[1..], mask[1..]);
      var r := if mask[0] then [values[0]] + rest else rest;
      forall i | 1 <= i < |values| && mask[i]
        ensures values[i] in r
      {
        assert values[1..][i - 1] == values[i] && mask[1..][i - 1];
      }
      r
  }

  /** Only masked values are selected: if they all lie in `[lo, hi]`, so does the selection. */
  lemma {:induction false} SelectWithin(values: seq<real>, mask: seq<bool>, lo: real, hi: real)
    requires |values| == |mask|
    requires forall i :: 0 <= i < |values| && mask[i] ==> lo <= values[i] <= hi
    ensures forall k :: 0 <= k < |Select(values, mask)| ==> lo <= Select(values, mask)[k] <= hi
    decreases |values|
  {
    if |values| > 0 {
      assert forall i :: 0 <= i < |values| - 1 && mask[1..][i] ==> lo <= values[1..][i] <= hi by {
        forall i | 0 <= i < |values| - 1 && mask[1..][i]
          ensures lo <= values[1..][i] <= hi
        {
          assert values[1..][i] == values[i + 1] && mask[1..][i] == mask[i + 1];
        }
      }
      SelectWithin(values[1..], mask[1..], lo, hi);
    }
  }

  /** `x` is one of the values whose mask entry is true. */
  predicate MaskedValue(values: seq<real>, mask: seq<bool>, x: real)
    requires |values| == |mask|
  {
    exists i :: 0 <= i < |values| && mask[i] && values[i] == x
  }

  /** Every selected value comes from a position whose mask entry is true. */
  lemma {:induction false} SelectOnlyMasked(values: seq<real>, mask: seq<bool>)
    requires |values| == |mask|
    ensures forall k :: 0 <= k < |Select(values, mask)| ==> MaskedValue(values, mask, Select(values, mask)[k])
    decreases |values|
  {
    if |values| > 0 {
      var rest := Select(values[1..], mask[1..]);
      SelectOnlyMasked(values[1..], mask[1..]);
      var r := Select(values, mask);
      assert r == if mask[0] then [values[0]] + rest else rest;
      forall k | 0 <= k < |r|
        ensures MaskedValue(values, mask, r[k])
      {
        var j := if mask[0] then k - 1 else k;
        if j < 0 {
          assert values[0] == r[k];
        } else {
          assert r[k] == rest[j];
          assert MaskedValue(values[1..], mask[1..], rest[j]);
          var i :| 0 <= i < |values| - 1 && mask[1..][i] && values[1..][i] == rest[j];
          assert mask[i + 1] && values[i + 1] == r[k];
        }
      }
    }
  }

  /** With every mask entry true, the selection is the whole sequence. */
  lemma {:induction false} SelectAll(values: seq<real>, mask: seq<bool>)
    requires |values| == |mask|
    requires forall i :: 0 <= i < |mask| ==> mask[i]
    ensures Select(values, mask) == values
    decreases |values|
  {
    if |values| > 0 {
      assert forall i :: 0 <= i < |mask| - 1 ==> mask[1..][i] by {
        forall i | 0 <= i < |mask| - 1
          ensures mask[1..][i]
        {
          assert mask[1..][i] == mask[i + 1];
        }
      }
      SelectAll(values[1..], mask[1..]);
      assert values == [values[0]] + values[1..];
    }
  }

  /** `np.any(s > bound)`. */
  function AnyAbove(s: seq<real>, bound: real): (b: bool)
    ensures b <==> exists i :: 0 <= i < |s| && s[i] > bound
    decreases |s|
  {
    if |s| == 0 then false
    else if s[0] > bound then true
    else
      var rest := AnyAbove(s[1..], bound);
      assert rest <==> exists i :: 1 <= i < |s| && s[i] > bound by {
        if rest {
          var i :| 0 <= i < |s| - 1 && s[1..][i] > bound;
          assert s[i + 1] > bound;
        }
        forall i | 1 <= i < |s| && s[i] > bound
          ensures rest
        {
          assert s[1..][i - 1] > bound;
        }
      }
      rest
  }

  /** `np.cumsum(np.insert(np.around(g, 5), 0, 0.0))`: the position of every slice along the stack
      relative to the first, from the rounded gaps. */
  function CumulativePositions(g: seq<real>): (p: seq<real>)
    ensures |p| == |g| + 1
    ensures p[0] == 0.0
    ensures forall i :: 0 <= i < |g| ==> p[i + 1] == p[i] + Around5(g[i])
    decreases |g|
  {
    if |g| == 0 then [0.0]
    else
      var init := CumulativePositions(g[..|g| - 1]);
      init + [init[|g| - 1] + Around5(g[|g| - 1])]
  }

  /** The gaps each rounded to five decimals. */
  function RoundedGaps(g: seq<real>): (r: seq<real>)
    ensures |r| == |g|
  {
    seq(|g|, i requires 0 <= i < |g| => Around5(g[i]))
  }

  /** Each slice position is the sum of the rounded gaps below it. */
  lemma {:induction false} CumulativePositionsAreSums(g: seq<real>, i: int)
    requires 0 <= i <= |g|
    ensures CumulativePositions(g)[i] == Sum(RoundedGaps(g[..i]))
    decreases i
  {
    if i > 0 {
      CumulativePositionsAreSums(g, i - 1);
      assert RoundedGaps(g[..i])[..i - 1] == RoundedGaps(g[..i - 1]);
    }
  }

  /** Slice positions never decrease, since gaps are distances. */
  lemma {:induction false} CumulativePositionsAscend(g: seq<real>, i: int, j: int)
    requires forall k :: 0 <= k < |g| ==> 0.0 <= g[k]
    requires 0 <= i <= j <= |g|
    ensures CumulativePositions(g)[i] <= CumulativePositions(g)[j]
    decreases j - i
  {
    if i < j {
      CumulativePositionsAscend(g, i, j - 1);
    }
  }

  // ---------------------------------------------------------------------------------------------
  // Resolving the slice spacing

  /** What lines 62-79 decide about the gaps. */
  datatype SpacingDecision = SpacingDecision(
    minGap: real,                         // the smallest gap
    multipliers: seq<real>,               // each gap divided by the smallest
    irregular: bool,                      // whether the inconsistent-distance warning is raised
    slicePositions: Option<seq<real>>,    // assigned only when irregular
    sliceSpacing: real)                   // the resolved distance between slices

  /** The gaps within the threshold of the smallest gap `m`, i.e. not taken to hide missing slices. */
  function RegularGaps(g: seq<real>, m: real): seq<real> {
    Select(g, RegularMask(g, m))
  }

  /** Which gaps are within the threshold of `m`. */
  function RegularMask(g: seq<real>, m: real): (mask: seq<bool>)
    ensures |mask| == |g|
    ensures forall i :: 0 <= i < |g| ==> (mask[i] <==> g[i] <= IrregularThreshold * m)
  {
    seq(|g|, i requires 0 <= i < |g| => g[i] <= IrregularThreshold * m)
  }

  /** `s <= bound`, element by element. */
  function AtMost(s: seq<real>, bound: real): (mask: seq<bool>)
    ensures |mask| == |s|
    ensures forall i :: 0 <= i < |s| ==> (mask[i] <==> s[i] <= bound)
  {
    seq(|s|, i requires 0 <= i < |s| => s[i] <= bound)
  }

  /** `image_slice_spacing / min_slice_spacing`: each gap as a multiple of the smallest. */
  function Multipliers(g: seq<real>, m: real): (ms: seq<real>)
    requires 0.0 < m
    ensures |ms| == |g|
    ensures forall i :: 0 <= i < |g| ==> ms[i] == g[i] / m
    ensures forall i :: 0 <= i < |g| ==> (ms[i] > IrregularThreshold <==> g[i] > IrregularThreshold * m)
    ensures forall i :: 0 <= i < |g| ==> (1.0 <= ms[i] <==> m <= g[i])
    ensures forall i :: 0 <= i < |g| ==> (ms[i] == 1.0 <==> g[i] == m)
  {
    var ms := seq(|g|, i requires 0 <= i < |g| => g[i] / m);
    forall i | 0 <= i < |g|
      ensures ms[i] > IrregularThreshold <==> g[i] > IrregularThreshold * m
      ensures 1.0 <= ms[i] <==> m <= g[i]
      ensures ms[i] == 1.0 <==> g[i] == m
    {
      DivideCompare(g[i], m, IrregularThreshold);
      DivideCompare(g[i], m, 1.0);
    }
    ms
  }

  /** The regular gaps include the smallest one, so their mean exists, and it lies between the
      smallest gap and the threshold times it. */
  lemma RegularGapsMean(g: seq<real>, m: real)
    requires |g| > 0 && m == Min(g) && 0.0 < m
    ensures |RegularGaps(g, m)| > 0
    ensures m <= Mean(RegularGaps(g, m)) <= IrregularThreshold * m
  {
    var mask := RegularMask(g, m);
    var kept := Select(g, mask);
    var i0 :| 0 <= i0 < |g| && g[i0] == m;
    assert mask[i0];
    assert g[i0] in kept;
    SelectWithin(g, mask, m, IrregularThreshold * m);
    MeanBounds(kept, m, IrregularThreshold * m);
  }

  /** Lines 62-79: smallest gap, multipliers, the irregularity warning and slice positions, and the
      mean of the regular gaps rounded to five decimals. */
  function ResolveSpacing(g: seq<real>): (r: Result<SpacingDecision, StackError>)
    ensures r == Failure(SingleSlice) <==> |g| == 0
    ensures r == Failure(CoincidentSlices) <==> |g| > 0 && exists i :: 0 <= i < |g| && g[i] <= 0.0
    ensures r.Failure? ==> r.error == SingleSlice || r.error == CoincidentSlices
    ensures r.Success? ==> 0.0 < r.value.minGap && r.value.minGap in g
    ensures r.Success? ==> forall i :: 0 <= i < |g| ==> r.value.minGap <= g[i]
    ensures r.Success? ==> |r.value.multipliers| == |g|
    ensures r.Success? ==> forall i :: 0 <= i < |g| ==> r.value.multipliers[i] == g[i] / r.value.minGap
    ensures r.Success? ==> forall i :: 0 <= i < |g| ==> 1.0 <= r.value.multipliers[i]
    ensures r.Success? ==> exists i :: 0 <= i < |g| && r.value.multipliers[i] == 1.0
    ensures r.Success? ==>
      (r.value.irregular <==> exists i :: 0 <= i < |g| && g[i] > IrregularThreshold * r.value.minGap)
    ensures r.Success? ==>
      r.value.slicePositions == if r.value.irregular then Some(CumulativePositions(g)) else None
    ensures r.Success? ==> |RegularGaps(g, r.value.minGap)| > 0
    ensures r.Success? ==> r.value.sliceSpacing == Around5(Mean(RegularGaps(g, r.value.minGap)))
    ensures r.Success? ==> 0.0 <= r.value.sliceSpacing
    ensures r.Success? ==>
      r.value.minGap - 0.000005 <= r.value.sliceSpacing <= IrregularThreshold * r.value.minGap + 0.000005
  {
    if |g| == 0 then Failure(SingleSlice)
    else
      var m := Min(g);
      if m <= 0.0 then Failure(CoincidentSlices)
      else
        var ms := Multipliers(g, m);
        var mask := AtMost(ms, IrregularThreshold);
        assert mask == RegularMask(g, m);
        RegularGapsMean(g, m);
        var i0 :| 0 <= i0 < |g| && g[i0] == m;
        assert ms[i0] == 1.0;
        var irregular := AnyAbove(ms, IrregularThreshold);
        Success(SpacingDecision(
          m, ms, irregular,
          if irregular then Some(CumulativePositions(g)) else None,
          Around5(Mean(Select(g, mask)))))
  }

  /** Evenly spaced slices: no warning, no slice positions, and the spacing is the common gap. */
  lemma EvenGapsAreRegular(g: seq<real>, s: real)
    requires |g| > 0 && 0.0 < s
    requires forall i :: 0 <= i < |g| ==> g[i] == s
    ensures ResolveSpacing(g).Success?
    ensures !ResolveSpacing(g).value.irregular
    ensures ResolveSpacing(g).value.slicePositions == None
    ensures ResolveSpacing(g).value.sliceSpacing == Around5(s)
  {
    var d := ResolveSpacing(g).value;
    assert d.minGap == s;
    var kept := RegularGaps(g, s);
    SelectWithin(g, RegularMask(g, s), s, s);
    MeanBounds(kept, s, s);
  }

  /** Two gaps of 1 and 2: the second hides a missing slice. */
  lemma OneMissingSlice()
    ensures ResolveSpacing([1.0, 2.0]) == Success(SpacingDecision(1.0, [1.0, 2.0], true, Some([0.0, 1.0, 3.0]), 1.0))
  {
    var g := [1.0, 2.0];
    Around5Fixed(1.0);
    Around5Fixed(2.0);
    var d := ResolveSpacing(g).value;
    assert d.minGap == 1.0;
    assert d.multipliers == [1.0, 2.0];
    assert d.irregular;
    assert CumulativePositions(g) == [0.0, 1.0, 3.0];
    var kept := RegularGaps(g, 1.0);
    assert kept == [1.0] by {
      assert kept == Select(g, [true, false]);
    }
    assert Sum(kept) == Sum([]) + 1.0;
  }
}
