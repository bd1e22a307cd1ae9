/** Assembling a volume from a stack of slice files (`ImageITKFileStack.complete`). */
module StackAssembly {
  import opened Results
  import opened Rounding
  import opened Geometry
  import opened SliceOrdering
  import opened Orientation

  /** The metadata ITK reads from one slice file, in ITK (x, y, z) order. */
  datatype SliceMetadata = SliceMetadata(origin: Vec3, spacing: Vec3, direction: Mat3)

  /** What `complete` leaves on the stack. */
  datatype StackGeometry = StackGeometry(
    files: seq<SliceMetadata>,          // the slice files, lowest position first
    geometry: ImageGeometry,
    irregular: bool,                    // whether the inconsistent-distance warning was raised
    slicePositions: Option<seq<real>>)  // offsets along the stack, recorded only when irregular

  // ---------------------------------------------------------------------------------------------
  // Ordering the slice files

  function Origins(slices: seq<SliceMetadata>): (os: seq<Vec3>)
    ensures |os| == |slices|
    ensures forall i :: 0 <= i < |slices| ==> os[i] == slices[i].origin
  {
    seq(|slices|, i requires 0 <= i < |slices| => slices[i].origin)
  }

  /** Lines 32-45: the position table of the slices, sorted. Every slice appears in it exactly
      once, at its reversed origin. */
  function SortedTable(slices: seq<SliceMetadata>): (t: seq<PositionRow>)
    ensures |t| == |slices|
    ensures StrictlySorted(t)
    ensures forall i :: 0 <= i < |t| ==>
      t[i].order < |slices| && Position(t[i]) == Reverse(slices[t[i].order].origin)
  {
    var pt := PositionTable(Origins(slices));
    var t := SortRows(pt);
    forall i | 0 <= i < |t|
      ensures t[i].order < |slices| && Position(t[i]) == Reverse(slices[t[i].order].origin)
    {
      assert t[i] in multiset(pt);
      var k :| 0 <= k < |pt| && pt[k] == t[i];
    }
    t
  }

  /** `[f(x) for x in s]`. */
  function MapSeq<A, B>(s: seq<A>, f: A -> B): (r: seq<B>)
    ensures |r| == |s|
    ensures forall i :: 0 <= i < |s| ==> r[i] == f(s[i])
    decreases |s|
  {
    if |s| == 0 then [] else [f(s[0])] + MapSeq(s[1..], f)
  }

  lemma MapConcat<A, B>(a: seq<A>, b: seq<A>, f: A -> B)
    ensures MapSeq(a + b, f) == MapSeq(a, f) + MapSeq(b, f)
  {
    var whole, parts := MapSeq(a + b, f), MapSeq(a, f) + MapSeq(b, f);
    assert |whole| == |parts|;
    forall i | 0 <= i < |whole|
      ensures whole[i] == parts[i]
    {
      assert whole[i] == f((a + b)[i]);
      if i < |a| {
        assert (a + b)[i] == a[i];
        assert parts[i] == MapSeq(a, f)[i];
      } else {
        assert (a + b)[i] == b[i - |a|];
        assert parts[i] == MapSeq(b, f)[i - |a|];
      }
    }
  }

  /** Mapping two permutations of each other gives two permutations of each other. */
  lemma {:induction false} MapPreservesMultiset<A, B>(a: seq<A>, b: seq<A>, f: A -> B)
    requires multiset(a) == multiset(b)
    ensures multiset(MapSeq(a, f)) == multiset(MapSeq(b, f))
    decreases |a|
  {
    if |a| > 0 {
      var x := a[0];
      assert x in multiset(b);
      var j :| 0 <= j < |b| && b[j] == x;
      var rest := b[..j] + b[j + 1..];
      RemoveMatching(a, b, j);
      MapPreservesMultiset(a[1..], rest, f);
      MapSplit(b, j, f);
    }
  }

  /** Taking the same element out of two permutations leaves two permutations. */
  lemma RemoveMatching<A>(a: seq<A>, b: seq<A>, j: int)
    requires multiset(a) == multiset(b)
    requires |a| > 0 && 0 <= j < |b| && b[j] == a[0]
    ensures multiset(a[1..]) == multiset(b[..j] + b[j + 1..])
  {
    var rest := b[..j] + b[j + 1..];
    SplitAt(b, j);
    assert a == [a[0]] + a[1..];
    assert multiset(a) == multiset(a[1..]) + multiset{a[0]};
    forall y
      ensures multiset(a[1..])[y] == multiset(rest)[y]
    {
      assert multiset(a)[y] == multiset(b)[y];
    }
  }

  /** Mapping a sequence with one element taken out: the image loses that element's image. */
  lemma MapSplit<A, B>(b: seq<A>, j: int, f: A -> B)
    requires 0 <= j < |b|
    ensures multiset(MapSeq(b, f)) == multiset(MapSeq(b[..j] + b[j + 1..], f)) + multiset{f(b[j])}
  {
    SplitAt(b, j);
    MapConcat(b[..j], [b[j]] + b[j + 1..], f);
    MapConcat([b[j]], b[j + 1..], f);
    MapConcat(b[..j], b[j + 1..], f);
  }

  lemma SplitAt<A>(b: seq<A>, j: int)
    requires 0 <= j < |b|
    ensures b == b[..j] + ([b[j]] + b[j + 1..])
    ensures multiset(b) == multiset(b[..j] + b[j + 1..]) + multiset{b[j]}
  {
    assert b == b[..j] + ([b[j]] + b[j + 1..]);
  }

  /** `[slices[row.order] for row in t]`: the files in the order of a table. */
  function FilesInTableOrder(slices: seq<SliceMetadata>, t: seq<PositionRow>): (files: seq<SliceMetadata>)
    requires forall i :: 0 <= i < |t| ==> t[i].order < |slices|
    ensures |files| == |t|
  {
    seq(|t|, i requires 0 <= i < |t| => slices[t[i].order])
  }

  /** Looking up each row's file: the input files for the unsorted table, the files in table order
      for the sorted one. */
  lemma LookupFiles(slices: seq<SliceMetadata>, f: PositionRow -> SliceMetadata)
    requires |slices| > 0
    requires forall row :: f(row) == if row.order < |slices| then slices[row.order] else slices[0]
    ensures MapSeq(PositionTable(Origins(slices)), f) == slices
    ensures MapSeq(SortedTable(slices), f) == FilesInTableOrder(slices, SortedTable(slices))
  {
    var pt := PositionTable(Origins(slices));
    var t := SortedTable(slices);
    var unsorted, sorted := MapSeq(pt, f), MapSeq(t, f);
    forall i | 0 <= i < |slices|
      ensures unsorted[i] == slices[i]
    {
      assert unsorted[i] == f(pt[i]);
    }
    forall i | 0 <= i < |t|
      ensures sorted[i] == FilesInTableOrder(slices, t)[i]
    {
      assert sorted[i] == f(t[i]);
    }
  }

  /** The files in sorted-table order are a permutation of the input files. */
  lemma SortedFilesArePermutation(slices: seq<SliceMetadata>)
    ensures multiset(FilesInTableOrder(slices, SortedTable(slices))) == multiset(slices)
  {
    if |slices| > 0 {
      var f := (row: PositionRow) => if row.order < |slices| then slices[row.order] else slices[0];
      LookupFiles(slices, f);
      MapPreservesMultiset(SortedTable(slices), PositionTable(Origins(slices)), f);
    }
  }

  /** Lines 48-51 as evidently intended: the slice files in the order of the sorted table. They
      are a permutation of the input files, in ascending position order. */
  function OrderedFiles(slices: seq<SliceMetadata>): (files: seq<SliceMetadata>)
    ensures |files| == |slices|
    ensures multiset(files) == multiset(slices)
    ensures forall i :: 0 <= i < |files| ==> Reverse(files[i].origin) == Positions(SortedTable(slices))[i]
    ensures forall i, j :: 0 <= i <= j < |files| ==>
      PositionAtMost(Reverse(files[i].origin), Reverse(files[j].origin))
  {
    var t := SortedTable(slices);
    var files := FilesInTableOrder(slices, t);
    SortedFilesArePermutation(slices);
    forall i, j | 0 <= i <= j < |files|
      ensures PositionAtMost(Reverse(files[i].origin), Reverse(files[j].origin))
    {
      SortedPositionsAscend(t, i, j);
    }
    files
  }

  /** Lines 53-54 as evidently intended: the origin of the lowest slice. */
  function StackOrigin(slices: seq<SliceMetadata>): (o: Vec3)
    requires |slices| > 0
    ensures exists k :: 0 <= k < |slices| && o == Reverse(slices[k].origin)
    ensures forall k :: 0 <= k < |slices| ==> PositionAtMost(o, Reverse(slices[k].origin))
  {
    var files := OrderedFiles(slices);
    forall k | 0 <= k < |slices|
      ensures PositionAtMost(Reverse(files[0].origin), Reverse(slices[k].origin))
    {
      assert slices[k] in multiset(files);
      var i :| 0 <= i < |files| && files[i] == slices[k];
    }
    assert files[0] in multiset(slices);
    Reverse(files[0].origin)
  }

  // ---------------------------------------------------------------------------------------------
  // The assembled geometry

  /** The gaps between consecutive slices of the sorted table (lines 57-60). */
  function StackGaps(slices: seq<SliceMetadata>, distance: (Vec3, Vec3) -> real): (g: seq<real>)
    ensures |g| == if |slices| == 0 then 0 else |slices| - 1
  {
    Gaps(Positions(SortedTable(slices)), distance)
  }

  /** Lines 81-106, once the slice spacing `d` is resolved: the geometry of the stack. Both branches
      of the spacing choice give the resolved z spacing with the first file's in-plane spacing. */
  function Assemble(slices: seq<SliceMetadata>, stackSize: Size3, d: SpacingDecision): (s: StackGeometry)
    requires 2 <= |slices| && d.sliceSpacing != 0.0
    ensures s.files == OrderedFiles(slices)
    ensures s.geometry.origin == StackOrigin(slices)
    ensures s.geometry.spacing
      == Vec3(d.sliceSpacing, Reverse(s.files[0].spacing).c1, Reverse(s.files[0].spacing).c2)
    ensures s.geometry.orientation.r0 == ZRow(Positions(SortedTable(slices)), d.sliceSpacing)
    ensures forall i, j :: 1 <= i < 3 && 0 <= j < 3 ==>
      Entry(s.geometry.orientation, i, j) == Entry(s.files[0].direction, 2 - i, 2 - j)
    ensures s.geometry.dimension == Dimension(|slices|, stackSize.y, stackSize.x)
    ensures s.irregular == d.irregular && s.slicePositions == d.slicePositions
  {
    var files := OrderedFiles(slices);
    var nominal := Reverse(files[0].spacing);
    var spacing := if nominal.c0 == d.sliceSpacing then nominal
                   else Vec3(d.sliceSpacing, nominal.c1, nominal.c2);
    var orientation := StackOrientation(files[0].direction, Positions(SortedTable(slices)), d.sliceSpacing);
    var dimension := Dimension(|slices|, stackSize.y, stackSize.x);
    StackGeometry(files, ImageGeometry(StackOrigin(slices), spacing, orientation, dimension),
                  d.irregular, d.slicePositions)
  }

  /** Lines 20-106: sort the slices, resolve the slice spacing and the orientation, and set origin,
      spacing, orientation and dimension. `stackSize` is the size in the stack's own metadata;
      `distance` is the Euclidean distance between positions. */
  function Complete(slices: seq<SliceMetadata>, stackSize: Size3, distance: (Vec3, Vec3) -> real)
    : (r: Result<StackGeometry, StackError>)
    ensures r == Failure(EmptyStack) <==> |slices| == 0
    ensures r == Failure(SingleSlice) <==> |slices| == 1
    ensures r == Failure(CoincidentSlices) <==>
      2 <= |slices| && exists i :: 0 <= i < |StackGaps(slices, distance)| && StackGaps(slices, distance)[i] <= 0.0
    ensures r == Failure(ZeroSliceSpacing) <==>
      2 <= |slices| && ResolveSpacing(StackGaps(slices, distance)).Success?
      && ResolveSpacing(StackGaps(slices, distance)).value.sliceSpacing == 0.0
    ensures r.Success? ==> 2 <= |slices| && ResolveSpacing(StackGaps(slices, distance)).Success?
    ensures r.Success? ==> 0.0 < ResolveSpacing(StackGaps(slices, distance)).value.sliceSpacing
    ensures r.Success? ==> r.value == Assemble(slices, stackSize, ResolveSpacing(StackGaps(slices, distance)).value)
  {
    if |slices| == 0 then Failure(EmptyStack)
    else
      var resolved := ResolveSpacing(StackGaps(slices, distance));
      if resolved.Failure? then Failure(resolved.error)
      else if resolved.value.sliceSpacing == 0.0 then Failure(ZeroSliceSpacing)
      else Success(Assemble(slices, stackSize, resolved.value))
  }

  // ---------------------------------------------------------------------------------------------
  // Properties of the assembly

  lemma PositionAtMostAntisymmetric(p: Vec3, q: Vec3)
    requires PositionAtMost(p, q) && PositionAtMost(q, p)
    ensures p == q
  {
  }

  lemma ReverseInjective(u: Vec3, v: Vec3)
    requires Reverse(u) == Reverse(v)
    ensures u == v
  {
    assert u == Reverse(Reverse(u)) && v == Reverse(Reverse(v));
  }

  /** Two input slices share an origin. */
  predicate SharedOrigin(slices: seq<SliceMetadata>) {
    exists j, k :: 0 <= j < k < |slices| && slices[j].origin == slices[k].origin
  }

  /** Some gap between consecutive sorted slices is not positive. */
  predicate NonPositiveGap(g: seq<real>) {
    exists i :: 0 <= i < |g| && g[i] <= 0.0
  }

  /** The gap after the `i`-th sorted slice. */
  lemma StackGapAt(slices: seq<SliceMetadata>, distance: (Vec3, Vec3) -> real, i: int)
    requires 0 <= i < |slices| - 1
    ensures StackGaps(slices, distance)[i]
      == distance(Position(SortedTable(slices)[i]), Position(SortedTable(slices)[i + 1]))
  {
    var ps := Positions(SortedTable(slices));
    assert ps[i] == Position(SortedTable(slices)[i]);
    assert ps[i + 1] == Position(SortedTable(slices)[i + 1]);
  }

  /** Neighbouring rows at one position of a table of the slices: two slices share an origin. */
  lemma NeighboursAtOnePosition(slices: seq<SliceMetadata>, t: seq<PositionRow>, i: int)
    requires forall r :: 0 <= r < |t| ==>
      t[r].order < |slices| && Position(t[r]) == Reverse(slices[t[r].order].origin)
    requires 0 <= i < |t| - 1 && RowBefore(t[i], t[i + 1]) && Position(t[i]) == Position(t[i + 1])
    ensures SharedOrigin(slices)
  {
    var j, k := t[i].order, t[i + 1].order;
    ReverseInjective(slices[j].origin, slices[k].origin);
    assert j < k;
  }

  /** Where the `j`-th input slice sits in the sorted table. */
  lemma SliceInTable(slices: seq<SliceMetadata>, j: int) returns (a: int)
    requires 0 <= j < |slices|
    ensures 0 <= a < |SortedTable(slices)| && SortedTable(slices)[a].order == j
    ensures Position(SortedTable(slices)[a]) == Reverse(slices[j].origin)
  {
    var t := SortedTable(slices);
    var pt := PositionTable(Origins(slices));
    assert pt[j] in multiset(t);
    a :| 0 <= a < |t| && t[a] == pt[j];
  }

  /** Two input slices with the same origin sit at two places of the sorted table. */
  lemma SharedOriginInTable(slices: seq<SliceMetadata>) returns (lo: int, hi: int)
    requires SharedOrigin(slices)
    ensures 0 <= lo < hi < |SortedTable(slices)|
    ensures Position(SortedTable(slices)[lo]) == Position(SortedTable(slices)[hi])
  {
    var j, k :| 0 <= j < k < |slices| && slices[j].origin == slices[k].origin;
    var a := SliceInTable(slices, j);
    var b := SliceInTable(slices, k);
    lo, hi := if a < b then a else b, if a < b then b else a;
  }

  /** In a sorted table, rows at equal positions enclose only rows at that position. */
  lemma EqualEndsEqualNext(t: seq<PositionRow>, lo: int, hi: int)
    requires StrictlySorted(t)
    requires 0 <= lo < hi < |t| && Position(t[lo]) == Position(t[hi])
    ensures Position(t[lo]) == Position(t[lo + 1])
  {
    SortedPositionsAscend(t, lo, lo + 1);
    SortedPositionsAscend(t, lo + 1, hi);
    PositionAtMostAntisymmetric(Position(t[lo]), Position(t[lo + 1]));
  }

  lemma SharedOriginMeansZeroGap(slices: seq<SliceMetadata>, distance: (Vec3, Vec3) -> real)
    requires IsDistance(distance)
    requires SharedOrigin(slices)
    ensures NonPositiveGap(StackGaps(slices, distance))
  {
    var lo, hi := SharedOriginInTable(slices);
    EqualEndsEqualNext(SortedTable(slices), lo, hi);
    StackGapAt(slices, distance, lo);
    assert StackGaps(slices, distance)[lo] == 0.0;
  }

  /** With a genuine distance, assembly fails for coinciding slices exactly when two input slices
      have the same origin. */
  lemma CoincidentSlicesIffSharedOrigin(slices: seq<SliceMetadata>, stackSize: Size3, distance: (Vec3, Vec3) -> real)
    requires IsDistance(distance)
    requires 2 <= |slices|
    ensures Complete(slices, stackSize, distance) == Failure(CoincidentSlices) <==> SharedOrigin(slices)
  {
    if NonPositiveGap(StackGaps(slices, distance)) {
      var t := SortedTable(slices);
      var g := StackGaps(slices, distance);
      var i :| 0 <= i < |g| && g[i] <= 0.0;
      StackGapAt(slices, distance, i);
      NeighboursAtOnePosition(slices, t, i);
    }
    if SharedOrigin(slices) {
      SharedOriginMeansZeroGap(slices, distance);
    }
  }

  /** Slice files in ascending position order. */
  ghost predicate Ascending(files: seq<SliceMetadata>) {
    forall i, j :: 0 <= i <= j < |files| ==> PositionAtMost(Reverse(files[i].origin), Reverse(files[j].origin))
  }

  /** No two different slice files share an origin. */
  ghost predicate OriginsIdentify(files: seq<SliceMetadata>) {
    forall i, j :: 0 <= i < |files| && 0 <= j < |files| && files[i].origin == files[j].origin ==> files[i] == files[j]
  }

  /** Two ascending arrangements of the same files start with the same file. */
  lemma AscendingHeadsEqual(fa: seq<SliceMetadata>, fb: seq<SliceMetadata>)
    requires multiset(fa) == multiset(fb)
    requires Ascending(fa) && Ascending(fb)
    requires OriginsIdentify(fa)
    requires |fa| > 0
    ensures |fb| > 0 && fa[0] == fb[0]
  {
    assert fa[0] in multiset(fb);
    var j :| 0 <= j < |fb| && fb[j] == fa[0];
    assert fb[0] in multiset(fa);
    var k :| 0 <= k < |fa| && fa[k] == fb[0];
    assert PositionAtMost(Reverse(fb[0].origin), Reverse(fb[j].origin));
    assert PositionAtMost(Reverse(fa[0].origin), Reverse(fa[k].origin));
    PositionAtMostAntisymmetric(Reverse(fa[0].origin), Reverse(fb[0].origin));
    ReverseInjective(fa[0].origin, fb[0].origin);
    assert fa[0].origin == fa[k].origin;
  }

  lemma AscendingTail(f: seq<SliceMetadata>)
    requires |f| > 0 && Ascending(f) && OriginsIdentify(f)
    ensures Ascending(f[1..]) && OriginsIdentify(f[1..])
  {
    forall i, j | 0 <= i <= j < |f| - 1
      ensures PositionAtMost(Reverse(f[1..][i].origin), Reverse(f[1..][j].origin))
    {
      assert f[1..][i] == f[i + 1] && f[1..][j] == f[j + 1];
    }
    forall i, j | 0 <= i < |f| - 1 && 0 <= j < |f| - 1 && f[1..][i].origin == f[1..][j].origin
      ensures f[1..][i] == f[1..][j]
    {
      assert f[1..][i] == f[i + 1] && f[1..][j] == f[j + 1];
    }
  }

  lemma TailsPermutation<A>(a: seq<A>, b: seq<A>)
    requires multiset(a) == multiset(b)
    requires |a| > 0 && |b| > 0 && a[0] == b[0]
    ensures multiset(a[1..]) == multiset(b[1..])
  {
    RemoveMatching(a, b, 0);
    assert b[..0] + b[1..] == b[1..];
  }

  /** Two ascending arrangements of the same files are the same, when origins identify files. */
  lemma {:induction false} AscendingPermutationsEqual(fa: seq<SliceMetadata>, fb: seq<SliceMetadata>)
    requires multiset(fa) == multiset(fb)
    requires Ascending(fa) && Ascending(fb)
    requires OriginsIdentify(fa)
    ensures fa == fb
    decreases |fa|
  {
    if |fa| == 0 {
      assert |fb| == |multiset(fb)| == 0;
    } else {
      AscendingHeadsEqual(fa, fb);
      TailsPermutation(fa, fb);
      AscendingTail(fa);
      assert OriginsIdentify(fb) by {
        assert fb[0] in multiset(fa);
        assert forall i :: 0 <= i < |fb| ==> fb[i] in multiset(fa);
      }
      AscendingTail(fb);
      AscendingPermutationsEqual(fa[1..], fb[1..]);
      assert fa == [fa[0]] + fa[1..] && fb == [fb[0]] + fb[1..];
    }
  }

  lemma OrderedFilesIdentify(slices: seq<SliceMetadata>)
    requires !SharedOrigin(slices)
    ensures OriginsIdentify(OrderedFiles(slices))
  {
    var files := OrderedFiles(slices);
    forall i, j | 0 <= i < |files| && 0 <= j < |files| && files[i].origin == files[j].origin
      ensures files[i] == files[j]
    {
      assert files[i] in multiset(slices) && files[j] in multiset(slices);
      var p :| 0 <= p < |slices| && slices[p] == files[i];
      var q :| 0 <= q < |slices| && slices[q] == files[j];
      if p < q {
        assert slices[p].origin == slices[q].origin;
      } else if q < p {
        assert slices[q].origin == slices[p].origin;
      }
    }
  }

  /** The sorted positions are those of the sorted files. */
  lemma PositionsFollowFiles(a: seq<SliceMetadata>, b: seq<SliceMetadata>)
    requires OrderedFiles(a) == OrderedFiles(b)
    ensures Positions(SortedTable(a)) == Positions(SortedTable(b))
  {
    var files := OrderedFiles(a);
    var psa, psb := Positions(SortedTable(a)), Positions(SortedTable(b));
    forall i | 0 <= i < |psa|
      ensures psa[i] == psb[i]
    {
      assert psa[i] == Reverse(files[i].origin) == psb[i];
    }
  }

  /** Everything `Assemble` reads of the input is its sorted arrangement. */
  lemma AssembleReadsOnlyOrder(a: seq<SliceMetadata>, b: seq<SliceMetadata>, stackSize: Size3, d: SpacingDecision)
    requires 2 <= |a| && d.sliceSpacing != 0.0
    requires OrderedFiles(a) == OrderedFiles(b)
    ensures StackOrigin(a) == StackOrigin(b)
    ensures Assemble(a, stackSize, d) == Assemble(b, stackSize, d)
  {
    PositionsFollowFiles(a, b);
  }

  /** When no two slices share an origin, the order the files come in does not matter: any
      permutation of the input assembles to the same stack. */
  lemma InputOrderIrrelevant(a: seq<SliceMetadata>, b: seq<SliceMetadata>, stackSize: Size3, distance: (Vec3, Vec3) -> real)
    requires multiset(a) == multiset(b)
    requires !SharedOrigin(a)
    ensures OrderedFiles(a) == OrderedFiles(b)
    ensures Complete(a, stackSize, distance) == Complete(b, stackSize, distance)
  {
    assert |a| == |multiset(a)| == |b|;
    OrderedFilesIdentify(a);
    AscendingPermutationsEqual(OrderedFiles(a), OrderedFiles(b));
    PositionsFollowFiles(a, b);
    var d := ResolveSpacing(StackGaps(a, distance));
    if 2 <= |a| && d.Success? && d.value.sliceSpacing != 0.0 {
      AssembleReadsOnlyOrder(a, b, stackSize, d.value);
    }
  }

  /** An assembled stack's z-row never points against the stack: the sorted positions ascend along
      z and the resolved spacing is positive, so the z component of row 0 is not negative. */
  lemma AssembledZRowAlongStack(slices: seq<SliceMetadata>, stackSize: Size3, distance: (Vec3, Vec3) -> real)
    ensures Complete(slices, stackSize, distance).Success? ==>
      0.0 <= Complete(slices, stackSize, distance).value.geometry.orientation.r0.c0
  {
    var r := Complete(slices, stackSize, distance);
    if r.Success? {
      var t := SortedTable(slices);
      var ps := Positions(t);
      var spacing := ResolveSpacing(StackGaps(slices, distance)).value.sliceSpacing;
      forall i, j | 0 <= i <= j < |ps|
        ensures ps[i].c0 <= ps[j].c0
      {
        SortedPositionsAscend(t, i, j);
      }
      ZRowAlongStack(ps, spacing);
    }
  }

  /** Evenly spaced slices in any input order: no warning, no slice positions, and the z spacing is
      the common gap. */
  lemma EvenlySpacedStack(slices: seq<SliceMetadata>, stackSize: Size3, distance: (Vec3, Vec3) -> real, s: real)
    requires 2 <= |slices| && 0.0 < s && Around5(s) != 0.0
    requires forall i :: 0 <= i < |slices| - 1 ==> StackGaps(slices, distance)[i] == s
    ensures Complete(slices, stackSize, distance).Success?
    ensures !Complete(slices, stackSize, distance).value.irregular
    ensures Complete(slices, stackSize, distance).value.slicePositions == None
    ensures Complete(slices, stackSize, distance).value.geometry.spacing.c0 == Around5(s)
  {
    EvenGapsAreRegular(StackGaps(slices, distance), s);
  }

  // ---------------------------------------------------------------------------------------------
  // Lines 48-54 as written

  /** A row labelled `key` is in the table. */
  predicate HasLabel(t: seq<PositionRow>, key: nat) {
    exists i :: 0 <= i < |t| && t[i].order == key
  }

  /** `position_table.original_object_order[key]`: an integer key on this column is looked up
      among the row labels, which `sort_values` moves along with the rows. A row's key is its
      index before sorting, which is also its `original_object_order`. */
  function OrderAtLabel(t: seq<PositionRow>, key: nat): (o: nat)
    requires HasLabel(t, key)
    ensures o == key
    decreases |t|
  {
    if t[0].order == key then t[0].order
    else
      var i :| 0 <= i < |t| && t[i].order == key;
      assert t[1..][i - 1].order == key;
      OrderAtLabel(t[1..], key)
  }

  /** Lines 48-51 as written: the reordering picks, for every `ii`, the file at
      `original_object_order[ii]`. The key lookup makes that `ii` itself, so the files keep the
      input order. */
  function FilesAsWritten(slices: seq<SliceMetadata>): (files: seq<SliceMetadata>)
    ensures files == slices
  {
    var t := SortedTable(slices);
    var pt := PositionTable(Origins(slices));
    forall ii | 0 <= ii < |t|
      ensures HasLabel(t, ii)
    {
      assert pt[ii] in multiset(t);
      var i :| 0 <= i < |t| && t[i] == pt[ii];
    }
    seq(|t|, ii requires 0 <= ii < |t| => slices[OrderAtLabel(t, ii)])
  }

  /** Line 54 as written: the origin of the first file after the reordering above. */
  function OriginAsWritten(slices: seq<SliceMetadata>): (o: Vec3)
    requires |slices| > 0
    ensures o == Reverse(slices[0].origin)
  {
    Reverse(FilesAsWritten(slices)[0].origin)
  }

  /** Two slices given top slice first: the origin as written is the top slice's, while the lowest
      slice, the one the slice positions and the z-row are measured from, is the other. */
  lemma OriginAsWrittenNotLowest()
    ensures var direction := Mat3(Vec3(1.0, 0.0, 0.0), Vec3(0.0, 1.0, 0.0), Vec3(0.0, 0.0, 1.0));
      var top := SliceMetadata(Vec3(0.0, 0.0, 1.0), Vec3(1.0, 1.0, 1.0), direction);
      var bottom := SliceMetadata(Vec3(0.0, 0.0, 0.0), Vec3(1.0, 1.0, 1.0), direction);
      && OriginAsWritten([top, bottom]) == Vec3(1.0, 0.0, 0.0)
      && StackOrigin([top, bottom]) == Vec3(0.0, 0.0, 0.0)
  {
    var direction := Mat3(Vec3(1.0, 0.0, 0.0), Vec3(0.0, 1.0, 0.0), Vec3(0.0, 0.0, 1.0));
    var top := SliceMetadata(Vec3(0.0, 0.0, 1.0), Vec3(1.0, 1.0, 1.0), direction);
    var bottom := SliceMetadata(Vec3(0.0, 0.0, 0.0), Vec3(1.0, 1.0, 1.0), direction);
    var slices := [top, bottom];
    var o := StackOrigin(slices);
    assert PositionAtMost(o, Reverse(slices[1].origin));
  }
}
