# Slice-stack geometry and CT intensity kinds, in Dafny

This project models two pieces of the MIRP radiomics pipeline and proves properties of them.

1. **Assembling a volume from a stack of 2-D slice files** (`ImageITKFileStack.complete`).
   - Each slice's ITK origin is reversed from (x, y, z) to (z, y, x).
   - The positions are sorted lexicographically. The input index breaks ties, as in the stable multi-column sort pandas performs.
   - The gaps between consecutive sorted slices are divided by the smallest gap.
   - The stack is flagged irregular when a ratio exceeds 1.2. Cumulative slice positions are recorded only in that case.
   - The slice spacing is the mean of the regular gaps, rounded to five decimals.
   - Row 0 of the orientation is rebuilt from the smallest per-axis step.
   - Origin, spacing, orientation and dimension are set.
2. **The CT image variant** (`CTImage`).
   - Voxel values are snapped to whole Hounsfield units.
   - Normalising or scaling intensities either returns the CT image itself (the identity cases) or demotes it to a generic image, never the reverse.

Modules:

- `Results` (results.dfy): `Option` and `Result`.
- `Rounding` (rounding.dfy): numpy's round-half-to-even, as `np.round` and as `np.around(x, 5)`, on exact reals.
- `Geometry` (geometry.dfy): vectors, 3×3 matrices and the image geometry record.
- `SliceOrdering` (slice_ordering.dfy): the position table and its sort, the gaps, the multipliers, the irregularity decision, the cumulative slice positions and the resolved slice spacing.
- `Orientation` (orientation.dfy): the reversed direction matrix and the rebuilt z-row.
- `StackAssembly` (stack_assembly.dfy): file ordering, origin and the whole of `complete`. It also holds the as-written model of the file reordering (see Findings).
- `CtImage` (ct_image.dfy): the CT variant and its one-way demotion.

The source raises, or lets numpy produce NaN, for some inputs. The model returns a `StackError` for those instead:

| `StackError` | condition | what the source does |
|---|---|---|
| `EmptyStack` | no slices | indexes the first file at line 54 |
| `SingleSlice` | one slice | `np.min` of an empty array at line 63 |
| `CoincidentSlices` | a zero gap | divides by the zero minimum at line 66 |
| `ZeroSliceSpacing` | the resolved spacing rounds to zero | divides by it at line 97 |

The Euclidean distance between origins is the parameter `distance`. `SliceOrdering.IsDistance` states the two facts some lemmas need: it is non-negative, and zero exactly between equal positions. The parent `GenericImage` transforms are parameters as well.

## Model

| member | source | states |
|---|---|---|
| Geometry.Reverse | mirp/importData/imageITKFileStack.py:33 | reversing swaps the first and last components, turning ITK (x, y, z) into (z, y, x) |
| Rounding.RoundHalfEven | mirp/_images/ct_image.py:20 | the result is an integer within 0.5 of the input; at an exact half it is even |
| Rounding.RoundHalfEvenUnique | mirp/_images/ct_image.py:20 | no other integer has those two properties, so they define numpy's rounding |
| Rounding.RoundIntegral | mirp/_images/ct_image.py:20 | a whole number rounds to itself |
| Rounding.Around5 | mirp/importData/imageITKFileStack.py:79 | `np.around(x, 5)` lies within 0.000005 of x, keeps non-negative values non-negative, and is a whole number of hundred-thousandths |
| Rounding.Around5Fixed | mirp/importData/imageITKFileStack.py:79 | a value with at most five decimals is not changed |
| Rounding.Around5Idempotent | mirp/importData/imageITKFileStack.py:76-79 | rounding to five decimals twice equals rounding once |
| Rounding.Around5Zero | mirp/importData/imageITKFileStack.py:94-96 | zero steps stay zero after rounding |
| SliceOrdering.PositionTable | mirp/importData/imageITKFileStack.py:28-44 | one row per slice; row i has order i and the slice's reversed origin; rows are pairwise distinct |
| SliceOrdering.RowBeforeTransitive | mirp/importData/imageITKFileStack.py:45 | the sort order by (z, y, x, input index) is transitive |
| SliceOrdering.RowBeforeTotal | mirp/importData/imageITKFileStack.py:45 | any two distinct rows are ordered one way or the other |
| SliceOrdering.Insert | mirp/importData/imageITKFileStack.py:45 | inserting a new row into a sorted table keeps it strictly sorted and adds exactly that row |
| SliceOrdering.SortRows | mirp/importData/imageITKFileStack.py:40-45 | the sorted table is a permutation of the position table and strictly ascending by (z, y, x), with ties in input order |
| SliceOrdering.SortedPositionsAscend | mirp/importData/imageITKFileStack.py:45 | positions in the sorted table are lexicographically non-decreasing |
| SliceOrdering.Gaps | mirp/importData/imageITKFileStack.py:57-60 | N positions give N−1 gaps, gap i being the distance from position i to position i+1 |
| SliceOrdering.Min | mirp/importData/imageITKFileStack.py:63 | `np.min` is one of the values and no larger than any of them |
| SliceOrdering.SumBounds | mirp/importData/imageITKFileStack.py:79 | a sum of values between lo and hi lies between n·lo and n·hi |
| SliceOrdering.Mean | mirp/importData/imageITKFileStack.py:79 | `np.mean` is the value whose n-fold multiple is the sum of the n values |
| SliceOrdering.MeanBounds | mirp/importData/imageITKFileStack.py:79 | `np.mean` of values between lo and hi lies between lo and hi |
| SliceOrdering.Select | mirp/importData/imageITKFileStack.py:79 | boolean-mask selection keeps every masked value and no more values than the input has |
| SliceOrdering.SelectOnlyMasked | mirp/importData/imageITKFileStack.py:79 | every selected value is a value whose mask entry is true |
| SliceOrdering.SelectAll | mirp/importData/imageITKFileStack.py:79 | with every mask entry true, nothing is dropped: the selection is the whole sequence |
| SliceOrdering.SelectWithin | mirp/importData/imageITKFileStack.py:79 | the selected values all lie within any bounds the masked values satisfy |
| SliceOrdering.AnyAbove | mirp/importData/imageITKFileStack.py:68 | `np.any(s > bound)` holds exactly when some element exceeds the bound |
| SliceOrdering.CumulativePositions | mirp/importData/imageITKFileStack.py:76 | there are N positions; the first is 0.0; each later one adds the rounded gap before it |
| SliceOrdering.CumulativePositionsAreSums | mirp/importData/imageITKFileStack.py:76 | position i is the sum of the first i rounded gaps, as `np.cumsum` gives |
| SliceOrdering.CumulativePositionsAscend | mirp/importData/imageITKFileStack.py:76 | with non-negative gaps the slice positions are non-decreasing |
| SliceOrdering.AtMost | mirp/importData/imageITKFileStack.py:79 | mask i holds exactly when value i is at most the bound |
| SliceOrdering.RegularMask | mirp/importData/imageITKFileStack.py:79 | a gap is regular exactly when it is at most 1.2 times the smallest gap |
| SliceOrdering.Multipliers | mirp/importData/imageITKFileStack.py:66 | multiplier i is gap i over the smallest gap; it exceeds 1.2 iff the gap exceeds 1.2 × min; it is ≥ 1 iff the gap is ≥ min; it is 1 iff the gap equals min |
| SliceOrdering.RegularGapsMean | mirp/importData/imageITKFileStack.py:63-79 | the regular gaps include the smallest gap, and their mean lies in [min gap, 1.2 × min gap] |
| SliceOrdering.ResolveSpacing | mirp/importData/imageITKFileStack.py:56-79 | fails for no gaps or a non-positive gap and only then. On success: the minimum is a positive gap no larger than any other; every multiplier is ≥ 1 and one is 1; irregular iff some gap exceeds 1.2 × min; slice positions are recorded iff irregular; the spacing is the rounded mean of the regular gaps, non-negative, within rounding of [min, 1.2 × min] |
| SliceOrdering.EvenGapsAreRegular | mirp/importData/imageITKFileStack.py:63-79 | equal gaps: no irregularity, no slice positions, spacing equal to the rounded common gap |
| SliceOrdering.OneMissingSlice | mirp/importData/imageITKFileStack.py:63-79 | gaps 1 and 2 (one slice missing): irregular, positions 0, 1, 3, spacing 1 from the regular gap only |
| Orientation.ReverseFlatten | mirp/importData/imageITKFileStack.py:89-90 | entry (i, j) of the reversed-and-reshaped matrix is entry (2−i, 2−j) of the direction matrix |
| Orientation.ReverseFlattenInvolution | mirp/importData/imageITKFileStack.py:89-90 | reversing the flattened matrix twice gives it back |
| Orientation.Steps | mirp/importData/imageITKFileStack.py:94-96 | `np.diff` of a position column: N−1 steps, step i from position i to position i+1 along that axis |
| Orientation.MinStep | mirp/importData/imageITKFileStack.py:94-96 | the smallest step along an axis is one of the steps and no larger than any |
| Orientation.EqualStepsMin | mirp/importData/imageITKFileStack.py:94-96 | when all steps along an axis are equal, the smallest step is that step |
| Orientation.ZRow | mirp/importData/imageITKFileStack.py:93-97 | each component of the z-row is the smallest step along that canonical axis, rounded to five decimals, over the resolved slice spacing |
| Orientation.StackOrientation | mirp/importData/imageITKFileStack.py:88-101 | row 0 is the rebuilt z-row; rows 1 and 2 are the reversed direction entries of the first file, unchanged |
| Orientation.ZRowAlongStack | mirp/importData/imageITKFileStack.py:93-97 | positions ascending along z with a positive spacing give a non-negative z component of the z-row |
| Orientation.StraightStackZRow | mirp/importData/imageITKFileStack.py:93-100 | a stack running straight along z in equal steps, with the spacing resolved from those steps, has z-row (1, 0, 0) |
| Orientation.UnitStackOrientation | mirp/importData/imageITKFileStack.py:88-101 | three unit-spaced slices along z with identity direction give the identity orientation |
| StackAssembly.SortedTable | mirp/importData/imageITKFileStack.py:32-45 | the sorted table has one row per slice, is strictly sorted, and each row holds a valid input index and that slice's reversed origin |
| StackAssembly.MapSeq | mirp/importData/imageITKFileStack.py:48-51 | a list comprehension: same length, element i is f applied to input i |
| StackAssembly.MapConcat | mirp/importData/imageITKFileStack.py:48-51 | mapping a concatenation is concatenating the mappings |
| StackAssembly.MapPreservesMultiset | mirp/importData/imageITKFileStack.py:48-51 | mapping two permutations of each other gives two permutations of each other |
| StackAssembly.RemoveMatching | mirp/importData/imageITKFileStack.py:48-51 | removing the same element from two permutations leaves two permutations |
| StackAssembly.MapSplit | mirp/importData/imageITKFileStack.py:48-51 | mapping with one element removed loses exactly that element's image |
| StackAssembly.SplitAt | mirp/importData/imageITKFileStack.py:48-51 | a sequence is its prefix, the element, and its suffix, as a multiset too |
| StackAssembly.FilesInTableOrder | mirp/importData/imageITKFileStack.py:48-51 | one file per table row |
| StackAssembly.LookupFiles | mirp/importData/imageITKFileStack.py:48-51 | looking up files by row index gives the input files for the unsorted table and the reordered files for the sorted one |
| StackAssembly.SortedFilesArePermutation | mirp/importData/imageITKFileStack.py:48-51 | the reordered files are a permutation of the input files |
| StackAssembly.OrderedFiles | mirp/importData/imageITKFileStack.py:47-51 | the reordered files are a permutation of the input, each at its sorted position, in ascending position order |
| StackAssembly.StackOrigin | mirp/importData/imageITKFileStack.py:53-54 | the stack origin is the reversed origin of some input slice, and no input slice lies before it |
| StackAssembly.StackGaps | mirp/importData/imageITKFileStack.py:56-60 | N slices give N−1 gaps (none for an empty stack) |
| StackAssembly.StackGapAt | mirp/importData/imageITKFileStack.py:57-60 | gap i is the distance between the i-th and (i+1)-th sorted positions |
| StackAssembly.Assemble | mirp/importData/imageITKFileStack.py:81-106 | files in sorted order; origin of the lowest slice; spacing (resolved z, first file's y and x) in both branches of line 83; z-row from the sorted positions; rows 1-2 from the first file's direction; dimension (N, rows, columns); irregularity and positions passed through |
| StackAssembly.Complete | mirp/importData/imageITKFileStack.py:20-106 | each error happens exactly under its condition (no slices, one slice, a non-positive gap, a zero resolved spacing); success means at least two slices, a positive resolved spacing, and the geometry `Assemble` describes |
| StackAssembly.PositionAtMostAntisymmetric | mirp/importData/imageITKFileStack.py:45 | two positions each at most the other are equal |
| StackAssembly.ReverseInjective | mirp/importData/imageITKFileStack.py:33 | different origins reverse to different positions |
| StackAssembly.NeighboursAtOnePosition | mirp/importData/imageITKFileStack.py:40-45 | two neighbouring rows of a table of the slices at one position mean two input slices share an origin |
| StackAssembly.SliceInTable | mirp/importData/imageITKFileStack.py:40-45 | every input slice has a row in the sorted table, at its reversed origin |
| StackAssembly.SharedOriginInTable | mirp/importData/imageITKFileStack.py:40-45 | two slices with one origin occupy two places of the sorted table |
| StackAssembly.EqualEndsEqualNext | mirp/importData/imageITKFileStack.py:45 | in a sorted table, a row between two rows at one position is at that position too |
| StackAssembly.SharedOriginMeansZeroGap | mirp/importData/imageITKFileStack.py:57-63 | with a genuine distance, two slices sharing an origin produce a zero gap |
| StackAssembly.CoincidentSlicesIffSharedOrigin | mirp/importData/imageITKFileStack.py:57-66 | with at least two slices, the coincident-slices failure happens exactly when two input slices share an origin |
| StackAssembly.AscendingHeadsEqual | mirp/importData/imageITKFileStack.py:40-51 | two ascending arrangements of the same files start with the same file |
| StackAssembly.AscendingTail | mirp/importData/imageITKFileStack.py:40-51 | dropping the first file keeps an arrangement ascending and origin-identified |
| StackAssembly.TailsPermutation | mirp/importData/imageITKFileStack.py:40-51 | two permutations with the same head have permuted tails |
| StackAssembly.AscendingPermutationsEqual | mirp/importData/imageITKFileStack.py:40-51 | when origins identify files, the ascending arrangement of a set of files is unique |
| StackAssembly.OrderedFilesIdentify | mirp/importData/imageITKFileStack.py:40-51 | without shared origins, the reordered files are identified by their origins |
| StackAssembly.PositionsFollowFiles | mirp/importData/imageITKFileStack.py:40-60 | equal reordered files give equal sorted positions |
| StackAssembly.AssembleReadsOnlyOrder | mirp/importData/imageITKFileStack.py:81-106 | the assembled geometry depends on the input only through its sorted arrangement |
| StackAssembly.InputOrderIrrelevant | mirp/importData/imageITKFileStack.py:28-106 | without shared origins, any permutation of the input files gives the same reordered files and the same result |
| StackAssembly.AssembledZRowAlongStack | mirp/importData/imageITKFileStack.py:45-97 | every successfully assembled stack has a z-row whose z component is not negative: the sorted slices ascend along z and the resolved spacing is positive |
| StackAssembly.EvenlySpacedStack | mirp/importData/imageITKFileStack.py:63-86 | evenly spaced slices in any input order assemble without the irregularity warning and without slice positions, with z spacing equal to the rounded common gap |
| StackAssembly.OrderAtLabel | mirp/importData/imageITKFileStack.py:49 | indexing `original_object_order` by label `ii` gives `ii` itself, wherever the sort moved that row |
| StackAssembly.FilesAsWritten | mirp/importData/imageITKFileStack.py:48-51 | as written, the "sorted" file list is the input list unchanged |
| StackAssembly.OriginAsWritten | mirp/importData/imageITKFileStack.py:53-54 | as written, the stack origin is the first input file's reversed origin |
| StackAssembly.OriginAsWrittenNotLowest | mirp/importData/imageITKFileStack.py:48-54 | two slices given top first: the as-written origin is the top slice's, while the lowest slice's origin is the one the positions and z-row are measured from |
| CtImage.DefaultLowestIntensity | mirp/_images/ct_image.py:12-13 | the default lowest CT intensity is −1000 |
| CtImage.DefaultLowestIntensityIsWhole | mirp/_images/ct_image.py:12-20 | the default lowest intensity is a whole Hounsfield value, left alone by snapping |
| CtImage.SnapVoxels | mirp/_images/ct_image.py:20 | every voxel becomes a whole number within 0.5 of its value, and exact halves go to the even neighbour |
| CtImage.UpdateImageData | mirp/_images/ct_image.py:15-20 | absent data stays absent and the image is returned unchanged; present data keeps its length and becomes whole units within 0.5 of the input, and a value exactly halfway between two whole numbers goes to the even one; kind and geometry are kept |
| CtImage.SnapWholeUnits | mirp/_images/ct_image.py:20 | snapping whole values changes nothing |
| CtImage.UpdateImageDataIdempotent | mirp/_images/ct_image.py:15-20 | updating the data twice equals updating it once |
| CtImage.HalvesRoundToEven | mirp/_images/ct_image.py:20 | 2.5 snaps to 2, 3.5 to 4 and −0.5 to 0 |
| CtImage.IdentityMethodKeepsImage | mirp/_images/ct_image.py:43-44 | once the parent succeeds, an absent or "none" normalisation method gives back the CT image itself, and any other method on present data gives a generic image |
| CtImage.NormaliseIntensities | mirp/_images/ct_image.py:22-49 | fails exactly when the parent transform fails, with its error. Returns the CT image itself iff the parent produced no data or the method is absent or "none". Otherwise returns a generic image with the parent's data and geometry |
| CtImage.ScaleIntensities | mirp/_images/ct_image.py:51-66 | fails exactly when the parent transform fails. Returns the CT image itself iff the parent produced no data or the scale is exactly 1.0. Otherwise returns a generic image with the parent's data and geometry |
| CtImage.Step | mirp/_images/ct_image.py:22-66 | a transform of a CT image yields either that image or a generic one |
| CtImage.DemotionIsOneWay | mirp/_images/ct_image.py:22-66 | if the generic transforms keep the image class, a CT result after any sequence of transforms is the original CT image itself; a generic image never becomes CT |

## Left out

- Lines 22-25 (`load_metadata`, `_complete_modality`, `_complete_sample_name`) and line 109 (`check`): reading the files and the final consistency check are not part of this model. The slice metadata is the input.
- Lines 69-73: the warning becomes the `irregular` flag. Its message text, which lists the distinct spacings, is not modelled.
- Lines 57-60: `np.sqrt` of the summed squares is the parameter `distance`. Only the lemmas relating zero gaps to shared origins assume `IsDistance`.
- Floating point: all arithmetic is on exact reals. `np.around(x, 5)` rounds exactly at the fifth decimal, and the equality at line 83 is exact.
- StackAssembly.Complete: where numpy divides by a zero minimum gap (line 66) or a zero spacing (line 97), the source produces infinities or NaN and relies on `check` at line 109. The model returns `CoincidentSlices` or `ZeroSliceSpacing` instead.
- StackAssembly.Complete: a one-slice stack fails at line 63 (`np.min` of no gaps); the model returns `SingleSlice`.
- StackAssembly.Complete: the dimension's row and column counts come from `self.image_metadata.GetSize()` at line 104, the stack's own metadata. That metadata is the input `stackSize`.
- StackAssembly.Assemble: the origin is the lowest slice's (line 54), and the spacing and direction are read from the first reordered file (lines 82 and 89). This is the intended order; as written, all three come from the first input file (see Findings).
- Orientation.ZRowAlongStack: states only the sign of the z component. The general value is given by `ZRow`'s definition, and StraightStackZRow covers the case of a straight stack.
- SliceOrdering.Select: its contract, with SelectOnlyMasked and SelectAll, states which values are kept. It does not state their order or how often each occurs; the definition keeps every masked value once, in order, as numpy does.
- CtImage: the parent `GenericImage.normalise_intensities` and `scale_intensities` are parameters, and so is their validation of the method and bounds. `update_from_template` is modelled as copying the parent result's geometry. Voxel data is a flat sequence.
- CtImage.DemotionIsOneWay: assumes the generic transforms return an image of the class they were given. Their code is not part of this model.
- test/basic_test.py: an end-to-end test of file reading and feature extraction, with no logic of its own to model.

## Findings

| source | as written | input that shows it | evidently intended | confidence | as-written member | corrected member |
|---|---|---|---|---|---|---|
| mirp/importData/imageITKFileStack.py:48-54 | `original_object_order[ii]` is looked up by row label, and `sort_values` keeps each row's label. So the lookup yields `ii` and the file list stays in input order. The origin (line 54), nominal spacing (line 82) and direction (line 89) then come from the first input file, while the gaps and z-row use the sorted table. | two slices given top first, with ITK origins (0, 0, 1) and then (0, 0, 0): the stack origin becomes (z, y, x) = (1, 0, 0) | files in ascending position order, with the origin (0, 0, 0) of the lowest slice | high; not executed | StackAssembly.FilesAsWritten, StackAssembly.OriginAsWritten, StackAssembly.OriginAsWrittenNotLowest | StackAssembly.OrderedFiles, StackAssembly.StackOrigin |
