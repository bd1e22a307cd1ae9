/** The CT variant of an image (`CTImage`): voxel values are whole Hounsfield units, and any
    transform that breaks the one-to-one relation between stored values and Hounsfield units
    demotes the image to a generic one. */
module CtImage {
  import opened Results
  import opened Rounding
  import opened Geometry

  /** The class of an image object: `CTImage` or plain `GenericImage`. */
  datatype ImageKind = CT | Generic

  /** An image: its class, its voxel values (flattened; absent before loading) and its geometry. */
  datatype Image = Image(kind: ImageKind, data: Option<seq<real>>, geometry: ImageGeometry)

  /** The arguments of `normalise_intensities`; an absent normalisation method is Python's `None`. */
  datatype NormaliseArgs = NormaliseArgs(
    normaliser: Option<string>,
    intensityRange: Option<(real, real)>,
    saturationRange: Option<(real, real)>,
    mask: Option<seq<bool>>)

  /** Lines 12-13: the lowest intensity a CT image can hold, air at -1000 Hounsfield units. */
  function DefaultLowestIntensity(): (v: real)
    ensures v == -1000.0
  {
    -1000.0
  }

  /** Whole Hounsfield units. */
  predicate WholeUnits(v: seq<real>) {
    forall i :: 0 <= i < |v| ==> IsIntegral(v[i])
  }

  /** `np.round` on every voxel: the nearest whole number, ties to the even one. */
  function SnapVoxels(v: seq<real>): (r: seq<real>)
    ensures |r| == |v|
    ensures WholeUnits(r)
    ensures forall i :: 0 <= i < |v| ==> v[i] - 0.5 <= r[i] <= v[i] + 0.5
    ensures forall i :: 0 <= i < |v| ==> (r[i] - v[i] == 0.5 || v[i] - r[i] == 0.5) ==> r[i].Floor % 2 == 0
  {
    seq(|v|, i requires 0 <= i < |v| => RoundHalfEven(v[i]) as real)
  }

  /** Lines 15-20: absent data stays absent; present data is snapped to whole Hounsfield units,
      each voxel to the nearest whole number (ties to even). Kind and geometry are kept. */
  function UpdateImageData(img: Image): (r: Image)
    requires img.kind == CT
    ensures r.kind == CT && r.geometry == img.geometry
    ensures r.data.None? <==> img.data.None?
    ensures img.data.None? ==> r == img
    ensures img.data.Some? ==> |r.data.value| == |img.data.value| && WholeUnits(r.data.value)
    ensures img.data.Some? ==> forall i :: 0 <= i < |img.data.value| ==>
      img.data.value[i] - 0.5 <= r.data.value[i] <= img.data.value[i] + 0.5
    ensures img.data.Some? ==> forall i :: 0 <= i < |img.data.value| ==>
      (r.data.value[i] - img.data.value[i] == 0.5 || img.data.value[i] - r.data.value[i] == 0.5)
        ==> r.data.value[i].Floor % 2 == 0
  {
    match img.data
    case None => img
    case Some(v) => img.(data := Some(SnapVoxels(v)))
  }

  /** Snapping values that are already whole changes nothing. */
  lemma SnapWholeUnits(v: seq<real>)
    requires WholeUnits(v)
    ensures SnapVoxels(v) == v
  {
    forall i | 0 <= i < |v|
      ensures SnapVoxels(v)[i] == v[i]
    {
      RoundIntegral(v[i]);
    }
  }

  /** Updating the data twice is updating it once. */
  lemma UpdateImageDataIdempotent(img: Image)
    requires img.kind == CT
    ensures UpdateImageData(UpdateImageData(img)) == UpdateImageData(img)
  {
    if img.data.Some? {
      SnapWholeUnits(UpdateImageData(img).data.value);
    }
  }

  /** A voxel at the default lowest intensity is left where it is. */
  lemma DefaultLowestIntensityIsWhole()
    ensures SnapVoxels([DefaultLowestIntensity()]) == [DefaultLowestIntensity()]
  {
    SnapWholeUnits([DefaultLowestIntensity()]);
  }

  /** Halves go to the even neighbour: 2.5 to 2, 3.5 to 4, -0.5 to 0. */
  lemma HalvesRoundToEven()
    ensures SnapVoxels([2.5, 3.5, -0.5]) == [2.0, 4.0, 0.0]
  {
    var r := SnapVoxels([2.5, 3.5, -0.5]);
    RoundHalfEvenUnique(2.5, 2);
    RoundHalfEvenUnique(3.5, 4);
    RoundHalfEvenUnique(-0.5, 0);
  }

  /** Whether `normalise_intensities` with this normalisation method leaves intensities as they are. */
  predicate IdentityMethod(normaliser: Option<string>) {
    normaliser.None? || normaliser.value == "none"
  }

  /** Line 43: an absent or "none" normalisation method returns the CT image itself whenever the
      parent succeeds, and any other method on present data yields a generic image. */
  lemma IdentityMethodKeepsImage(img: Image, args: NormaliseArgs,
                                 parent: (Image, NormaliseArgs) -> Result<Image, string>)
    requires img.kind == CT && parent(img, args).Success?
    ensures IdentityMethod(args.normaliser) ==> NormaliseIntensities(img, args, parent) == Success(img)
    ensures !IdentityMethod(args.normaliser) && parent(img, args).value.data.Some? ==>
      NormaliseIntensities(img, args, parent).value.kind == Generic
  {
  }

  /** Lines 22-49. The parent `GenericImage.normalise_intensities` runs first, and its failure
      (an unrecognised method or malformed bounds) is passed on. If it produced no data, or the
      method is absent or "none", the CT image itself is returned; otherwise a generic image
      carrying the parent's data and geometry. */
  function NormaliseIntensities(img: Image, args: NormaliseArgs,
                                parent: (Image, NormaliseArgs) -> Result<Image, string>)
    : (r: Result<Image, string>)
    requires img.kind == CT
    ensures r.Failure? <==> parent(img, args).Failure?
    ensures r.Failure? ==> r == parent(img, args)
    ensures r.Success? ==>
      (r.value == img <==> parent(img, args).value.data.None? || IdentityMethod(args.normaliser))
    ensures r.Success? && r.value != img ==>
      r.value.kind == Generic && r.value.data.Some?
      && r.value.data == parent(img, args).value.data
      && r.value.geometry == parent(img, args).value.geometry
  {
    match parent(img, args)
    case Failure(e) => Failure(e)
    case Success(image) =>
      if image.data.None? then Success(img)
      else if IdentityMethod(args.normaliser) then Success(img)
      else Success(Image(Generic, image.data, image.geometry))
  }

  /** Lines 51-66, with the parent `GenericImage.scale_intensities` as `parent`: as for
      normalisation, with scaling by exactly 1.0 as the identity case. */
  function ScaleIntensities(img: Image, scale: real, parent: (Image, real) -> Result<Image, string>)
    : (r: Result<Image, string>)
    requires img.kind == CT
    ensures r.Failure? <==> parent(img, scale).Failure?
    ensures r.Failure? ==> r == parent(img, scale)
    ensures r.Success? ==> (r.value == img <==> parent(img, scale).value.data.None? || scale == 1.0)
    ensures r.Success? && r.value != img ==>
      r.value.kind == Generic && r.value.data.Some?
      && r.value.data == parent(img, scale).value.data
      && r.value.geometry == parent(img, scale).value.geometry
  {
    match parent(img, scale)
    case Failure(e) => Failure(e)
    case Success(image) =>
      if image.data.None? then Success(img)
      else if scale == 1.0 then Success(img)
      else Success(Image(Generic, image.data, image.geometry))
  }

  // ---------------------------------------------------------------------------------------------
  // Sequences of transforms

  /** An intensity transform a caller may request. */
  datatype Transform = Normalise(args: NormaliseArgs) | Scale(factor: real)

  /** A transform dispatched on the image's class: a CT image runs the methods above, a generic
      image runs the `GenericImage` ones directly. */
  function Step(img: Image, op: Transform,
                normalise: (Image, NormaliseArgs) -> Result<Image, string>,
                scale: (Image, real) -> Result<Image, string>)
    : (r: Result<Image, string>)
    ensures img.kind == CT && r.Success? ==> r.value == img || r.value.kind == Generic
  {
    if img.kind == CT then
      match op
      case Normalise(args) => NormaliseIntensities(img, args, normalise)
      case Scale(factor) => ScaleIntensities(img, factor, scale)
    else
      match op
      case Normalise(args) => normalise(img, args)
      case Scale(factor) => scale(img, factor)
  }

  /** The transforms applied in turn, stopping at the first failure. */
  function Apply(img: Image, ops: seq<Transform>,
                 normalise: (Image, NormaliseArgs) -> Result<Image, string>,
                 scale: (Image, real) -> Result<Image, string>)
    : (r: Result<Image, string>)
    ensures |ops| == 0 ==> r == Success(img)
    decreases |ops|
  {
    if |ops| == 0 then Success(img)
    else
      match Step(img, ops[0], normalise, scale)
      case Failure(e) => Failure(e)
      case Success(next) => Apply(next, ops[1..], normalise, scale)
  }

  /** A `GenericImage` transform returns an image of the class it was given. */
  ghost predicate KeepsKind<A(!new)>(f: (Image, A) -> Result<Image, string>) {
    forall x, a :: f(x, a).Success? ==> f(x, a).value.kind == x.kind
  }

  /** Demotion is one-way: after any sequence of transforms, a CT image is the original image
      itself, and a generic image never becomes CT again. */
  lemma {:induction false} DemotionIsOneWay(img: Image, ops: seq<Transform>,
                                            normalise: (Image, NormaliseArgs) -> Result<Image, string>,
                                            scale: (Image, real) -> Result<Image, string>)
    requires KeepsKind(normalise) && KeepsKind(scale)
    ensures Apply(img, ops, normalise, scale).Success? && Apply(img, ops, normalise, scale).value.kind == CT
      ==> img.kind == CT && Apply(img, ops, normalise, scale).value == img
    decreases |ops|
  {
    if |ops| > 0 {
      var step := Step(img, ops[0], normalise, scale);
      if step.Success? {
        DemotionIsOneWay(step.value, ops[1..], normalise, scale);
        if img.kind == Generic {
          match ops[0]
          case Normalise(args) => assert step == normalise(img, args);
          case Scale(factor) => assert step == scale(img, factor);
        }
      }
    }
  }
}
