/** The pixel pipeline of `ImageProcessingService.transformImage`: which ImageJ
    operations run for a transformation request, with which arguments and in
    which order.

    The request is the JSON map of the HTTP body, read as typed optional fields
    (keys the code does not look up are ignored). The ImageJ calls themselves
    are uninterpreted: a raster is the term that records how it was obtained,
    so two rasters are equal exactly when they come from the same bytes through
    the same operations. */
module TransformPipeline {
  import opened Base

  datatype ResizeSpec = ResizeSpec(width: Option<int>, height: Option<int>)
  datatype CropSpec = CropSpec(x: Option<int>, y: Option<int>, width: Option<int>, height: Option<int>)
  datatype FilterSpec = FilterSpec(grayscale: Option<bool>, sepia: Option<bool>)

  /** The keys "resize", "crop", "rotate", "format" and "filters" of the request map. */
  datatype TransformRequest = TransformRequest(
    resize: Option<ResizeSpec>,
    crop: Option<CropSpec>,
    rotate: Option<int>,
    format: Option<string>,
    filters: Option<FilterSpec>)

  /** One ImageJ operation on the working processor. */
  datatype Step =
    | Resize(width: int, height: int)                  // processor.resize(width, height)
    | Crop(x: int, y: int, width: int, height: int)    // processor.setRoi(x, y, width, height); processor.crop()
    | Rotate(degrees: int)                             // processor.rotate(degrees)
    | Grayscale                                        // processor.convertToByte(true)

  /** A raster: the image ImageJ opened from some bytes in a file with the
      given extension (ImageJ picks its reader partly by the file name), or the
      result of one operation on another raster. */
  datatype Raster = Opened(source: seq<bv8>, extension: string) | Applied(base: Raster, step: Step)

  /** Position of each operation in the fixed order resize, crop, rotate, grayscale. */
  function Rank(s: Step): nat {
    match s
    case Resize(_, _) => 0
    case Crop(_, _, _, _) => 1
    case Rotate(_) => 2
    case Grayscale => 3
  }

  /** The operations a raster went through, oldest first. */
  function Trace(r: Raster): seq<Step> {
    match r
    case Opened(_, _) => []
    case Applied(b, s) => Trace(b) + [s]
  }

  /** The raster as ImageJ opened it, before any operation. */
  function Source(r: Raster): (origin: Raster)
    ensures origin.Opened?
  {
    match r
    case Opened(_, _) => r
    case Applied(b, _) => Source(b)
  }

  /** Applies `steps` to `r`, first step first. */
  function ApplySteps(r: Raster, steps: seq<Step>): Raster
    decreases |steps|
  {
    if steps == [] then r else ApplySteps(Applied(r, steps[0]), steps[1..])
  }

  /** Applying steps appends exactly those steps to the raster's history and
      keeps the file it was opened from. */
  lemma {:induction false} ApplyStepsTrace(r: Raster, steps: seq<Step>)
    ensures Trace(ApplySteps(r, steps)) == Trace(r) + steps
    ensures Source(ApplySteps(r, steps)) == Source(r)
    decreases |steps|
  {
    if steps != [] {
      ApplyStepsTrace(Applied(r, steps[0]), steps[1..]);
      assert [steps[0]] + steps[1..] == steps;
      assert Trace(r) + [steps[0]] + steps[1..] == Trace(r) + steps;
    }
  }

  /** Applying `a` and then `b` is applying `a + b`. */
  lemma {:induction false} ApplyStepsConcat(r: Raster, a: seq<Step>, b: seq<Step>)
    ensures ApplySteps(r, a + b) == ApplySteps(ApplySteps(r, a), b)
    decreases |a|
  {
    if a != [] {
      assert (a + b)[0] == a[0];
      assert (a + b)[1..] == a[1..] + b;
      ApplyStepsConcat(Applied(r, a[0]), a[1..], b);
    } else {
      assert a + b == b;
    }
  }

  /** Every raster is the image ImageJ opened with its history applied to it. */
  lemma {:induction false} SourceAndTrace(r: Raster)
    ensures r == ApplySteps(Source(r), Trace(r))
  {
    match r
    case Opened(_, _) =>
    case Applied(b, s) =>
      SourceAndTrace(b);
      ApplyStepsConcat(Source(b), Trace(b), [s]);
      assert [s][1..] == [];
  }

  /** Resize runs only when the "resize" map has both a width and a height. */
  function ResizeStep(req: TransformRequest): seq<Step> {
    match req.resize
    case Some(ResizeSpec(Some(w), Some(h))) => [Resize(w, h)]
    case _ => []
  }

  /** Crop runs only when the "crop" map has all of x, y, width and height. */
  function CropStep(req: TransformRequest): seq<Step> {
    match req.crop
    case Some(CropSpec(Some(x), Some(y), Some(w), Some(h))) => [Crop(x, y, w, h)]
    case _ => []
  }

  /** Rotate runs whenever "rotate" is present. */
  function RotateStep(req: TransformRequest): seq<Step> {
    match req.rotate
    case Some(d) => [Rotate(d)]
    case None => []
  }

  /** Grayscale runs only when "filters" has "grayscale" set to true. The
      "sepia" flag selects nothing: its branch has no operation in it. */
  function GrayscaleStep(req: TransformRequest): seq<Step> {
    match req.filters
    case Some(f) => if f.grayscale == Some(true) then [Grayscale] else []
    case None => []
  }

  /** The operations `transformImage` applies for a request, in order. */
  function SelectedSteps(req: TransformRequest): seq<Step> {
    ResizeStep(req) + CropStep(req) + RotateStep(req) + GrayscaleStep(req)
  }

  /** The extension (and ImageJ output format) of a transformed image: the
      requested "format", or else the source image's extension. */
  function OutputExtension(req: TransformRequest, sourceExtension: string): string {
    req.format.GetOr(sourceExtension)
  }

  /** The selected operations appear in the fixed order resize, crop, rotate,
      grayscale, each at most once. */
  lemma SelectedStepsOrdered(req: TransformRequest)
    ensures |SelectedSteps(req)| <= 4
    ensures forall i, j :: 0 <= i < j < |SelectedSteps(req)| ==>
              Rank(SelectedSteps(req)[i]) < Rank(SelectedSteps(req)[j])
  {
  }

  /** Exactly which operations, with which arguments, a request selects. */
  lemma SelectedStepsExact(req: TransformRequest, w: int, h: int, x: int, y: int, d: int)
    ensures Resize(w, h) in SelectedSteps(req) <==> req.resize == Some(ResizeSpec(Some(w), Some(h)))
    ensures Crop(x, y, w, h) in SelectedSteps(req) <==> req.crop == Some(CropSpec(Some(x), Some(y), Some(w), Some(h)))
    ensures Rotate(d) in SelectedSteps(req) <==> req.rotate == Some(d)
    ensures Grayscale in SelectedSteps(req) <==> req.filters.Some? && req.filters.value.grayscale == Some(true)
  {
  }

  /** The request with its "sepia" filter flag replaced. */
  function WithSepia(req: TransformRequest, sepia: Option<bool>): TransformRequest {
    var grayscale := match req.filters case Some(f) => f.grayscale case None => None;
    req.(filters := Some(FilterSpec(grayscale, sepia)))
  }

  /** The sepia flag never changes which operations run, so it never changes the image. */
  lemma SepiaHasNoEffect(req: TransformRequest, sepia: Option<bool>, image: Raster)
    ensures SelectedSteps(WithSepia(req, sepia)) == SelectedSteps(req)
    ensures ApplySteps(image, SelectedSteps(WithSepia(req, sepia))) == ApplySteps(image, SelectedSteps(req))
  {
  }

  /** A request without any of the operation keys leaves the opened image as it is. */
  lemma EmptyRequestIsIdentity(image: Raster, format: Option<string>)
    ensures ApplySteps(image, SelectedSteps(TransformRequest(None, None, None, format, None))) == image
  {
  }

  /** Applying one more step to the prefix already done. */
  lemma ApplyNext(image: Raster, done: seq<Step>, next: seq<Step>, processor: Raster)
    requires processor == ApplySteps(image, done)
    requires |next| <= 1
    ensures ApplySteps(image, done + next) == if next == [] then processor else Applied(processor, next[0])
  {
    ApplyStepsConcat(image, done, next);
    if next != [] {
      assert next[1..] == [];
    } else {
      assert done + next == done;
    }
  }

  /** Lines 156-198 of `transformImage`: the working processor is replaced, step
      by step, by the result of each selected operation. */
  method RunPipeline(image: Raster, req: TransformRequest) returns (processor: Raster)
    ensures processor == ApplySteps(image, SelectedSteps(req))
    ensures Trace(processor) == Trace(image) + SelectedSteps(req)
    ensures Source(processor) == Source(image)
  {
    processor := image;
    ghost var done: seq<Step> := [];

    ApplyNext(image, done, ResizeStep(req), processor);
    if req.resize.Some? {
      var resize := req.resize.value;
      if resize.width.Some? && resize.height.Some? {
        processor := Applied(processor, Resize(resize.width.value, resize.height.value));
      }
    }
    done := done + ResizeStep(req);

    ApplyNext(image, done, CropStep(req), processor);
    if req.crop.Some? {
      var crop := req.crop.value;
      if crop.x.Some? && crop.y.Some? && crop.width.Some? && crop.height.Some? {
        processor := Applied(processor, Crop(crop.x.value, crop.y.value, crop.width.value, crop.height.value));
      }
    }
    done := done + CropStep(req);

    ApplyNext(image, done, RotateStep(req), processor);
    if req.rotate.Some? {
      processor := Applied(processor, Rotate(req.rotate.value));
    }
    done := done + RotateStep(req);

    ApplyNext(image, done, GrayscaleStep(req), processor);
    if req.filters.Some? {
      var filters := req.filters.value;
      if filters.grayscale.Some? && filters.grayscale.value {
        processor := Applied(processor, Grayscale);
      }
      // a true "sepia" flag reaches an empty branch: nothing happens
    }
    done := done + GrayscaleStep(req);

    assert done == SelectedSteps(req);
    ApplyStepsTrace(image, SelectedSteps(req));
  }
}
