/** Processing of one opened document: crop to the content, measure the
    background, resize by the plan, normalise the colour, save a WebP copy
    and close. The image engine is not modelled. Opening is not a step:
    the opened document, with what the engine reports about it, is the
    input `OpenDocument`. Every later call is an `EngineStep` carrying the
    values the script computes for it; the profile conversion and the mode
    change together are the one step `ConvertToSrgb`. */
module Pipeline {
  import opened Settings
  import ConfigDialog
  import BackgroundMeasure
  import ResizePlanner
  import FileNames

  datatype Anchor = MiddleCenter

  datatype Compression = Lossy | Lossless

  /** The batch always saves lossy WebP. */
  const BatchCompression: Compression := Lossy

  /** Options of the WebP save. `quality` is present only for lossy saves. */
  datatype WebPOptions = WebPOptions(
    compression: Compression,
    quality: Option<int>,
    includeXmp: bool,
    includeExif: bool,
    includePsExtras: bool,
    asCopy: bool,
    lowerCaseExtension: bool)

  datatype EngineStep =
    | CropTo(bounds: Bounds)
    | ResampleTo(width: real, height: real)
    | ResizeCanvas(canvasWidth: int, canvasHeight: int, anchor: Anchor, fill: Rgb)
    | ConvertToSrgb
    | SetEightBitsPerChannel
    | ColorOverlay(color: Rgb)
    | SaveWebP(path: string, options: WebPOptions)
    | CloseWithoutSaving

  /** Pixel bounds of the content selection: left, top, right, bottom. */
  datatype Bounds = Bounds(left: int, top: int, right: int, bottom: int)

  /** What the engine reports about an opened document. `contentChannel`
      is the stored content selection of the document once cropped to
      `content`, one level per pixel. */
  datatype OpenDocument = OpenDocument(
    name: string,
    hasTransparency: bool,
    isRgb: bool,
    hasActiveLayer: bool,
    content: Bounds,
    contentChannel: seq<BackgroundMeasure.Level>)

  /** Why a document is not saved: it has no active layer, or the resample
      size the script computes is zero or negative, which the engine
      refuses. */
  datatype PipelineError = NoActiveLayer | EmptyResample

  datatype Processed = Done(steps: seq<EngineStep>) | Failed(error: PipelineError)

  function CroppedWidth(doc: OpenDocument): int {
    doc.content.right - doc.content.left
  }

  function CroppedHeight(doc: OpenDocument): int {
    doc.content.bottom - doc.content.top
  }

  /** The save options of the batch's single save call: XMP off, EXIF on,
      editor extras off, saved as a copy, lower-case extension. */
  function SaveOptions(compression: Compression, quality: int): WebPOptions {
    WebPOptions(compression, if compression == Lossy then Some(quality) else None,
                false, true, false, true, true)
  }

  /** The colour stage: convert to sRGB unless already RGB, always drop to
      8 bits per channel, then tint only documents with transparency, and
      only when an overlay colour was chosen. */
  function ColorSteps(doc: OpenDocument, cfg: UserInput): (steps: seq<EngineStep>)
    ensures |steps| == (if doc.isRgb then 0 else 1) + 1
                       + (if doc.hasTransparency && cfg.overlayColor.Some? then 1 else 0)
    ensures forall i :: 0 <= i < |steps|
              ==> steps[i] == ConvertToSrgb || steps[i] == SetEightBitsPerChannel || steps[i].ColorOverlay?
    ensures !doc.isRgb ==> steps[0] == ConvertToSrgb
    ensures steps[if doc.isRgb then 0 else 1] == SetEightBitsPerChannel
    ensures ConvertToSrgb in steps <==> !doc.isRgb
    ensures SetEightBitsPerChannel in steps
    ensures forall c :: ColorOverlay(c) in steps <==> doc.hasTransparency && cfg.overlayColor == Some(c)
    ensures forall i :: 0 <= i < |steps| ==> !steps[i].ResizeCanvas? && !steps[i].ResampleTo?
  {
    (if doc.isRgb then [] else [ConvertToSrgb])
    + [SetEightBitsPerChannel]
    + (if cfg.overlayColor.Some? && doc.hasTransparency then [ColorOverlay(cfg.overlayColor.value)] else [])
  }

  /** The documents the pipeline is modelled for: those whose content
      selection is non-empty, so the crop has a positive size, with one
      stored selection level per pixel of the crop. */
  predicate Measurable(doc: OpenDocument) {
    && CroppedWidth(doc) > 0 && CroppedHeight(doc) > 0
    && |doc.contentChannel| == CroppedWidth(doc) * CroppedHeight(doc)
  }

  function BackgroundOf(doc: OpenDocument): real
    requires Measurable(doc)
  {
    BackgroundMeasure.BackgroundRatio(doc.contentChannel, CroppedWidth(doc), CroppedHeight(doc))
  }

  function PlanFor(doc: OpenDocument, cfg: UserInput): ResizePlanner.Planning
    requires Measurable(doc) && ConfigDialog.WellFormed(cfg)
  {
    ResizePlanner.PlanResize(CroppedWidth(doc) as real, CroppedHeight(doc) as real, cfg, BackgroundOf(doc))
  }

  /** The padded box for the document's crop is non-empty. */
  predicate BoxPositiveFor(doc: OpenDocument, cfg: UserInput)
    requires Measurable(doc) && ConfigDialog.WellFormed(cfg)
  {
    ResizePlanner.PaddedBoxPositive(CroppedWidth(doc) as real, CroppedHeight(doc) as real, cfg, BackgroundOf(doc))
  }

  /** One document through the whole pipeline: crop, resample, canvas of
      the configured size, colour stage, save, close. A document without
      an active layer stops the pipeline, and so does a resample size that
      is not positive. The resample keeps the crop's shape; in cover mode
      it covers the canvas (the canvas step only crops), in contain mode
      with a non-empty padded box it fits on it (the canvas step only
      pads). The overlay is applied exactly when the document has
      transparency and a colour was chosen; the copy is saved under the
      base name with `.webp`. */
  function ProcessFile(doc: OpenDocument, cfg: UserInput): (r: Processed)
    requires Measurable(doc) && ConfigDialog.WellFormed(cfg)
    ensures r == Failed(NoActiveLayer) <==> !doc.hasActiveLayer
    ensures r == Failed(EmptyResample) <==> doc.hasActiveLayer && PlanFor(doc, cfg).EmptyResample?
    ensures r.Done? ==>
      && |r.steps| >= 6
      && r.steps[0] == CropTo(doc.content)
      && r.steps[1] == ResampleTo(PlanFor(doc, cfg).plan.resampleWidth, PlanFor(doc, cfg).plan.resampleHeight)
      && r.steps[2] == ResizeCanvas(cfg.width, cfg.height, MiddleCenter, CanvasFill)
      && r.steps[3..|r.steps| - 2] == ColorSteps(doc, cfg)
      && r.steps[|r.steps| - 2] == SaveWebP(FileNames.OutputPath(cfg.outputFolder, doc.name),
                                            SaveOptions(BatchCompression, cfg.quality))
      && r.steps[|r.steps| - 1] == CloseWithoutSaving
    ensures r.Done? ==>
      && r.steps[1].ResampleTo? && r.steps[1].width > 0.0 && r.steps[1].height > 0.0
      && r.steps[1].width / r.steps[1].height == CroppedWidth(doc) as real / CroppedHeight(doc) as real
      && (cfg.mode == Contain && BoxPositiveFor(doc, cfg)
          ==> r.steps[1].width <= cfg.width as real && r.steps[1].height <= cfg.height as real)
      && (cfg.mode == Cover ==> r.steps[1].width >= cfg.width as real && r.steps[1].height >= cfg.height as real)
  {
    if !doc.hasActiveLayer then Failed(NoActiveLayer)
    else
      var planning := PlanFor(doc, cfg);
      if planning.EmptyResample? then Failed(EmptyResample)
      else
        ResampleFitsCanvas(doc, cfg);
        Done(StepsFor(doc, cfg, ResampleTo(planning.plan.resampleWidth, planning.plan.resampleHeight)))
  }

  /** A saved document is tinted exactly with the chosen overlay colour
      when it has transparency, and converted to sRGB exactly when it is
      not RGB. */
  lemma OverlayAndConversionAsChosen(doc: OpenDocument, cfg: UserInput)
    requires Measurable(doc) && ConfigDialog.WellFormed(cfg)
    ensures var r := ProcessFile(doc, cfg);
            r.Done? ==>
              && (forall c :: ColorOverlay(c) in r.steps <==> doc.hasTransparency && cfg.overlayColor == Some(c))
              && (ConvertToSrgb in r.steps <==> !doc.isRgb)
  {
    var r := ProcessFile(doc, cfg);
    if r.Done? {
      assert r.steps[1].ResampleTo?;
    }
  }

  /** The engine calls for a document once its resample step is known. */
  function StepsFor(doc: OpenDocument, cfg: UserInput, resample: EngineStep): (steps: seq<EngineStep>)
    ensures |steps| >= 6
    ensures steps[0] == CropTo(doc.content) && steps[1] == resample
    ensures steps[3..|steps| - 2] == ColorSteps(doc, cfg)
    ensures steps[2] == ResizeCanvas(cfg.width, cfg.height, MiddleCenter, CanvasFill)
    ensures forall x :: x in steps
              <==> x in [CropTo(doc.content), resample, ResizeCanvas(cfg.width, cfg.height, MiddleCenter, CanvasFill)]
                   || x in ColorSteps(doc, cfg)
                   || x == SaveWebP(FileNames.OutputPath(cfg.outputFolder, doc.name), SaveOptions(BatchCompression, cfg.quality))
                   || x == CloseWithoutSaving
    ensures steps[|steps| - 2] == SaveWebP(FileNames.OutputPath(cfg.outputFolder, doc.name),
                                          SaveOptions(BatchCompression, cfg.quality))
    ensures steps[|steps| - 1] == CloseWithoutSaving
  {
    var resize := [CropTo(doc.content), resample, ResizeCanvas(cfg.width, cfg.height, MiddleCenter, CanvasFill)];
    var colour := ColorSteps(doc, cfg);
    var save := [SaveWebP(FileNames.OutputPath(cfg.outputFolder, doc.name), SaveOptions(BatchCompression, cfg.quality)),
                 CloseWithoutSaving];
    ThreeParts(resize, colour, save);
    resize + colour + save
  }

  /** A sequence made of three parts holds exactly their elements, and its
      middle slice is the middle part. */
  lemma ThreeParts<T>(a: seq<T>, b: seq<T>, c: seq<T>)
    ensures forall x :: x in a + b + c <==> x in a || x in b || x in c
    ensures (a + b + c)[|a|..|a| + |b|] == b
  {
    assert (a + b + c)[|a|..|a| + |b|] == b;
  }

  /** The planned resample keeps the crop's shape. With validated settings
      it covers the canvas in cover mode, and fits on it in contain mode
      when the padded box is non-empty. */
  lemma ResampleFitsCanvas(doc: OpenDocument, cfg: UserInput)
    requires Measurable(doc) && ConfigDialog.WellFormed(cfg)
    ensures var r := PlanFor(doc, cfg);
            r.Planned? ==>
              && r.plan.resampleWidth > 0.0 && r.plan.resampleHeight > 0.0
              && r.plan.resampleWidth / r.plan.resampleHeight == CroppedWidth(doc) as real / CroppedHeight(doc) as real
              && (cfg.mode == Contain && BoxPositiveFor(doc, cfg)
                  ==> r.plan.resampleWidth <= cfg.width as real && r.plan.resampleHeight <= cfg.height as real)
              && (cfg.mode == Cover ==> r.plan.resampleWidth >= cfg.width as real && r.plan.resampleHeight >= cfg.height as real)
  {
    var w := CroppedWidth(doc) as real;
    var h := CroppedHeight(doc) as real;
    var r := PlanFor(doc, cfg);
    if cfg.mode == Cover {
      CoverBoxAlwaysPositive(w, h, cfg, BackgroundOf(doc));
    }
    if r.Planned? && BoxPositiveFor(doc, cfg) {
      RealisedPlanOnCanvas(r.plan, w, h, cfg, BackgroundOf(doc));
    }
  }

  lemma RealisedPlanOnCanvas(plan: ResizePlanner.Plan, sourceWidth: real, sourceHeight: real, cfg: UserInput,
                             backgroundRatio: real)
    requires ResizePlanner.ValidSource(sourceWidth, sourceHeight) && ConfigDialog.WellFormed(cfg)
    requires ResizePlanner.Realises(plan, sourceWidth, sourceHeight, cfg, backgroundRatio)
    requires ResizePlanner.WithinBox(plan, cfg.mode)
    ensures cfg.mode == Contain ==> plan.resampleWidth <= cfg.width as real && plan.resampleHeight <= cfg.height as real
    ensures cfg.mode == Cover ==> plan.resampleWidth >= cfg.width as real && plan.resampleHeight >= cfg.height as real
  {
    PlanFitsCanvas(plan, cfg);
  }

  /** With validated settings the padded box never exceeds the canvas, and
      in cover mode it is the canvas. */
  lemma PlanFitsCanvas(plan: ResizePlanner.Plan, cfg: UserInput)
    requires ConfigDialog.WellFormed(cfg)
    requires 0.0 < plan.factor <= 1.0
    requires plan.boxWidth == cfg.width as real * plan.factor - 2.0 * cfg.padding as real
    requires plan.boxHeight == cfg.height as real * plan.factor - 2.0 * cfg.padding as real
    requires cfg.mode == Cover ==> plan.factor == 1.0
    ensures plan.boxWidth <= cfg.width as real && plan.boxHeight <= cfg.height as real
    ensures cfg.mode == Cover ==> plan.boxWidth == cfg.width as real && plan.boxHeight == cfg.height as real
  {
    ResizePlanner.ProductMonotone(plan.factor, 1.0, cfg.width as real, cfg.width as real);
    ResizePlanner.ProductMonotone(plan.factor, 1.0, cfg.height as real, cfg.height as real);
  }

  // ---------------------------------------------------------------------
  // Background fill colour of the canvas
  // ---------------------------------------------------------------------

  /** The fill colour as the script's setter computes it: the green value
      is written into the blue channel as well. */
  function SetBackgroundColorAsWritten(requested: Rgb): Rgb {
    Rgb(requested.red, requested.green, requested.green)
  }

  /** Pure blue is requested and black is set, the same fill that black
      itself gives: the setter as written cannot tell the two apart. */
  lemma BlueIsLostAsWritten()
    ensures SetBackgroundColorAsWritten(Rgb(0, 0, 255)) == Rgb(0, 0, 0)
    ensures SetBackgroundColorAsWritten(Rgb(0, 0, 255)) == SetBackgroundColorAsWritten(Rgb(0, 0, 0))
  {
  }

  /** The fill colour as intended: each channel copied from its own. */
  function BackgroundFill(requested: Rgb): Rgb {
    Rgb(requested.red, requested.green, requested.blue)
  }

  /** The intended setter gives two requests the same fill only when they
      are the same colour. */
  lemma DistinctRequestsDistinctFills(a: Rgb, b: Rgb)
    ensures BackgroundFill(a) == BackgroundFill(b) <==> a == b
  {
  }

  /** The two agree exactly on colours whose green and blue are equal,
      which includes the white the batch sets, so the batch's output is
      not affected. */
  lemma FillSettersAgreeOnGreyBlue(requested: Rgb)
    ensures SetBackgroundColorAsWritten(requested) == BackgroundFill(requested)
            <==> requested.green == requested.blue
  {
  }

  /** The canvas fill of every document in the batch. */
  const CanvasFill: Rgb := BackgroundFill(White)

  /** It is the colour the script's own setter produces for white. */
  lemma CanvasFillMatchesScript()
    ensures CanvasFill == SetBackgroundColorAsWritten(White)
  {
    FillSettersAgreeOnGreyBlue(White);
  }

  // ---------------------------------------------------------------------
  // Contain mode can crop the content
  // ---------------------------------------------------------------------

  /** As written, contain mode can crop the content. The dialog accepts a
      480x240 contain box with padding 109; a 600x1000 crop with 0.1%
      background is shrunk by 180283/200000, which leaves the padded box
      with height -4151/2500. The box ratio is then negative, the width
      branch is taken, and the content comes out 268349/750 (about 357.8)
      high, taller than the 240 canvas that crops it. The guarded planner
      refuses the same input. */
  lemma ContainCropsAsWritten()
    ensures var cfg := UserInput(480, 240, 93, Contain, "in", "out", 109, None);
            var r := ResizePlanner.PlanResize(600.0, 1000.0, cfg, 0.001);
            && ConfigDialog.Validate(ConfigDialog.DialogFor(cfg)) == ConfigDialog.Accepted(cfg)
            && r.Planned?
            && r.plan.boxHeight < 0.0
            && r.plan.fit == ResizePlanner.ByWidth
            && r.plan.resampleHeight == 268349.0 / 750.0
            && r.plan.resampleHeight > cfg.height as real
            && ResizePlanner.GuardedPlan(600.0, 1000.0, cfg, 0.001) == ResizePlanner.EmptyResample
  {
    var cfg := UserInput(480, 240, 93, Contain, "in", "out", 109, None);
    ConfigDialog.AcceptsEveryWellFormedInput(cfg);
    assert 600.0 / 1000.0 == 0.6;
    assert ResizePlanner.TargetRatio(cfg) == 2.0;
    assert ResizePlanner.AspectMismatch(0.6, 2.0) == 10.0 / 3.0;
    assert ResizePlanner.FactorFor(600.0, 1000.0, cfg, 0.001) == 180283.0 / 200000.0;
    assert ResizePlanner.BoxWidth(600.0, 1000.0, cfg, 0.001) == 268349.0 / 1250.0;
    assert ResizePlanner.BoxHeight(600.0, 1000.0, cfg, 0.001) == -4151.0 / 2500.0;
  }

  /** The guarded planner keeps the contain promise for every input the
      dialog accepts: the content lies on the canvas in contain mode and
      covers it in cover mode. */
  lemma GuardedContainStaysOnCanvas(sourceWidth: real, sourceHeight: real, cfg: UserInput, backgroundRatio: real)
    requires ResizePlanner.ValidSource(sourceWidth, sourceHeight) && ConfigDialog.WellFormed(cfg)
    ensures var r := ResizePlanner.GuardedPlan(sourceWidth, sourceHeight, cfg, backgroundRatio);
            r.Planned? ==>
              && (cfg.mode == Contain
                  ==> r.plan.resampleWidth <= cfg.width as real && r.plan.resampleHeight <= cfg.height as real)
              && (cfg.mode == Cover
                  ==> r.plan.resampleWidth >= cfg.width as real && r.plan.resampleHeight >= cfg.height as real)
  {
    var r := ResizePlanner.GuardedPlan(sourceWidth, sourceHeight, cfg, backgroundRatio);
    if r.Planned? {
      RealisedPlanOnCanvas(r.plan, sourceWidth, sourceHeight, cfg, backgroundRatio);
    }
  }

  // ---------------------------------------------------------------------
  // How the dialog's checks relate to what the planner needs
  // ---------------------------------------------------------------------

  /** In cover mode validated settings can always be planned: the padding
      is 0 and the factor 1, so the padded box is the whole canvas. */
  lemma CoverBoxAlwaysPositive(sourceWidth: real, sourceHeight: real, cfg: UserInput, backgroundRatio: real)
    requires ResizePlanner.ValidSource(sourceWidth, sourceHeight)
    requires ConfigDialog.WellFormed(cfg) && cfg.mode == Cover
    ensures ResizePlanner.PaddedBoxPositive(sourceWidth, sourceHeight, cfg, backgroundRatio)
    ensures ResizePlanner.PlanResize(sourceWidth, sourceHeight, cfg, backgroundRatio).Planned?
  {
    assert ResizePlanner.FactorFor(sourceWidth, sourceHeight, cfg, backgroundRatio) == 1.0;
  }

  /** So in cover mode the only document the pipeline refuses is one
      without an active layer. */
  lemma CoverSavesEveryLayeredDocument(doc: OpenDocument, cfg: UserInput)
    requires Measurable(doc) && ConfigDialog.WellFormed(cfg) && cfg.mode == Cover
    ensures ProcessFile(doc, cfg).Done? <==> doc.hasActiveLayer
  {
    CoverBoxAlwaysPositive(CroppedWidth(doc) as real, CroppedHeight(doc) as real, cfg, BackgroundOf(doc));
  }

  /** The dialog admits a padding of exactly half a side, which leaves the
      padded box zero high even before any shrink. The box ratio is then
      infinite, the height branch is taken, and the script asks for a
      0x0 resample: a 2x1 content-only document is refused. */
  lemma HalfSidePaddingEmptiesBox()
    ensures var cfg := UserInput(480, 240, 93, Contain, "in", "out", 120, None);
            var doc := OpenDocument("a.png", false, true, true, Bounds(0, 0, 2, 1), [255, 255]);
            && ConfigDialog.Validate(ConfigDialog.DialogFor(cfg)) == ConfigDialog.Accepted(cfg)
            && Measurable(doc)
            && ProcessFile(doc, cfg) == Failed(EmptyResample)
  {
    var cfg := UserInput(480, 240, 93, Contain, "in", "out", 120, None);
    var doc := OpenDocument("a.png", false, true, true, Bounds(0, 0, 2, 1), [255, 255]);
    ConfigDialog.AcceptsEveryWellFormedInput(cfg);
    BackgroundMeasure.NoneAtLevel(doc.contentChannel, 0);
    assert BackgroundOf(doc) == 0.0;
    assert ResizePlanner.FactorFor(2.0, 1.0, cfg, 0.0) == 1.0;
  }

  /** A padding below MinFactor times half of each side keeps the padded
      box non-empty for every source and background ratio. */
  lemma SmallPaddingKeepsBoxPositive(sourceWidth: real, sourceHeight: real, cfg: UserInput, backgroundRatio: real)
    requires ResizePlanner.ValidSource(sourceWidth, sourceHeight) && ResizePlanner.ValidTarget(cfg)
    requires 0 <= cfg.padding
    requires 2.0 * cfg.padding as real < ResizePlanner.MinFactor * cfg.width as real
    requires 2.0 * cfg.padding as real < ResizePlanner.MinFactor * cfg.height as real
    ensures ResizePlanner.PaddedBoxPositive(sourceWidth, sourceHeight, cfg, backgroundRatio)
    ensures ResizePlanner.PlanResize(sourceWidth, sourceHeight, cfg, backgroundRatio).Planned?
  {
    var f := ResizePlanner.FactorFor(sourceWidth, sourceHeight, cfg, backgroundRatio);
    SideStaysPositive(cfg.width, f, cfg.padding);
    SideStaysPositive(cfg.height, f, cfg.padding);
  }

  lemma SideStaysPositive(side: int, factor: real, padding: int)
    requires side > 0 && factor >= ResizePlanner.MinFactor
    requires 2.0 * padding as real < ResizePlanner.MinFactor * side as real
    ensures ResizePlanner.PaddedSide(side, factor, padding) > 0.0
  {
    ResizePlanner.ProductMonotone(ResizePlanner.MinFactor, factor, side as real, side as real);
    assert side as real * factor >= ResizePlanner.MinFactor * side as real;
  }
}
