/** The resize planner: from the cropped content's size, the settings and
    the background ratio, the scale factor, the padded target box, the axis
    the content is fitted along, the resample size and the final canvas.
    All arithmetic is over exact rationals; the tuning constants 1/3, 0.33,
    0.125 and 0.5 appear as written. */
module ResizePlanner {
  import opened Settings

  datatype Axis = ByWidth | ByHeight

  /** The geometry handed to the image engine for one document. */
  datatype Plan = Plan(
    factor: real,
    boxWidth: real,
    boxHeight: real,
    fit: Axis,
    resampleWidth: real,
    resampleHeight: real,
    canvasWidth: int,
    canvasHeight: int)

  function Min(a: real, b: real): real {
    if a <= b then a else b
  }

  /** How far apart two aspect ratios are, as the larger of their two
      quotients, so 1 when they agree. */
  function AspectMismatch(sourceRatio: real, targetRatio: real): (delta: real)
    requires sourceRatio > 0.0 && targetRatio > 0.0
    ensures delta >= 1.0
    ensures delta == sourceRatio / targetRatio || delta == targetRatio / sourceRatio
    ensures delta >= sourceRatio / targetRatio && delta >= targetRatio / sourceRatio
  {
    if sourceRatio > targetRatio then
      assert sourceRatio / targetRatio * targetRatio == sourceRatio;
      assert targetRatio / sourceRatio * sourceRatio == targetRatio;
      sourceRatio / targetRatio
    else
      assert sourceRatio / targetRatio * targetRatio == sourceRatio;
      assert targetRatio / sourceRatio * sourceRatio == targetRatio;
      targetRatio / sourceRatio
  }

  /** The aspect-mismatch weight: delta/3 + 0.33. */
  function MismatchWeight(delta: real): real {
    delta / 3.0 + 0.33
  }

  /** The background weight: r + 0.125 + (1 - r) * 0.5. */
  function BackgroundWeight(backgroundRatio: real): real {
    backgroundRatio + 0.125 + (1.0 - backgroundRatio) * 0.5
  }

  /** The heuristic shrinks only in contain mode and only when the
      document is neither all content nor all background. */
  predicate HeuristicApplies(mode: Mode, backgroundRatio: real) {
    mode == Contain && 0.0 < backgroundRatio < 1.0
  }

  /** The smallest factor the heuristic can produce: (1/3 + 0.33) * 0.625. */
  const MinFactor: real := 199.0 / 480.0

  /** The heuristic's shrink factor for an aspect mismatch and a background
      ratio, capped at 1. */
  function HeuristicFactor(delta: real, backgroundRatio: real): real {
    Min(1.0, MismatchWeight(delta) * BackgroundWeight(backgroundRatio))
  }

  /** The scale applied to the target box before padding. It never
      enlarges the box, never drops below MinFactor, and is exactly 1
      whenever the heuristic does not apply. */
  function ResizeFactor(mode: Mode, sourceRatio: real, targetRatio: real, backgroundRatio: real): (f: real)
    requires sourceRatio > 0.0 && targetRatio > 0.0
    ensures MinFactor <= f <= 1.0
    ensures !HeuristicApplies(mode, backgroundRatio) ==> f == 1.0
  {
    if HeuristicApplies(mode, backgroundRatio) then
      var delta := AspectMismatch(sourceRatio, targetRatio);
      WeightsLowerBound(delta, backgroundRatio);
      HeuristicFactor(delta, backgroundRatio)
    else 1.0
  }

  lemma WeightsLowerBound(delta: real, backgroundRatio: real)
    requires delta >= 1.0 && 0.0 < backgroundRatio < 1.0
    ensures MismatchWeight(delta) * BackgroundWeight(backgroundRatio) >= MinFactor
  {
    var m := MismatchWeight(delta);
    var b := BackgroundWeight(backgroundRatio);
    assert m >= 199.0 / 300.0;
    assert b >= 0.625;
    ProductMonotone(199.0 / 300.0, m, 0.625, b);
  }

  lemma ProductMonotone(a: real, a': real, b: real, b': real)
    requires 0.0 <= a <= a' && 0.0 <= b <= b'
    ensures a * b <= a' * b'
  {
    assert a * b <= a' * b;
    assert a' * b <= a' * b';
  }

  /** The heuristic in closed form: min(1, (delta + 0.99)(1.25 + r) / 6). */
  lemma ResizeFactorClosedForm(sourceRatio: real, targetRatio: real, backgroundRatio: real)
    requires sourceRatio > 0.0 && targetRatio > 0.0
    requires 0.0 < backgroundRatio < 1.0
    ensures ResizeFactor(Contain, sourceRatio, targetRatio, backgroundRatio)
            == Min(1.0, (AspectMismatch(sourceRatio, targetRatio) + 0.99) * (1.25 + backgroundRatio) / 6.0)
  {
    var delta := AspectMismatch(sourceRatio, targetRatio);
    assert MismatchWeight(delta) == (delta + 0.99) / 3.0;
    assert BackgroundWeight(backgroundRatio) == (1.25 + backgroundRatio) / 2.0;
  }

  lemma HeuristicMonotone(delta1: real, delta2: real, backgroundRatio1: real, backgroundRatio2: real)
    requires 1.0 <= delta1 <= delta2
    requires 0.0 < backgroundRatio1 <= backgroundRatio2 < 1.0
    ensures HeuristicFactor(delta1, backgroundRatio1) <= HeuristicFactor(delta2, backgroundRatio2)
  {
    ProductMonotone(MismatchWeight(delta1), MismatchWeight(delta2),
                    BackgroundWeight(backgroundRatio1), BackgroundWeight(backgroundRatio2));
  }

  /** The more the source's shape differs from the target's, the less the
      content is shrunk. */
  lemma FactorGrowsWithMismatch(mode: Mode, sourceRatio1: real, sourceRatio2: real, targetRatio: real, backgroundRatio: real)
    requires sourceRatio1 > 0.0 && sourceRatio2 > 0.0 && targetRatio > 0.0
    requires AspectMismatch(sourceRatio1, targetRatio) <= AspectMismatch(sourceRatio2, targetRatio)
    ensures ResizeFactor(mode, sourceRatio1, targetRatio, backgroundRatio)
            <= ResizeFactor(mode, sourceRatio2, targetRatio, backgroundRatio)
  {
    if HeuristicApplies(mode, backgroundRatio) {
      HeuristicMonotone(AspectMismatch(sourceRatio1, targetRatio), AspectMismatch(sourceRatio2, targetRatio),
                        backgroundRatio, backgroundRatio);
    }
  }

  /** Within (0, 1), a document with more background is shrunk less. At 0
      the heuristic switches off, so the order does not extend there. */
  lemma FactorGrowsWithBackground(mode: Mode, sourceRatio: real, targetRatio: real, backgroundRatio1: real, backgroundRatio2: real)
    requires sourceRatio > 0.0 && targetRatio > 0.0
    requires 0.0 < backgroundRatio1 <= backgroundRatio2
    ensures ResizeFactor(mode, sourceRatio, targetRatio, backgroundRatio1)
            <= ResizeFactor(mode, sourceRatio, targetRatio, backgroundRatio2)
  {
    if mode == Contain && backgroundRatio2 < 1.0 {
      var delta := AspectMismatch(sourceRatio, targetRatio);
      HeuristicMonotone(delta, delta, backgroundRatio1, backgroundRatio2);
    }
  }

  /** Target box side after scaling by the factor and removing the padding
      on both sides. */
  function PaddedSide(side: int, factor: real, padding: int): real {
    side as real * factor - (padding * 2) as real
  }

  predicate ValidSource(sourceWidth: real, sourceHeight: real) {
    sourceWidth > 0.0 && sourceHeight > 0.0
  }

  predicate ValidTarget(cfg: UserInput) {
    cfg.width > 0 && cfg.height > 0
  }

  function TargetRatio(cfg: UserInput): real
    requires ValidTarget(cfg)
  {
    cfg.width as real / cfg.height as real
  }

  function FactorFor(sourceWidth: real, sourceHeight: real, cfg: UserInput, backgroundRatio: real): real
    requires ValidSource(sourceWidth, sourceHeight) && ValidTarget(cfg)
  {
    ResizeFactor(cfg.mode, sourceWidth / sourceHeight, TargetRatio(cfg), backgroundRatio)
  }

  /** The padded box's sides for a source, the settings and a background
      ratio. Nothing keeps them positive: a large padding or a strong
      shrink makes one or both zero or negative. */
  function BoxWidth(sourceWidth: real, sourceHeight: real, cfg: UserInput, backgroundRatio: real): real
    requires ValidSource(sourceWidth, sourceHeight) && ValidTarget(cfg)
  {
    PaddedSide(cfg.width, FactorFor(sourceWidth, sourceHeight, cfg, backgroundRatio), cfg.padding)
  }

  function BoxHeight(sourceWidth: real, sourceHeight: real, cfg: UserInput, backgroundRatio: real): real
    requires ValidSource(sourceWidth, sourceHeight) && ValidTarget(cfg)
  {
    PaddedSide(cfg.height, FactorFor(sourceWidth, sourceHeight, cfg, backgroundRatio), cfg.padding)
  }

  /** The padded box the content is fitted to is non-empty. */
  predicate PaddedBoxPositive(sourceWidth: real, sourceHeight: real, cfg: UserInput, backgroundRatio: real)
    requires ValidSource(sourceWidth, sourceHeight) && ValidTarget(cfg)
  {
    BoxWidth(sourceWidth, sourceHeight, cfg, backgroundRatio) > 0.0
    && BoxHeight(sourceWidth, sourceHeight, cfg, backgroundRatio) > 0.0
  }

  /** The value of a script division of two exact numbers: the quotient,
      or, for a zero divisor, an infinity of the dividend's sign, or NaN
      when the dividend is zero as well. */
  datatype Quotient = Finite(value: real) | PlusInfinity | MinusInfinity | NotANumber

  function Divide(a: real, b: real): Quotient {
    if b != 0.0 then Finite(a / b)
    else if a > 0.0 then PlusInfinity
    else if a < 0.0 then MinusInfinity
    else NotANumber
  }

  /** `x > q` for a finite `x`; a comparison with NaN is false. */
  predicate Above(x: real, q: Quotient) {
    match q
    case Finite(v) => x > v
    case PlusInfinity => false
    case MinusInfinity => true
    case NotANumber => false
  }

  /** `x <= q` for a finite `x`; a comparison with NaN is false. */
  predicate AtMost(x: real, q: Quotient) {
    match q
    case Finite(v) => x <= v
    case PlusInfinity => true
    case MinusInfinity => false
    case NotANumber => false
  }

  /** The branch test of the fit: along the width in contain mode when the
      source is wider than the box, in cover mode when it is not. */
  predicate FitsByWidth(mode: Mode, sourceRatio: real, boxRatio: Quotient) {
    (mode == Contain && Above(sourceRatio, boxRatio)) || (mode == Cover && AtMost(sourceRatio, boxRatio))
  }

  /** The resample size for a source ratio and a padded box, as the fitted
      axis, then the width and height. The fitted side is the box's side
      and the other follows the source ratio, whatever the box's signs;
      for a non-empty box the result keeps the source ratio and lies
      inside (contain) or around (cover) the box. */
  function Fit(mode: Mode, sourceRatio: real, boxWidth: real, boxHeight: real): (r: (Axis, real, real))
    requires sourceRatio > 0.0
    ensures r.0 == ByWidth <==> FitsByWidth(mode, sourceRatio, Divide(boxWidth, boxHeight))
    ensures r.0 == ByWidth ==> r.1 == boxWidth && r.2 * sourceRatio == boxWidth
    ensures r.0 == ByHeight ==> r.2 == boxHeight && r.1 == boxHeight * sourceRatio
    ensures (r.1 > 0.0 && r.2 > 0.0) <==> (if r.0 == ByWidth then boxWidth > 0.0 else boxHeight > 0.0)
    ensures r.1 > 0.0 && r.2 > 0.0 ==> r.1 / r.2 == sourceRatio
    ensures boxWidth > 0.0 && boxHeight > 0.0 && mode == Contain ==> r.1 <= boxWidth && r.2 <= boxHeight
    ensures boxWidth > 0.0 && boxHeight > 0.0 && mode == Cover ==> r.1 >= boxWidth && r.2 >= boxHeight
  {
    FitGeometry(mode, sourceRatio, boxWidth, boxHeight);
    if FitsByWidth(mode, sourceRatio, Divide(boxWidth, boxHeight)) then
      ScaledSide(boxWidth, sourceRatio);
      (ByWidth, boxWidth, boxWidth / sourceRatio)
    else
      ScaledSide(boxHeight, sourceRatio);
      (ByHeight, boxHeight * sourceRatio, boxHeight)
  }

  /** Scaling a side by a positive ratio keeps its sign, and the two sides
      of the result are in that ratio. */
  lemma ScaledSide(side: real, ratio: real)
    requires ratio > 0.0
    ensures side / ratio * ratio == side
    ensures side / ratio > 0.0 <==> side > 0.0
    ensures side * ratio > 0.0 <==> side > 0.0
    ensures side > 0.0 ==> side / (side / ratio) == ratio && (side * ratio) / side == ratio
  {
    var q := side / ratio;
    assert q * ratio == side;
    if side > 0.0 {
      assert side / q * q == side;
      assert (side * ratio) / side * side == side * ratio;
    }
  }

  /** Planning yields a plan, or stops where the resample size the script
      computes is zero or negative, which the engine refuses. */
  datatype Planning = Planned(plan: Plan) | EmptyResample

  /** What every plan for a source of the given size promises: the factor
      is the heuristic's; the box is the target size times the factor,
      less twice the padding; the fitted axis is chosen by the script's
      comparison against the box's ratio; the resampled content has a
      positive size, keeps the source's aspect ratio exactly and matches
      the box along the fitted axis; the canvas is the configured size. */
  ghost predicate Realises(p: Plan, sourceWidth: real, sourceHeight: real, cfg: UserInput, backgroundRatio: real)
    requires ValidSource(sourceWidth, sourceHeight) && ValidTarget(cfg)
  {
    && p.factor == ResizeFactor(cfg.mode, sourceWidth / sourceHeight, TargetRatio(cfg), backgroundRatio)
    && p.boxWidth == cfg.width as real * p.factor - 2.0 * cfg.padding as real
    && p.boxHeight == cfg.height as real * p.factor - 2.0 * cfg.padding as real
    && (p.fit == ByWidth <==> FitsByWidth(cfg.mode, sourceWidth / sourceHeight, Divide(p.boxWidth, p.boxHeight)))
    && p.resampleWidth > 0.0 && p.resampleHeight > 0.0
    && p.resampleWidth / p.resampleHeight == sourceWidth / sourceHeight
    && (p.fit == ByWidth ==> p.resampleWidth == p.boxWidth)
    && (p.fit == ByHeight ==> p.resampleHeight == p.boxHeight)
    && p.canvasWidth == cfg.width && p.canvasHeight == cfg.height
  }

  /** A plan whose box is non-empty: the content lies inside the box in
      contain mode and covers it in cover mode. */
  ghost predicate WithinBox(p: Plan, mode: Mode) {
    && p.boxWidth > 0.0 && p.boxHeight > 0.0
    && (mode == Contain ==> p.resampleWidth <= p.boxWidth && p.resampleHeight <= p.boxHeight)
    && (mode == Cover ==> p.resampleWidth >= p.boxWidth && p.resampleHeight >= p.boxHeight)
  }

  /** The plan for one document, with the script's branches kept for every
      sign of the padded box. A non-empty box always gives a plan that
      lies within it. Otherwise, in contain mode a plan exists exactly when
      the box's width is positive and its height is not zero (a negative
      height turns the box ratio negative, so the width branch is taken);
      in cover mode exactly when the box's height is positive, or zero
      with a positive width. */
  function PlanResize(sourceWidth: real, sourceHeight: real, cfg: UserInput, backgroundRatio: real): (r: Planning)
    requires ValidSource(sourceWidth, sourceHeight) && ValidTarget(cfg)
    ensures r.Planned? ==> Realises(r.plan, sourceWidth, sourceHeight, cfg, backgroundRatio)
    ensures PaddedBoxPositive(sourceWidth, sourceHeight, cfg, backgroundRatio)
            ==> r.Planned? && WithinBox(r.plan, cfg.mode)
    ensures cfg.mode == Contain
            ==> (r.Planned? <==> BoxWidth(sourceWidth, sourceHeight, cfg, backgroundRatio) > 0.0
                                 && BoxHeight(sourceWidth, sourceHeight, cfg, backgroundRatio) != 0.0)
    ensures cfg.mode == Cover
            ==> (r.Planned? <==> BoxHeight(sourceWidth, sourceHeight, cfg, backgroundRatio) > 0.0
                                 || (BoxHeight(sourceWidth, sourceHeight, cfg, backgroundRatio) == 0.0
                                     && BoxWidth(sourceWidth, sourceHeight, cfg, backgroundRatio) > 0.0))
  {
    var p := PlanAsWritten(sourceWidth, sourceHeight, cfg, backgroundRatio);
    QuotientSign(p.boxWidth, p.boxHeight);
    if p.resampleWidth > 0.0 && p.resampleHeight > 0.0 then Planned(p) else EmptyResample
  }

  /** The planner as the contain promise needs it: no plan unless the
      padded box is non-empty, and then the script's plan, which lies
      within the box. */
  function GuardedPlan(sourceWidth: real, sourceHeight: real, cfg: UserInput, backgroundRatio: real): (r: Planning)
    requires ValidSource(sourceWidth, sourceHeight) && ValidTarget(cfg)
    ensures r.Planned? <==> PaddedBoxPositive(sourceWidth, sourceHeight, cfg, backgroundRatio)
    ensures r.Planned? ==> Realises(r.plan, sourceWidth, sourceHeight, cfg, backgroundRatio)
                           && WithinBox(r.plan, cfg.mode)
  {
    if PaddedBoxPositive(sourceWidth, sourceHeight, cfg, backgroundRatio) then
      PlanResize(sourceWidth, sourceHeight, cfg, backgroundRatio)
    else EmptyResample
  }

  /** The script's arithmetic, before the engine sees the sizes. */
  function PlanAsWritten(sourceWidth: real, sourceHeight: real, cfg: UserInput, backgroundRatio: real): (p: Plan)
    requires ValidSource(sourceWidth, sourceHeight) && ValidTarget(cfg)
    ensures p.resampleWidth > 0.0 && p.resampleHeight > 0.0
            ==> Realises(p, sourceWidth, sourceHeight, cfg, backgroundRatio)
    ensures PaddedBoxPositive(sourceWidth, sourceHeight, cfg, backgroundRatio)
            ==> p.resampleWidth > 0.0 && p.resampleHeight > 0.0 && WithinBox(p, cfg.mode)
    ensures p.boxWidth == BoxWidth(sourceWidth, sourceHeight, cfg, backgroundRatio)
    ensures p.boxHeight == BoxHeight(sourceWidth, sourceHeight, cfg, backgroundRatio)
    ensures (p.resampleWidth > 0.0 && p.resampleHeight > 0.0)
            <==> (if p.fit == ByWidth then p.boxWidth > 0.0 else p.boxHeight > 0.0)
    ensures p.fit == ByWidth <==> FitsByWidth(cfg.mode, sourceWidth / sourceHeight, Divide(p.boxWidth, p.boxHeight))
  {
    var factor := FactorFor(sourceWidth, sourceHeight, cfg, backgroundRatio);
    var boxWidth := PaddedSide(cfg.width, factor, cfg.padding);
    var boxHeight := PaddedSide(cfg.height, factor, cfg.padding);
    var fit := Fit(cfg.mode, sourceWidth / sourceHeight, boxWidth, boxHeight);
    Plan(factor, boxWidth, boxHeight, fit.0, fit.1, fit.2, cfg.width, cfg.height)
  }

  /** The sign of a finite quotient follows the signs of its operands. */
  lemma QuotientSign(a: real, b: real)
    ensures b > 0.0 ==> (a / b > 0.0 <==> a > 0.0)
    ensures b < 0.0 ==> (a / b > 0.0 <==> a < 0.0) && (a / b < 0.0 <==> a > 0.0)
  {
    if b != 0.0 {
      assert a / b * b == a;
    }
  }

  /** The plan sees the source only through its aspect ratio: scaling the
      source by any positive amount leaves the outcome unchanged. */
  lemma PlanDependsOnlyOnAspect(sourceWidth: real, sourceHeight: real, scale: real, cfg: UserInput, backgroundRatio: real)
    requires ValidSource(sourceWidth, sourceHeight) && ValidTarget(cfg) && scale > 0.0
    ensures ValidSource(scale * sourceWidth, scale * sourceHeight)
    ensures PlanResize(scale * sourceWidth, scale * sourceHeight, cfg, backgroundRatio)
            == PlanResize(sourceWidth, sourceHeight, cfg, backgroundRatio)
  {
    RatioOfScaled(sourceWidth, sourceHeight, scale);
  }

  lemma RatioOfScaled(a: real, b: real, k: real)
    requires b > 0.0 && k > 0.0
    ensures (k * a) / (k * b) == a / b
  {
    var q := a / b;
    var r := (k * a) / (k * b);
    assert q * b == a;
    assert r * (k * b) == k * a;
    assert k * (r * b) == k * (q * b);
    assert r * b == q * b;
  }

  /** Planning the resampled content again, with the same settings and
      background ratio, gives back the same plan: a second pass shrinks
      nothing further. */
  lemma ReplanIsStable(sourceWidth: real, sourceHeight: real, cfg: UserInput, backgroundRatio: real)
    requires ValidSource(sourceWidth, sourceHeight) && ValidTarget(cfg)
    ensures var r := PlanResize(sourceWidth, sourceHeight, cfg, backgroundRatio);
            r.Planned? ==>
              && ValidSource(r.plan.resampleWidth, r.plan.resampleHeight)
              && PlanResize(r.plan.resampleWidth, r.plan.resampleHeight, cfg, backgroundRatio) == r
  {
    var r := PlanResize(sourceWidth, sourceHeight, cfg, backgroundRatio);
    if r.Planned? {
      assert r.plan.resampleWidth / r.plan.resampleHeight == sourceWidth / sourceHeight;
    }
  }

  /** A source already shaped like the padded box is resampled to exactly
      the box, in either mode. */
  lemma MatchingAspectFillsBox(sourceWidth: real, sourceHeight: real, cfg: UserInput, backgroundRatio: real)
    requires ValidSource(sourceWidth, sourceHeight) && ValidTarget(cfg)
    ensures var r := PlanResize(sourceWidth, sourceHeight, cfg, backgroundRatio);
            r.Planned? && r.plan.boxHeight > 0.0 && sourceWidth / sourceHeight == r.plan.boxWidth / r.plan.boxHeight
            ==> r.plan.resampleWidth == r.plan.boxWidth && r.plan.resampleHeight == r.plan.boxHeight
  {
    var r := PlanResize(sourceWidth, sourceHeight, cfg, backgroundRatio);
    if r.Planned? && r.plan.boxHeight > 0.0 && sourceWidth / sourceHeight == r.plan.boxWidth / r.plan.boxHeight {
      var p := r.plan;
      var q := sourceWidth / sourceHeight;
      assert p.boxWidth / p.boxHeight * p.boxHeight == p.boxWidth;
      assert p.resampleWidth / p.resampleHeight * p.resampleHeight == p.resampleWidth;
      if p.fit == ByWidth {
        assert p.resampleHeight * q == p.boxHeight * q;
      } else {
        assert p.resampleWidth == p.boxHeight * q;
      }
    }
  }

  /** A 1000x500 source into a 480x240 contain box with no padding and 80%
      background: mismatch 1, weights 199/300 and 1.025, factor 8159/12000
      (about 0.6799). The ratios tie, so the height axis is the one fitted,
      and the content fills the shrunken box exactly. */
  lemma WideBannerExample()
    ensures var r := PlanResize(1000.0, 500.0, UserInput(480, 240, 93, Contain, "", "", 0, None), 0.8);
            && r.Planned?
            && r.plan.factor == 8159.0 / 12000.0
            && r.plan.fit == ByHeight
            && r.plan.resampleWidth == 480.0 * 8159.0 / 12000.0
            && r.plan.resampleHeight == 240.0 * 8159.0 / 12000.0
            && r.plan.canvasWidth == 480 && r.plan.canvasHeight == 240
  {
    var cfg := UserInput(480, 240, 93, Contain, "", "", 0, None);
    assert AspectMismatch(2.0, 2.0) == 1.0;
    assert 1000.0 / 500.0 == 2.0;
    assert TargetRatio(cfg) == 2.0;
    assert FactorFor(1000.0, 500.0, cfg, 0.8) == 8159.0 / 12000.0;
  }

  /** The geometric core of the fit: both candidate resample sizes keep the
      source ratio, and the chosen one is inside (contain) or around
      (cover) the box. */
  lemma FitGeometry(mode: Mode, sourceRatio: real, boxWidth: real, boxHeight: real)
    requires sourceRatio > 0.0
    ensures boxWidth > 0.0 && boxHeight > 0.0 ==>
      && boxWidth / sourceRatio > 0.0 && boxHeight * sourceRatio > 0.0
      && boxWidth / (boxWidth / sourceRatio) == sourceRatio
      && (boxHeight * sourceRatio) / boxHeight == sourceRatio
      && (FitsByWidth(mode, sourceRatio, Divide(boxWidth, boxHeight)) && mode == Contain
          ==> boxWidth / sourceRatio <= boxHeight)
      && (!FitsByWidth(mode, sourceRatio, Divide(boxWidth, boxHeight)) && mode == Contain
          ==> boxHeight * sourceRatio <= boxWidth)
      && (FitsByWidth(mode, sourceRatio, Divide(boxWidth, boxHeight)) && mode == Cover
          ==> boxWidth / sourceRatio >= boxHeight)
      && (!FitsByWidth(mode, sourceRatio, Divide(boxWidth, boxHeight)) && mode == Cover
          ==> boxHeight * sourceRatio >= boxWidth)
  {
    if boxWidth > 0.0 && boxHeight > 0.0 {
      var boxRatio := boxWidth / boxHeight;
      assert Divide(boxWidth, boxHeight) == Finite(boxRatio);
      assert boxRatio * boxHeight == boxWidth;
      var h := boxWidth / sourceRatio;
      assert h * sourceRatio == boxWidth;
      assert boxWidth / h == sourceRatio;
      if sourceRatio > boxRatio {
        assert h * sourceRatio > h * boxRatio;
        assert boxHeight * sourceRatio > boxWidth;
      } else {
        assert h * sourceRatio <= h * boxRatio;
        assert boxHeight * sourceRatio <= boxWidth;
      }
    }
  }
}
