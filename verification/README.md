# batch-resize-webp, modelled in Dafny

The repository is a Photoshop script, `main.js`. It turns a folder of
images into WebP thumbnails of one fixed size. For each image it crops to
the content and measures how much of the crop is background. A heuristic
then shrinks the target box: the closer the image's shape is to the
target's, and the more of it is content, the more it is shrunk. The image
is resampled to fit (contain) or fill (cover) the padded box, and the
canvas is padded or cropped to the configured size. The colour is
normalised and the image is saved as a copy named `<base>.webp`.

This project models the parts with real logic. All of them are pure
computations over exact rationals, integers and character sequences:

- `Settings` (`settings.dfy`): the settings object the dialog returns,
  with a `Mode` (contain or cover) and an optional overlay colour.
- `ConfigDialog` (`config_dialog.dfy`): the checks run when the dialog
  closes. These are width and height, quality, padding in contain mode
  only (padding is forced to 0 in cover mode), and the two folders. The
  folder facts are boolean and count inputs.
- `BackgroundMeasure` (`background_measure.dfy`): the stored selection
  channel, its 256-bin histogram, and the background ratio. The ratio is
  `histogram[0]` over `width * height`.
- `ResizePlanner` (`resize_planner.dfy`): the resize factor, the padded
  box, the axis to fit along, the resample size and the final canvas size.
- `FileNames` (`file_names.dfy`): the input-extension filter and the
  output name, which is the base name plus `.webp`.
- `Pipeline` (`pipeline.dfy`): one document through crop, resample,
  canvas, colour, save and close. The engine calls it makes after the
  document is open are `EngineStep` values carrying the numbers the script
  computes for them; the opened document itself is the input. This
  module also holds the canvas fill colour and lemmas that link the
  dialog's checks to what the planner needs.

All arithmetic is exact. The tuning constants 1/3, 0.33, 0.125 and 0.5
appear as written. Because nothing is rounded, the worked example in
`ResizePlanner.WideBannerExample` gives the factor 8159/12000 (about
0.6799).

Points of the code that are easy to misread:

- The factor grows with the aspect mismatch: a more different shape is
  shrunk less, as the comment at main.js:104 says.
- The factor grows with the background ratio inside (0, 1): more
  background means less shrink.
- When the source ratio equals the padded box ratio in contain mode, the
  code fits by height, because main.js:122 uses a strict `>`. Both axes
  give the same size then.
- The input-folder check (main.js:432) counts every entry of the folder,
  not only images, so a folder holding only text files passes it.
- The padded box is not kept positive. When a side is zero or negative
  the box ratio at main.js:119 may be infinite, NaN, zero or negative,
  and it is positive when both sides are negative. The
  comparisons at main.js:122-123 follow the script's rules for those
  values. The planner keeps these branches: it refuses a document only
  when the resample size it computes is not positive.

## Model

| member | source | states |
|---|---|---|
| ConfigDialog.Validate | main.js:403-456 | Cancel yields no settings. The dialog is accepted exactly when the settings are well formed and both folders are usable: a positive size, quality within 0..100, padding between 0 and half of each side in contain mode, padding 0 in cover mode. Accepted settings are the entered values. Each error is returned exactly when its check is the first, in source order, to fail: size, then quality, then padding (contain only), then the input folder, then the output folder |
| ConfigDialog.AcceptsEveryWellFormedInput | main.js:404-453 | Completeness: any well-formed settings, entered into the dialog with usable folders, come back unchanged |
| ConfigDialog.CoverIgnoresPaddingField | main.js:407-408 | In cover mode the outcome does not depend on the padding field |
| BackgroundMeasure.Histogram | main.js:164-165 | Bin `v` of the 256-bin histogram counts exactly the pixels stored at level `v` |
| BackgroundMeasure.BackgroundRatio | main.js:144-180 | The ratio lies in [0, 1]. It is 0 exactly when no pixel is at level 0, and 1 exactly when every pixel is |
| BackgroundMeasure.MeasureBackground | main.js:165-177 | Histogram bin 0 over the pixel count equals the background ratio, so the result is in [0, 1] |
| BackgroundMeasure.InvertedRatioComplements | main.js:158-168 | For a hard-edged selection, the background ratios of the selection and of its inverse add up to 1 |
| ResizePlanner.AspectMismatch | main.js:105-109 | The mismatch is the larger of the two ratio quotients, so it is at least 1 |
| ResizePlanner.ResizeFactor | main.js:98-115 | The factor never exceeds 1 and never drops below 199/480. It is exactly 1 in cover mode and when the background ratio is 0, 1, or outside (0, 1) |
| ResizePlanner.ResizeFactorClosedForm | main.js:111-114 | In contain mode with 0 < r < 1, the factor equals min(1, (delta + 0.99)(1.25 + r)/6) |
| ResizePlanner.FactorGrowsWithMismatch | main.js:104-114 | A larger aspect mismatch never gives a smaller factor, in either mode |
| ResizePlanner.FactorGrowsWithBackground | main.js:112-114 | For background ratios above 0, more background never gives a smaller factor |
| ResizePlanner.PlanResize | main.js:91-130 | Every plan uses the factor of `ResizeFactor`. Its box is the target size times the factor, less twice the padding. The axis is chosen by the script's comparison against the box ratio, which may be infinite, NaN, zero or negative, and is positive when both sides are negative. The resample size is positive, keeps the source's aspect ratio exactly and matches the box on the fitted axis. The canvas is the configured size. A non-empty box always gives a plan lying inside it (contain) or around it (cover). In contain mode a plan exists exactly when the box width is positive and its height is not zero. In cover mode it exists exactly when the box height is positive, or zero with a positive width |
| ResizePlanner.Fit | main.js:119-127 | Width is fitted exactly when the script's comparison against the box ratio says so. The fitted side is the box's side and the other side follows the source ratio, for any signs of the box. The result is positive exactly when the fitted box side is positive. For a non-empty box it keeps the source ratio and lies inside the box (contain) or around it (cover) |
| ResizePlanner.GuardedPlan | main.js:117-127 | The corrected planner: a plan exists exactly when the padded box is non-empty, and it then lies inside the box (contain) or around it (cover) |
| ResizePlanner.PlanDependsOnlyOnAspect | main.js:95-127 | Scaling the source by any positive amount leaves the outcome unchanged, including whether the box is empty |
| ResizePlanner.ReplanIsStable | main.js:117-127 | When a plan exists, planning the resampled content again with the same settings and ratio returns the same plan, so a second pass shrinks nothing further |
| ResizePlanner.MatchingAspectFillsBox | main.js:119-127 | A source already shaped like a non-empty padded box is resampled to exactly the box |
| ResizePlanner.WideBannerExample | main.js:95-127 | A 1000x500 source, a 480x240 contain target with no padding and 80% background give a plan with factor 8159/12000. The height axis is fitted and the content fills the shrunken box |
| FileNames.LastDot | main.js:467 | Returns the position of the last dot, or -1 when the name has no dot |
| FileNames.IsImageFile | main.js:31 | A name is accepted exactly when it ends, ignoring case, in a dot and one of webp, tif, tiff, jpg, jpeg, psd, psb, png |
| FileNames.FilterAgreesWithPattern | main.js:31 | The lower-cased text after the last dot is a listed extension exactly when the name matches the end-anchored pattern |
| FileNames.ExtensionMatchUnique | main.js:467 | At most one position can start a match of `\.[^.]+$` |
| FileNames.BaseName | main.js:467 | If the name has an extension (a dot, then at least one character, no further dot), the result is the prefix before that unique match. Otherwise the name is kept whole: no dot, or a trailing dot |
| FileNames.OutputName | main.js:467-468 | The output name is the base name followed by `.webp` |
| FileNames.OutputKeepsBaseName | main.js:467-468 | Stripping the extension of the output name gives back the input's base name |
| FileNames.OutputIsImageFile | main.js:468 | Every output name would pass the input filter |
| FileNames.SelectInputs | main.js:31 | The selected files are exactly the listed names that pass the filter |
| Pipeline.ColorSteps | main.js:216-232 | The colour stage holds only conversion, 8-bit and overlay steps, in that order. sRGB conversion comes first exactly when the document is not RGB. The 8-bit step always follows. The overlay is the last step, present exactly when the document has transparency and a colour was chosen |
| Pipeline.StepsFor | main.js:59-72 | The engine calls run in order, with nothing else between them: crop to the content bounds, the resample, a canvas of the configured size anchored at the centre with the batch fill, exactly the colour stage, a save to `<output folder>/<base>.webp` with the batch options, then a close without saving |
| Pipeline.ResampleFitsCanvas | main.js:117-130 | When a plan exists, the resample keeps the crop's shape. With validated settings it covers the canvas in cover mode, so the canvas step only crops. In contain mode with a non-empty padded box it fits on the canvas, so the canvas step only pads |
| Pipeline.ProcessFile | main.js:59-72 | A document without an active layer fails with that error. A document for which the planner computes no positive resample size fails with that error. Otherwise the steps are crop to content, the planned resample, a canvas of the configured size anchored at the centre, and exactly the colour stage's steps. The resample keeps the crop's shape. It covers the canvas in cover mode, and fits on it in contain mode when the padded box is non-empty. The last two steps are a save to `<output folder>/<base>.webp` and a close without saving |
| Pipeline.OverlayAndConversionAsChosen | main.js:216-232 | A saved document carries the overlay of a colour exactly when it has transparency and that colour was chosen, and an sRGB conversion exactly when it is not RGB |
| Pipeline.PlanFitsCanvas | main.js:117-118 | With validated settings the padded box is never larger than the canvas. In cover mode it is the canvas |
| Pipeline.BlueIsLostAsWritten | main.js:139 | Requesting pure blue sets black, the same fill as requesting black |
| Pipeline.DistinctRequestsDistinctFills | main.js:135-142 | With the intended setter, two requests give the same fill only when they are the same colour |
| Pipeline.FillSettersAgreeOnGreyBlue | main.js:135-142 | The setter as written matches the intended one exactly when green equals blue |
| Pipeline.CanvasFillMatchesScript | main.js:40 | The batch's canvas fill is the colour the script's own setter gives for white |
| Pipeline.CoverBoxAlwaysPositive | main.js:117-118 | In cover mode, validated settings always give a non-empty padded box and a plan |
| Pipeline.CoverSavesEveryLayeredDocument | main.js:59-72 | In cover mode, with validated settings, a document is saved exactly when it has an active layer |
| Pipeline.HalfSidePaddingEmptiesBox | main.js:424 | The dialog accepts padding equal to half a side. That leaves a box of zero height, the script asks for a 0x0 resample, and a 2x1 document is refused |
| Pipeline.ContainCropsAsWritten | main.js:117-130 | Settings the dialog accepts, with a 600x1000 crop, give a negative box height. The width branch is then taken and the content comes out taller than the canvas, which crops it |
| Pipeline.GuardedContainStaysOnCanvas | main.js:117-130 | With the guarded planner and validated settings, contain-mode content always lies on the canvas and cover-mode content covers it |
| Pipeline.SmallPaddingKeepsBoxPositive | main.js:117-118 | Padding below 199/480 of half of each side keeps the box non-empty and gives a plan for every source and ratio |

## Left out

- Engine calls are foreign calls. `crop`, `resizeImage`, `resizeCanvas`,
  `bitsPerChannel`, the overlay descriptor, the save and `close` each
  appear as an `EngineStep` carrying the computed arguments.
  `convertProfile` and `changeMode` (main.js:220-221) together are the
  one step `ConvertToSrgb`, which carries no arguments. `open` is not a
  step: the opened document is the input `OpenDocument`.
- `hasFileTransparency` and `selectLayerContent` (main.js:183-213) probe
  the engine and select by colour range. Their results are inputs:
  `hasTransparency`, the content bounds and the stored selection channel.
- The dialog widgets, the colour picker and the slider and field
  callbacks (main.js:263-402) are UI. The quality clamp in the field
  callback is not modelled, and the dialog's values arrive as integers.
- `parseInt` on non-numeric text gives NaN, and NaN passes every check at
  main.js:411-428. The model takes integers that are already parsed, so
  this gap is not reproduced.
- Folder existence and folder listing are file-system I/O. They are
  inputs (`inputFolderExists`, `inputFolderEntries`, `outputFolderExists`).
- The batch loop in `init` (main.js:22-56) is not modelled: file sorting,
  the counter, the dialog-mode toggle, the final alert and the version
  check (main.js:9-20). It is sequencing and stops at the first error.
- Floating-point rounding of the heuristic is not modelled. The arithmetic
  is over exact reals.
- The selection inversion at main.js:162 is not modelled. It does not
  change the stored channel that the histogram reads.
- `getFiles` with a pattern may also return folders whose names match. The
  filter is modelled on names only.
- ResizePlanner.PlanResize: returns `EmptyResample` where the resample
  size the script computes at main.js:124 or main.js:126 is zero or
  negative. The script passes that size to `resizeImage`; the model takes
  the engine to refuse it. A positive size below one pixel is accepted
  as a plan, and the engine's rounding to whole pixels is not modelled.
- Pipeline.ProcessFile: models the missing-active-layer failure and the
  refused resample size. Other engine errors are not modelled. A document
  whose content selection is empty (a fully transparent image, or one with
  no content pixels) makes `selection.bounds` fail at main.js:80 and stops
  the batch; `Pipeline.Measurable` excludes such documents.
- Folders are kept as the path typed in the dialog. The script builds the
  save path from the `Folder` object made at main.js:438, whose text is
  the normalised path of the same folder, so the file is the same but the
  recorded string can differ.
- Units: every size is taken to be in pixels. The script never sets the
  ruler units. `doc.width` and `doc.height` (main.js:93-94, 171) and the
  numbers passed to `resizeImage` and `resizeCanvas` (main.js:124-130)
  are in the user's ruler units; only the selection bounds are converted
  with `.as('px')` (main.js:81-84). Under other units the pixel count at
  main.js:171 is not a pixel count, and the ratio need not lie in [0, 1].
- Pipeline.SaveOptions: builds the save options (main.js:473-493) and
  carries no contract of its own; `Pipeline.ProcessFile` states which
  options the save step uses.
- FileNames.SelectInputs: states which names are selected, not their
  order.

## Findings

| source | as written | input that shows it | evidently intended | confidence | as-written member | corrected member |
|---|---|---|---|---|---|---|
| main.js:139 | `setBackgroundColor` writes the requested green value into the blue channel | requested colour r=0, g=0, b=255 sets the fill to r=0, g=0, b=0 | the blue channel takes the requested blue | high that the line is a slip; the batch only ever requests white, so its output is unaffected; not executed | Pipeline.SetBackgroundColorAsWritten (discrepancy: Pipeline.BlueIsLostAsWritten) | Pipeline.BackgroundFill (property: Pipeline.DistinctRequestsDistinctFills; used for Pipeline.CanvasFill) |
| main.js:117-127 | the dialog bounds the padding by half of each side before the shrink; after it, the padded height can be negative, the box ratio turns negative, the width branch is taken, and contain mode returns content taller than the canvas, which main.js:130 then crops | 600x1000 crop, 0.1% background, contain 480x240, padding 109: resample about 214.7x357.8 on a 240-high canvas | contain mode keeps the content on the canvas; an empty padded box yields no resize | medium; the code never says what an empty box should do; not executed | ResizePlanner.PlanResize (discrepancy: Pipeline.ContainCropsAsWritten) | ResizePlanner.GuardedPlan (property: Pipeline.GuardedContainStaysOnCanvas) |

`Pipeline.ProcessFile` keeps the planner as written, so that it
describes what the script does. `ResizePlanner.GuardedPlan` is the planner
that keeps the contain promise, and it refuses the input above.
