/** Validation of the configuration dialog once the user has closed it.
    The widgets are not modelled: the dialog is represented by the values
    it holds when closed, already parsed to integers, and by the facts the
    file system reports about the two folders. */
module ConfigDialog {
  import opened Settings

  /** What the closed dialog holds. `confirmed` is true when it was
      closed with the Resize button; `inputFolderEntries` is the number of
      entries the input folder lists (any file or folder, not only images). */
  datatype DialogState = DialogState(
    confirmed: bool,
    widthEntered: int,
    heightEntered: int,
    quality: int,
    containChosen: bool,
    paddingEntered: int,
    overlayColor: Option<Rgb>,
    inputFolder: string,
    inputFolderExists: bool,
    inputFolderEntries: nat,
    outputFolder: string,
    outputFolderExists: bool)

  /** One error per alert the dialog can raise. */
  datatype ConfigError =
    | NonPositiveSize
    | QualityOutOfRange
    | PaddingOutOfRange
    | InputFolderUnusable
    | OutputFolderMissing

  datatype Outcome = Cancelled | Rejected(error: ConfigError) | Accepted(input: UserInput)

  /** The settings every stage after the dialog may rely on, stated over
      integers: a positive box, a quality percentage, and a padding that
      is at most half of each side in contain mode and zero in cover mode. */
  predicate WellFormed(c: UserInput) {
    && c.width > 0 && c.height > 0
    && 0 <= c.quality <= 100
    && (c.mode == Contain ==> 0 <= c.padding && 2 * c.padding <= c.width && 2 * c.padding <= c.height)
    && (c.mode == Cover ==> c.padding == 0)
  }

  function ChosenMode(d: DialogState): Mode {
    if d.containChosen then Contain else Cover
  }

  /** The padding field is read only in contain mode; cover mode uses 0. */
  function ChosenPadding(d: DialogState): int {
    if d.containChosen then d.paddingEntered else 0
  }

  /** The settings object the dialog would return if every check passed. */
  function Candidate(d: DialogState): UserInput {
    UserInput(d.widthEntered, d.heightEntered, d.quality, ChosenMode(d),
              d.inputFolder, d.outputFolder, ChosenPadding(d), d.overlayColor)
  }

  predicate FoldersUsable(d: DialogState) {
    d.inputFolderExists && d.inputFolderEntries > 0 && d.outputFolderExists
  }

  /** The checks run in source order; the first failing one decides the
      error. The padding bound compares against half of each side as an
      exact quotient, so an odd side admits the rounded-down half. */
  function Validate(d: DialogState): (o: Outcome)
    ensures o == Cancelled <==> !d.confirmed
    ensures o.Accepted? <==> d.confirmed && WellFormed(Candidate(d)) && FoldersUsable(d)
    ensures o.Accepted? ==> o.input == Candidate(d) && WellFormed(o.input)
    ensures (o.Rejected? && o.error == NonPositiveSize)
            <==> d.confirmed && (d.widthEntered <= 0 || d.heightEntered <= 0)
    ensures (o.Rejected? && o.error == QualityOutOfRange)
            <==> d.confirmed && d.widthEntered > 0 && d.heightEntered > 0 && (d.quality < 0 || d.quality > 100)
    ensures (o.Rejected? && o.error == PaddingOutOfRange)
            <==> && d.confirmed && d.widthEntered > 0 && d.heightEntered > 0 && 0 <= d.quality <= 100
                 && d.containChosen
                 && (d.paddingEntered < 0 || 2 * d.paddingEntered > d.widthEntered
                     || 2 * d.paddingEntered > d.heightEntered)
    ensures (o.Rejected? && o.error == InputFolderUnusable)
            <==> d.confirmed && WellFormed(Candidate(d)) && (!d.inputFolderExists || d.inputFolderEntries == 0)
    ensures (o.Rejected? && o.error == OutputFolderMissing)
            <==> && d.confirmed && WellFormed(Candidate(d)) && d.inputFolderExists && d.inputFolderEntries > 0
                 && !d.outputFolderExists
  {
    if !d.confirmed then Cancelled
    else
      var width := d.widthEntered;
      var height := d.heightEntered;
      var padding := ChosenPadding(d);
      if width <= 0 || height <= 0 then Rejected(NonPositiveSize)
      else if d.quality < 0 || d.quality > 100 then Rejected(QualityOutOfRange)
      else if ChosenMode(d) == Contain
              && (padding < 0 || padding as real > width as real / 2.0 || padding as real > height as real / 2.0)
      then Rejected(PaddingOutOfRange)
      else if !d.inputFolderExists || d.inputFolderEntries == 0 then Rejected(InputFolderUnusable)
      else if !d.outputFolderExists then Rejected(OutputFolderMissing)
      else Accepted(Candidate(d))
  }

  /** A dialog, closed with Resize, whose fields hold exactly `c` and
      whose folders are both present (the input one with one entry). */
  function DialogFor(c: UserInput): DialogState {
    DialogState(true, c.width, c.height, c.quality, c.mode == Contain, c.padding,
                c.overlayColor, c.inputFolder, true, 1, c.outputFolder, true)
  }

  /** Completeness: every well-formed setting can come out of the dialog
      unchanged, so the checks reject nothing they should accept. */
  lemma AcceptsEveryWellFormedInput(c: UserInput)
    requires WellFormed(c)
    ensures Validate(DialogFor(c)) == Accepted(c)
  {
    var d := DialogFor(c);
    assert ChosenMode(d) == c.mode;
    assert ChosenPadding(d) == c.padding;
    assert Candidate(d) == c;
  }

  /** In cover mode the padding field is never read: whatever it holds,
      the outcome is the same. */
  lemma CoverIgnoresPaddingField(d: DialogState, p: int)
    requires !d.containChosen
    ensures Validate(d) == Validate(d.(paddingEntered := p))
  {
    var d' := d.(paddingEntered := p);
    assert ChosenPadding(d) == ChosenPadding(d') == 0;
    assert Candidate(d) == Candidate(d');
  }
}
