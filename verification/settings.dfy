/** Types shared by every stage of the batch: the user's settings as they
    leave the configuration dialog, and the small value types they hold. */
module Settings {

  /** Absent or present value, used for the optional overlay colour. */
  datatype Option<+T> = None | Some(value: T)

  /** How the content is placed in the target box: `Contain` fits it
      inside (with padding), `Cover` fills the box and crops the overflow. */
  datatype Mode = Contain | Cover

  /** An RGB colour, one integer per channel (0..255 in practice). */
  datatype Rgb = Rgb(red: int, green: int, blue: int)

  const White: Rgb := Rgb(255, 255, 255)

  /** The settings object every stage reads. Folders are kept by path;
      their existence is checked once, when the dialog is validated. */
  datatype UserInput = UserInput(
    width: int,
    height: int,
    quality: int,
    mode: Mode,
    inputFolder: string,
    outputFolder: string,
    padding: int,
    overlayColor: Option<Rgb>)
}
