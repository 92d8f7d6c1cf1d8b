/** How much of a document is background. The content selection is stored
    into a temporary channel, one 8-bit level per pixel (255 for fully
    selected content, 0 for background, levels in between for partially
    selected pixels such as soft alpha edges). The background ratio is the
    first bin of that channel's 256-bin histogram over the pixel count. */
module BackgroundMeasure {

  /** One 8-bit channel level. */
  type Level = x: int | 0 <= x < 256

  const Bins: nat := 256

  /** Number of pixels of `channel` at exactly `level`. */
  function CountLevel(channel: seq<Level>, level: int): (n: nat)
    ensures n <= |channel|
  {
    if |channel| == 0 then 0
    else CountLevel(channel[..|channel| - 1], level) + (if channel[|channel| - 1] == level then 1 else 0)
  }

  /** The 256-bin histogram of a channel, built in one pass over the pixels. */
  method Histogram(channel: seq<Level>) returns (bins: seq<nat>)
    ensures |bins| == Bins
    ensures forall v :: 0 <= v < Bins ==> bins[v] == CountLevel(channel, v)
  {
    bins := seq(Bins, _ => 0);
    var i := 0;
    while i < |channel|
      invariant 0 <= i <= |channel|
      invariant |bins| == Bins
      invariant forall v :: 0 <= v < Bins ==> bins[v] == CountLevel(channel[..i], v)
    {
      var level := channel[i];
      bins := bins[level := bins[level] + 1];
      assert channel[..i + 1][..i] == channel[..i];
      i := i + 1;
    }
    assert channel[..|channel|] == channel;
  }

  /** The fraction of the document's pixels whose stored level is exactly 0:
      0 when no pixel is background, 1 when every pixel is. */
  function BackgroundRatio(channel: seq<Level>, width: int, height: int): (r: real)
    requires width > 0 && height > 0 && |channel| == width * height
    ensures 0.0 <= r <= 1.0
    ensures r == 0.0 <==> forall i :: 0 <= i < |channel| ==> channel[i] != 0
    ensures r == 1.0 <==> forall i :: 0 <= i < |channel| ==> channel[i] == 0
  {
    NoneAtLevel(channel, 0);
    AllAtLevel(channel, 0);
    var count := CountLevel(channel, 0);
    FractionBounds(count as real, |channel| as real);
    count as real / (width * height) as real
  }

  /** A part over a positive whole lies in [0, 1] and meets either end
      exactly when the part is empty or the whole. */
  lemma FractionBounds(part: real, whole: real)
    requires 0.0 <= part <= whole && whole > 0.0
    ensures 0.0 <= part / whole <= 1.0
    ensures part / whole == 0.0 <==> part == 0.0
    ensures part / whole == 1.0 <==> part == whole
  {
    var q := part / whole;
    assert q * whole == part;
  }

  lemma FractionsOfWhole(a: real, b: real, whole: real)
    requires whole > 0.0 && a + b == whole
    ensures a / whole + b / whole == 1.0
  {
    assert a / whole + b / whole == (a + b) / whole;
  }

  /** The measurement as the document does it: histogram first, then its
      first bin over the pixel count. */
  method MeasureBackground(channel: seq<Level>, width: int, height: int) returns (ratio: real)
    requires width > 0 && height > 0 && |channel| == width * height
    ensures ratio == BackgroundRatio(channel, width, height)
    ensures 0.0 <= ratio <= 1.0
  {
    var bins := Histogram(channel);
    var backgroundPixels := bins[0];
    var totalPixels := width * height;
    ratio := backgroundPixels as real / totalPixels as real;
  }

  lemma {:induction false} NoneAtLevel(channel: seq<Level>, level: int)
    ensures CountLevel(channel, level) == 0 <==> forall i :: 0 <= i < |channel| ==> channel[i] != level
  {
    if |channel| > 0 {
      var prefix := channel[..|channel| - 1];
      NoneAtLevel(prefix, level);
      assert forall i :: 0 <= i < |prefix| ==> prefix[i] == channel[i];
    }
  }

  lemma {:induction false} AllAtLevel(channel: seq<Level>, level: int)
    ensures CountLevel(channel, level) == |channel| <==> forall i :: 0 <= i < |channel| ==> channel[i] == level
  {
    if |channel| > 0 {
      var prefix := channel[..|channel| - 1];
      AllAtLevel(prefix, level);
      assert forall i :: 0 <= i < |prefix| ==> prefix[i] == channel[i];
    }
  }

  /** A selection with no partially selected pixel. */
  predicate Binary(channel: seq<Level>) {
    forall i :: 0 <= i < |channel| ==> channel[i] == 0 || channel[i] == 255
  }

  /** The channel of the inverted selection. */
  function Invert(channel: seq<Level>): (inv: seq<Level>)
    ensures |inv| == |channel|
  {
    seq(|channel|, i requires 0 <= i < |channel| => 255 - channel[i])
  }

  lemma {:induction false} InvertSwapsExtremes(channel: seq<Level>)
    requires Binary(channel)
    ensures CountLevel(Invert(channel), 0) == |channel| - CountLevel(channel, 0)
  {
    if |channel| > 0 {
      var n := |channel|;
      var prefix := channel[..n - 1];
      assert Invert(channel)[..n - 1] == Invert(prefix);
      InvertSwapsExtremes(prefix);
      assert channel[n - 1] == 0 || channel[n - 1] == 255;
    }
  }

  /** For a selection with hard edges, the background of the selection and
      the background of its inverse partition the document. */
  lemma InvertedRatioComplements(channel: seq<Level>, width: int, height: int)
    requires width > 0 && height > 0 && |channel| == width * height
    requires Binary(channel)
    ensures BackgroundRatio(channel, width, height) + BackgroundRatio(Invert(channel), width, height) == 1.0
  {
    InvertSwapsExtremes(channel);
    var total := (width * height) as real;
    var a := CountLevel(channel, 0) as real;
    var b := CountLevel(Invert(channel), 0) as real;
    assert BackgroundRatio(channel, width, height) == a / total;
    assert BackgroundRatio(Invert(channel), width, height) == b / total;
    FractionsOfWhole(a, b, total);
  }
}
