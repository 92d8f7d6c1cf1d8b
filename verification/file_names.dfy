/** File names: which input files the batch picks up, and the name each
    output gets. Names are plain character sequences; case folding is the
    ASCII one, which is what a case-insensitive match of ASCII letters
    amounts to for any character. */
module FileNames {

  /** The input extensions, in lower case, without their dot. */
  const ImageExtensions: seq<string> := ["webp", "tif", "tiff", "jpg", "jpeg", "psd", "psb", "png"]

  const OutputExtension: string := ".webp"

  function LowerAscii(c: char): char {
    if 'A' <= c <= 'Z' then (c as int - 'A' as int + 'a' as int) as char else c
  }

  function Lower(s: string): (t: string)
    ensures |t| == |s|
    ensures forall i :: 0 <= i < |s| ==> t[i] == LowerAscii(s[i])
  {
    seq(|s|, i requires 0 <= i < |s| => LowerAscii(s[i]))
  }

  /** `name` ends with `suffix` (given in lower case), ignoring case. */
  predicate EndsWithIgnoringCase(name: string, suffix: string) {
    |suffix| <= |name| && forall k :: 0 <= k < |suffix| ==> LowerAscii(name[|name| - |suffix| + k]) == suffix[k]
  }

  /** The reference reading of the input filter: the name ends, ignoring
      case, in a dot followed by one of the image extensions. */
  predicate MatchesImagePattern(name: string) {
    exists e :: e in ImageExtensions && EndsWithIgnoringCase(name, "." + e)
  }

  /** Index of the last dot of `name`, or -1 when it has none. */
  function LastDot(name: string): (k: int)
    ensures -1 <= k < |name|
    ensures k >= 0 ==> name[k] == '.'
    ensures forall j :: k < j < |name| ==> name[j] != '.'
  {
    if |name| == 0 then -1
    else if name[|name| - 1] == '.' then |name| - 1
    else LastDot(name[..|name| - 1])
  }

  /** The input filter: the text after the last dot, folded to lower
      case, is one of the image extensions. */
  function IsImageFile(name: string): (accepted: bool)
    ensures accepted <==> MatchesImagePattern(name)
  {
    var k := LastDot(name);
    var accepted := k >= 0 && Lower(name[k + 1..]) in ImageExtensions;
    FilterAgreesWithPattern(name);
    accepted
  }

  predicate NoDot(s: string) {
    forall j :: 0 <= j < |s| ==> s[j] != '.'
  }

  lemma ExtensionHasNoDot(e: string)
    requires e in ImageExtensions
    ensures NoDot(e)
  {
  }

  lemma FilterAgreesWithPattern(name: string)
    ensures (LastDot(name) >= 0 && Lower(name[LastDot(name) + 1..]) in ImageExtensions) <==> MatchesImagePattern(name)
  {
    var k := LastDot(name);
    if k >= 0 && Lower(name[k + 1..]) in ImageExtensions {
      AcceptedNameMatches(name, k);
    }
    if MatchesImagePattern(name) {
      var e :| e in ImageExtensions && EndsWithIgnoringCase(name, "." + e);
      ExtensionHasNoDot(e);
      MatchingNameAccepted(name, e);
    }
  }

  lemma AcceptedNameMatches(name: string, k: int)
    requires 0 <= k < |name| && name[k] == '.'
    ensures EndsWithIgnoringCase(name, "." + Lower(name[k + 1..]))
  {
    var e := Lower(name[k + 1..]);
    var suffix := "." + e;
    assert |suffix| == |name| - k;
    forall i | 0 <= i < |suffix|
      ensures LowerAscii(name[|name| - |suffix| + i]) == suffix[i]
    {
      if i > 0 {
        assert suffix[i] == e[i - 1];
      }
    }
  }

  /** When `name` ends in a dot and a dot-free `e`, that dot is its last
      one and `e` is what follows it. */
  lemma MatchingNameAccepted(name: string, e: string)
    requires NoDot(e) && EndsWithIgnoringCase(name, "." + e)
    ensures LastDot(name) == |name| - |e| - 1
    ensures Lower(name[LastDot(name) + 1..]) == e
  {
    var suffix := "." + e;
    var start := |name| - |suffix|;
    assert LowerAscii(name[start]) == suffix[0] == '.';
    forall j | start < j < |name|
      ensures name[j] != '.'
    {
      assert LowerAscii(name[j]) == suffix[j - start] == e[j - start - 1];
    }
    var k := LastDot(name);
    assert k == start;
    var tail := Lower(name[k + 1..]);
    assert |tail| == |e|;
    forall i | 0 <= i < |e|
      ensures tail[i] == e[i]
    {
      assert tail[i] == LowerAscii(name[start + 1 + i]) == suffix[i + 1];
    }
  }

  /** The regular expression `\.[^.]+$` matches `name` from `i`: a dot
      followed by at least one character, none of them a dot, up to the
      end. */
  predicate ExtensionStartsAt(name: string, i: int) {
    0 <= i < |name| - 1 && name[i] == '.' && forall j :: i < j < |name| ==> name[j] != '.'
  }

  /** At most one position can start such a match. */
  lemma ExtensionMatchUnique(name: string, i: int, j: int)
    requires ExtensionStartsAt(name, i) && ExtensionStartsAt(name, j)
    ensures i == j
  {
  }

  /** The document name with its last extension removed. A name without
      a dot, or ending in a dot, has no extension and is kept whole. The
      match is unique (ExtensionMatchUnique), so the prefix the contract
      names is the one the replacement removes. */
  function BaseName(name: string): (base: string)
    ensures (exists i :: ExtensionStartsAt(name, i)) ==> ExtensionStartsAt(name, |base|) && base == name[..|base|]
    ensures (forall i :: !ExtensionStartsAt(name, i)) ==> base == name
  {
    var k := LastDot(name);
    if 0 <= k < |name| - 1 then
      assert ExtensionStartsAt(name, k);
      name[..k]
    else
      name
  }

  /** The output file name: the base name with a lower-case `.webp`. */
  function OutputName(docName: string): (out: string)
    ensures |out| == |BaseName(docName)| + |OutputExtension|
    ensures out[|out| - |OutputExtension|..] == OutputExtension
    ensures out[..|out| - |OutputExtension|] == BaseName(docName)
    ensures BaseName(docName) <= docName
  {
    BaseName(docName) + OutputExtension
  }

  /** Where the output is written: the output folder, a slash, the name. */
  function OutputPath(folder: string, docName: string): string {
    folder + "/" + OutputName(docName)
  }

  /** The output name's own base name is the input's base name: renaming
      swaps exactly one extension. */
  lemma OutputKeepsBaseName(docName: string)
    ensures BaseName(OutputName(docName)) == BaseName(docName)
  {
    var base := BaseName(docName);
    var out := OutputName(docName);
    assert out == base + OutputExtension;
    assert ExtensionStartsAt(out, |base|);
  }

  /** Every output name is itself accepted by the input filter. */
  lemma OutputIsImageFile(docName: string)
    ensures IsImageFile(OutputName(docName))
  {
    var out := OutputName(docName);
    assert "webp" in ImageExtensions;
    assert EndsWithIgnoringCase(out, "." + "webp");
  }

  /** Keeps, in order, the names the input filter accepts. */
  function SelectInputs(names: seq<string>): (picked: seq<string>)
    ensures forall n :: n in picked <==> n in names && IsImageFile(n)
    ensures |picked| <= |names|
  {
    if |names| == 0 then []
    else
      var rest := SelectInputs(names[1..]);
      assert forall n :: n in names <==> n == names[0] || n in names[1..];
      if IsImageFile(names[0]) then [names[0]] + rest else rest
  }
}
