/** The upload filter: only PDF files are accepted for processing. */
module Upload {
  import opened Wrappers
  import opened Text

  /** Index of the last '.' in `s`, if any (where `rsplit('.', 1)` cuts). */
  function LastDot(s: string): (r: Option<nat>)
    ensures r.Some? ==>
      r.value < |s| && s[r.value] == '.' && forall k :: r.value < k < |s| ==> s[k] != '.'
    ensures r.None? ==> forall k :: 0 <= k < |s| ==> s[k] != '.'
    decreases |s|
  {
    if |s| == 0 then None
    else if s[|s| - 1] == '.' then Some(|s| - 1)
    else LastDot(s[..|s| - 1])
  }

  /**
   * A name is allowed when it has a '.' and the text after the last '.',
   * lower-cased, is "pdf". Equivalently: it ends in ".pdf" in any letter case.
   */
  function AllowedFile(filename: string): (ok: bool)
    ensures ok <==> |filename| >= 4 && Lower(filename[|filename| - 4..]) == ".pdf"
  {
    var n := |filename|;
    match LastDot(filename)
    case None =>
      assert n >= 4 ==> Lower(filename[n - 4..])[0] == LowerChar(filename[n - 4]) != '.';
      false
    case Some(i) =>
      ExtensionIsPdfIff(filename, i);
      Lower(filename[i + 1..]) == "pdf"
  }

  /** The text after the last dot reads "pdf" exactly when the name ends in ".pdf". */
  lemma ExtensionIsPdfIff(f: string, i: nat)
    requires LastDot(f) == Some(i)
    ensures Lower(f[i + 1..]) == "pdf" <==> |f| >= 4 && Lower(f[|f| - 4..]) == ".pdf"
  {
    if Lower(f[i + 1..]) == "pdf" {
      PdfExtensionEndsName(f, i);
    }
    if |f| >= 4 && Lower(f[|f| - 4..]) == ".pdf" {
      SuffixDotIsLast(f);
    }
  }

  lemma PdfExtensionEndsName(f: string, i: nat)
    requires i < |f| && f[i] == '.'
    requires Lower(f[i + 1..]) == "pdf"
    ensures |f| >= 4 && Lower(f[|f| - 4..]) == ".pdf"
  {
    var n := |f|;
    var ext := f[i + 1..];
    assert |Lower(ext)| == 3;
    assert i == n - 4;
    var tail := f[n - 4..];
    assert tail[1..] == ext;
    assert tail[0] == '.';
    assert Lower(tail) == [LowerChar('.')] + Lower(ext);
  }

  lemma SuffixDotIsLast(f: string)
    requires |f| >= 4 && Lower(f[|f| - 4..]) == ".pdf"
    ensures LastDot(f) == Some(|f| - 4) && Lower(f[|f| - 3..]) == "pdf"
  {
    var n := |f|;
    var tail := f[n - 4..];
    assert Lower(tail)[0] == LowerChar(tail[0]);
    NoDotAfter(f);
    LastDotAt(f, n - 4);
    LowerTail(tail);
    assert f[n - 3..] == tail[1..];
  }

  lemma NoDotAfter(f: string)
    requires |f| >= 4 && Lower(f[|f| - 4..]) == ".pdf"
    ensures forall k | |f| - 4 < k < |f| :: f[k] != '.'
  {
    var n := |f|;
    var tail := f[n - 4..];
    forall k | n - 4 < k < n
      ensures f[k] != '.'
    {
      assert LowerChar(tail[k - (n - 4)]) != '.';
    }
  }

  lemma LastDotAt(f: string, i: nat)
    requires i < |f| && f[i] == '.'
    requires forall k | i < k < |f| :: f[k] != '.'
    ensures LastDot(f) == Some(i)
  {
  }

  lemma LowerTail(tail: string)
    requires |tail| == 4 && Lower(tail) == ".pdf"
    ensures Lower(tail[1..]) == "pdf"
  {
    var ext := tail[1..];
    assert Lower(ext)[0] == LowerChar(tail[1]) == 'p';
    assert Lower(ext)[1] == LowerChar(tail[2]) == 'd';
    assert Lower(ext)[2] == LowerChar(tail[3]) == 'f';
  }
}
