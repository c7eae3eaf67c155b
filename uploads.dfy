/**
  The upload-extension check shared by the diary and certificate forms
  (app.py, ALLOWED and allowed_file).
*/
module Uploads {
  import opened Wrappers
  import opened Text

  /** The extensions an upload may have, lower case. */
  const Allowed: set<string> := {"png", "jpg", "jpeg", "pdf"}

  /** The text after the last "." of a file name: fn.rsplit(".", 1)[1]. */
  function Extension(fn: string): (ext: string)
    requires '.' in fn
    ensures |ext| < |fn| && ext == fn[|fn| - |ext|..]
    ensures fn[|fn| - |ext| - 1] == '.' && '.' !in ext
  {
    fn[LastIndexOf(fn, '.').value + 1..]
  }

  /** allowed_file: the name has a "." and the text after its last ".",
      lower-cased, is an allowed extension. */
  predicate AllowedFile(fn: string) {
    '.' in fn && Lower(Extension(fn)) in Allowed
  }

  /** fn ends with "." followed by e, in any mix of upper and lower case. */
  predicate EndsWithExtension(fn: string, e: string) {
    |e| < |fn| && fn[|fn| - |e| - 1] == '.' && Lower(fn[|fn| - |e|..]) == e
  }

  /** A description of allowed_file that does not mention the last ".":
      a name is accepted exactly when it ends with "." and an allowed
      extension, whatever the case of its letters. */
  lemma AllowedFileIff(fn: string)
    ensures AllowedFile(fn) <==> exists e :: e in Allowed && EndsWithExtension(fn, e)
  {
    if AllowedFile(fn) {
      var e := Lower(Extension(fn));
      assert EndsWithExtension(fn, e);
    }
    if e :| e in Allowed && EndsWithExtension(fn, e) {
      EndsWithExtensionAccepted(fn, e);
    }
  }

  lemma EndsWithExtensionAccepted(fn: string, e: string)
    requires e in Allowed && EndsWithExtension(fn, e)
    ensures AllowedFile(fn)
  {
    var i := |fn| - |e| - 1;
    var tail := fn[i + 1..];
    assert Lower(tail) == e;
    assert '.' !in e by {
      assert e == "png" || e == "jpg" || e == "jpeg" || e == "pdf";
    }
    assert '.' !in tail by {
      forall k | 0 <= k < |tail| ensures tail[k] != '.' {
        assert LowerChar(tail[k]) == e[k];
      }
    }
    LastIndexOfUnique(fn, '.', i);
    assert Extension(fn) == tail;
  }

  /** A name without a "." is never accepted. */
  lemma NoDotRejected(fn: string)
    requires '.' !in fn
    ensures !AllowedFile(fn)
  {
  }

  /** A name whose last segment is empty ("scan.") is never accepted. */
  lemma EmptyExtensionRejected(fn: string)
    requires fn != [] && fn[|fn| - 1] == '.'
    ensures !AllowedFile(fn)
  {
    LastIndexOfUnique(fn, '.', |fn| - 1);
    assert Extension(fn) == [];
  }

  /** Only the segment after the last "." decides, whatever comes before
      it, and the case of its letters does not matter. */
  lemma AllowedFileSplit(stem: string, ext: string)
    requires '.' !in ext
    ensures AllowedFile(stem + "." + ext) <==> Lower(ext) in Allowed
  {
    var fn := stem + "." + ext;
    assert fn[|stem|] == '.';
    assert fn[|stem| + 1..] == ext;
    LastIndexOfUnique(fn, '.', |stem|);
  }

  /** "x.PDF" is accepted: case does not matter. */
  lemma UpperCaseExtensionAccepted()
    ensures AllowedFile("x.PDF")
  {
    assert EndsWithExtension("x.PDF", "pdf") by { assert Lower("PDF") == "pdf"; }
    EndsWithExtensionAccepted("x.PDF", "pdf");
  }

  /** "a.pdf.exe" is refused: an allowed extension before the last "."
      does not count. */
  lemma InnerExtensionIgnored()
    ensures !AllowedFile("a.pdf.exe")
  {
    LastIndexOfUnique("a.pdf.exe", '.', 5);
    assert Extension("a.pdf.exe") == "exe";
    assert Lower("exe") == "exe";
  }

  /** ".png" is accepted: the text before the last "." may be empty. */
  lemma EmptyStemAccepted()
    ensures AllowedFile(".png")
  {
    AllowedFileSplit("", "png");
    assert "" + "." + "png" == ".png";
    assert Lower("png") == "png";
  }
}
