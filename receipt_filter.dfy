/** The receipt upload filter: a file is accepted when the lower-cased
    extension of its original name matches the unanchored pattern
    `jpeg|jpg|png|pdf`. The extension follows the POSIX rules of Node's
    `path.extname`. */
module ReceiptFilter {
  import opened Common

  /** The alternatives of the pattern, in the order they are written. */
  const Allowed: seq<string> := ["jpeg", "jpg", "png", "pdf"]

  const RejectMessage: string := "Only images or PDF allowed"

  datatype Decision = Accept | Reject(error: string)

  /** Index of the last occurrence of `c` in `s`. */
  function LastIndexOf(s: string, c: char): (r: Option<nat>)
    ensures r.Some? ==> r.value < |s| && s[r.value] == c
    ensures r.Some? ==> forall j :: r.value < j < |s| ==> s[j] != c
    ensures r.None? ==> c !in s
    decreases |s|
  {
    if |s| == 0 then None
    else if s[|s| - 1] == c then Some(|s| - 1)
    else LastIndexOf(s[..|s| - 1], c)
  }

  /** Drops the separators at the end of a path ("a/b.pdf//" names "a/b.pdf"). */
  function TrimTrailingSlashes(s: string): (r: string)
    ensures r <= s
    ensures |r| > 0 ==> r[|r| - 1] != '/'
    ensures forall j :: |r| <= j < |s| ==> s[j] == '/'
    decreases |s|
  {
    if |s| > 0 && s[|s| - 1] == '/' then TrimTrailingSlashes(s[..|s| - 1]) else s
  }

  /** What follows the last separator. */
  function LastComponent(s: string): (r: string)
    ensures '/' !in r
  {
    match LastIndexOf(s, '/')
    case None => s
    case Some(i) => s[i + 1..]
  }

  /** The extension of one path component: from its last dot to its end;
      empty when it has no dot, starts with its only dot (".bashrc"), or
      is "..". */
  function ComponentExt(part: string): (r: string)
    ensures r == "" || (r[0] == '.' && '.' !in r[1..])
  {
    match LastIndexOf(part, '.')
    case None => ""
    case Some(d) => if d == 0 || part == ".." then "" else part[d..]
  }

  /** `path.extname(p)` on POSIX paths. */
  function ExtName(p: string): (r: string)
    ensures r == "" || (r[0] == '.' && '.' !in r[1..] && '/' !in r)
  {
    ComponentExt(LastComponent(TrimTrailingSlashes(p)))
  }

  /** The pattern test itself, on an already lower-cased extension. */
  predicate MatchesPattern(ext: string)
  {
    Contains(ext, "jpeg") || Contains(ext, "jpg") || Contains(ext, "png") || Contains(ext, "pdf")
  }

  /** multer's `fileFilter` for receipts. */
  function FileFilter(originalName: string): (r: Decision)
    ensures r.Reject? ==> r.error == RejectMessage
    ensures ExtName(originalName) == "" ==> r.Reject?
  {
    if MatchesPattern(Lower(ExtName(originalName))) then Accept else Reject(RejectMessage)
  }

  /** The filter accepts exactly the names whose lower-cased extension has
      one of the allowed words at some position. */
  lemma FileFilterAcceptsIff(originalName: string)
    ensures FileFilter(originalName).Accept? <==>
      exists a, k: nat :: a in Allowed && OccursAt(Lower(ExtName(originalName)), a, k)
  {
    var ext := Lower(ExtName(originalName));
    if MatchesPattern(ext) {
      var a :=
        if Contains(ext, "jpeg") then "jpeg"
        else if Contains(ext, "jpg") then "jpg"
        else if Contains(ext, "png") then "png"
        else "pdf";
      ContainsIff(ext, a);
      var k: nat :| OccursAt(ext, a, k);
      assert a in Allowed;
    } else {
      forall a, k: nat | a in Allowed
        ensures !OccursAt(ext, a, k)
      {
        ContainsIff(ext, a);
      }
    }
  }

  /** A character map that neither creates nor destroys '.' and '/'. */
  ghost predicate KeepsSeparators(f: char -> char)
  {
    forall c :: (f(c) == '.' <==> c == '.') && (f(c) == '/' <==> c == '/')
  }

  lemma {:induction false} LastIndexOfMapped(f: char -> char, s: string, c: char)
    requires KeepsSeparators(f)
    requires c == '.' || c == '/'
    ensures LastIndexOf(MapChars(f, s), c) == LastIndexOf(s, c)
    decreases |s|
  {
    if |s| > 0 {
      assert MapChars(f, s)[..|s| - 1] == MapChars(f, s[..|s| - 1]);
      LastIndexOfMapped(f, s[..|s| - 1], c);
    }
  }

  lemma {:induction false} TrimMapped(f: char -> char, s: string)
    requires KeepsSeparators(f)
    ensures TrimTrailingSlashes(MapChars(f, s)) == MapChars(f, TrimTrailingSlashes(s))
    decreases |s|
  {
    if |s| > 0 {
      assert MapChars(f, s)[..|s| - 1] == MapChars(f, s[..|s| - 1]);
      TrimMapped(f, s[..|s| - 1]);
    }
  }

  lemma ComponentMapped(f: char -> char, t: string)
    requires KeepsSeparators(f)
    ensures LastComponent(MapChars(f, t)) == MapChars(f, LastComponent(t))
  {
    LastIndexOfMapped(f, t, '/');
    match LastIndexOf(t, '/')
    case None =>
    case Some(i) =>
      assert MapChars(f, t)[i + 1..] == MapChars(f, t[i + 1..]);
  }

  lemma ComponentExtMapped(f: char -> char, part: string)
    requires KeepsSeparators(f)
    ensures ComponentExt(MapChars(f, part)) == MapChars(f, ComponentExt(part))
  {
    var mpart := MapChars(f, part);
    LastIndexOfMapped(f, part, '.');
    match LastIndexOf(part, '.')
    case None =>
    case Some(d) =>
      assert mpart[d..] == MapChars(f, part[d..]);
      assert part == ".." <==> mpart == "..";
  }

  /** Extracting the extension commutes with any separator-preserving
      character map, in particular with changing the case of letters. */
  lemma ExtNameMapped(f: char -> char, p: string)
    requires KeepsSeparators(f)
    ensures ExtName(MapChars(f, p)) == MapChars(f, ExtName(p))
  {
    var t := TrimTrailingSlashes(p);
    TrimMapped(f, p);
    ComponentMapped(f, t);
    ComponentExtMapped(f, LastComponent(t));
  }

  lemma LowerAfterMap(s: string)
    ensures Lower(Upper(s)) == Lower(s)
    ensures Lower(Lower(s)) == Lower(s)
  {
  }

  lemma CaseMapsKeepSeparators()
    ensures KeepsSeparators(LowerChar) && KeepsSeparators(UpperChar)
  {
  }

  /** The filter ignores the case of the name: ".PNG" and ".Pdf" are
      treated like ".png" and ".pdf". */
  lemma FileFilterIgnoresCase(name: string)
    ensures FileFilter(Upper(name)) == FileFilter(name)
    ensures FileFilter(Lower(name)) == FileFilter(name)
  {
    var e := ExtName(name);
    CaseMapsKeepSeparators();
    ExtNameMapped(UpperChar, name);
    ExtNameMapped(LowerChar, name);
    LowerAfterMap(e);
  }

  /** For a plain file name "stem.e" (no separator, `e` without a dot, and
      a stem that is not empty and not "."), the extension is ".e". */
  lemma {:induction false} ExtNameOfPlainName(stem: string, e: string)
    requires '/' !in stem && '/' !in e && '.' !in e
    requires stem != "" && stem != "."
    ensures ExtName(stem + "." + e) == "." + e
  {
    var name := stem + "." + e;
    assert name[|name| - 1] != '/';
    assert TrimTrailingSlashes(name) == name;
    assert LastComponent(name) == name;
    assert name[|stem|] == '.';
    var d := LastIndexOf(name, '.');
    assert d == Some(|stem|) by {
      forall j | |stem| < j < |name| ensures name[j] != '.' {
        assert name[j] == e[j - |stem| - 1];
      }
    }
    assert name != ".." by {
      if |name| == 2 {
        assert |stem| == 1 && e == "" && stem[0] == name[0];
      }
    }
    assert name[|stem|..] == "." + e;
  }

  /** A name without a dot has no extension, so it is refused ("receipt"). */
  lemma NoDotRejected(name: string)
    requires '.' !in name
    ensures ExtName(name) == ""
    ensures FileFilter(name) == Reject(RejectMessage)
  {
    var t := TrimTrailingSlashes(name);
    forall j | 0 <= j < |t| ensures t[j] != '.' {
      assert t[j] == name[j];
    }
    var c := LastComponent(t);
    match LastIndexOf(t, '/')
    case None =>
    case Some(i) =>
      forall j | 0 <= j < |c| ensures c[j] != '.' {
        assert c[j] == t[i + 1 + j];
      }
  }

  /** A hidden name, whose only dot leads it, has no extension, so it is
      refused: ".pdf" is not a PDF receipt. */
  lemma HiddenNameRejected(e: string)
    requires '.' !in e && '/' !in e
    ensures ExtName("." + e) == ""
    ensures FileFilter("." + e) == Reject(RejectMessage)
  {
    var name := "." + e;
    assert name[|name| - 1] != '/';
    assert TrimTrailingSlashes(name) == name;
    assert '/' !in name;
    assert LastComponent(name) == name;
    assert LastIndexOf(name, '.') == Some(0) by {
      forall j | 0 < j < |name| ensures name[j] != '.' {
        assert name[j] == e[j - 1];
      }
    }
  }

  /** Every allowed word contains the letter 'p', so an extension without
      one is refused (".gif", ".jpe", ".txt"). */
  lemma WithoutLetterPRejected(name: string)
    requires 'p' !in Lower(ExtName(name))
    ensures FileFilter(name) == Reject(RejectMessage)
  {
    var ext := Lower(ExtName(name));
    if MatchesPattern(ext) {
      assert 'p' in "jpeg" && 'p' in "jpg" && 'p' in "png" && 'p' in "pdf";
      if Contains(ext, "jpeg") {
        ContainsKeepsChars(ext, "jpeg", 'p');
      } else if Contains(ext, "jpg") {
        ContainsKeepsChars(ext, "jpg", 'p');
      } else if Contains(ext, "png") {
        ContainsKeepsChars(ext, "png", 'p');
      } else {
        ContainsKeepsChars(ext, "pdf", 'p');
      }
    }
  }

  /** A plain file name whose lower-cased extension holds an allowed word
      is accepted, whatever its stem. */
  lemma PlainNameAccepted(stem: string, ext: string, a: string, k: nat)
    requires '/' !in stem && stem != "" && stem != "."
    requires |ext| > 0 && ext[0] == '.' && '/' !in ext
    requires forall i :: 1 <= i < |ext| ==> ext[i] != '.'
    requires a in Allowed && OccursAt(Lower(ext), a, k)
    ensures FileFilter(stem + ext).Accept?
  {
    var e := ext[1..];
    assert "." + e == ext;
    assert stem + "." + e == stem + ext;
    ExtNameOfPlainName(stem, e);
    FileFilterAcceptsIff(stem + ext);
  }

  // Lower-casing of the extensions used in the examples below.
  lemma LowerPdfx()
    ensures OccursAt(Lower(".pdfx"), "pdf", 1)
  {
    var l := Lower(".pdfx");
    assert |l| == 5 && l[0] == '.' && l[1] == 'p' && l[2] == 'd' && l[3] == 'f' && l[4] == 'x';
    assert l == ".pdfx";
  }

  lemma LowerXjpg()
    ensures OccursAt(Lower(".xjpg"), "jpg", 2)
  {
    var l := Lower(".xjpg");
    assert |l| == 5 && l[0] == '.' && l[1] == 'x' && l[2] == 'j' && l[3] == 'p' && l[4] == 'g';
    assert l == ".xjpg";
  }

  lemma LowerMixedPdf()
    ensures OccursAt(Lower(".Pdf"), "pdf", 1)
  {
    var l := Lower(".Pdf");
    assert |l| == 4 && l[0] == '.' && l[1] == 'p' && l[2] == 'd' && l[3] == 'f';
    assert l == ".pdf";
  }

  lemma LowerUpperPng()
    ensures OccursAt(Lower(".PNG"), "png", 1)
  {
    var l := Lower(".PNG");
    assert |l| == 4 && l[0] == '.' && l[1] == 'p' && l[2] == 'n' && l[3] == 'g';
    assert l == ".png";
  }

  /** The pattern is unanchored: ".pdfx" passes. */
  lemma PdfxAccepted(stem: string)
    requires '/' !in stem && stem != "" && stem != "."
    ensures FileFilter(stem + ".pdfx").Accept?
  {
    LowerPdfx();
    PlainNameAccepted(stem, ".pdfx", "pdf", 1);
  }

  /** The pattern is unanchored: ".xjpg" passes. */
  lemma XjpgAccepted(stem: string)
    requires '/' !in stem && stem != "" && stem != "."
    ensures FileFilter(stem + ".xjpg").Accept?
  {
    LowerXjpg();
    PlainNameAccepted(stem, ".xjpg", "jpg", 2);
  }

  /** The test is made on the lower-cased extension: ".PNG" passes. */
  lemma UpperPngAccepted(stem: string)
    requires '/' !in stem && stem != "" && stem != "."
    ensures FileFilter(stem + ".PNG").Accept?
  {
    LowerUpperPng();
    PlainNameAccepted(stem, ".PNG", "png", 1);
  }

  /** The test is made on the lower-cased extension: ".Pdf" passes. */
  lemma MixedPdfAccepted(stem: string)
    requires '/' !in stem && stem != "" && stem != "."
    ensures FileFilter(stem + ".Pdf").Accept?
  {
    LowerMixedPdf();
    PlainNameAccepted(stem, ".Pdf", "pdf", 1);
  }

  /** ".gif" is refused. */
  lemma GifRejected(stem: string)
    requires '/' !in stem && stem != "" && stem != "."
    ensures FileFilter(stem + ".gif") == Reject(RejectMessage)
  {
    ExtNameOfPlainName(stem, "gif");
    assert stem + "." + "gif" == stem + ".gif";
    assert Lower(".gif") == ".gif";
    WithoutLetterPRejected(stem + ".gif");
  }
}
