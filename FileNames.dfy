/** The string tests ImageSorter.py applies to directory entries: the `.jpg`/`.jpeg`
    suffix filter and `os.path.splitext` for the names `os.listdir` returns. */
module FileNames {
  import opened Results

  /** Python's `str.endswith`. */
  predicate EndsWith(s: string, suffix: string) {
    |suffix| <= |s| && s[|s| - |suffix|..] == suffix
  }

  /** The filter of `sort_image`: `name.endswith(".jpeg") or name.endswith(".jpg")`,
      case-sensitive. */
  predicate IsJpeg(name: string) {
    EndsWith(name, ".jpeg") || EndsWith(name, ".jpg")
  }

  /** A name that passes the filter has `.jpeg` or `.jpg` as its final extension, the one
      `os.path.splitext` would split off. */
  lemma JpegFinalExtension(name: string)
    ensures IsJpeg(name) ==>
      LastDot(name).Some? && name[LastDot(name).value..] in {".jpeg", ".jpg"}
  {
    SuffixIsFinalExtension(name, ".jpeg");
    SuffixIsFinalExtension(name, ".jpg");
  }

  /** A suffix made of one '.' and no other dot starts at the last '.' of the name. */
  lemma SuffixIsFinalExtension(name: string, ext: string)
    requires |ext| > 0 && ext[0] == '.' && forall i :: 0 < i < |ext| ==> ext[i] != '.'
    ensures EndsWith(name, ext) ==> LastDot(name) == Some(|name| - |ext|)
  {
    if EndsWith(name, ext) {
      var k := |name| - |ext|;
      assert name[k] == ext[0];
      assert forall i :: k < i < |name| ==> name[i] == ext[i - k];
      var d := LastDot(name);
      assert d.Some? && d.value >= k;
    }
  }

  lemma {:induction false} IsJpegIff(name: string)
    ensures IsJpeg(name) <==>
      exists stem: string :: name == stem + ".jpeg" || name == stem + ".jpg"
  {
    if EndsWith(name, ".jpeg") {
      var stem := name[..|name| - 5];
      assert name == stem + ".jpeg";
    } else if EndsWith(name, ".jpg") {
      var stem := name[..|name| - 4];
      assert name == stem + ".jpg";
    }
  }

  /** Upper-case suffixes are not recognised. */
  lemma UpperCaseSkipped()
    ensures !IsJpeg("photo.JPG") && !IsJpeg("photo.JPEG") && !IsJpeg("photo.png")
    ensures IsJpeg("photo.jpg") && IsJpeg("photo.jpeg")
  {
    assert "photo.JPG"[5..] != ".jpg";
    assert "photo.JPEG"[5..] != ".jpg";
    assert "photo.png"[4..] != ".jpg";
    assert "photo.png"[4..] != ".jpeg";
    assert "photo.JPEG"[4..] != ".jpeg";
    assert "photo.JPG"[4..] != ".jpeg";
  }

  /** The index of the last '.' in `s`, if there is one. */
  function LastDot(s: string): (r: Option<nat>)
    ensures r.Some? ==> r.value < |s| && s[r.value] == '.' &&
                        forall i :: r.value < i < |s| ==> s[i] != '.'
    ensures r.None? ==> forall i :: 0 <= i < |s| ==> s[i] != '.'
  {
    if s == [] then None
    else if s[|s| - 1] == '.' then Some(|s| - 1)
    else LastDot(s[..|s| - 1])
  }

  /** True when every character of `s` is a '.'. */
  predicate AllDots(s: string) {
    forall i :: 0 <= i < |s| ==> s[i] == '.'
  }

  /** `os.path.splitext(name)[0]` for a name without a path separator: the text from
      the last '.' on is the extension, unless only dots come before that '.'
      (a leading-dot name such as ".profile" has no extension). */
  function StripExtension(name: string): (root: string)
    ensures root <= name
    ensures root == name ||
      (name[|root|] == '.' && !AllDots(root) &&
       forall i :: |root| < i < |name| ==> name[i] != '.')
  {
    match LastDot(name)
    case None => name
    case Some(k) => if AllDots(name[..k]) then name else name[..k]
  }

  /** Names without a dot are kept whole. */
  lemma {:induction false} StripNoDot(name: string)
    requires forall i :: 0 <= i < |name| ==> name[i] != '.'
    ensures StripExtension(name) == name
  {
    assert LastDot(name).None?;
  }

  /** An ordinary "stem.ext" loses exactly ".ext". */
  lemma {:induction false} StripOrdinary(stem: string, ext: string)
    requires !AllDots(stem)
    requires forall i :: 0 <= i < |ext| ==> ext[i] != '.'
    ensures StripExtension(stem + "." + ext) == stem
  {
    var name := stem + "." + ext;
    var d := LastDot(name);
    assert name[|stem|] == '.';
    assert name[..|stem|] == stem;
  }
}
