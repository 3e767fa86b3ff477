/** `SiftSorter`: the catalog of reference images built from the known directory, and
    `sort_image`, which decides for every `.jpg`/`.jpeg` entry of the directory to sort
    which folder it is copied to. Directory listings are given as sequences; reading
    images and extracting descriptors is the oracle `Detector`; a file copy is recorded
    as a `Copy` value instead of being performed. */
module Sorter {
  import opened Results
  import opened FileNames
  import opened NameOrder
  import opened Matching
  import opened Selection

  const KnownLoc: string := "sample_known/"
  const ToSortFolder: string := "sample_to_sort/"
  const NewFolderLoc: string := "sorted/"
  /** `unk_limit`: the score a candidate must reach to displace the unknown folder. */
  const UnkLimit: int := 2
  const UnknownLoc: string := NewFolderLoc + "unknown/"
  /** The macOS metadata file skipped in the known directory. */
  const DSStore: string := ".DS_Store"

  /** `pre_process_image` followed by `detectAndCompute`: image path to descriptors. */
  type Detector = string -> Descriptors

  /** The folder a reference image named `name` owns. The name can be read back from
      the folder, and the folder is the unknown folder exactly for the name `unknown`. */
  function FolderFor(name: string): (r: string)
    ensures |r| == |NewFolderLoc| + |name| + 1 && r[|NewFolderLoc|..|r| - 1] == name
    ensures r == UnknownLoc <==> name == "unknown"
  {
    assert UnknownLoc == NewFolderLoc + "unknown" + "/";
    NewFolderLoc + name + "/"
  }

  /** The catalog entry `add_known_image` creates for the reference file `file`. */
  function Entry(file: string, detect: Detector): (e: KnownImage)
    ensures e.name == StripExtension(file) && e.name <= file
    ensures e.des == detect(KnownLoc + file) && e.dist == Dist
    ensures e.loc == UnknownLoc <==> StripExtension(file) == "unknown"
  {
    var name := StripExtension(file);
    KnownImage(name, detect(KnownLoc + file), Dist, FolderFor(name))
  }

  /** The reference files that are not `.DS_Store`, in listing order. */
  function Kept(files: seq<string>): (r: seq<string>)
    ensures forall x :: x in r <==> x in files && x != DSStore
  {
    if files == [] then []
    else
      var n := |files| - 1;
      assert forall x :: x in files <==> x in files[..n] || x == files[n] by {
        assert files == files[..n] + [files[n]];
      }
      var prev := Kept(files[..n]);
      if files[n] == DSStore then prev else prev + [files[n]]
  }

  /** Filtering keeps the order of a sorted listing. */
  lemma {:induction false} KeptSorted(files: seq<string>)
    requires Sorted(files)
    ensures Sorted(Kept(files))
  {
    if files != [] {
      var n := |files| - 1;
      var p := files[..n];
      assert Sorted(p);
      KeptSorted(p);
      var r := Kept(files);
      if files[n] != DSStore {
        forall i, j | 0 <= i < j < |r| ensures LessEq(r[i], r[j]) {
          if j == |r| - 1 {
            assert r[i] in Kept(p);
            var k :| 0 <= k < n && p[k] == r[i];
            assert LessEq(files[k], files[n]);
          }
        }
      }
    }
  }

  /** Filtering drops every `.DS_Store` and nothing else. */
  lemma {:induction false} KeptMultiset(files: seq<string>)
    ensures multiset(Kept(files)) == multiset(files)[DSStore := 0]
  {
    if files != [] {
      var n := |files| - 1;
      KeptMultiset(files[..n]);
      assert files == files[..n] + [files[n]];
    }
  }

  /** The catalog `__init__` builds from the (already sorted) reference files. */
  function BuildCatalog(files: seq<string>, detect: Detector): (c: seq<KnownImage>)
    ensures |c| == |Kept(files)|
    ensures forall k :: 0 <= k < |c| ==> c[k] == Entry(Kept(files)[k], detect)
  {
    if files == [] then []
    else
      var n := |files| - 1;
      var prev := BuildCatalog(files[..n], detect);
      if files[n] == DSStore then prev else prev + [Entry(files[n], detect)]
  }

  /** The catalog of a listing: one entry per name other than `.DS_Store`, in sorted
      name order, named after the file without its extension and owning
      `sorted/<name>/`. */
  lemma CatalogOfListing(listing: seq<string>, detect: Detector)
    ensures Sorted(Kept(Sort(listing)))
    ensures multiset(Kept(Sort(listing))) == multiset(listing)[DSStore := 0]
    ensures forall k :: 0 <= k < |BuildCatalog(Sort(listing), detect)| ==>
      BuildCatalog(Sort(listing), detect)[k].name == StripExtension(Kept(Sort(listing))[k]) &&
      BuildCatalog(Sort(listing), detect)[k].loc == NewFolderLoc + BuildCatalog(Sort(listing), detect)[k].name + "/"
  {
    SortSorted(listing);
    KeptSorted(Sort(listing));
    KeptMultiset(Sort(listing));
  }

  /** A reference file named `unknown.<ext>` owns the unknown folder itself. */
  lemma UnknownReferenceSharesFolder(file: string, detect: Detector)
    requires StripExtension(file) == "unknown"
    ensures Entry(file, detect).loc == UnknownLoc
  {
  }

  /** The two running maxima at the end of the candidate loop. */
  datatype Decision = Decision(bf: Best, flann: Best)

  /** A candidate's score under one matcher: at most the number of the query's
      neighbour lists, 0 when the matcher finds none. */
  function Score(c: KnownImage, m: Matcher, des: Descriptors): (r: Result<nat, MatchError>)
    ensures r.Ok? ==> r.value <= |m(c.des, des)|
    ensures m(c.des, des) == [] ==> r == Ok(0)
  {
    GoodMatches(m(c.des, des), c.dist)
  }

  /** One candidate's turn in the loop of `sort_image`: its brute-force score updates the
      brute-force maximum, then its FLANN score the FLANN maximum; a failing count aborts. */
  function Consider(prev: Decision, c: KnownImage, des: Descriptors, bf: Matcher, flann: Matcher)
    : (r: Result<Decision, MatchError>)
    ensures r.Ok? <==> Score(c, bf, des).Ok? && Score(c, flann, des).Ok?
    ensures r.Ok? ==>
      r.value.bf.score >= prev.bf.score && r.value.flann.score >= prev.flann.score &&
      (r.value.bf == prev.bf || r.value.bf.loc == c.loc) &&
      (r.value.flann == prev.flann || r.value.flann.loc == c.loc)
  {
    var bfMatches :- Score(c, bf, des);
    var flannMatches :- Score(c, flann, des);
    Ok(Decision(Step(prev.bf, bfMatches, c.loc), Step(prev.flann, flannMatches, c.loc)))
  }

  /** The candidate loop of `sort_image` over the catalog in order; the first failing
      count aborts it. */
  function DecideOver(catalog: seq<KnownImage>, des: Descriptors, bf: Matcher, flann: Matcher,
                      floor: int, unknown: string): Result<Decision, MatchError>
  {
    if catalog == [] then Ok(Decision(Best(floor, unknown), Best(floor, unknown)))
    else
      var n := |catalog| - 1;
      var prev :- DecideOver(catalog[..n], des, bf, flann, floor, unknown);
      Consider(prev, catalog[n], des, bf, flann)
  }

  /** Both running maxima stay at or above the floor, and each folder is the unknown
      folder or the folder of some catalog entry. */
  lemma {:induction false} DecideOverBounds(catalog: seq<KnownImage>, des: Descriptors, bf: Matcher, flann: Matcher,
                                            floor: int, unknown: string)
    ensures DecideOver(catalog, des, bf, flann, floor, unknown).Ok? ==> DecideOver(catalog, des, bf, flann, floor, unknown).value.bf.score >= floor && DecideOver(catalog, des, bf, flann, floor, unknown).value.flann.score >= floor
    ensures DecideOver(catalog, des, bf, flann, floor, unknown).Ok? ==> DecideOver(catalog, des, bf, flann, floor, unknown).value.bf.loc == unknown || exists j :: 0 <= j < |catalog| && catalog[j].loc == DecideOver(catalog, des, bf, flann, floor, unknown).value.bf.loc
    ensures DecideOver(catalog, des, bf, flann, floor, unknown).Ok? ==> DecideOver(catalog, des, bf, flann, floor, unknown).value.flann.loc == unknown || exists j :: 0 <= j < |catalog| && catalog[j].loc == DecideOver(catalog, des, bf, flann, floor, unknown).value.flann.loc
  {
    if catalog != [] {
      var n := |catalog| - 1;
      DecideOverBounds(catalog[..n], des, bf, flann, floor, unknown);
      assert forall j :: 0 <= j < n ==> catalog[..n][j] == catalog[j];
    }
  }

  /** Every candidate can be scored by both matchers. */
  ghost predicate AllScored(catalog: seq<KnownImage>, des: Descriptors, bf: Matcher, flann: Matcher) {
    forall j :: 0 <= j < |catalog| ==> Score(catalog[j], bf, des).Ok? && Score(catalog[j], flann, des).Ok?
  }

  /** The candidates' scores under `m`, in catalog order. */
  ghost function Scores(catalog: seq<KnownImage>, m: Matcher, des: Descriptors): seq<int>
    requires forall j :: 0 <= j < |catalog| ==> Score(catalog[j], m, des).Ok?
  {
    seq(|catalog|, j requires 0 <= j < |catalog| => Score(catalog[j], m, des).value as int)
  }

  /** The candidates' folders, in catalog order. */
  function Locs(catalog: seq<KnownImage>): seq<string> {
    seq(|catalog|, j requires 0 <= j < |catalog| => catalog[j].loc)
  }

  /** The candidate loop fails exactly when some count fails. */
  lemma {:induction false} DecideOverFails(catalog: seq<KnownImage>, des: Descriptors,
                                           bf: Matcher, flann: Matcher, floor: int, unknown: string)
    ensures DecideOver(catalog, des, bf, flann, floor, unknown).Ok? <==> AllScored(catalog, des, bf, flann)
  {
    if catalog != [] {
      var n := |catalog| - 1;
      var p := catalog[..n];
      DecideOverFails(p, des, bf, flann, floor, unknown);
      assert forall j :: 0 <= j < n ==> p[j] == catalog[j];
    }
  }

  /** One more candidate: the loop body of `sort_image` applied to the state so far. */
  lemma DecideOverExtend(catalog: seq<KnownImage>, des: Descriptors, bf: Matcher, flann: Matcher,
                         floor: int, unknown: string, j: nat)
    requires j < |catalog|
    ensures DecideOver(catalog[..j + 1], des, bf, flann, floor, unknown) ==
      (var prev :- DecideOver(catalog[..j], des, bf, flann, floor, unknown);
       Consider(prev, catalog[j], des, bf, flann))
  {
    assert catalog[..j + 1][..j] == catalog[..j];
  }

  /** The scores of a prefix of the catalog are a prefix of its scores. */
  lemma ScoresPrefix(catalog: seq<KnownImage>, m: Matcher, des: Descriptors, n: nat)
    requires n <= |catalog|
    requires forall j :: 0 <= j < |catalog| ==> Score(catalog[j], m, des).Ok?
    ensures Scores(catalog[..n], m, des) == Scores(catalog, m, des)[..n]
    ensures Locs(catalog[..n]) == Locs(catalog)[..n]
  {
  }

  /** When every count succeeds, the candidate loop is two independent scans, one per
      matcher, over the same catalog. */
  lemma {:induction false} DecideOverIsTwoScans(catalog: seq<KnownImage>, des: Descriptors,
                                                bf: Matcher, flann: Matcher, floor: int, unknown: string)
    requires AllScored(catalog, des, bf, flann)
    ensures DecideOver(catalog, des, bf, flann, floor, unknown) ==
      Ok(Decision(Scan(Scores(catalog, bf, des), Locs(catalog), floor, unknown),
                  Scan(Scores(catalog, flann, des), Locs(catalog), floor, unknown)))
  {
    if catalog != [] {
      var n := |catalog| - 1;
      var p := catalog[..n];
      assert AllScored(p, des, bf, flann) by {
        assert forall j :: 0 <= j < n ==> p[j] == catalog[j];
      }
      DecideOverIsTwoScans(p, des, bf, flann, floor, unknown);
      ScoresPrefix(catalog, bf, des, n);
      ScoresPrefix(catalog, flann, des, n);
      DecideOverExtend(catalog, des, bf, flann, floor, unknown, n);
      assert catalog[..n + 1] == catalog;
    }
  }

  /** Once a count has failed, later candidates do not matter. */
  lemma {:induction false} DecideOverSticky(catalog: seq<KnownImage>, des: Descriptors,
                                            bf: Matcher, flann: Matcher, floor: int, unknown: string, i: nat)
    requires i <= |catalog|
    requires DecideOver(catalog[..i], des, bf, flann, floor, unknown).Err?
    ensures DecideOver(catalog, des, bf, flann, floor, unknown) ==
            DecideOver(catalog[..i], des, bf, flann, floor, unknown)
    decreases |catalog|
  {
    if i < |catalog| {
      var n := |catalog| - 1;
      assert catalog[..n][..i] == catalog[..i];
      DecideOverSticky(catalog[..n], des, bf, flann, floor, unknown, i);
    } else {
      assert catalog[..i] == catalog;
    }
  }

  /** What `sort_image` depends on besides the directory listing. */
  datatype Setup = Setup(catalog: seq<KnownImage>, detect: Detector, bf: Matcher, flann: Matcher,
                         floor: int, unknown: string)

  /** The folder an image at path `src` is copied into: the reconciled decision. */
  function Destination(s: Setup, src: string): Result<string, MatchError>
  {
    var d :- DecideOver(s.catalog, s.detect(src), s.bf, s.flann, s.floor, s.unknown);
    Ok(Reconcile(d.bf.loc, d.flann.loc, s.unknown))
  }

  /** The destination is the unknown folder or the folder of some catalog entry. */
  lemma DestinationInCatalog(s: Setup, src: string)
    ensures Destination(s, src).Ok? ==>
      Destination(s, src).value == s.unknown ||
      exists j :: 0 <= j < |s.catalog| && s.catalog[j].loc == Destination(s, src).value
  {
    DecideOverBounds(s.catalog, s.detect(src), s.bf, s.flann, s.floor, s.unknown);
  }

  /** A brute-force winner whose folder is not the unknown folder decides the destination,
      whatever FLANN finds. */
  lemma DestinationBfWinner(s: Setup, src: string, k: int)
    requires AllScored(s.catalog, s.detect(src), s.bf, s.flann)
    requires IsWinner(Scores(s.catalog, s.bf, s.detect(src)), s.floor, k)
    requires s.catalog[k].loc != s.unknown
    ensures Destination(s, src) == Ok(s.catalog[k].loc)
  {
    var des := s.detect(src);
    DecideOverIsTwoScans(s.catalog, des, s.bf, s.flann, s.floor, s.unknown);
    BfWinnerKept(Scores(s.catalog, s.bf, des), Scores(s.catalog, s.flann, des), Locs(s.catalog),
                 s.floor, s.unknown, k);
  }

  /** Without a brute-force candidate at the floor, the FLANN winner decides. */
  lemma DestinationFlannWinner(s: Setup, src: string, k: int)
    requires AllScored(s.catalog, s.detect(src), s.bf, s.flann)
    requires forall j :: 0 <= j < |s.catalog| ==> Score(s.catalog[j], s.bf, s.detect(src)).value < s.floor
    requires IsWinner(Scores(s.catalog, s.flann, s.detect(src)), s.floor, k)
    ensures Destination(s, src) == Ok(s.catalog[k].loc)
  {
    var des := s.detect(src);
    DecideOverIsTwoScans(s.catalog, des, s.bf, s.flann, s.floor, s.unknown);
    FlannDecidesOtherwise(Scores(s.catalog, s.bf, des), Scores(s.catalog, s.flann, des), Locs(s.catalog),
                          s.floor, s.unknown);
    ScanSelectsWinner(Scores(s.catalog, s.flann, des), Locs(s.catalog), s.floor, s.unknown, k);
  }

  /** When no candidate reaches the floor under either matcher, the image goes to the
      unknown folder. */
  lemma DestinationUnknown(s: Setup, src: string)
    requires AllScored(s.catalog, s.detect(src), s.bf, s.flann)
    requires forall j :: 0 <= j < |s.catalog| ==>
      Score(s.catalog[j], s.bf, s.detect(src)).value < s.floor &&
      Score(s.catalog[j], s.flann, s.detect(src)).value < s.floor
    ensures Destination(s, src) == Ok(s.unknown)
  {
    var des := s.detect(src);
    DecideOverIsTwoScans(s.catalog, des, s.bf, s.flann, s.floor, s.unknown);
    ScanBelowFloor(Scores(s.catalog, s.bf, des), Locs(s.catalog), s.floor, s.unknown);
    ScanBelowFloor(Scores(s.catalog, s.flann, des), Locs(s.catalog), s.floor, s.unknown);
  }

  /** A brute-force winner that is a reference named `unknown.<ext>` is indistinguishable
      from no winner: the FLANN scan decides instead. */
  lemma UnknownNamedWinnerDefers(s: Setup, src: string, k: int)
    requires AllScored(s.catalog, s.detect(src), s.bf, s.flann)
    requires IsWinner(Scores(s.catalog, s.bf, s.detect(src)), s.floor, k)
    requires s.catalog[k].loc == s.unknown
    ensures Destination(s, src) ==
      Ok(Scan(Scores(s.catalog, s.flann, s.detect(src)), Locs(s.catalog), s.floor, s.unknown).loc)
  {
    var des := s.detect(src);
    DecideOverIsTwoScans(s.catalog, des, s.bf, s.flann, s.floor, s.unknown);
    ScanSelectsWinner(Scores(s.catalog, s.bf, des), Locs(s.catalog), s.floor, s.unknown, k);
  }

  /** A `copyfile(src, dst)` call. */
  datatype Copy = Copy(src: string, dst: string)

  /** The effect of a sorting pass: the copies made in order, the error that aborted it
      if any, and the entries processed (the counter `i`). */
  datatype Run = Run(copies: seq<Copy>, failure: Option<MatchError>, processed: nat)

  /** What `sort_image` does with one more directory entry after a pass that has not
      failed: skip it, copy it, or abort. */
  function Advance(prev: Run, testFolder: string, file: string, s: Setup): Run
  {
    if !IsJpeg(file) then Run(prev.copies, None, prev.processed + 1)
    else
      match Destination(s, testFolder + file)
      case Ok(dest) => Run(prev.copies + [Copy(testFolder + file, dest + file)], None, prev.processed + 1)
      case Err(e) => Run(prev.copies, Some(e), prev.processed)
  }

  /** One entry: a skipped entry only advances the counter; a processed one appends one
      copy from the test folder under the entry's own name, or aborts without copying. */
  lemma AdvanceMeaning(prev: Run, testFolder: string, file: string, s: Setup)
    ensures Advance(prev, testFolder, file, s).processed == prev.processed + (if Advance(prev, testFolder, file, s).failure.None? then 1 else 0)
    ensures Advance(prev, testFolder, file, s).failure.Some? ==> IsJpeg(file) && Advance(prev, testFolder, file, s).copies == prev.copies
    ensures !IsJpeg(file) ==> Advance(prev, testFolder, file, s) == Run(prev.copies, None, prev.processed + 1)
    ensures IsJpeg(file) && Advance(prev, testFolder, file, s).failure.None? ==>
      |Advance(prev, testFolder, file, s).copies| == |prev.copies| + 1 && Advance(prev, testFolder, file, s).copies[..|prev.copies|] == prev.copies &&
      Advance(prev, testFolder, file, s).copies[|prev.copies|].src == testFolder + file &&
      EndsWith(Advance(prev, testFolder, file, s).copies[|prev.copies|].dst, file)
  {
  }

  /** `sort_image` over the listing `files` of `testFolder`. */
  function SortRun(testFolder: string, files: seq<string>, s: Setup): Run
  {
    if files == [] then Run([], None, 0)
    else
      var n := |files| - 1;
      var prev := SortRun(testFolder, files[..n], s);
      if prev.failure.Some? then prev else Advance(prev, testFolder, files[n], s)
  }

  /** The entries that pass the `.jpg`/`.jpeg` filter, in listing order. */
  function Jpegs(files: seq<string>): (r: seq<string>)
    ensures forall x :: x in r ==> x in files && IsJpeg(x)
    ensures forall j :: 0 <= j < |files| && IsJpeg(files[j]) ==> files[j] in r
    ensures |r| <= |files|
  {
    if files == [] then []
    else
      var n := |files| - 1;
      assert files == files[..n] + [files[n]];
      if IsJpeg(files[n]) then Jpegs(files[..n]) + [files[n]] else Jpegs(files[..n])
  }

  /** A pass without failure counts every entry, skipped ones included; a pass that
      fails stops at a `.jpg`/`.jpeg` entry whose scoring failed, with that error. */
  lemma {:induction false} SortRunEnds(testFolder: string, files: seq<string>, s: Setup)
    ensures var run := SortRun(testFolder, files, s);
      run.processed <= |files| &&
      (run.failure.None? ==> run.processed == |files|) &&
      (run.failure.Some? ==>
        run.processed < |files| && IsJpeg(files[run.processed]) &&
        Destination(s, testFolder + files[run.processed]) == Err(run.failure.value))
  {
    if files != [] {
      var n := |files| - 1;
      var p := files[..n];
      SortRunEnds(testFolder, p, s);
      var prev := SortRun(testFolder, p, s);
      if prev.failure.Some? {
        assert p[prev.processed] == files[prev.processed];
      }
    }
  }

  /** `copies` are, in order, the copies of the entries `done` from `testFolder` to their
      reconciled destinations under their own names. */
  ghost predicate CopiesOf(copies: seq<Copy>, done: seq<string>, testFolder: string, s: Setup) {
    |copies| == |done| &&
    forall k :: 0 <= k < |done| ==>
      Destination(s, testFolder + done[k]).Ok? &&
      copies[k] == Copy(testFolder + done[k], Destination(s, testFolder + done[k]).value + done[k])
  }

  lemma CopiesOfSnoc(copies: seq<Copy>, done: seq<string>, testFolder: string, s: Setup, file: string, dest: string)
    requires CopiesOf(copies, done, testFolder, s)
    requires Destination(s, testFolder + file) == Ok(dest)
    ensures CopiesOf(copies + [Copy(testFolder + file, dest + file)], done + [file], testFolder, s)
  {
  }

  /** A pass copies every processed `.jpg`/`.jpeg` entry, in order, from the test folder
      to its reconciled destination under its own file name, and nothing else. */
  lemma {:induction false} SortRunCopies(testFolder: string, files: seq<string>, s: Setup)
    ensures SortRun(testFolder, files, s).processed <= |files|
    ensures CopiesOf(SortRun(testFolder, files, s).copies,
                     Jpegs(files[..SortRun(testFolder, files, s).processed]), testFolder, s)
  {
    if files == [] {
      assert files[..0] == [];
    } else {
      var n := |files| - 1;
      var p := files[..n];
      SortRunCopies(testFolder, p, s);
      SortRunEnds(testFolder, p, s);
      var prev := SortRun(testFolder, p, s);
      if prev.failure.Some? {
        assert p[..prev.processed] == files[..prev.processed];
      } else {
        var file := files[n];
        assert prev.processed == n && p[..n] == p && files[..n + 1] == files;
        JpegsSnoc(files);
        if IsJpeg(file) {
          match Destination(s, testFolder + file)
          case Ok(dest) =>
            CopiesOfSnoc(prev.copies, Jpegs(p), testFolder, s, file, dest);
          case Err(e) =>
            assert files[..n] == p;
        }
      }
    }
  }

  lemma JpegsSnoc(files: seq<string>)
    requires files != []
    ensures Jpegs(files) == if IsJpeg(files[|files| - 1]) then Jpegs(files[..|files| - 1]) + [files[|files| - 1]] else Jpegs(files[..|files| - 1])
  {
  }

  /** The pass aborts exactly when some `.jpg`/`.jpeg` entry cannot be scored. */
  lemma {:induction false} SortRunSucceeds(testFolder: string, files: seq<string>, s: Setup)
    ensures SortRun(testFolder, files, s).failure.None? <==>
      forall j :: 0 <= j < |files| && IsJpeg(files[j]) ==> Destination(s, testFolder + files[j]).Ok?
  {
    if files != [] {
      var n := |files| - 1;
      var p := files[..n];
      SortRunSucceeds(testFolder, p, s);
      assert forall j :: 0 <= j < n ==> p[j] == files[j];
    }
  }

  /** Once an image has failed, later entries do not matter. */
  lemma {:induction false} SortRunSticky(testFolder: string, files: seq<string>, s: Setup, i: nat)
    requires i <= |files|
    requires SortRun(testFolder, files[..i], s).failure.Some?
    ensures SortRun(testFolder, files, s) == SortRun(testFolder, files[..i], s)
    decreases |files|
  {
    if i < |files| {
      var n := |files| - 1;
      assert files[..n][..i] == files[..i];
      SortRunSticky(testFolder, files[..n], s, i);
    } else {
      assert files[..i] == files;
    }
  }

  /** The sorter object: the detector standing for `self.sift`, the floor, the unknown
      folder, and the catalog list that `add_known_image` appends to. */
  class SiftSorter {
    const detect: Detector
    const unkLimit: int
    const unknownLoc: string
    var knownImages: seq<KnownImage>

    /** `__init__`: the reference files in sorted order, `.DS_Store` skipped, each added
        under its name without extension. */
    constructor (knownListing: seq<string>, detect: Detector)
      ensures this.detect == detect && unkLimit == UnkLimit && unknownLoc == UnknownLoc
      ensures knownImages == BuildCatalog(Sort(knownListing), detect)
    {
      this.detect := detect;
      unkLimit := UnkLimit;
      knownImages := [];
      unknownLoc := UnknownLoc;
      new;
      var files := Sort(knownListing);
      for i := 0 to |files|
        invariant knownImages == BuildCatalog(files[..i], detect)
      {
        assert files[..i + 1][..i] == files[..i];
        var knownName := files[i];
        if knownName != DSStore {
          var knownFullLoc := KnownLoc + knownName;
          knownName := StripExtension(knownName);
          AddKnownImage(knownFullLoc, knownName);
        }
      }
      assert files[..|files|] == files;
    }

    /** `add_known_image`: appends the entry for the image at `imageLoc`. */
    method AddKnownImage(imageLoc: string, knownName: string)
      modifies this
      ensures knownImages == old(knownImages) + [KnownImage(knownName, detect(imageLoc), Dist, FolderFor(knownName))]
    {
      var des := detect(imageLoc);
      var loc := NewFolderLoc + knownName + "/";
      var knownImage := KnownImage(knownName, des, Dist, loc);
      knownImages := knownImages + [knownImage];
    }

    /** The candidate loop of `sort_image` for one query image's descriptors. */
    method DecideDestination(des: Descriptors, bf: Matcher, flann: Matcher) returns (r: Result<Decision, MatchError>)
      ensures r == DecideOver(knownImages, des, bf, flann, unkLimit, unknownLoc)
    {
      var bfLoc, bfMaxMatches := unknownLoc, unkLimit;
      var flannLoc, flannMaxMatches := unknownLoc, unkLimit;
      for j := 0 to |knownImages|
        invariant DecideOver(knownImages[..j], des, bf, flann, unkLimit, unknownLoc) ==
                  Ok(Decision(Best(bfMaxMatches, bfLoc), Best(flannMaxMatches, flannLoc)))
      {
        DecideOverExtend(knownImages, des, bf, flann, unkLimit, unknownLoc, j);
        var candidate := knownImages[j];
        var bfMatches := candidate.RunBfMatching(bf, des);
        if bfMatches.Err? {
          DecideOverSticky(knownImages, des, bf, flann, unkLimit, unknownLoc, j + 1);
          return Err(bfMatches.error);
        }
        if bfMaxMatches <= bfMatches.value {
          bfMaxMatches := bfMatches.value;
          bfLoc := candidate.loc;
        }
        var flannMatches := candidate.RunFlannMatching(flann, des);
        if flannMatches.Err? {
          DecideOverSticky(knownImages, des, bf, flann, unkLimit, unknownLoc, j + 1);
          return Err(flannMatches.error);
        }
        if flannMaxMatches <= flannMatches.value {
          flannMaxMatches := flannMatches.value;
          flannLoc := candidate.loc;
        }
      }
      assert knownImages[..|knownImages|] == knownImages;
      r := Ok(Decision(Best(bfMaxMatches, bfLoc), Best(flannMaxMatches, flannLoc)));
    }

    /** `sort_image(test_folder)` over the directory listing `listing`. */
    method SortImage(testFolder: string, listing: seq<string>, bf: Matcher, flann: Matcher) returns (run: Run)
      ensures run == SortRun(testFolder, listing, Setup(knownImages, detect, bf, flann, unkLimit, unknownLoc))
    {
      ghost var s := Setup(knownImages, detect, bf, flann, unkLimit, unknownLoc);
      var copies: seq<Copy> := [];
      var i := 0;
      while i < |listing|
        invariant 0 <= i <= |listing|
        invariant SortRun(testFolder, listing[..i], s) == Run(copies, None, i)
      {
        assert listing[..i + 1][..i] == listing[..i];
        var imageFile := listing[i];
        if IsJpeg(imageFile) {
          var fullTestLoc := testFolder + imageFile;
          var des := detect(fullTestLoc);
          var decision := DecideDestination(des, bf, flann);
          if decision.Err? {
            SortRunSticky(testFolder, listing, s, i + 1);
            return Run(copies, Some(decision.error), i);
          }
          var d := decision.value;
          var dest := Reconcile(d.bf.loc, d.flann.loc, unknownLoc);
          copies := copies + [Copy(fullTestLoc, dest + imageFile)];
        }
        i := i + 1;
      }
      assert listing[..i] == listing;
      run := Run(copies, None, i);
    }
  }

  /** The script's entry point: build the sorter from the known directory, then sort
      `sample_to_sort/`. */
  method SortFolders(knownListing: seq<string>, toSortListing: seq<string>, detect: Detector,
                     bf: Matcher, flann: Matcher) returns (run: Run)
    ensures run == SortRun(ToSortFolder, toSortListing,
                           Setup(BuildCatalog(Sort(knownListing), detect), detect, bf, flann, UnkLimit, UnknownLoc))
  {
    var sorter := new SiftSorter(knownListing, detect);
    run := sorter.SortImage(ToSortFolder, toSortListing, bf, flann);
  }
}
