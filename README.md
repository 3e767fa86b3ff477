# SIFT image sorter — decision layer

A Dafny model of the decision logic of `ImageSorter.py`, a script that copies every
`.jpg`/`.jpeg` image of a folder into the folder of the reference ("known") image it
resembles most, or into `sorted/unknown/`.

The model covers:

- **Ratio-test count** (`Matching`). `KnownImage.run_bf_matching` and
  `run_flann_matching` count the nearest-neighbour pairs `(m, n)` with
  `m.distance < 0.70 * n.distance`. The count is 0 when the match list is empty or
  its first entry has fewer than two neighbours. An entry that cannot be unpacked into
  exactly two neighbours raises Python's `ValueError`. Here that is `Err(UnpackError(index, found))`.
- **Best-candidate selection** (`Selection`). Two running-maximum scans, one for
  brute-force scores and one for FLANN scores. Each starts at the floor `unk_limit = 2`
  with the unknown folder and updates on `<=`. So a candidate scoring exactly the floor
  displaces the unknown folder, and the last of equal maxima wins.
- **Reconciliation** (`Selection.Reconcile`). The brute-force folder is used unless it
  equals the unknown folder as a string. Otherwise the FLANN folder is used.
- **Catalog construction** (`Sorter`). The known listing is sorted as Python sorts
  strings. `.DS_Store` is skipped. Each remaining file becomes an entry named after the
  file without its extension, with folder `sorted/<name>/`, appended in order.
- **Sorting pass** (`Sorter.SiftSorter.SortImage`). Only entries ending in `.jpeg` or
  `.jpg` are processed, and the test is case-sensitive. The counter advances for every
  entry. Each processed image yields one `copyfile` call to its reconciled folder under
  its own name. The first failing count aborts the pass, and the copies made before it stay.

The vision library is an oracle. `Detector` stands for
`pre_process_image` followed by `detectAndCompute`; it maps an image path to
descriptors. `Matcher` stands for a matcher's `knnMatch(des, des2, k=2)`; it maps two
descriptor lists to, per descriptor, the distances of its nearest neighbours.
Directory listings are input sequences. A file copy is a `Copy(src, dst)` value in the
result instead of an action.

Two behaviours of the code are easy to misread, and the model follows the code in both.
A candidate scoring exactly the floor 2 replaces the unknown folder, because lines 105
and 110 compare with `<=`; the floor does not win that tie. Among candidates with equal
maximum scores the last one in catalog order wins, not the first.

## Model

| member | source | states |
|---|---|---|
| `Matching.Accepted` | ImageSorter.py:49-59 | a neighbour pair `(m, n)` passes the ratio test `m < dist * n`; with a non-negative second distance and a ratio at most 1, a passing pair has its first distance strictly below its second |
| `Matching.CountAccepted` | ImageSorter.py:48-50 | the loop's count never exceeds the number of entries; an error names an entry that is not a pair |
| `Matching.GoodMatches` | ImageSorter.py:44-51 | 0 when the list is empty or its first entry has fewer than two neighbours; otherwise a count between 0 and the number of entries |
| `Matching.CountAcceptedMeaning` | ImageSorter.py:47-50 | with only pairs, the count equals the number of positions whose pair passes `m < dist * n`; the loop fails exactly when some entry is not a pair, and then at the first such entry with its length |
| `Matching.CountAcceptedStops` | ImageSorter.py:48 | the loop stops with `UnpackError` at the first entry that is not a pair, whatever follows |
| `Matching.GoodMatchesMeaning` | ImageSorter.py:44-51 | when the guard passes and every entry is a pair, the result is the number of accepted pairs; the call fails exactly when the guard passes and some entry is not a pair |
| `Matching.CountGoodMatches` | ImageSorter.py:46-51 | the imperative counting loop returns exactly `GoodMatches` |
| `Matching.KnownImage.RunBfMatching` | ImageSorter.py:44-51 | the brute-force count is the ratio-test count of the matcher's output against the entry's own descriptors and `dist` |
| `Matching.KnownImage.RunFlannMatching` | ImageSorter.py:54-61 | the FLANN count applies the identical rule to the FLANN matcher's output |
| `Selection.Step` | ImageSorter.py:105-112 | one `<=` update: the new best is either the old best or the candidate, its score is at least both, and on a tie the candidate's folder wins |
| `Selection.Scan` | ImageSorter.py:99-112 | the running best is at least the floor, at least every candidate's score, equal to the floor or some score; its folder is the unknown folder or some candidate's folder |
| `Selection.ScanBelowFloor` | ImageSorter.py:99-107 | if every score is below the floor, the scan ends with the floor and the unknown folder |
| `Selection.WinnerExists` | ImageSorter.py:103-107 | once some candidate reaches the floor, a last candidate at the maximum score exists |
| `Selection.ScanSelectsWinner` | ImageSorter.py:103-107 | the scan ends with the score and folder of the last candidate at the maximum, when that maximum reaches the floor |
| `Selection.ScanMonotone` | ImageSorter.py:103-107 | the running best after any prefix of the catalog never exceeds the final best: it never decreases |
| `Selection.FloorIsEnough` | ImageSorter.py:100-107 | a single candidate scoring exactly the floor 2 displaces the unknown folder |
| `Selection.LastOfEqualWins` | ImageSorter.py:105-107 | of two candidates with equal maximum scores, the second one's folder is chosen |
| `Selection.Reconcile` | ImageSorter.py:114-119 | the destination is one of the two folders, and it is the unknown folder exactly when both are |
| `Selection.BfWinnerKept` | ImageSorter.py:114-116 | a brute-force winner whose folder is not the unknown folder is the destination whatever FLANN chose |
| `Selection.FlannDecidesOtherwise` | ImageSorter.py:117-119 | when no brute-force score reaches the floor, the destination is the FLANN scan's folder |
| `FileNames.IsJpegIff` | ImageSorter.py:94 | a name passes the filter exactly when it is some stem followed by `.jpeg` or `.jpg` |
| `FileNames.JpegFinalExtension` | ImageSorter.py:94 | an entry passing the `endswith` filter (`IsJpeg`) has a last dot, and what follows it from there is exactly `.jpeg` or `.jpg` |
| `FileNames.SuffixIsFinalExtension` | ImageSorter.py:94 | a name ending in an extension with a single leading dot has its last dot where that extension starts |
| `FileNames.UpperCaseSkipped` | ImageSorter.py:94 | the filter is case-sensitive: `.JPG`, `.JPEG` and `.png` are skipped, `.jpg` and `.jpeg` pass |
| `FileNames.StripExtension` | ImageSorter.py:75 | the name is a prefix of the file name, either all of it or cut at its last `.`, which is not preceded only by dots |
| `FileNames.StripNoDot` | ImageSorter.py:75 | a file name without a dot is its own name |
| `FileNames.StripOrdinary` | ImageSorter.py:75 | `stem.ext` with a dot-free extension has name `stem` |
| `NameOrder.Sort` | ImageSorter.py:72 | sorting permutes the listing |
| `NameOrder.SortSorted` | ImageSorter.py:72 | the sorted listing is in Python string order |
| `NameOrder.SortUnique` | ImageSorter.py:72 | any ordered permutation of the listing is the sorted listing, so the catalog order depends on the names only |
| `Sorter.Kept` | ImageSorter.py:72-73 | a name is kept exactly when it is in the listing and is not `.DS_Store` |
| `Sorter.KeptSorted` | ImageSorter.py:72-73 | skipping `.DS_Store` keeps a sorted listing sorted |
| `Sorter.KeptMultiset` | ImageSorter.py:72-73 | skipping removes every `.DS_Store` and nothing else |
| `Sorter.FolderFor` | ImageSorter.py:81 | the folder is `sorted/` followed by the name and a `/`, and it is the unknown folder `sorted/unknown/` exactly when the name is `unknown` |
| `Sorter.Entry` | ImageSorter.py:74-83 | an entry is named after its file without the extension (a prefix of the file name), carries the descriptors of `sample_known/<file>` and ratio 0.70, and owns the unknown folder exactly when its name is `unknown` |
| `Sorter.BuildCatalog` | ImageSorter.py:72-84 | the catalog has one entry per kept file, in order, each the entry `add_known_image` builds for it |
| `Sorter.CatalogOfListing` | ImageSorter.py:72-84 | the catalog's files are the listing minus `.DS_Store`, in sorted order; each entry's name is its file name without extension and its folder is `sorted/<name>/` |
| `Sorter.UnknownReferenceSharesFolder` | ImageSorter.py:70-84 | a reference named `unknown.<ext>` owns the unknown folder `sorted/unknown/` |
| `Sorter.Score` | ImageSorter.py:104-109 | one candidate's count is at most the number of entries the matcher returned, and 0 when it returned none |
| `Sorter.Consider` | ImageSorter.py:103-112 | one candidate step succeeds exactly when both of its counts succeed; then neither running maximum decreases and each is kept or takes the candidate's folder |
| `Sorter.DecideOverBounds` | ImageSorter.py:99-112 | after the candidate loop `DecideOver`, both maxima are at least the floor and each folder is the unknown folder or some candidate's folder |
| `Sorter.DestinationInCatalog` | ImageSorter.py:99-119 | a decided destination (`Destination`) is the unknown folder or the folder of some catalog entry |
| `Sorter.UnknownNamedWinnerDefers` | ImageSorter.py:114-119 | a brute-force winner owning the unknown folder does not decide the destination: the FLANN scan does |
| `Sorter.DecideOverFails` | ImageSorter.py:103-112 | the candidate loop fails exactly when some brute-force or FLANN count fails |
| `Sorter.DecideOverIsTwoScans` | ImageSorter.py:99-112 | when every count succeeds, the candidate loop yields the two independent scans over the catalog's scores and folders |
| `Sorter.DecideOverSticky` | ImageSorter.py:103-112 | once a count fails, the later candidates do not change the outcome |
| `Sorter.DestinationBfWinner` | ImageSorter.py:99-116 | the image goes to the brute-force winner's folder when it is not the unknown folder |
| `Sorter.DestinationFlannWinner` | ImageSorter.py:99-119 | with no brute-force score at the floor, the image goes to the FLANN winner's folder |
| `Sorter.DestinationUnknown` | ImageSorter.py:99-119 | with no score at the floor under either matcher, the image goes to the unknown folder |
| `Sorter.Jpegs` | ImageSorter.py:94 | the processed entries are exactly the entries of the listing that pass the filter: every kept one passes it, every passing one is kept, and none is added |
| `Sorter.JpegsSnoc` | ImageSorter.py:93-94 | one more listing entry adds itself to the processed entries exactly when it passes the filter |
| `Sorter.AdvanceMeaning` | ImageSorter.py:93-120 | one loop iteration `Advance`: a skipped entry only advances the counter; a processed one either appends exactly one copy from the test folder whose target ends in the entry's name and advances the counter, or fails without copying or advancing |
| `Sorter.SortRunEnds` | ImageSorter.py:92-120 | without failure the counter has advanced once per entry, skipped ones included; a failure stops at a `.jpg`/`.jpeg` entry whose scoring failed, with that error |
| `Sorter.SortRunCopies` | ImageSorter.py:92-120 | for the pass `SortRun`, every processed `.jpg`/`.jpeg` entry, in order, is copied from the test folder to its reconciled folder under its own name, and nothing else is copied |
| `Sorter.SortRunSucceeds` | ImageSorter.py:92-120 | the pass completes exactly when every `.jpg`/`.jpeg` entry can be scored |
| `Sorter.SortRunSticky` | ImageSorter.py:92-120 | after an image fails, the later entries change nothing |
| `Sorter.SiftSorter.constructor` | ImageSorter.py:65-76 | the floor is 2, the unknown folder is `sorted/unknown/`, and the catalog is that of the sorted listing |
| `Sorter.SiftSorter.AddKnownImage` | ImageSorter.py:78-84 | appends exactly one entry with the image's descriptors, ratio 0.70 and folder `sorted/<name>/` |
| `Sorter.SiftSorter.DecideDestination` | ImageSorter.py:99-112 | the imperative candidate loop computes exactly the two running maxima of `DecideOver`, or its first failure |
| `Sorter.SiftSorter.SortImage` | ImageSorter.py:86-121 | the imperative pass makes exactly the copies, failure and count of `SortRun` |
| `Sorter.SortFolders` | ImageSorter.py:124-127 | the script sorts `sample_to_sort/` against the catalog of the sorted known listing, with floor 2 |

## Left out

- Image decoding, the crop, grayscale conversion and SIFT extraction (lines 16-21, 67, 80, 97). They are the `Detector` oracle, which is total. An undecodable image therefore does not abort here, although it aborts the script.
- The keypoints `kp` kept by `KnownImage`. Nothing in the decision layer reads them.
- `BFMatcher`, `FlannBasedMatcher` and their parameters (lines 31-38). They are the `Matcher` oracle. Errors raised inside `knnMatch` are not modelled.
- Floating-point arithmetic. Distances are exact reals and `0.70` is the exact real 7/10, so a product that rounds differently in IEEE doubles is not captured.
- `make_folder`, `os.makedirs` and `copyfile` (lines 11-13, 71, 82, 116, 119). These are filesystem actions. Folder creation is not recorded; a copy is a `Copy` value.
- `os.listdir`. Listings are given sequences, in the order the operating system returns them.
- The progress bar, `num_files` and the `print` calls (lines 66, 87-90, 93, 121, 126). These are display only.
- `os.path.splitext` on names containing a path separator. Directory entries never contain one.
- One fixed matcher behaviour. Each `Matcher` is one function of the two descriptor lists, shared by every catalog entry and every call. OpenCV's FLANN matcher builds a randomised KD-tree index for each `KnownImage`, so equal inputs can give different neighbours there.
- Sorter.DecideOverFails: on failure it says only that some count failed, not which. `DecideOver` itself fixes which error is reported.
