/** The decision layer of `SiftSorter.sort_image`: two running-maximum scans over the
    catalog, each seeded with the floor `unk_limit` and the unknown folder, and the
    reconciliation that prefers the brute-force result. */
module Selection {

  /** The running state of one scan: `*_max_matches` and `*_loc`. */
  datatype Best = Best(score: int, loc: string)

  /** One candidate's update; `<=` lets a candidate equal to the current best replace it.
      The new best is the larger of the two scores, carried by the current best or by
      the candidate, and a tie goes to the candidate. */
  function Step(b: Best, score: int, loc: string): (r: Best)
    ensures r.score >= b.score && r.score >= score
    ensures r == b || r == Best(score, loc)
    ensures score == b.score ==> r.loc == loc
  {
    if b.score <= score then Best(score, loc) else b
  }

  /** The scan over candidates with scores `scores` and folders `locs`, in catalog order. */
  function Scan(scores: seq<int>, locs: seq<string>, floor: int, unknown: string): (r: Best)
    requires |scores| == |locs|
    ensures r.score >= floor
    ensures forall j :: 0 <= j < |scores| ==> scores[j] <= r.score
    ensures r.score == floor || r.score in scores
    ensures r.loc == unknown || r.loc in locs
  {
    if scores == [] then Best(floor, unknown)
    else
      var n := |scores| - 1;
      var prev := Scan(scores[..n], locs[..n], floor, unknown);
      assert forall x :: x in locs[..n] ==> x in locs;
      assert forall x :: x in scores[..n] ==> x in scores;
      assert forall j :: 0 <= j < n ==> scores[..n][j] == scores[j];
      Step(prev, scores[n], locs[n])
  }

  /** Candidate `k` is the one the scan selects: it reaches the floor, no candidate scores
      more, and every later candidate scores strictly less. */
  ghost predicate IsWinner(scores: seq<int>, floor: int, k: int) {
    0 <= k < |scores| && scores[k] >= floor &&
    (forall j :: 0 <= j < |scores| ==> scores[j] <= scores[k]) &&
    (forall j :: k < j < |scores| ==> scores[j] < scores[k])
  }

  /** When no candidate reaches the floor the scan keeps the unknown folder. */
  lemma {:induction false} ScanBelowFloor(scores: seq<int>, locs: seq<string>, floor: int, unknown: string)
    requires |scores| == |locs|
    requires forall j :: 0 <= j < |scores| ==> scores[j] < floor
    ensures Scan(scores, locs, floor, unknown) == Best(floor, unknown)
  {
    if scores != [] {
      var n := |scores| - 1;
      assert forall j :: 0 <= j < n ==> scores[..n][j] == scores[j];
      ScanBelowFloor(scores[..n], locs[..n], floor, unknown);
    }
  }

  /** A winner exists as soon as one candidate reaches the floor. */
  lemma {:induction false} WinnerExists(scores: seq<int>, floor: int)
    requires exists j :: 0 <= j < |scores| && scores[j] >= floor
    ensures exists k :: IsWinner(scores, floor, k)
  {
    var n := |scores| - 1;
    if exists j :: 0 <= j < n && scores[j] >= floor && scores[j] > scores[n] {
      var p := scores[..n];
      assert forall j :: 0 <= j < n ==> p[j] == scores[j];
      WinnerExists(p, floor);
      var k :| IsWinner(p, floor, k);
      assert IsWinner(scores, floor, k);
    } else {
      assert IsWinner(scores, floor, n);
    }
  }

  /** The winner's score and folder are what the scan ends with. */
  lemma {:induction false} ScanSelectsWinner(scores: seq<int>, locs: seq<string>, floor: int, unknown: string, k: int)
    requires |scores| == |locs|
    requires IsWinner(scores, floor, k)
    ensures Scan(scores, locs, floor, unknown) == Best(scores[k], locs[k])
  {
    var n := |scores| - 1;
    var p, l := scores[..n], locs[..n];
    assert forall j :: 0 <= j < n ==> p[j] == scores[j];
    var prev := Scan(p, l, floor, unknown);
    if k == n {
      assert prev.score <= scores[k];
    } else {
      assert IsWinner(p, floor, k);
      ScanSelectsWinner(p, l, floor, unknown, k);
      assert l[k] == locs[k];
    }
  }

  /** The running best never decreases as the scan proceeds. */
  lemma {:induction false} ScanMonotone(scores: seq<int>, locs: seq<string>, floor: int, unknown: string, i: nat)
    requires |scores| == |locs| && i <= |scores|
    ensures Scan(scores[..i], locs[..i], floor, unknown).score <= Scan(scores, locs, floor, unknown).score
  {
    var before := Scan(scores[..i], locs[..i], floor, unknown);
    assert before.score == floor || before.score in scores[..i];
    if before.score != floor {
      var j :| 0 <= j < i && scores[..i][j] == before.score;
      assert scores[j] == before.score;
    }
  }

  /** A candidate scoring exactly the floor displaces the unknown folder. */
  lemma FloorIsEnough(loc: string, unknown: string)
    ensures Scan([2], [loc], 2, unknown) == Best(2, loc)
  {
  }

  /** Among equal maxima the last candidate wins. */
  lemma LastOfEqualWins(first: string, second: string, unknown: string)
    ensures Scan([5, 5], [first, second], 2, unknown) == Best(5, second)
  {
    ScanSelectsWinner([5, 5], [first, second], 2, unknown, 1);
  }

  /** The reconciliation: the brute-force folder unless it is the unknown folder. */
  function Reconcile(bfLoc: string, flannLoc: string, unknown: string): (r: string)
    ensures r == bfLoc || r == flannLoc
    ensures r == unknown <==> bfLoc == unknown && flannLoc == unknown
  {
    if bfLoc != unknown then bfLoc else flannLoc
  }

  /** A brute-force winner with its own folder is never overridden by FLANN. */
  lemma BfWinnerKept(bfScores: seq<int>, flannScores: seq<int>, locs: seq<string>,
                     floor: int, unknown: string, k: int)
    requires |bfScores| == |flannScores| == |locs|
    requires IsWinner(bfScores, floor, k) && locs[k] != unknown
    ensures Reconcile(Scan(bfScores, locs, floor, unknown).loc,
                      Scan(flannScores, locs, floor, unknown).loc, unknown) == locs[k]
  {
    ScanSelectsWinner(bfScores, locs, floor, unknown, k);
  }

  /** Without a brute-force candidate at the floor, the FLANN scan decides. */
  lemma FlannDecidesOtherwise(bfScores: seq<int>, flannScores: seq<int>, locs: seq<string>,
                              floor: int, unknown: string)
    requires |bfScores| == |flannScores| == |locs|
    requires forall j :: 0 <= j < |bfScores| ==> bfScores[j] < floor
    ensures Reconcile(Scan(bfScores, locs, floor, unknown).loc,
                      Scan(flannScores, locs, floor, unknown).loc, unknown) ==
            Scan(flannScores, locs, floor, unknown).loc
  {
    ScanBelowFloor(bfScores, locs, floor, unknown);
  }
}
