/** The ratio test of `KnownImage.run_bf_matching` and `run_flann_matching`.
    The vision library is an oracle: a descriptor signature is an opaque list of
    descriptor vectors, and a matcher maps two signatures to the `knnMatch(k=2)` output,
    one entry per descriptor listing the distances of its nearest neighbours, closest
    first. */
module Matching {
  import opened Results

  /** The descriptor vectors `detectAndCompute` extracts from an image. */
  type Descriptors = seq<seq<real>>

  /** `knnMatch(des, des2, k=2)`: per descriptor of `des`, its neighbours' distances. */
  type KnnMatches = seq<seq<real>>

  /** A brute-force or FLANN matcher, seen only through its `knnMatch` output. */
  type Matcher = (Descriptors, Descriptors) -> KnnMatches

  /** Python's `for m, n in matches` raises `ValueError` on an entry that does not hold
      exactly two neighbours; `index` is that entry's position, `found` its length. */
  datatype MatchError = UnpackError(index: nat, found: nat)

  /** `KnownImage.dist`, the ratio of the distance-ratio test. */
  const Dist: real := 0.70

  /** A neighbour pair passes when the closest is nearer than `dist` times the second;
      with a ratio of at most 1, a passing pair's closest neighbour is strictly nearer. */
  predicate Accepted(pair: seq<real>, dist: real)
    requires |pair| == 2
    ensures Accepted(pair, dist) && 0.0 <= pair[1] && dist <= 1.0 ==> pair[0] < pair[1]
  {
    assert 0.0 <= pair[1] && dist <= 1.0 ==> dist * pair[1] <= pair[1] by {
      if 0.0 <= pair[1] && dist <= 1.0 {
        assert (1.0 - dist) * pair[1] >= 0.0;
      }
    }

    pair[0] < dist * pair[1]
  }

  /** The counting loop over every entry, stopping at the first entry that cannot be
      unpacked into two neighbours. */
  function CountAccepted(knn: KnnMatches, dist: real): (r: Result<nat, MatchError>)
    ensures r.Ok? ==> r.value <= |knn|
    ensures r.Err? ==> r.error.index < |knn| && |knn[r.error.index]| != 2
  {
    if knn == [] then Ok(0)
    else
      var count :- CountAccepted(knn[..|knn| - 1], dist);
      var last := knn[|knn| - 1];
      if |last| != 2 then Err(UnpackError(|knn| - 1, |last|))
      else Ok(count + if Accepted(last, dist) then 1 else 0)
  }

  /** The value `run_bf_matching` and `run_flann_matching` return: 0 unless the list is
      non-empty and its first entry has at least two neighbours, else the count. */
  function GoodMatches(knn: KnnMatches, dist: real): (r: Result<nat, MatchError>)
    ensures !(|knn| > 0 && |knn[0]| > 1) ==> r == Ok(0)
    ensures r.Ok? ==> r.value <= |knn|
  {
    if |knn| > 0 && |knn[0]| > 1 then CountAccepted(knn, dist) else Ok(0)
  }

  /** Every entry holds exactly two neighbours. */
  ghost predicate AllPairs(knn: KnnMatches) {
    forall j :: 0 <= j < |knn| ==> |knn[j]| == 2
  }

  /** Position `j` is the first entry that does not hold two neighbours. */
  ghost predicate IsFirstNonPair(knn: KnnMatches, j: nat) {
    j < |knn| && |knn[j]| != 2 && forall i :: 0 <= i < j ==> |knn[i]| == 2
  }

  /** The positions of the pairs that pass the ratio test. */
  ghost function AcceptedIndices(knn: KnnMatches, dist: real): set<nat> {
    set j: nat | j < |knn| && |knn[j]| == 2 && Accepted(knn[j], dist)
  }

  lemma {:induction false} AcceptedIndicesSnoc(knn: KnnMatches, dist: real)
    requires knn != [] && |knn[|knn| - 1]| == 2
    ensures AcceptedIndices(knn, dist) ==
      AcceptedIndices(knn[..|knn| - 1], dist) +
      (if Accepted(knn[|knn| - 1], dist) then {|knn| - 1} else {})
  {
    var n := |knn| - 1;
    var a, b := AcceptedIndices(knn, dist), AcceptedIndices(knn[..n], dist);
    forall j: nat ensures j in a <==> j in b || (j == n && Accepted(knn[n], dist)) {
      if j < n {
        assert knn[..n][j] == knn[j];
      }
    }
  }

  /** With only pairs, the count is the number of accepted pairs; otherwise the loop
      fails at the first malformed entry. */
  lemma {:induction false} CountAcceptedMeaning(knn: KnnMatches, dist: real)
    ensures AllPairs(knn) ==> CountAccepted(knn, dist) == Ok(|AcceptedIndices(knn, dist)|)
    ensures !AllPairs(knn) <==> CountAccepted(knn, dist).Err?
    ensures CountAccepted(knn, dist).Err? ==>
      IsFirstNonPair(knn, CountAccepted(knn, dist).error.index) &&
      CountAccepted(knn, dist).error.found == |knn[CountAccepted(knn, dist).error.index]|
  {
    if knn != [] {
      var n := |knn| - 1;
      var prefix := knn[..n];
      CountAcceptedMeaning(prefix, dist);
      var r := CountAccepted(knn, dist);
      if AllPairs(knn) {
        assert AllPairs(prefix) by {
          forall j | 0 <= j < |prefix| ensures |prefix[j]| == 2 {
            assert prefix[j] == knn[j];
          }
        }
        AcceptedIndicesSnoc(knn, dist);
      } else if CountAccepted(prefix, dist).Err? {
        var e := CountAccepted(prefix, dist).error;
        assert prefix[e.index] == knn[e.index];
        assert IsFirstNonPair(knn, e.index) by {
          forall i | 0 <= i < e.index ensures |knn[i]| == 2 {
            assert prefix[i] == knn[i];
          }
        }
      } else {
        assert AllPairs(prefix);
        assert forall i :: 0 <= i < n ==> |knn[i]| == 2 by {
          forall i | 0 <= i < n ensures |knn[i]| == 2 {
            assert prefix[i] == knn[i];
          }
        }
        assert |knn[n]| != 2;
      }
    }
  }

  /** The loop stops at the first entry that is not a pair, whatever follows it. */
  lemma CountAcceptedStops(knn: KnnMatches, dist: real, j: nat)
    requires j < |knn| && |knn[j]| != 2 && CountAccepted(knn[..j], dist).Ok?
    ensures CountAccepted(knn, dist) == Err(UnpackError(j, |knn[j]|))
  {
    CountAcceptedMeaning(knn[..j], dist);
    CountAcceptedMeaning(knn, dist);
    assert forall i :: 0 <= i < j ==> knn[..j][i] == knn[i];
    assert IsFirstNonPair(knn, j);
  }

  /** The guard lets the count through exactly when the first entry has two or more
      neighbours; the count is then that of the accepted pairs. */
  lemma GoodMatchesMeaning(knn: KnnMatches, dist: real)
    ensures |knn| > 0 && |knn[0]| > 1 && AllPairs(knn) ==>
      GoodMatches(knn, dist) == Ok(|AcceptedIndices(knn, dist)|)
    ensures GoodMatches(knn, dist).Err? <==> |knn| > 0 && |knn[0]| > 1 && !AllPairs(knn)
  {
    CountAcceptedMeaning(knn, dist);
  }

  /** The loop shared by `run_bf_matching` and `run_flann_matching`. */
  method CountGoodMatches(knn: KnnMatches, dist: real) returns (r: Result<nat, MatchError>)
    ensures r == GoodMatches(knn, dist)
  {
    var matches := 0;
    if |knn| > 0 && |knn[0]| > 1 {
      var j := 0;
      while j < |knn|
        invariant 0 <= j <= |knn|
        invariant CountAccepted(knn[..j], dist) == Ok(matches)
      {
        assert knn[..j + 1][..j] == knn[..j];
        if |knn[j]| != 2 {
          CountAcceptedStops(knn, dist, j);
          return Err(UnpackError(j, |knn[j]|));
        }
        var m, n := knn[j][0], knn[j][1];
        if m < dist * n {
          matches := matches + 1;
        }
        j := j + 1;
      }
      assert knn[..j] == knn;
    }
    r := Ok(matches);
  }

  /** A reference image of the catalog: `KnownImage` keeps its name, its descriptors,
      the ratio `dist` and the folder its matches go to. */
  datatype KnownImage = KnownImage(name: string, des: Descriptors, dist: real, loc: string) {

    /** `run_bf_matching`: the ratio-test count over the brute-force matcher's output. */
    method RunBfMatching(bf: Matcher, des2: Descriptors) returns (r: Result<nat, MatchError>)
      ensures r == GoodMatches(bf(des, des2), dist)
    {
      r := CountGoodMatches(bf(des, des2), dist);
    }

    /** `run_flann_matching`: the same count over the FLANN matcher's output. */
    method RunFlannMatching(flann: Matcher, des2: Descriptors) returns (r: Result<nat, MatchError>)
      ensures r == GoodMatches(flann(des, des2), dist)
    {
      r := CountGoodMatches(flann(des, des2), dist);
    }
  }
}
