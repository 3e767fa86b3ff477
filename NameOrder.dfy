/** Python's `sorted` on a list of file names, which `SiftSorter.__init__` applies to the
    listing of the reference directory: strings compare lexicographically by code point,
    a proper prefix sorting first. */
module NameOrder {

  /** `a <= b` on Python strings. */
  predicate LessEq(a: string, b: string)
    decreases |a|
  {
    a == [] || (b != [] && (a[0] < b[0] || (a[0] == b[0] && LessEq(a[1..], b[1..]))))
  }

  lemma {:induction false} LessEqReflexive(a: string)
    ensures LessEq(a, a)
    decreases |a|
  {
    if a != [] {
      LessEqReflexive(a[1..]);
    }
  }

  lemma {:induction false} LessEqTotal(a: string, b: string)
    ensures LessEq(a, b) || LessEq(b, a)
    decreases |a|
  {
    if a != [] && b != [] && a[0] == b[0] {
      LessEqTotal(a[1..], b[1..]);
    }
  }

  lemma {:induction false} LessEqTransitive(a: string, b: string, c: string)
    requires LessEq(a, b) && LessEq(b, c)
    ensures LessEq(a, c)
    decreases |a|
  {
    if a != [] && a[0] == b[0] && b[0] == c[0] {
      LessEqTransitive(a[1..], b[1..], c[1..]);
    }
  }

  lemma {:induction false} LessEqAntisymmetric(a: string, b: string)
    requires LessEq(a, b) && LessEq(b, a)
    ensures a == b
    decreases |a|
  {
    if a != [] {
      LessEqAntisymmetric(a[1..], b[1..]);
      assert a == [a[0]] + a[1..] && b == [b[0]] + b[1..];
    }
  }

  ghost predicate Sorted(s: seq<string>) {
    forall i, j :: 0 <= i < j < |s| ==> LessEq(s[i], s[j])
  }

  /** Places `x` before the first element it does not exceed. */
  function Insert(x: string, s: seq<string>): (r: seq<string>)
    ensures multiset(r) == multiset(s) + multiset{x}
  {
    if s == [] then [x]
    else if LessEq(x, s[0]) then [x] + s
    else
      assert s == [s[0]] + s[1..];
      [s[0]] + Insert(x, s[1..])
  }

  lemma SortedTail(s: seq<string>)
    requires Sorted(s) && s != []
    ensures Sorted(s[1..])
  {
    forall i, j | 0 <= i < j < |s| - 1 ensures LessEq(s[1..][i], s[1..][j]) {
      assert s[1..][i] == s[i + 1] && s[1..][j] == s[j + 1];
    }
  }

  /** Every name in `s` is at least its first one. */
  lemma SortedHeadBelow(s: seq<string>, x: string)
    requires Sorted(s) && s != [] && x in multiset(s)
    ensures LessEq(s[0], x)
  {
    var k :| 0 <= k < |s| && s[k] == x;
    if k == 0 { LessEqReflexive(x); }
  }

  /** Prepending a name no larger than the head keeps a listing sorted. */
  lemma ConsSorted(x: string, s: seq<string>)
    requires Sorted(s)
    requires forall y :: y in multiset(s) ==> LessEq(x, y)
    ensures Sorted([x] + s)
  {
    var r := [x] + s;
    forall i, j | 0 <= i < j < |r| ensures LessEq(r[i], r[j]) {
      if i == 0 {
        assert r[j] == s[j - 1] && r[j] in multiset(s);
      } else {
        assert r[i] == s[i - 1] && r[j] == s[j - 1];
      }
    }
  }

  lemma {:induction false} InsertSorted(x: string, s: seq<string>)
    requires Sorted(s)
    ensures Sorted(Insert(x, s))
  {
    if s == [] {
    } else if LessEq(x, s[0]) {
      forall y | y in multiset(s) ensures LessEq(x, y) {
        SortedHeadBelow(s, y);
        LessEqTransitive(x, s[0], y);
      }
      ConsSorted(x, s);
    } else {
      LessEqTotal(x, s[0]);
      SortedTail(s);
      InsertSorted(x, s[1..]);
      var t := Insert(x, s[1..]);
      forall y | y in multiset(t) ensures LessEq(s[0], y) {
        assert s == [s[0]] + s[1..];
        if y != x {
          assert y in multiset(s);
          SortedHeadBelow(s, y);
        }
      }
      ConsSorted(s[0], t);
    }
  }

  /** Insertion sort; the result is the same whatever order the names came in. */
  function Sort(s: seq<string>): (r: seq<string>)
    ensures multiset(r) == multiset(s)
  {
    if s == [] then []
    else
      assert s == s[..|s| - 1] + [s[|s| - 1]];
      Insert(s[|s| - 1], Sort(s[..|s| - 1]))
  }

  lemma {:induction false} SortSorted(s: seq<string>)
    ensures Sorted(Sort(s))
  {
    if s != [] {
      SortSorted(s[..|s| - 1]);
      InsertSorted(s[|s| - 1], Sort(s[..|s| - 1]));
    }
  }

  /** A sorted permutation of `s` is `Sort(s)`: sorting is determined by the names alone. */
  lemma {:induction false} SortUnique(s: seq<string>, t: seq<string>)
    requires Sorted(t) && multiset(t) == multiset(s)
    ensures t == Sort(s)
  {
    SortSorted(s);
    SortedPermutationsEqual(t, Sort(s));
  }

  /** Two sorted permutations of each other start with the same name. */
  lemma SortedHeadsEqual(a: seq<string>, b: seq<string>)
    requires Sorted(a) && Sorted(b) && multiset(a) == multiset(b) && a != []
    ensures b != [] && a[0] == b[0]
  {
    assert a[0] in multiset(b);
    var i :| 0 <= i < |b| && b[i] == a[0];
    assert b[0] in multiset(a);
    var j :| 0 <= j < |a| && a[j] == b[0];
    assert LessEq(b[0], a[0]) by {
      if i > 0 { assert LessEq(b[0], b[i]); } else { LessEqReflexive(b[0]); }
    }
    assert LessEq(a[0], b[0]) by {
      if j > 0 { assert LessEq(a[0], a[j]); } else { LessEqReflexive(a[0]); }
    }
    LessEqAntisymmetric(a[0], b[0]);
  }

  lemma {:induction false} SortedPermutationsEqual(a: seq<string>, b: seq<string>)
    requires Sorted(a) && Sorted(b) && multiset(a) == multiset(b)
    ensures a == b
    decreases |a|
  {
    if a == [] {
      assert |multiset(b)| == 0;
    } else {
      SortedHeadsEqual(a, b);
      assert a == [a[0]] + a[1..] && b == [b[0]] + b[1..];
      assert multiset(a[1..]) == multiset(a) - multiset{a[0]};
      assert multiset(b[1..]) == multiset(b) - multiset{b[0]};
      SortedTail(a);
      SortedTail(b);
      SortedPermutationsEqual(a[1..], b[1..]);
    }
  }
}
