/** The path identity of `get_path_id` (simple_fuzzer/schedule/PathPowerSchedule.py):
    the digest of the coverage set once it has been sorted.

    Python sorts the (function name, line) pairs lexicographically, comparing
    names by code point.  The MD5 digest of the pickled list is modelled as
    the sorted list itself: an injective digest, so the model has no
    collisions. */
module PathIds {
  import opened Seeds

  /** Python's `<` on two strings. */
  predicate StrLess(a: string, b: string)
    decreases |a|
  {
    |b| > 0 && (|a| == 0 || a[0] < b[0] || (a[0] == b[0] && StrLess(a[1..], b[1..])))
  }

  lemma {:induction false} StrLessIrreflexive(a: string)
    ensures !StrLess(a, a)
    decreases |a|
  {
    if |a| > 0 {
      StrLessIrreflexive(a[1..]);
    }
  }

  lemma {:induction false} StrLessTransitive(a: string, b: string, c: string)
    requires StrLess(a, b) && StrLess(b, c)
    ensures StrLess(a, c)
    decreases |a|
  {
    if |a| > 0 && a[0] == b[0] && b[0] == c[0] {
      StrLessTransitive(a[1..], b[1..], c[1..]);
    }
  }

  lemma {:induction false} StrLessTotal(a: string, b: string)
    ensures a == b || StrLess(a, b) || StrLess(b, a)
    decreases |a|
  {
    if |a| > 0 && |b| > 0 && a[0] == b[0] {
      StrLessTotal(a[1..], b[1..]);
      if a[1..] == b[1..] {
        assert a == [a[0]] + a[1..] && b == [b[0]] + b[1..];
      }
    }
  }

  /** Python's `<` on two locations: by name, then by line. */
  predicate LocLess(x: Location, y: Location) {
    StrLess(x.0, y.0) || (x.0 == y.0 && x.1 < y.1)
  }

  /** `LocLess` is a strict total order. */
  lemma LocLessIsStrictTotalOrder()
    ensures forall x :: !LocLess(x, x)
    ensures forall x, y :: LocLess(x, y) ==> !LocLess(y, x)
    ensures forall x, y, z :: LocLess(x, y) && LocLess(y, z) ==> LocLess(x, z)
    ensures forall x, y :: x == y || LocLess(x, y) || LocLess(y, x)
  {
    forall x: Location ensures !LocLess(x, x) {
      StrLessIrreflexive(x.0);
    }
    forall x: Location, y: Location | LocLess(x, y) ensures !LocLess(y, x) {
      if StrLess(x.0, y.0) && StrLess(y.0, x.0) {
        StrLessTransitive(x.0, y.0, x.0);
        StrLessIrreflexive(x.0);
      }
      if x.0 == y.0 {
        StrLessIrreflexive(x.0);
      }
    }
    forall x: Location, y: Location, z: Location | LocLess(x, y) && LocLess(y, z) ensures LocLess(x, z) {
      if StrLess(x.0, y.0) && StrLess(y.0, z.0) {
        StrLessTransitive(x.0, y.0, z.0);
      }
    }
    forall x: Location, y: Location ensures x == y || LocLess(x, y) || LocLess(y, x) {
      StrLessTotal(x.0, y.0);
    }
  }

  /** True iff `m` is the least location of `c`. */
  predicate IsLeast(m: Location, c: set<Location>) {
    m in c && forall y :: y in c && y != m ==> LocLess(m, y)
  }

  lemma {:induction false} LeastExists(c: set<Location>)
    requires c != {}
    ensures exists m :: IsLeast(m, c)
    decreases |c|
  {
    LocLessIsStrictTotalOrder();
    var x :| x in c;
    var rest := c - {x};
    if rest == {} {
      assert c == {x};
      assert IsLeast(x, c);
    } else {
      LeastExists(rest);
      var m :| IsLeast(m, rest);
      if LocLess(m, x) {
        assert IsLeast(m, c);
      } else {
        assert IsLeast(x, c);
      }
    }
  }

  /** True iff `xs` lists its elements in strictly increasing order (so
      without repetition), as `sorted` lists a set. */
  predicate IsSortedListing(xs: seq<Location>) {
    forall i, j :: 0 <= i < j < |xs| ==> LocLess(xs[i], xs[j])
  }

  /** The least location of a non-empty set. */
  function Least(c: set<Location>): (m: Location)
    requires c != {}
    ensures IsLeast(m, c)
  {
    LeastExists(c);
    LocLessIsStrictTotalOrder();
    var m :| IsLeast(m, c);
    m
  }

  /** `sorted(coverage)`: the least location first, then the rest sorted. */
  function SortedCoverage(c: set<Location>): seq<Location>
    decreases |c|
  {
    if c == {} then [] else [Least(c)] + SortedCoverage(c - {Least(c)})
  }

  /** `SortedCoverage(c)` lists the elements of `c` in increasing order. */
  lemma {:induction false} SortedCoverageIsSortedListing(c: set<Location>)
    ensures IsSortedListing(SortedCoverage(c))
    ensures forall x :: x in SortedCoverage(c) <==> x in c
    ensures |SortedCoverage(c)| == |c|
    decreases |c|
  {
    if c != {} {
      var m := Least(c);
      SortedCoverageIsSortedListing(c - {m});
      var rest := SortedCoverage(c - {m});
      var xs := [m] + rest;
      assert SortedCoverage(c) == xs;
      forall i | 0 <= i < |rest| ensures LocLess(m, rest[i]) {
        assert rest[i] in c - {m};
      }
      forall i, j | 0 <= i < j < |xs| ensures LocLess(xs[i], xs[j]) {
        assert xs[j] == rest[j - 1];
        if i > 0 {
          assert xs[i] == rest[i - 1];
        }
      }
      forall x ensures x in xs <==> x in c {
        assert x in xs <==> x == m || x in rest;
      }
    }
  }

  /** The key `get_path_id` computes for a coverage set. */
  type PathKey = seq<Location>

  function PathId(coverage: set<Location>): PathKey {
    SortedCoverage(coverage)
  }

  /** Two increasing listings of the same elements are equal. */
  lemma {:induction false} SortedListingUnique(xs: seq<Location>, ys: seq<Location>)
    requires IsSortedListing(xs) && IsSortedListing(ys)
    requires forall x :: x in xs <==> x in ys
    ensures xs == ys
    decreases |xs|
  {
    LocLessIsStrictTotalOrder();
    assert xs != [] ==> xs[0] in ys;
    assert ys != [] ==> ys[0] in xs;
    if xs != [] && ys != [] {
      assert xs[0] == ys[0];
      forall x ensures x in xs[1..] <==> x in ys[1..] {
        if x in xs[1..] {
          var i :| 1 <= i < |xs| && xs[i] == x;
          assert LocLess(xs[0], x);
        }
        if x in ys[1..] {
          var j :| 1 <= j < |ys| && ys[j] == x;
          assert LocLess(ys[0], x);
        }
        assert x in xs <==> x == xs[0] || x in xs[1..];
        assert x in ys <==> x == ys[0] || x in ys[1..];
      }
      SortedListingUnique(xs[1..], ys[1..]);
      assert xs == [xs[0]] + xs[1..] && ys == [ys[0]] + ys[1..];
    }
  }

  /** The path identity depends on the coverage set alone: it is the one
      increasing listing of the set, whatever order the set's elements are
      produced in, and different sets have different identities. */
  lemma PathIdIsCanonical(coverage: set<Location>, xs: seq<Location>)
    requires IsSortedListing(xs)
    requires forall x :: x in xs <==> x in coverage
    ensures PathId(coverage) == xs
  {
    SortedCoverageIsSortedListing(coverage);
    SortedListingUnique(PathId(coverage), xs);
  }

  lemma PathIdInjective(a: set<Location>, b: set<Location>)
    ensures PathId(a) == PathId(b) <==> a == b
  {
    SortedCoverageIsSortedListing(a);
    SortedCoverageIsSortedListing(b);
    if PathId(a) == PathId(b) {
      assert forall x :: x in a <==> x in PathId(a);
    }
  }
}
