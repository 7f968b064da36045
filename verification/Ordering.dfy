/** The order of Go strings and what sort.Strings promises about it. */
module Ordering {
  /** Lexicographic order. */
  predicate Less(a: string, b: string) {
    b != [] && (a == [] || a[0] < b[0] || (a[0] == b[0] && Less(a[1..], b[1..])))
  }

  predicate AtMost(a: string, b: string) {
    a == b || Less(a, b)
  }

  lemma {:induction false} LessIrreflexive(a: string)
    ensures !Less(a, a)
  {
    if a != [] {
      LessIrreflexive(a[1..]);
    }
  }

  lemma {:induction false} LessTransitive(a: string, b: string, c: string)
    requires Less(a, b) && Less(b, c)
    ensures Less(a, c)
  {
    if a != [] && a[0] == b[0] && b[0] == c[0] {
      LessTransitive(a[1..], b[1..], c[1..]);
    }
  }

  lemma {:induction false} LessTotal(a: string, b: string)
    ensures Less(a, b) || a == b || Less(b, a)
  {
    if a != [] && b != [] && a[0] == b[0] {
      LessTotal(a[1..], b[1..]);
      assert a == [a[0]] + a[1..] && b == [b[0]] + b[1..];
    }
  }

  lemma {:induction false} PrefixLess(a: string, b: string)
    requires a < b
    ensures Less(a, b)
  {
    if a != [] {
      assert b[0] == a[0] && a[1..] < b[1..];
      PrefixLess(a[1..], b[1..]);
    }
  }

  lemma AtMostTransitive(a: string, b: string, c: string)
    requires AtMost(a, b) && AtMost(b, c)
    ensures AtMost(a, c)
  {
    if Less(a, b) && Less(b, c) {
      LessTransitive(a, b, c);
    }
  }

  lemma AtMostAntisymmetric(a: string, b: string)
    requires AtMost(a, b) && AtMost(b, a)
    ensures a == b
  {
    if a != b {
      LessTransitive(a, b, a);
      LessIrreflexive(a);
    }
  }

  predicate Sorted(s: seq<string>) {
    forall i: nat, j: nat | i < j < |s| :: AtMost(s[i], s[j])
  }

  predicate StrictlySorted(s: seq<string>) {
    forall i: nat, j: nat | i < j < |s| :: Less(s[i], s[j])
  }

  function SetOf(s: seq<string>): set<string> {
    set x | x in s
  }

  function Insert(s: seq<string>, x: string): (r: seq<string>)
    ensures multiset(r) == multiset(s) + multiset{x}
  {
    if s == [] then [x]
    else if AtMost(x, s[0]) then [x] + s
    else
      assert s == [s[0]] + s[1..];
      [s[0]] + Insert(s[1..], x)
  }

  /** A list as sort.Strings leaves it: `SortedOfSorted` and its contract say all that is used. */
  function SortedOf(s: seq<string>): (r: seq<string>)
    ensures multiset(r) == multiset(s)
  {
    if s == [] then []
    else
      assert s == s[..|s| - 1] + [s[|s| - 1]];
      Insert(SortedOf(s[..|s| - 1]), s[|s| - 1])
  }

  lemma {:induction false} InsertSorted(s: seq<string>, x: string)
    requires Sorted(s)
    ensures Sorted(Insert(s, x))
  {
    if s != [] {
      LessTotal(x, s[0]);
      if AtMost(x, s[0]) {
        forall j: nat | j < |s| ensures AtMost(x, s[j]) {
          AtMostTransitive(x, s[0], s[j]);
        }
      } else {
        InsertSorted(s[1..], x);
        var r := Insert(s[1..], x);
        forall j: nat | j < |r| ensures AtMost(s[0], r[j]) {
          assert r[j] in multiset(r);
          assert r[j] in s[1..] || r[j] == x;
        }
      }
    }
  }

  lemma {:induction false} SortedOfSorted(s: seq<string>)
    ensures Sorted(SortedOf(s))
  {
    if s != [] {
      SortedOfSorted(s[..|s| - 1]);
      InsertSorted(SortedOf(s[..|s| - 1]), s[|s| - 1]);
    }
  }

  lemma RepeatCount(s: seq<string>, i: nat, j: nat)
    requires i < j < |s| && s[i] == s[j]
    ensures multiset(s)[s[i]] >= 2
  {
    assert s == s[..j] + [s[j]] + s[j + 1..];
    assert s[i] in s[..j];
  }

  /** Sorting a list without repetitions makes it strictly sorted. */
  lemma SortedDistinctIsStrict(s: seq<string>)
    requires Sorted(s) && forall x | x in s :: multiset(s)[x] == 1
    ensures StrictlySorted(s)
  {
    forall i: nat, j: nat | i < j < |s| ensures Less(s[i], s[j]) {
      if s[i] == s[j] {
        RepeatCount(s, i, j);
      }
    }
  }

  lemma StrictIsDistinct(s: seq<string>, i: nat, j: nat)
    requires StrictlySorted(s) && i < |s| && j < |s| && s[i] == s[j]
    ensures i == j
  {
    LessIrreflexive(s[i]);
  }

  /** A set of names has one strictly sorted listing. */
  lemma {:induction false} StrictListingUnique(a: seq<string>, b: seq<string>)
    requires StrictlySorted(a) && StrictlySorted(b) && SetOf(a) == SetOf(b)
    ensures a == b
  {
    assert a != [] ==> a[0] in SetOf(a);
    assert b != [] ==> b[0] in SetOf(b);
    if a != [] {
      FirstIsLeast(a, b);
      FirstIsLeast(b, a);
      AtMostAntisymmetric(a[0], b[0]);
      TailSet(a);
      TailSet(b);
      StrictListingUnique(a[1..], b[1..]);
      assert a == [a[0]] + a[1..] && b == [b[0]] + b[1..];
    }
  }

  lemma FirstIsLeast(a: seq<string>, b: seq<string>)
    requires StrictlySorted(a) && a != [] && b != [] && SetOf(a) == SetOf(b)
    ensures AtMost(a[0], b[0])
  {
    assert b[0] in SetOf(a);
  }

  lemma TailSet(a: seq<string>)
    requires StrictlySorted(a) && a != []
    ensures SetOf(a[1..]) == SetOf(a) - {a[0]}
  {
    forall x ensures x in SetOf(a[1..]) <==> x in SetOf(a) - {a[0]} {
      LessIrreflexive(a[0]);
      if x in SetOf(a) && x != a[0] {
        var i :| 0 <= i < |a| && a[i] == x;
        assert a[1..][i - 1] == x;
      }
    }
  }

  lemma {:induction false} ListingExists(keys: set<string>) returns (l: seq<string>)
    ensures StrictlySorted(l) && SetOf(l) == keys
  {
    if keys == {} {
      l := [];
    } else {
      var x :| x in keys;
      var rest := ListingExists(keys - {x});
      l := SortedOf(rest + [x]);
      AddedName(rest, x);
    }
  }

  /** Appending an absent name to a strictly sorted list and sorting. */
  lemma AddedName(rest: seq<string>, x: string)
    requires StrictlySorted(rest) && x !in rest
    ensures StrictlySorted(SortedOf(rest + [x]))
    ensures SetOf(SortedOf(rest + [x])) == SetOf(rest) + {x}
  {
    var l := SortedOf(rest + [x]);
    SortedOfSorted(rest + [x]);
    forall y ensures y in l <==> y in rest || y == x {
      assert y in l <==> y in multiset(l);
      assert y in rest + [x] <==> y in multiset(rest + [x]);
    }
    forall y | y in l ensures multiset(l)[y] == 1 {
      DistinctCount(rest, y);
      assert multiset(rest + [x]) == multiset(rest) + multiset{x};
    }
    SortedDistinctIsStrict(l);
  }

  lemma {:induction false} DistinctCount(s: seq<string>, x: string)
    requires StrictlySorted(s)
    ensures multiset(s)[x] == if x in s then 1 else 0
  {
    if s != [] {
      var n := |s| - 1;
      assert s == s[..n] + [s[n]];
      DistinctCount(s[..n], x);
      LessIrreflexive(s[n]);
    }
  }

  /** The strictly sorted listing of a set of names. */
  ghost function Listing(keys: set<string>): (l: seq<string>)
    ensures StrictlySorted(l) && SetOf(l) == keys
  {
    assert exists l :: StrictlySorted(l) && SetOf(l) == keys by {
      var l := ListingExists(keys);
    }
    var l :| StrictlySorted(l) && SetOf(l) == keys;
    l
  }
}
