/** The multiset operations on string lists of stringutil/strings.go.  A list is a multiset of strings;
    `Count` is a string's multiplicity. */
module StringLists {
  import opened Sequences
  import opened Ordering

  function Count(s: seq<string>, x: string): nat {
    multiset(s)[x]
  }

  function Min(a: nat, b: nat): nat {
    if a < b then a else b
  }

  function Max(a: nat, b: nat): nat {
    if a < b then b else a
  }

  /** Truncated difference. */
  function Minus(a: nat, b: nat): nat {
    if a < b then 0 else a - b
  }

  lemma CountHead(s: seq<string>, x: string)
    requires s != []
    ensures Count(s, x) == (if x == s[0] then 1 else 0) + Count(s[1..], x)
  {
    assert s == [s[0]] + s[1..];
  }

  /** A string below the head of a sorted list is not in it. */
  lemma BelowHead(s: seq<string>, x: string)
    requires Sorted(s) && s != [] && Less(x, s[0])
    ensures Count(s, x) == 0
  {
    if x in s {
      var k: nat :| k < |s| && s[k] == x;
      if k > 0 {
        assert AtMost(s[0], s[k]);
      }
      AtMostAntisymmetric(s[0], x);
      LessIrreflexive(x);
    }
  }

  // ----- The two-list operations -------------------------------------------------------------

  /** What the index loops compute from two positions on. */
  function Common(a: seq<string>, b: seq<string>): seq<string>
    decreases |a| + |b|
  {
    if a == [] || b == [] then []
    else if a[0] == b[0] then [a[0]] + Common(a[1..], b[1..])
    else if Less(b[0], a[0]) then Common(a, b[1..])
    else Common(a[1..], b)
  }

  function Merged(a: seq<string>, b: seq<string>): seq<string>
    decreases |a| + |b|
  {
    if a == [] then b
    else if b == [] then a
    else if a[0] == b[0] then [a[0]] + Merged(a[1..], b[1..])
    else if Less(b[0], a[0]) then [b[0]] + Merged(a, b[1..])
    else [a[0]] + Merged(a[1..], b)
  }

  function Rest(a: seq<string>, b: seq<string>): seq<string>
    decreases |a| + |b|
  {
    if a == [] || b == [] then a
    else if Less(a[0], b[0]) then [a[0]] + Rest(a[1..], b)
    else if a[0] == b[0] then Rest(a[1..], b[1..])
    else Rest(a, b[1..])
  }

  lemma {:induction false} CommonCounts(a: seq<string>, b: seq<string>, x: string)
    requires Sorted(a) && Sorted(b)
    ensures Count(Common(a, b), x) == Min(Count(a, x), Count(b, x))
    decreases |a| + |b|
  {
    if a != [] && b != [] {
      CountHead(a, x);
      CountHead(b, x);
      if a[0] == b[0] {
        CommonCounts(a[1..], b[1..], x);
      } else if Less(b[0], a[0]) {
        CommonCounts(a, b[1..], x);
        BelowHead(a, b[0]);
      } else {
        LessTotal(a[0], b[0]);
        CommonCounts(a[1..], b, x);
        BelowHead(b, a[0]);
      }
    }
  }

  lemma {:induction false} MergedCounts(a: seq<string>, b: seq<string>, x: string)
    requires Sorted(a) && Sorted(b)
    ensures Count(Merged(a, b), x) == Max(Count(a, x), Count(b, x))
    decreases |a| + |b|
  {
    if a != [] && b != [] {
      CountHead(a, x);
      CountHead(b, x);
      if a[0] == b[0] {
        MergedCounts(a[1..], b[1..], x);
      } else if Less(b[0], a[0]) {
        MergedCounts(a, b[1..], x);
        BelowHead(a, b[0]);
      } else {
        LessTotal(a[0], b[0]);
        MergedCounts(a[1..], b, x);
        BelowHead(b, a[0]);
      }
    }
  }

  lemma {:induction false} RestCounts(a: seq<string>, b: seq<string>, x: string)
    requires Sorted(a) && Sorted(b)
    ensures Count(Rest(a, b), x) == Minus(Count(a, x), Count(b, x))
    decreases |a| + |b|
  {
    if a != [] && b != [] {
      CountHead(a, x);
      CountHead(b, x);
      if Less(a[0], b[0]) {
        RestCounts(a[1..], b, x);
        BelowHead(b, a[0]);
      } else if a[0] == b[0] {
        RestCounts(a[1..], b[1..], x);
      } else {
        LessTotal(a[0], b[0]);
        RestCounts(a, b[1..], x);
        BelowHead(a, b[0]);
      }
    }
  }

  /** A list all of whose members come from sorted lists headed by `x` or more is bounded by `x`. */
  lemma HeadsBound(x: string, r: seq<string>, a: seq<string>, b: seq<string>)
    requires Sorted(a) && Sorted(b) && (a != [] ==> AtMost(x, a[0])) && (b != [] ==> AtMost(x, b[0]))
    requires forall y :: Count(r, y) > 0 ==> Count(a, y) > 0 || Count(b, y) > 0
    ensures forall y | y in r :: AtMost(x, y)
  {
    forall y | y in r ensures AtMost(x, y) {
      assert Count(r, y) > 0;
      var s := if Count(a, y) > 0 then a else b;
      var k: nat :| k < |s| && s[k] == y;
      if k > 0 {
        AtMostTransitive(x, s[0], y);
      }
    }
  }

  lemma {:induction false} CommonSorted(a: seq<string>, b: seq<string>)
    requires Sorted(a) && Sorted(b)
    ensures Sorted(Common(a, b))
    decreases |a| + |b|
  {
    if a != [] && b != [] {
      if a[0] == b[0] {
        CommonSorted(a[1..], b[1..]);
        forall y { CommonCounts(a[1..], b[1..], y); }
        HeadsBound(a[0], Common(a[1..], b[1..]), a[1..], b[1..]);
      } else if Less(b[0], a[0]) {
        CommonSorted(a, b[1..]);
      } else {
        CommonSorted(a[1..], b);
      }
    }
  }

  lemma {:induction false} MergedSorted(a: seq<string>, b: seq<string>)
    requires Sorted(a) && Sorted(b)
    ensures Sorted(Merged(a, b))
    decreases |a| + |b|
  {
    if a != [] && b != [] {
      LessTotal(a[0], b[0]);
      var (a', b') := if a[0] == b[0] then (a[1..], b[1..]) else if Less(b[0], a[0]) then (a, b[1..]) else (a[1..], b);
      var x := if Less(b[0], a[0]) then b[0] else a[0];
      MergedSorted(a', b');
      forall y { MergedCounts(a', b', y); }
      LessIrreflexive(a[0]);
      HeadsBound(x, Merged(a', b'), a', b');
    }
  }

  lemma {:induction false} RestSorted(a: seq<string>, b: seq<string>)
    requires Sorted(a) && Sorted(b)
    ensures Sorted(Rest(a, b))
    decreases |a| + |b|
  {
    if a != [] && b != [] {
      if Less(a[0], b[0]) {
        RestSorted(a[1..], b);
        forall y { RestCounts(a[1..], b, y); }
        HeadsBound(a[0], Rest(a[1..], b), a[1..], []);
      } else if a[0] == b[0] {
        RestSorted(a[1..], b[1..]);
      } else {
        RestSorted(a, b[1..]);
      }
    }
  }

  method InteractStrings(list1: seq<string>, list2: seq<string>) returns (res: seq<string>)
    requires Sorted(list1) && Sorted(list2)
    ensures IsMinOf(res, list1, list2)
  {
    res := [];
    if |list1| > 0 && |list2| > 0 {
      var i, j := 0, 0;
      while i < |list1| && j < |list2|
        invariant 0 <= i <= |list1| && 0 <= j <= |list2|
        invariant res + Common(list1[i..], list2[j..]) == Common(list1, list2)
        decreases |list1| - i + |list2| - j
      {
        Assoc(res, [list1[i]], Common(list1[i + 1..], list2[j + 1..]));
        assert list1[i..][1..] == list1[i + 1..] && list2[j..][1..] == list2[j + 1..];
        if list1[i] == list2[j] {
          res := res + [list1[i]];
          i := i + 1;
          j := j + 1;
        } else if Less(list2[j], list1[i]) {
          j := j + 1;
        } else {
          i := i + 1;
        }
      }
    }
    assert res == Common(list1, list2);
    CommonSorted(list1, list2);
    forall x { CommonCounts(list1, list2, x); }
  }

  method AndStrings(list1: seq<string>, list2: seq<string>) returns (res: seq<string>)
    requires Sorted(list1) && Sorted(list2)
    ensures IsMaxOf(res, list1, list2)
  {
    res := [];
    var i, j := 0, 0;
    while i < |list1| && j < |list2|
      invariant 0 <= i <= |list1| && 0 <= j <= |list2|
      invariant res + Merged(list1[i..], list2[j..]) == Merged(list1, list2)
      decreases |list1| - i + |list2| - j
    {
      var a, b := list1[i..], list2[j..];
      assert a[1..] == list1[i + 1..] && b[1..] == list2[j + 1..];
      if list1[i] == list2[j] {
        Assoc(res, [a[0]], Merged(a[1..], b[1..]));
        res := res + [list1[i]];
        i := i + 1;
        j := j + 1;
      } else if Less(list2[j], list1[i]) {
        Assoc(res, [b[0]], Merged(a, b[1..]));
        res := res + [list2[j]];
        j := j + 1;
      } else {
        Assoc(res, [a[0]], Merged(a[1..], b));
        res := res + [list1[i]];
        i := i + 1;
      }
    }
    if i < |list1| {
      res := res + list1[i..];
    }
    if j < |list2| {
      res := res + list2[j..];
    }
    assert res == Merged(list1, list2);
    MergedSorted(list1, list2);
    forall x { MergedCounts(list1, list2, x); }
  }

  // ----- Any number of lists -----------------------------------------------------------------

  /** The least and the greatest multiplicity of `x` in some lists. */
  function MinCount(ls: seq<seq<string>>, x: string): nat
    requires ls != []
  {
    var n := |ls| - 1;
    if n == 0 then Count(ls[0], x) else Min(MinCount(ls[..n], x), Count(ls[n], x))
  }

  function MaxCount(ls: seq<seq<string>>, x: string): nat {
    if ls == [] then 0 else Max(MaxCount(ls[..|ls| - 1], x), Count(ls[|ls| - 1], x))
  }

  /** MinCount is the minimum over all lists. */
  lemma {:induction false} MinCountIsMin(ls: seq<seq<string>>, x: string)
    requires ls != []
    ensures forall k: nat | k < |ls| :: MinCount(ls, x) <= Count(ls[k], x)
    ensures exists k: nat :: k < |ls| && MinCount(ls, x) == Count(ls[k], x)
  {
    var n := |ls| - 1;
    if n > 0 {
      MinCountIsMin(ls[..n], x);
      var k: nat :| k < n && MinCount(ls[..n], x) == Count(ls[..n][k], x);
      assert ls[..n][k] == ls[k];
      forall j: nat | j < |ls| ensures MinCount(ls, x) <= Count(ls[j], x) {
        if j < n {
          assert ls[..n][j] == ls[j];
        }
      }
    }
  }

  /** MaxCount is the maximum over all lists. */
  lemma {:induction false} MaxCountIsMax(ls: seq<seq<string>>, x: string)
    ensures forall k: nat | k < |ls| :: Count(ls[k], x) <= MaxCount(ls, x)
    ensures MaxCount(ls, x) == 0 || exists k: nat :: k < |ls| && MaxCount(ls, x) == Count(ls[k], x)
  {
    if ls != [] {
      var n := |ls| - 1;
      MaxCountIsMax(ls[..n], x);
      if MaxCount(ls[..n], x) != 0 {
        var k: nat :| k < n && MaxCount(ls[..n], x) == Count(ls[..n][k], x);
        assert ls[..n][k] == ls[k];
      }
      forall j: nat | j < |ls| ensures Count(ls[j], x) <= MaxCount(ls, x) {
        if j < n {
          assert ls[..n][j] == ls[j];
        }
      }
    }
  }

  lemma {:induction false} MinCountSplit(a: seq<seq<string>>, b: seq<seq<string>>, x: string)
    requires a != [] && b != []
    ensures MinCount(a + b, x) == Min(MinCount(a, x), MinCount(b, x))
  {
    var n := |b| - 1;
    assert (a + b)[..|a + b| - 1] == a + b[..n];
    if n > 0 {
      MinCountSplit(a, b[..n], x);
    } else {
      assert a + b[..n] == a;
    }
  }

  lemma {:induction false} MaxCountSplit(a: seq<seq<string>>, b: seq<seq<string>>, x: string)
    ensures MaxCount(a + b, x) == Max(MaxCount(a, x), MaxCount(b, x))
  {
    if b == [] {
      assert a + b == a;
    } else {
      var n := |b| - 1;
      assert (a + b)[..|a + b| - 1] == a + b[..n];
      MaxCountSplit(a, b[..n], x);
    }
  }

  ghost predicate AllSorted(ls: seq<seq<string>>) {
    forall k: nat | k < |ls| :: Sorted(ls[k])
  }

  ghost predicate IsCommon(r: seq<string>, ls: seq<seq<string>>)
    requires ls != []
  {
    Sorted(r) && forall x :: Count(r, x) == MinCount(ls, x)
  }

  ghost predicate IsUnion(r: seq<string>, ls: seq<seq<string>>) {
    Sorted(r) && forall x :: Count(r, x) == MaxCount(ls, x)
  }

  /** `r` has the lesser, or the greater, multiplicities of two lists. */
  ghost predicate IsMinOf(r: seq<string>, a: seq<string>, b: seq<string>) {
    Sorted(r) && forall x :: Count(r, x) == Min(Count(a, x), Count(b, x))
  }

  ghost predicate IsMaxOf(r: seq<string>, a: seq<string>, b: seq<string>) {
    Sorted(r) && forall x :: Count(r, x) == Max(Count(a, x), Count(b, x))
  }

  lemma OneList(lists: seq<seq<string>>, k: nat)
    requires k < |lists| && Sorted(lists[k])
    ensures IsCommon(lists[k], lists[k..k + 1]) && IsUnion(lists[k], lists[k..k + 1])
  {
    var ls := lists[k..k + 1];
    forall x ensures MinCount(ls, x) == MaxCount(ls, x) == Count(lists[k], x) {
      assert ls[..0] == [];
    }
  }

  lemma JoinCommon(lists: seq<seq<string>>, i: nat, m: nat, j: nat, left: seq<string>, right: seq<string>,
                   r: seq<string>)
    requires i < m < j <= |lists| && IsCommon(left, lists[i..m]) && IsCommon(right, lists[m..j])
    requires IsMinOf(r, left, right)
    ensures IsCommon(r, lists[i..j])
  {
    assert lists[i..m] + lists[m..j] == lists[i..j];
    forall x ensures Count(r, x) == MinCount(lists[i..j], x) {
      MinCountSplit(lists[i..m], lists[m..j], x);
    }
  }

  lemma JoinUnion(lists: seq<seq<string>>, i: nat, m: nat, j: nat, left: seq<string>, right: seq<string>,
                  r: seq<string>)
    requires i <= m <= j <= |lists| && IsUnion(left, lists[i..m]) && IsUnion(right, lists[m..j])
    requires IsMaxOf(r, left, right)
    ensures IsUnion(r, lists[i..j])
  {
    assert lists[i..m] + lists[m..j] == lists[i..j];
    forall x ensures Count(r, x) == MaxCount(lists[i..j], x) {
      MaxCountSplit(lists[i..m], lists[m..j], x);
    }
  }

  method InteractPair(lists: seq<seq<string>>, k: nat) returns (r: seq<string>)
    requires k + 1 < |lists| && AllSorted(lists)
    ensures IsCommon(r, lists[k..k + 2])
  {
    OneList(lists, k);
    OneList(lists, k + 1);
    r := InteractStrings(lists[k], lists[k + 1]);
    JoinCommon(lists, k, k + 1, k + 2, lists[k], lists[k + 1], r);
  }

  method AndPair(lists: seq<seq<string>>, k: nat) returns (r: seq<string>)
    requires k + 1 < |lists| && AllSorted(lists)
    ensures IsUnion(r, lists[k..k + 2])
  {
    OneList(lists, k);
    OneList(lists, k + 1);
    r := AndStrings(lists[k], lists[k + 1]);
    JoinUnion(lists, k, k + 1, k + 2, lists[k], lists[k + 1], r);
  }

  /** The switch of interactList and andList: a half of one or two lists is done directly. */
  method InteractHalf(lists: seq<seq<string>>, start: int, end: int) returns (res: seq<string>)
    requires 0 <= start <= end < |lists| && AllSorted(lists)
    ensures IsCommon(res, lists[start..end + 1])
    decreases end - start, if end - start >= 2 then 1 else 0
  {
    if end - start == 0 {
      OneList(lists, start);
      res := lists[start];
    } else if end - start == 1 {
      res := InteractPair(lists, start);
    } else {
      res := InteractList(lists, start, end);
    }
  }

  /** interactList on the lists from `start` to `end`. */
  method InteractList(lists: seq<seq<string>>, start: int, end: int) returns (res: seq<string>)
    requires 0 <= start && end < |lists| && AllSorted(lists)
    ensures start > end ==> res == []
    ensures start <= end ==> IsCommon(res, lists[start..end + 1])
    decreases end - start, if end - start >= 2 then 0 else 1
  {
    if start > end {
      return [];
    }
    var mid := (start + end) / 2;
    res := InteractHalf(lists, start, mid);
    mid := mid + 1;
    if mid <= end {
      res := InteractRest(lists, start, mid, end, res);
    }
  }

  /** The other half, and both together. */
  method InteractRest(lists: seq<seq<string>>, start: nat, mid: nat, end: nat, left: seq<string>)
    returns (res: seq<string>)
    requires start < mid <= end < |lists| && AllSorted(lists) && IsCommon(left, lists[start..mid])
    ensures IsCommon(res, lists[start..end + 1])
    decreases end - mid + 1, 0
  {
    var right := InteractHalf(lists, mid, end);
    res := InteractStrings(left, right);
    JoinCommon(lists, start, mid, end + 1, left, right, res);
  }

  method AndHalf(lists: seq<seq<string>>, start: int, end: int) returns (res: seq<string>)
    requires 0 <= start <= end < |lists| && AllSorted(lists)
    ensures IsUnion(res, lists[start..end + 1])
    decreases end - start, if end - start >= 2 then 1 else 0
  {
    if end - start == 0 {
      OneList(lists, start);
      res := lists[start];
    } else if end - start == 1 {
      res := AndPair(lists, start);
    } else {
      res := AndList(lists, start, end);
    }
  }

  /** andList on the lists from `start` to `end`. */
  method AndList(lists: seq<seq<string>>, start: int, end: int) returns (res: seq<string>)
    requires 0 <= start <= end + 1 <= |lists| && AllSorted(lists)
    ensures IsUnion(res, lists[start..end + 1])
    decreases end - start, if end - start >= 2 then 0 else 1
  {
    if start > end {
      return [];
    }
    var mid := (start + end) / 2;
    var left := AndHalf(lists, start, mid);
    var right: seq<string> := [];
    mid := mid + 1;
    if mid <= end {
      right := AndHalf(lists, mid, end);
    }
    res := AndStrings(left, right);
    JoinUnion(lists, start, mid, end + 1, left, right, res);
  }

  // ----- The entry points, which sort their arguments in place ---------------------------------

  lemma SameLength(a: seq<string>, b: seq<string>)
    requires multiset(a) == multiset(b)
    ensures |a| == |b|
  {
    assert |multiset(a)| == |a| && |multiset(b)| == |b|;
  }

  /** sort.Strings. */
  method SortStrings(a: array<string>)
    modifies a
    ensures a[..] == SortedOf(old(a[..]))
  {
    var s := SortedOf(a[..]);
    SameLength(s, a[..]);
    Overwrite(a, s);
  }

  method Overwrite(a: array<string>, s: seq<string>)
    requires |s| == a.Length
    modifies a
    ensures a[..] == s
  {
    for i := 0 to a.Length
      invariant a[..i] == s[..i]
    {
      a[i] := s[i];
    }
  }

  /** The arguments afterwards: the same strings in each list, in order. */
  twostate predicate SortedInPlace(lists: seq<array<string>>)
    reads lists
  {
    forall k: nat | k < |lists| ::
      multiset(lists[k][..]) == multiset(old(lists[k][..])) && Sorted(lists[k][..])
  }

  method SortOne(lists: seq<array<string>>, i: nat)
    requires i < |lists|
    modifies lists[i]
    ensures forall k: nat | k < |lists| :: multiset(lists[k][..]) == multiset(old(lists[k][..]))
    ensures forall k: nat | k < |lists| && (k == i || old(Sorted(lists[k][..]))) :: Sorted(lists[k][..])
  {
    SortStrings(lists[i]);
    SortedOfSorted(old(lists[i][..]));
    forall k: nat | k < |lists| && lists[k] != lists[i] ensures lists[k][..] == old(lists[k][..]) {
    }
  }

  /** Lists that are the same slice are sorted twice, to the same effect. */
  method SortAll(lists: seq<array<string>>, stopAtEmpty: bool) returns (stopped: bool)
    modifies set k | 0 <= k < |lists| :: lists[k]
    ensures forall k: nat | k < |lists| :: multiset(lists[k][..]) == multiset(old(lists[k][..]))
    ensures !stopped ==> SortedInPlace(lists)
    ensures stopped <==> stopAtEmpty && exists k: nat :: k < |lists| && lists[k].Length == 0
  {
    for i := 0 to |lists|
      invariant forall k: nat | k < |lists| :: multiset(lists[k][..]) == multiset(old(lists[k][..]))
      invariant forall k: nat | k < i :: Sorted(lists[k][..])
      invariant stopAtEmpty ==> forall k: nat | k < i :: lists[k].Length != 0
    {
      if stopAtEmpty && lists[i].Length == 0 {
        return true;
      }
      SortOne(lists, i);
    }
    return false;
  }

  ghost function Contents(lists: seq<array<string>>): (c: seq<seq<string>>)
    reads lists
  {
    seq(|lists|, k requires 0 <= k < |lists| reads lists => lists[k][..])
  }

  method Interact(lists: seq<array<string>>) returns (res: seq<string>)
    modifies set k | 0 <= k < |lists| :: lists[k]
    ensures lists == [] ==> res == []
    ensures lists != [] ==> IsCommon(res, old(Contents(lists)))
    ensures forall k: nat | k < |lists| :: multiset(lists[k][..]) == multiset(old(lists[k][..]))
    ensures (forall k: nat | k < |lists| :: lists[k].Length > 0) ==> SortedInPlace(lists)
  {
    var stopped := SortAll(lists, true);
    if stopped {
      ghost var k: nat :| k < |lists| && lists[k].Length == 0;
      NothingCommon(old(Contents(lists)), k);
      return [];
    }
    var now := Values(lists);
    res := InteractList(now, 0, |lists| - 1);
    if lists != [] {
      assert now[0..|lists|] == now;
      SameCommon(old(Contents(lists)), now, res);
    }
  }

  lemma NothingCommon(ls: seq<seq<string>>, k: nat)
    requires k < |ls| && ls[k] == []
    ensures IsCommon([], ls)
  {
    forall x ensures MinCount(ls, x) == 0 {
      MinCountIsMin(ls, x);
      assert Count(ls[k], x) == 0;
    }
  }

  lemma SameCommon(was: seq<seq<string>>, now: seq<seq<string>>, r: seq<string>)
    requires |was| == |now| > 0 && forall k: nat | k < |was| :: multiset(was[k]) == multiset(now[k])
    requires IsCommon(r, now)
    ensures IsCommon(r, was)
  {
    forall x { SameMinCounts(was, now, x); }
  }

  method Union(lists: seq<array<string>>) returns (res: seq<string>)
    modifies set k | 0 <= k < |lists| :: lists[k]
    ensures IsUnion(res, old(Contents(lists)))
    ensures SortedInPlace(lists)
  {
    var _ := SortAll(lists, false);
    ghost var was := old(Contents(lists));
    var now := Values(lists);
    forall x { SameMaxCounts(was, now, x); }
    res := AndList(now, 0, |lists| - 1);
    assert now[0..|lists|] == now;
  }

  method Values(lists: seq<array<string>>) returns (c: seq<seq<string>>)
    ensures c == Contents(lists)
  {
    c := [];
    for i := 0 to |lists|
      invariant |c| == i && forall k: nat | k < i :: c[k] == lists[k][..]
    {
      c := c + [lists[i][..]];
    }
  }

  lemma {:induction false} SameMinCounts(a: seq<seq<string>>, b: seq<seq<string>>, x: string)
    requires |a| == |b| > 0 && forall k: nat | k < |a| :: multiset(a[k]) == multiset(b[k])
    ensures MinCount(a, x) == MinCount(b, x)
  {
    if |a| > 1 {
      SameMinCounts(a[..|a| - 1], b[..|b| - 1], x);
    }
  }

  lemma {:induction false} SameMaxCounts(a: seq<seq<string>>, b: seq<seq<string>>, x: string)
    requires |a| == |b| && forall k: nat | k < |a| :: multiset(a[k]) == multiset(b[k])
    ensures MaxCount(a, x) == MaxCount(b, x)
  {
    if |a| > 0 {
      SameMaxCounts(a[..|a| - 1], b[..|b| - 1], x);
    }
  }

  method Substract(list1: array<string>, list2: array<string>) returns (res: seq<string>)
    modifies list1, list2
    ensures Sorted(res)
    ensures forall x :: Count(res, x) == Minus(Count(old(list1[..]), x), Count(old(list2[..]), x))
    ensures SortedInPlace([list1, list2])
  {
    var _ := SortAll([list1, list2], false);
    assert [list1, list2][0] == list1 && [list1, list2][1] == list2;
    res := SubstractSorted(list1[..], list2[..]);
    assert multiset(list1[..]) == multiset(old(list1[..])) && multiset(list2[..]) == multiset(old(list2[..]));
  }

  /** The loop of Substract. */
  method SubstractSorted(a: seq<string>, b: seq<string>) returns (res: seq<string>)
    requires Sorted(a) && Sorted(b)
    ensures Sorted(res) && forall x :: Count(res, x) == Minus(Count(a, x), Count(b, x))
  {
    res := [];
    var i, j := 0, 0;
    while i < |a| && j < |b|
      invariant 0 <= i <= |a| && 0 <= j <= |b|
      invariant res + Rest(a[i..], b[j..]) == Rest(a, b)
      decreases |a| - i + |b| - j
    {
      assert a[i..][1..] == a[i + 1..] && b[j..][1..] == b[j + 1..];
      if Less(a[i], b[j]) {
        Assoc(res, [a[i]], Rest(a[i + 1..], b[j..]));
        res := res + [a[i]];
        i := i + 1;
      } else if a[i] == b[j] {
        i := i + 1;
        j := j + 1;
      } else {
        j := j + 1;
      }
    }
    if i < |a| {
      res := res + a[i..];
    }
    assert res == Rest(a, b);
    RestSorted(a, b);
    forall x { RestCounts(a, b, x); }
  }

  /** The head of a sorted list is at most the head of another with the same strings. */
  lemma HeadAtMost(a: seq<string>, b: seq<string>)
    requires Sorted(a) && a != [] && b != [] && multiset(a) == multiset(b)
    ensures AtMost(a[0], b[0])
  {
    assert b[0] in multiset(b);
    var k: nat :| k < |a| && a[k] == b[0];
    if k > 0 {
      assert AtMost(a[0], a[k]);
    }
  }

  lemma TailCounts(a: seq<string>)
    requires a != []
    ensures multiset(a[1..]) == multiset(a) - multiset{a[0]}
  {
    assert a == [a[0]] + a[1..];
  }

  /** Sorted lists with the same multiplicities are the same list. */
  lemma {:induction false} SortedUnique(a: seq<string>, b: seq<string>)
    requires Sorted(a) && Sorted(b) && multiset(a) == multiset(b)
    ensures a == b
  {
    SameLength(a, b);
    if a != [] {
      HeadAtMost(a, b);
      HeadAtMost(b, a);
      AtMostAntisymmetric(a[0], b[0]);
      TailCounts(a);
      TailCounts(b);
      SortedUnique(a[1..], b[1..]);
      assert a == [a[0]] + a[1..] && b == [b[0]] + b[1..];
    }
  }

  /** EqualStrings decides equality as multisets. */
  method EqualStrings(list1: array<string>, list2: array<string>) returns (equal: bool)
    modifies list1, list2
    ensures equal <==> multiset(old(list1[..])) == multiset(old(list2[..]))
    ensures if list1.Length == list2.Length then SortedInPlace([list1, list2])
            else list1[..] == old(list1[..]) && list2[..] == old(list2[..])
  {
    assert |multiset(list1[..])| == list1.Length && |multiset(list2[..])| == list2.Length;
    if list1.Length != list2.Length {
      return false;
    }
    var _ := SortAll([list1, list2], false);
    assert [list1, list2][0] == list1 && [list1, list2][1] == list2;
    if multiset(list1[..]) == multiset(list2[..]) {
      SortedUnique(list1[..], list2[..]);
    }
    for i := 0 to list1.Length
      invariant list1[..i] == list2[..i]
    {
      if list1[i] != list2[i] {
        assert list1[..][i] != list2[..][i];
        return false;
      }
    }
    assert list1[..] == list2[..];
    return true;
  }
}
