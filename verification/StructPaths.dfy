/** The path printer and parser of structs/structs.go. */
module StructPaths {
  import opened Decimal

  const MAX_INT64 := 0x7FFF_FFFF_FFFF_FFFF

  /** A step like [number], but not one that starts [00. */
  predicate IsIndexToken(s: string) {
    && |s| >= 3 && s[0] == '[' && s[|s| - 1] == ']'
    && !(s[1] == '0' && s[2] == '0')
    && forall k: nat | 1 <= k < |s| - 1 :: IsDigit(s[k])
  }

  method IsIndexTokenLoop(token: string) returns (ok: bool)
    ensures ok == IsIndexToken(token)
  {
    if |token| < 3 || token[0] != '[' || token[|token| - 1] != ']' {
      return false;
    }
    if token[1] == '0' && token[2] == '0' {
      return false;
    }
    for i := 1 to |token| - 1
      invariant forall k: nat | 1 <= k < i :: IsDigit(token[k])
    {
      if token[i] < '0' || token[i] > '9' {
        return false;
      }
    }
    return true;
  }

  /** How a step is written at position `i` of a path. */
  function StepText(s: string, i: nat): string {
    if IsIndexToken(s) && i > 0 then s else "." + s
  }

  function PathOf(steps: seq<string>): string {
    if steps == [] then ""
    else PathOf(steps[..|steps| - 1]) + StepText(steps[|steps| - 1], |steps| - 1)
  }

  method BuildPath(steps: seq<string>) returns (b: string)
    ensures b == PathOf(steps)
  {
    b := "";
    for i := 0 to |steps|
      invariant b == PathOf(steps[..i])
    {
      assert steps[..i + 1][..i] == steps[..i];
      var index := IsIndexTokenLoop(steps[i]);
      if index && i > 0 {
        b := b + steps[i];
      } else {
        b := b + "." + steps[i];
      }
    }
    assert steps[..|steps|] == steps;
  }

  /** The last component of strings.Split(path, "."). */
  function LastNodeOfPath(path: string): (node: string)
    ensures '.' !in node
  {
    if path == "" || path[|path| - 1] == '.' then ""
    else LastNodeOfPath(path[..|path| - 1]) + [path[|path| - 1]]
  }

  lemma {:induction false} LastNodeAfterDot(pre: string, node: string)
    requires '.' !in node
    ensures LastNodeOfPath(pre + "." + node) == node
  {
    var p := pre + "." + node;
    if node != "" {
      var n := |node| - 1;
      assert p[..|p| - 1] == pre + "." + node[..n] && p[|p| - 1] == node[n];
      LastNodeAfterDot(pre, node[..n]);
    }
  }

  /** `step` is a non-empty field, an opening bracket, an index and a closing one. */
  predicate IsIndexed(step: string, field: string, digits: string) {
    && step == field + "[" + digits + "]"
    && field != "" && digits != "" && AllDigits(digits)
    && !(|digits| >= 2 && digits[0] == '0' && digits[1] == '0')
    && Value(digits) <= MAX_INT64
  }

  lemma IndexedShape(step: string, f: string, d: string)
    requires IsIndexed(step, f, d)
    ensures |f| + 2 < |step| && step[|f|] == '[' && step[|step| - 1] == ']'
    ensures forall k: nat | |f| < k < |step| - 1 :: IsDigit(step[k])
    ensures f == step[..|f|] && d == step[|f| + 1..|step| - 1]
  {
    forall k: nat | |f| < k < |step| - 1 ensures IsDigit(step[k]) {
      assert step[k] == d[k - |f| - 1];
    }
  }

  lemma IndexedEnd(step: string)
    ensures forall f, d | IsIndexed(step, f, d) ::
      |step| >= 4 && step[|step| - 1] == ']' && IsDigit(step[|step| - 2])
  {
    forall f, d | IsIndexed(step, f, d)
      ensures |step| >= 4 && step[|step| - 1] == ']' && IsDigit(step[|step| - 2])
    {
      IndexedShape(step, f, d);
    }
  }

  lemma IndexedUnique(step: string, f: string, d: string, g: string, e: string)
    requires IsIndexed(step, f, d) && IsIndexed(step, g, e)
    ensures f == g && d == e
  {
    IndexedShape(step, f, d);
    IndexedShape(step, g, e);
  }

  /** Exactly the indexed steps are split, at their last bracket; any other step comes back whole with -1. */
  ghost predicate IsSplit(step: string, field: string, idx: int) {
    if idx == -1 then field == step && forall f, d :: !IsIndexed(step, f, d)
    else exists d :: IsIndexed(step, field, d) && idx == Value(d)
  }

  method SplitFieldAndIndex(step: string) returns (field: string, idx: int)
    ensures IsSplit(step, field, idx)
  {
    field, idx := step, -1;
    var size := |step|;
    IndexedEnd(step);
    if size < 4 || step[size - 1] != ']' || step[size - 2] < '0' || step[size - 2] > '9' {
      return;
    }
    var i := size - 3;
    while i > 0
      invariant 0 <= i <= size - 3
      invariant forall k: nat | i < k < size - 1 :: IsDigit(step[k])
    {
      if IsDigit(step[i]) {
        i := i - 1;
      } else if step[i] == '[' {
        var digits := step[i + 1..size - 1];
        assert step == step[..i] + "[" + digits + "]";
        if step[i + 1] == '0' && step[i + 2] == '0' {
          Settled(step, i);
          return;
        }
        if Value(digits) > MAX_INT64 {
          Settled(step, i);
          return;
        }
        field := step[..i];
        idx := Value(digits);
        return;
      } else {
        Settled(step, i);
        return;
      }
    }
    Settled(step, 0);
  }

  /** Once only digits stand between a non-digit at `i` and the closing bracket, the step can be split at
      `i` or not at all. */
  lemma Settled(step: string, i: nat)
    requires i + 2 < |step|
    requires forall k: nat | i < k < |step| - 1 :: IsDigit(step[k])
    requires i > 0 ==> !IsDigit(step[i])
    ensures forall f, d | IsIndexed(step, f, d) ::
      i > 0 && step[i] == '[' && f == step[..i] && d == step[i + 1..|step| - 1]
  {
    forall f, d | IsIndexed(step, f, d)
      ensures i > 0 && step[i] == '[' && f == step[..i] && d == step[i + 1..|step| - 1]
    {
      IndexedShape(step, f, d);
    }
  }

  /** A split is determined by the step. */
  lemma SplitUnique(step: string, f: string, i: int, g: string, j: int)
    requires IsSplit(step, f, i) && IsSplit(step, g, j)
    ensures f == g && i == j
  {
    if i != -1 {
      var d :| IsIndexed(step, f, d) && i == Value(d);
      if j != -1 {
        var e :| IsIndexed(step, g, e) && j == Value(e);
        IndexedUnique(step, f, d, g, e);
      }
    }
  }

  /** appendStep of "[", a number and "]". */
  function IndexStep(n: nat): string {
    "[" + Itoa(n) + "]"
  }

  lemma IndexStepIsToken(n: nat)
    ensures IsIndexToken(IndexStep(n)) && '.' !in IndexStep(n)
  {
    ItoaRoundTrip(n);
    var t := IndexStep(n);
    forall k: nat | 1 <= k < |t| - 1 ensures IsDigit(t[k]) {
      assert t[k] == Itoa(n)[k - 1];
    }
    assert t[1] == Itoa(n)[0];
  }

  lemma PathOfMore(steps: seq<string>, s: string)
    ensures PathOf(steps + [s]) == PathOf(steps) + StepText(s, |steps|)
  {
    assert (steps + [s])[..|steps|] == steps;
  }

  lemma Regroup(p: string, field: string, t: string)
    ensures p + ("." + field) + t == p + "." + (field + t)
  {
  }

  lemma LastNodeOfSteps(before: seq<string>, field: string, n: nat)
    requires '.' !in field && !IsIndexToken(field)
    ensures LastNodeOfPath(PathOf(before + [field, IndexStep(n)])) == field + IndexStep(n)
  {
    IndexStepIsToken(n);
    assert before + [field, IndexStep(n)] == (before + [field]) + [IndexStep(n)];
    PathOfMore(before + [field], IndexStep(n));
    PathOfMore(before, field);
    Regroup(PathOf(before), field, IndexStep(n));
    LastNodeAfterDot(PathOf(before), field + IndexStep(n));
  }

  lemma FieldAndIndex(field: string, n: nat)
    requires field != "" && n <= MAX_INT64
    ensures IsSplit(field + IndexStep(n), field, n)
  {
    ItoaRoundTrip(n);
    assert field + IndexStep(n) == field + "[" + Itoa(n) + "]";
    assert IsIndexed(field + IndexStep(n), field, Itoa(n));
  }

  /** The last node of a path built from steps that end in a field and an index splits back into that field
      and that index. */
  lemma PathRoundTrip(before: seq<string>, field: string, n: nat, f: string, idx: int)
    requires field != "" && '.' !in field && !IsIndexToken(field) && n <= MAX_INT64
    requires IsSplit(LastNodeOfPath(PathOf(before + [field, IndexStep(n)])), f, idx)
    ensures f == field && idx == n
  {
    LastNodeOfSteps(before, field, n);
    FieldAndIndex(field, n);
    SplitUnique(field + IndexStep(n), f, idx, field, n);
  }

  // ----- Paths as names ------------------------------------------------------------------------

  /** The first step stands behind a dot, index or not, and so every path but that of no steps begins with one. */
  lemma {:induction false} PathStart(steps: seq<string>)
    requires steps != []
    ensures |steps| == 1 ==> PathOf(steps) == "." + steps[0]
    ensures PathOf(steps) != "" && PathOf(steps)[0] == '.'
  {
    if |steps| == 1 {
      assert steps[..0] == [];
    } else {
      PathStart(steps[..|steps| - 1]);
    }
  }

  predicate IsPlain(s: string) {
    s != "" && '.' !in s && '[' !in s
  }

  /** An index step, or a name that no dot and no bracket makes look like several steps. */
  predicate IsCleanStep(s: string) {
    IsIndexToken(s) || IsPlain(s)
  }

  predicate AreClean(steps: seq<string>) {
    forall i: nat | i < |steps| :: IsCleanStep(steps[i])
  }

  /** The path is `left`, then the mark `c` of its last step, and then `rest`, without a mark in it. */
  predicate IsMarked(path: string, left: string, c: char, rest: string) {
    path == left + [c] + rest && (c == '.' || c == '[') && '.' !in rest && '[' !in rest
  }

  lemma NoLaterMark(path: string, l: string, c: char, r: string, m: string, d: char, q: string)
    requires IsMarked(path, l, c, r) && IsMarked(path, m, d, q)
    ensures |m| <= |l|
  {
    forall i: nat | |l| < i < |path| ensures path[i] != '.' && path[i] != '[' {
      assert path[i] == r[i - |l| - 1];
    }
    assert path[|m|] == d;
  }

  lemma MarkedUnique(path: string, l: string, c: char, r: string, m: string, d: char, q: string)
    requires IsMarked(path, l, c, r) && IsMarked(path, m, d, q)
    ensures l == m && c == d && r == q
  {
    NoLaterMark(path, l, c, r, m, d, q);
    NoLaterMark(path, m, d, q, l, c, r);
    assert l == path[..|l|] == m && c == path[|l|] == d && r == path[|l| + 1..] == q;
  }

  /** The last step begins behind `left`, at the mark `c`. */
  predicate LastIs(steps: seq<string>, left: string, c: char, rest: string)
    requires steps != []
  {
    var n := |steps| - 1;
    if c == '.' then left == PathOf(steps[..n]) && rest == steps[n]
    else steps[n] == "[" + rest && left == if n == 0 then "." else PathOf(steps[..n])
  }

  lemma TokenMark(s: string)
    requires IsIndexToken(s)
    ensures s == "[" + s[1..] && '.' !in s[1..] && '[' !in s[1..]
  {
    var rest := s[1..];
    forall k: nat | k < |rest| ensures rest[k] != '.' && rest[k] != '[' {
      assert rest[k] == s[k + 1];
    }
  }

  lemma LastMark(steps: seq<string>) returns (left: string, c: char, rest: string)
    requires steps != [] && AreClean(steps)
    ensures IsMarked(PathOf(steps), left, c, rest) && LastIs(steps, left, c, rest)
  {
    var n := |steps| - 1;
    var s := steps[n];
    assert IsCleanStep(s) && PathOf(steps) == PathOf(steps[..n]) + StepText(s, n);
    if IsPlain(s) {
      left, c, rest := PathOf(steps[..n]), '.', s;
      assert PathOf(steps) == left + "." + rest;
    } else {
      left, c, rest := if n == 0 then "." else PathOf(steps[..n]), '[', s[1..];
      TokenMark(s);
      assert PathOf(steps) == left + "[" + rest;
    }
  }

  lemma {:induction false} PathLonger(steps: seq<string>)
    requires AreClean(steps)
    ensures steps != [] ==> |PathOf(steps)| >= 2
  {
    if |steps| > 1 {
      PathLonger(steps[..|steps| - 1]);
    } else if |steps| == 1 {
      PathStart(steps);
      assert IsCleanStep(steps[0]);
    }
  }

  lemma SameLast(a: seq<string>, b: seq<string>)
    requires a != [] && b != [] && AreClean(a) && AreClean(b) && PathOf(a) == PathOf(b)
    ensures a[|a| - 1] == b[|b| - 1] && PathOf(a[..|a| - 1]) == PathOf(b[..|b| - 1])
  {
    var l, c, r := LastMark(a);
    var k, d, q := LastMark(b);
    MarkedUnique(PathOf(a), l, c, r, k, d, q);
    PathLonger(a[..|a| - 1]);
    PathLonger(b[..|b| - 1]);
  }

  /** Different clean steps have different paths, so that a path marks one place as visited and no other. */
  lemma {:induction false} PathInjective(a: seq<string>, b: seq<string>)
    requires AreClean(a) && AreClean(b) && PathOf(a) == PathOf(b)
    ensures a == b
  {
    if a == [] || b == [] {
      PathLonger(a);
      PathLonger(b);
    } else {
      SameLast(a, b);
      PathInjective(a[..|a| - 1], b[..|b| - 1]);
      assert a == a[..|a| - 1] + [a[|a| - 1]] && b == b[..|b| - 1] + [b[|b| - 1]];
    }
  }

  /** Where a name, like a key of a map, has a bracket in it, two places can share a path. */
  lemma PathsCollide(name: string, n: nat)
    ensures PathOf([name, IndexStep(n)]) == PathOf([name + IndexStep(n)])
  {
    IndexStepIsToken(n);
    assert [name] + [IndexStep(n)] == [name, IndexStep(n)];
    PathOfMore([name], IndexStep(n));
    PathStart([name]);
    PathStart([name + IndexStep(n)]);
    Regroup("", name, IndexStep(n));
  }
}
