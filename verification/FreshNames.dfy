/** The fresh-name allocators of static/mockgen/mockgen.go: identifiers of a mock method, and import
    aliases. */
module FreshNames {
  import opened Decimal

  // ----- allocateIdentifier --------------------------------------------------------------------

  /** The names tried, in order: `want`, `want_2`, `want_3`, ... */
  function Candidate(want: string, k: nat): string {
    if k == 0 then want else want + "_" + Itoa(k + 1)
  }

  lemma CandidatesDiffer(want: string, j: nat, k: nat)
    requires Candidate(want, j) == Candidate(want, k)
    ensures j == k
  {
    if j > 0 && k > 0 {
      var p := want + "_";
      assert (p + Itoa(j + 1))[|p|..] == Itoa(j + 1) && (p + Itoa(k + 1))[|p|..] == Itoa(k + 1);
      ItoaInjective(j + 1, k + 1);
    }
  }

  /** The first name tried is the wanted one, the second has the number 2 behind it, the next one 3 and so on. */
  lemma CandidateNumber(want: string, k: nat) returns (digits: string)
    ensures Candidate(want, 0) == want && Candidate(want, 1) == want + "_2"
    ensures AllDigits(digits) && Value(digits) == k + 1 && (k > 0 ==> Candidate(want, k) == want + "_" + digits)
  {
    digits := Itoa(k + 1);
    ItoaRoundTrip(k + 1);
  }

  /** The first name tried for `want` that is not taken. */
  ghost predicate IsFirstFree(want: string, id: string, taken: set<string>) {
    id !in taken && exists k: nat :: id == Candidate(want, k) && forall j: nat | j < k :: Candidate(want, j) in taken
  }

  /** So a name that is free stays as it is wanted. */
  lemma FreeStays(want: string, id: string, taken: set<string>)
    requires IsFirstFree(want, id, taken)
    ensures want !in taken <==> id == want
  {
    var k: nat :| id == Candidate(want, k) && forall j: nat | j < k :: Candidate(want, j) in taken;
    if k > 0 {
      assert Candidate(want, 0) in taken;
    }
  }

  class IdentifierAllocator {
    var taken: set<string>

    constructor (names: seq<string>)
      ensures taken == set n | n in names
    {
      taken := set n | n in names;
    }

    /** Terminates for every taken set, since the candidates differ, and takes the first free one. */
    method AllocateIdentifier(want: string) returns (id: string)
      modifies this
      ensures IsFirstFree(want, id, old(taken)) && taken == old(taken) + {id}
    {
      id := want;
      var i := 2;
      ghost var tried: set<string> := {};
      while true
        invariant i >= 2 && id == Candidate(want, i - 2)
        invariant forall j: nat | j < i - 2 :: Candidate(want, j) in taken
        invariant forall x | x in tried :: exists j: nat :: j < i - 2 && x == Candidate(want, j)
        invariant taken == old(taken)
        decreases taken - tried
      {
        if id !in taken {
          taken := taken + {id};
          return;
        }
        if id in tried {
          ghost var j: nat :| j < i - 2 && id == Candidate(want, j);
          CandidatesDiffer(want, j, i - 2);
        }
        tried := tried + {id};
        id := want + "_" + Itoa(i);
        i := i + 1;
      }
    }
  }

  predicate Distinct(s: seq<string>) {
    forall i: nat, j: nat | i < j < |s| :: s[i] != s[j]
  }

  /** The arguments' names and those given so far. */
  function Given(argNames: seq<string>, ids: seq<string>): set<string> {
    (set n | n in argNames) + (set n | n in ids)
  }

  /** Each name is the first one tried for it that neither an argument nor a name given before has. */
  ghost predicate Named(argNames: seq<string>, wants: seq<string>, ids: seq<string>) {
    && |ids| == |wants|
    && forall k: nat | k < |ids| :: IsFirstFree(wants[k], ids[k], Given(argNames, ids[..k]))
  }

  /** So they differ from the arguments and from each other. */
  lemma NamedDistinct(argNames: seq<string>, wants: seq<string>, ids: seq<string>)
    requires Named(argNames, wants, ids)
    ensures Distinct(ids) && forall k: nat | k < |ids| :: ids[k] !in argNames
  {
    forall i: nat, k: nat | i < k < |ids| ensures ids[i] != ids[k] {
      assert ids[..k][i] == ids[i] && IsFirstFree(wants[k], ids[k], Given(argNames, ids[..k]));
    }
  }

  /** `ids` were allocated for `wants` beside the arguments, and nothing else was. */
  ghost predicate Allocated(ia: IdentifierAllocator, argNames: seq<string>, wants: seq<string>, ids: seq<string>)
    reads ia
  {
    Named(argNames, wants, ids) && ia.taken == Given(argNames, ids)
  }

  method Allocate(ia: IdentifierAllocator, argNames: seq<string>, ghost wants: seq<string>, ids: seq<string>,
                  want: string)
    returns (more: seq<string>)
    requires Allocated(ia, argNames, wants, ids)
    modifies ia
    ensures Allocated(ia, argNames, wants + [want], more)
  {
    var id := ia.AllocateIdentifier(want);
    more := ids + [id];
    forall k: nat | k < |more| ensures IsFirstFree((wants + [want])[k], more[k], Given(argNames, more[..k])) {
      assert more[..k] == ids[..k];
    }
  }

  /** What GenerateMockMethod asks for, in order. */
  function MockWants(variadic: bool, outs: nat): seq<string> {
    ["m"] + (if variadic then ["varargs", "a"] else []) + RetWants(outs)
  }

  function RetWants(outs: nat): seq<string> {
    if outs == 0 then [] else ["ret"] + RetNames(outs)
  }

  function RetNames(outs: nat): seq<string> {
    if outs == 0 then [] else RetNames(outs - 1) + ["ret" + Itoa(outs - 1)]
  }

  method AllocateReturns(ia: IdentifierAllocator, argNames: seq<string>, ghost wants: seq<string>, ids: seq<string>,
                         outs: nat)
    returns (more: seq<string>)
    requires Allocated(ia, argNames, wants, ids)
    modifies ia
    ensures Allocated(ia, argNames, wants + RetWants(outs), more)
  {
    more := ids;
    assert wants + [] == wants;
    if outs > 0 {
      more := Allocate(ia, argNames, wants, more, "ret");
      ghost var all := wants + ["ret"];
      for i := 0 to outs
        invariant all == wants + (["ret"] + RetNames(i))
        invariant Allocated(ia, argNames, all, more)
      {
        more := Allocate(ia, argNames, all, more, "ret" + Itoa(i));
        all := all + ["ret" + Itoa(i)];
      }
    }
  }

  /** The identifiers of a mock method: all differ from each other and from the arguments, and none is renamed
      without need. */
  method MockMethodIdentifiers(argNames: seq<string>, variadic: bool, outs: nat) returns (ids: seq<string>)
    ensures Distinct(ids) && forall k: nat | k < |ids| :: ids[k] !in argNames
    ensures Named(argNames, MockWants(variadic, outs), ids)
  {
    var ia := new IdentifierAllocator(argNames);
    ids := Allocate(ia, argNames, [], [], "m");
    if variadic {
      ids := Allocate(ia, argNames, ["m"], ids, "varargs");
      ids := Allocate(ia, argNames, ["m", "varargs"], ids, "a");
    }
    ids := AllocateReturns(ia, argNames, ["m"] + (if variadic then ["varargs", "a"] else []), ids, outs);
    NamedDistinct(argNames, MockWants(variadic, outs), ids);
  }

  /** Those of a recorder method. */
  method RecorderIdentifiers(argNames: seq<string>, variadic: bool) returns (ids: seq<string>)
    ensures Distinct(ids) && forall k: nat | k < |ids| :: ids[k] !in argNames
    ensures Named(argNames, ["mr"] + (if variadic && |argNames| != 1 then ["varargs"] else []), ids)
  {
    var ia := new IdentifierAllocator(argNames);
    ids := Allocate(ia, argNames, [], [], "mr");
    if variadic && |argNames| != 1 {
      ids := Allocate(ia, argNames, ["mr"], ids, "varargs");
    }
    NamedDistinct(argNames, ["mr"] + (if variadic && |argNames| != 1 then ["varargs"] else []), ids);
  }

  // ----- Import aliases ------------------------------------------------------------------------

  const KEYWORDS: set<string> := {
    "break", "case", "chan", "const", "continue", "default", "defer", "else", "fallthrough", "for", "func", "go",
    "goto", "if", "import", "interface", "map", "package", "range", "return", "select", "struct", "switch", "type",
    "var"
  }

  /** The aliases tried: the base, then base0, base1, ... */
  function Alias(base: string, k: nat): string {
    if k == 0 then base else base + Itoa(k - 1)
  }

  lemma AliasesDiffer(base: string, j: nat, k: nat)
    requires Alias(base, j) == Alias(base, k)
    ensures j == k
  {
    if j > 0 {
      ItoaRoundTrip(j - 1);
      assert (base + Itoa(j - 1))[|base|..] == Itoa(j - 1);
    }
    if k > 0 {
      ItoaRoundTrip(k - 1);
      assert (base + Itoa(k - 1))[|base|..] == Itoa(k - 1);
    }
  }

  /** The first alias tried is the base, the second has a 0 behind it, the next one 1 and so on. */
  lemma AliasNumber(base: string, k: nat) returns (digits: string)
    ensures Alias(base, 0) == base && Alias(base, 1) == base + "0"
    ensures AllDigits(digits) && Value(digits) == k && Alias(base, k + 1) == base + digits
  {
    digits := Itoa(k);
    ItoaRoundTrip(k);
  }

  /** The first alias tried for `base` that is neither used nor a keyword. */
  ghost predicate IsFirstAlias(base: string, name: string, used: set<string>) {
    && name !in used + KEYWORDS
    && exists k: nat :: name == Alias(base, k) && forall j: nat | j < k :: Alias(base, j) in used + KEYWORDS
  }

  /** The search for one alias terminates and yields the first one that is neither local nor a keyword. */
  method FreeAlias(base: string, localNames: set<string>) returns (name: string)
    ensures IsFirstAlias(base, name, localNames)
  {
    name := base;
    var i := 0;
    ghost var tried: set<string> := {};
    while name in localNames || name in KEYWORDS
      invariant i >= 0 && name == Alias(base, i)
      invariant forall j: nat | j < i :: Alias(base, j) in localNames + KEYWORDS
      invariant forall x | x in tried :: exists j: nat :: j < i && x == Alias(base, j)
      decreases localNames + KEYWORDS - tried
    {
      if name in tried {
        ghost var j: nat :| j < i && name == Alias(base, j);
        AliasesDiffer(base, j, i);
      }
      tried := tried + {name};
      name := base + Itoa(i);
      i := i + 1;
    }
  }

  predicate Injective(m: map<string, string>) {
    forall p, q | p in m && q in m && m[p] == m[q] :: p == q
  }

  /** The aliases that these paths have. */
  function UsedBy(m: map<string, string>, paths: seq<string>): set<string> {
    set p | p in paths && p in m :: m[p]
  }

  /** Every imported path has the first alias tried for it that no path before it has and that is no keyword. */
  ghost predicate FirstAliases(m: map<string, string>, paths: seq<string>, base: string -> string) {
    forall i: nat | i < |paths| && paths[i] in m ::
      IsFirstAlias(base(paths[i]), m[paths[i]], UsedBy(m, paths[..i]))
  }

  lemma FirstAliasesMore(m: map<string, string>, paths: seq<string>, base: string -> string, pth: string, name: string)
    requires FirstAliases(m, paths, base) && pth !in paths && m.Keys <= set p | p in paths
    requires IsFirstAlias(base(pth), name, m.Values)
    ensures FirstAliases(m, paths + [pth], base) && FirstAliases(m[pth := name], paths + [pth], base)
  {
    var more, m' := paths + [pth], m[pth := name];
    forall i: nat | i < |more|
      ensures more[i] in m ==> IsFirstAlias(base(more[i]), m[more[i]], UsedBy(m, more[..i]))
      ensures more[i] in m' ==> IsFirstAlias(base(more[i]), m'[more[i]], UsedBy(m', more[..i]))
    {
      assert more[..i] == paths[..i];
      assert UsedBy(m', paths[..i]) == UsedBy(m, paths[..i]);
      if i == |paths| {
        assert UsedBy(m, paths) == m.Values;
      }
    }
  }

  lemma InjectiveMore(m: map<string, string>, p: string, name: string)
    requires Injective(m) && p !in m && name !in m.Values
    ensures Injective(m[p := name]) && m[p := name].Values == m.Values + {name}
  {
    var m' := m[p := name];
    assert p in m' && m'[p] == name;
    forall v ensures v in m'.Values <==> v in m.Values + {name} {
      if v in m.Values {
        var q :| q in m && m[q] == v;
        assert q in m' && m'[q] == v;
      }
    }
    forall q | q in m ensures m[q] in m.Values {
    }
  }

  /** The aliases of the imported paths, all but a package's own: no two paths share one, and none is a
      keyword.  `base` gives each path's preferred name. */
  method AssignAliases(paths: seq<string>, base: string -> string, own: set<string>)
    returns (packageMap: map<string, string>)
    requires Distinct(paths)
    ensures packageMap.Keys == (set p | p in paths) - own
    ensures Injective(packageMap) && packageMap.Values !! KEYWORDS && FirstAliases(packageMap, paths, base)
  {
    packageMap := map[];
    var localNames: set<string> := {};
    for i := 0 to |paths|
      invariant packageMap.Keys == (set p | p in paths[..i]) - own
      invariant localNames == packageMap.Values
      invariant Injective(packageMap) && packageMap.Values !! KEYWORDS && FirstAliases(packageMap, paths[..i], base)
    {
      var pth := paths[i];
      var pkgName := FreeAlias(base(pth), localNames);
      assert pth !in paths[..i] && paths[..i + 1] == paths[..i] + [pth];
      FirstAliasesMore(packageMap, paths[..i], base, pth, pkgName);
      if pth !in own {
        InjectiveMore(packageMap, pth, pkgName);
        packageMap := packageMap[pth := pkgName];
        localNames := localNames + {pkgName};
      }
    }
    assert paths[..|paths|] == paths;
  }
}
