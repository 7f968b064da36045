/** What the operations of mfs/mem_filesystem.go do to the name-to-file map and the tombstones, and
    what follows over whole directories. */
module FsSpec {
  import opened Wrappers
  import opened Ordering
  import opened Paths

  /** A file's original path ("" for none) and its content once it was set: the dirty ones. */
  datatype FileVal = FileVal(orig: string, content: Option<Bytes>)

  datatype FsState = FsState(files: map<string, FileVal>, removed: set<string>)

  /** Names are clean and no tombstone names a live file. */
  ghost predicate FsInv(s: FsState) {
    && (forall n {:trigger Clean(n)} | n in s.files :: Clean(n))
    && (forall n {:trigger Clean(n)} | n in s.removed :: Clean(n))
    && s.files.Keys !! s.removed
  }

  /** The live names in a directory. */
  function Below(s: FsState, dir: string): set<string> {
    set n | n in s.files && IsFileInDir(n, dir)
  }

  function Created(s: FsState, name: string, v: FileVal): FsState {
    FsState(s.files[name := v], s.removed - {name})
  }

  function RemovedOne(s: FsState, name: string): FsState {
    if name in s.files then FsState(s.files - {name}, s.removed + {name}) else s
  }

  /** What Remove and Erase take away: the file, or else everything in the directory. */
  function Doomed(s: FsState, name: string): set<string> {
    if name in s.files then {name} else Below(s, FmtDirWithoutSlash(name))
  }

  function Removed(s: FsState, name: string): FsState {
    if !IsValidFileName(name) then s
    else TakenAway(s, Doomed(s, name), true)
  }

  function Erased(s: FsState, name: string): FsState {
    if !IsValidFileName(name) then s
    else TakenAway(s, Doomed(s, name), false)
  }

  predicate CanRename(s: FsState, from: string, to: string) {
    IsValidFileName(from) && IsValidFileName(to) && from != to && from in s.files
  }

  function RenamedOne(s: FsState, from: string, to: string): FsState {
    if CanRename(s, from, to)
    then FsState((s.files - {to})[to := s.files[from]] - {from}, s.removed - {to})
    else s
  }

  /** Where Rename of a directory moves one of its files. */
  function MovedName(n: string, from: string, to: string): string {
    Join(to, TrimPrefix(n, from))
  }

  /** The loop of single-file renames over a snapshot of names. */
  function RenamedEach(s: FsState, names: seq<string>, from: string, to: string): FsState
    decreases |names|
  {
    if names == [] then s
    else RenamedEach(RenamedOne(s, names[0], MovedName(names[0], from, to)), names[1..], from, to)
  }

  ghost function Renamed(s: FsState, from: string, to: string): FsState {
    if CanRename(s, from, to) then RenamedOne(s, from, to)
    else RenamedEach(s, Listing(Below(s, FmtDirWithoutSlash(from))), from, to)
  }

  /** What a copy holds: a dirty file's content, or a clean file's original path. */
  function CopyVal(v: FileVal): FileVal {
    if v.content.Some? then FileVal("", v.content) else FileVal(v.orig, None)
  }

  /** One copy.  Copying a file onto itself first removes it and then dereferences nil, which
      panics: None. */
  function CopiedOne(s: FsState, from: string, to: string): Option<FsState> {
    if from !in s.files then Some(s)
    else if from == to then None
    else Some(Created(RemovedOne(s, to), to, CopyVal(s.files[from])))
  }

  /** A path with its leading directory replaced. */
  function Rebased(n: string, from: string, to: string): string {
    if HasPrefix(n, from) then to + n[|from|..] else n
  }

  function CopiedEach(s: FsState, names: seq<string>, from: string, to: string): Option<FsState>
    decreases |names|
  {
    if names == [] then Some(s)
    else
      match CopiedOne(s, names[0], Rebased(names[0], from, to))
      case None => None
      case Some(s') => CopiedEach(s', names[1..], from, to)
  }

  ghost function Copied(s: FsState, from: string, to: string): Option<FsState> {
    if !IsValidFileName(from) || !IsValidFileName(to) then Some(s)
    else if from in s.files then CopiedOne(s, from, to)
    else CopiedEach(s, Listing(Below(s, FmtDirWithoutSlash(from))), from, to)
  }

  lemma ReplacedEntry(m: map<string, FileVal>, n: string, v: FileVal)
    ensures (m - {n})[n := v] == m[n := v]
    ensures n !in m ==> m - {n} == m
  {
  }

  function ContentSet(s: FsState, name: string, data: Bytes): FsState {
    if name in s.files then s.(files := s.files[name := s.files[name].(content := Some(data))]) else s
  }

  /** The state after a file object got new content: it shows only if the object is the indexed one. */
  function Stored(s: FsState, indexed: bool, name: string, data: Bytes): FsState {
    if indexed then ContentSet(s, name, data) else s
  }

  /** Rename takes a clean source directory, or none for the whole tree. */
  predicate SourceDir(from: string) {
    from == "" || CleanDir(from)
  }

  lemma MovedNameClean(n: string, from: string, to: string)
    requires Clean(n) && SourceDir(from) && CleanDir(to) && IsFileInDir(n, FmtDirWithoutSlash(from))
    ensures Clean(MovedName(n, from, to))
  {
    if Clean(from) {
      CleanIsValid(from);
      UnderIs(n, from);
    }
    JoinIs(to, TrimPrefix(n, from));
  }

  lemma CreatedThenSet(s: FsState, name: string, orig: string, data: Bytes)
    ensures ContentSet(Created(s, name, FileVal(orig, None)), name, data)
         == Created(s, name, FileVal(orig, Some(data)))
  {
  }

  lemma RenamedEachStep(s: FsState, names: seq<string>, i: nat, from: string, to: string)
    requires i < |names|
    ensures RenamedEach(s, names[i..], from, to)
         == RenamedEach(RenamedOne(s, names[i], MovedName(names[i], from, to)), names[i + 1..], from, to)
  {
    assert names[i..][1..] == names[i + 1..];
  }

  lemma CopiedEachStep(s: FsState, names: seq<string>, i: nat, from: string, to: string)
    requires i < |names|
    ensures
      var r := CopiedOne(s, names[i], Rebased(names[i], from, to));
      CopiedEach(s, names[i..], from, to)
        == if r.None? then None else CopiedEach(r.value, names[i + 1..], from, to)
  {
    assert names[i..][1..] == names[i + 1..];
  }

  /** Taking away the first names of a listing, with or without leaving tombstones. */
  function TakenAway(s: FsState, gone: set<string>, mark: bool): FsState {
    FsState(s.files - gone, if mark then s.removed + gone else s.removed - gone)
  }

  lemma OneMoreTaken(s: FsState, names: seq<string>, i: nat, mark: bool)
    requires i < |names| && StrictlySorted(names) && names[i] in s.files
    ensures names[i] in TakenAway(s, SetOf(names[..i]), mark).files
    ensures TakenAway(TakenAway(s, SetOf(names[..i]), mark), {names[i]}, mark)
         == TakenAway(s, SetOf(names[..i + 1]), mark)
  {
    assert SetOf(names[..i + 1]) == SetOf(names[..i]) + {names[i]};
    if names[i] in names[..i] {
      var j: nat :| j < i && names[j] == names[i];
      StrictIsDistinct(names, i, j);
    }
  }

  /** The entries of a listing that lie directly in `dir`. */
  function Children(list: seq<string>, dir: string): seq<string> {
    if list == [] then []
    else
      var n := |list| - 1;
      Children(list[..n], dir) + (if dir == Parent(list[n]) then [list[n]] else [])
  }

  lemma {:induction false} ChildrenSorted(list: seq<string>, dir: string)
    requires StrictlySorted(list)
    ensures StrictlySorted(Children(list, dir))
    ensures forall x :: x in Children(list, dir) <==> x in list && dir == Parent(x)
  {
    if list != [] {
      var n := |list| - 1;
      ChildrenSorted(list[..n], dir);
      var r := Children(list[..n], dir);
      assert list == list[..n] + [list[n]];
      forall x | x in r ensures Less(x, list[n]) {
        assert x in list[..n];
      }
    }
  }

  // ----- What the operations do, name by name --------------------------------------------------

  /** What a removal or an erasure of `name` takes: the file of that name, or if there is none, everything
      below it. */
  predicate Taken(s: FsState, name: string, n: string) {
    n in s.files && (n == name || (name !in s.files && IsFileInDir(n, name)))
  }

  /** Remove takes exactly those files and leaves exactly them as new tombstones. */
  lemma RemovedIs(s: FsState, name: string)
    requires FsInv(s) && Clean(name)
    ensures
      var r := Removed(s, name);
      && (forall n :: n in r.files <==> n in s.files && !Taken(s, name, n))
      && (forall n | n in r.files :: r.files[n] == s.files[n])
      && (forall n :: n in r.removed <==> n in s.removed || Taken(s, name, n))
  {
    CleanIsValid(name);
  }

  /** Erase takes the same files and leaves the tombstones as they were. */
  lemma ErasedIs(s: FsState, name: string)
    requires FsInv(s) && Clean(name)
    ensures Erased(s, name).files == Removed(s, name).files && Erased(s, name).removed == s.removed
  {
    CleanIsValid(name);
  }

  /** Renaming a file moves its entry, over what was there; the old name becomes no tombstone and the new one
      is none any more. */
  lemma RenameFileIs(s: FsState, from: string, to: string)
    requires FsInv(s) && Clean(from) && Clean(to) && from != to && from in s.files
    ensures
      var r := Renamed(s, from, to);
      && to in r.files && r.files[to] == s.files[from] && from !in r.files
      && (forall n | n != from && n != to ::
            (n in r.files <==> n in s.files) && (n in s.files ==> r.files[n] == s.files[n]))
      && (forall n :: n in r.removed <==> n in s.removed && n != to)
  {
    CleanIsValid(from);
    CleanIsValid(to);
  }

  /** A name with a trailing slash is no file name: removing, erasing or copying it, or to it, does nothing. */
  lemma TrailingSlashIgnored(s: FsState, name: string, other: string)
    requires Clean(name)
    ensures Removed(s, name + "/") == s && Erased(s, name + "/") == s
    ensures Copied(s, name + "/", other) == Some(s) && Copied(s, other, name + "/") == Some(s)
  {
  }

  // ----- Tombstones --------------------------------------------------------------------------

  lemma {:induction false} RenamedEachInv(s: FsState, names: seq<string>, from: string, to: string)
    requires FsInv(s) && forall n | n in names :: Clean(MovedName(n, from, to))
    ensures FsInv(RenamedEach(s, names, from, to))
    decreases |names|
  {
    if names != [] {
      assert names[0] in names;
      RenamedEachInv(RenamedOne(s, names[0], MovedName(names[0], from, to)), names[1..], from, to);
    }
  }

  lemma {:induction false} CopiedEachInv(s: FsState, names: seq<string>, from: string, to: string)
    requires FsInv(s) && forall n | n in names :: Clean(Rebased(n, from, to))
    ensures CopiedEach(s, names, from, to).Some? ==> FsInv(CopiedEach(s, names, from, to).value)
    decreases |names|
  {
    if names != [] {
      assert names[0] in names;
      var r := CopiedOne(s, names[0], Rebased(names[0], from, to));
      if r.Some? {
        CopiedEachInv(r.value, names[1..], from, to);
      }
    }
  }

  // ----- Renaming a directory ----------------------------------------------------------------

  /** Neither path equals or contains the other. */
  predicate Apart(from: string, to: string) {
    from != to && !IsFileInDir(from, to) && !IsFileInDir(to, from)
  }

  lemma RebasedIs(n: string, from: string, to: string)
    requires Clean(n) && Clean(from) && Clean(to) && IsFileInDir(n, from)
    ensures Rebased(n, from, to) == MovedName(n, from, to)
    ensures Clean(Rebased(n, from, to)) && IsFileInDir(Rebased(n, from, to), to)
    ensures Rebased(Rebased(n, from, to), to, from) == n
  {
    UnderIs(n, from);
    JoinIs(to, n[|from|..]);
    ConcatIsUnder(to, n[|from|..]);
  }

  ghost predicate Movable(names: seq<string>, from: string, to: string) {
    && Clean(from) && Clean(to) && Apart(from, to)
    && StrictlySorted(names)
    && (forall n | n in names :: Clean(n) && IsFileInDir(n, from))
  }

  /** The names that the moves of `names` fill. */
  function Targets(names: seq<string>, from: string, to: string): set<string> {
    set n | n in names :: Rebased(n, from, to)
  }

  /** Targets are new names, different for different files. */
  lemma TargetFacts(names: seq<string>, from: string, to: string)
    requires Movable(names, from, to)
    ensures forall n, m | n in names && m in names && Rebased(n, from, to) == Rebased(m, from, to) :: n == m
    ensures forall n | n in names :: n !in Targets(names, from, to)
  {
    forall n, m | n in names && m in names && Rebased(n, from, to) == Rebased(m, from, to) ensures n == m {
      RebasedIs(n, from, to);
      RebasedIs(m, from, to);
    }
    forall m | m in names ensures !IsFileInDir(Rebased(m, from, to), from) {
      RebasedIs(m, from, to);
      if IsFileInDir(Rebased(m, from, to), from) {
        UnderLinear(Rebased(m, from, to), from, to);
      }
    }
  }

  lemma HeadAndTail(names: seq<string>, from: string, to: string)
    requires Movable(names, from, to) && names != []
    ensures Movable(names[1..], from, to) && names[0] in names
    ensures forall n :: n in names[1..] <==> n in names && n != names[0]
    ensures Targets(names, from, to) == Targets(names[1..], from, to) + {Rebased(names[0], from, to)}
  {
    TailSet(names);
    assert forall n :: n in names[1..] <==> n in SetOf(names[1..]);
    assert forall n :: n in names <==> n in SetOf(names);
  }

  /** `r` is `s` with the files `names` moved to their targets. */
  ghost predicate IsMoved(r: FsState, s: FsState, names: seq<string>, from: string, to: string)
    requires forall n | n in names :: n in s.files
  {
    && r.removed == s.removed - Targets(names, from, to)
    && (forall n :: n in r.files <==> n in Targets(names, from, to) || (n in s.files && n !in names))
    && (forall n | n in names :: Rebased(n, from, to) in r.files && r.files[Rebased(n, from, to)] == s.files[n])
    && (forall n | n in r.files && n !in Targets(names, from, to) :: r.files[n] == s.files[n])
  }

  lemma RenamedOneIs(s: FsState, n: string, from: string, to: string)
    requires Clean(n) && Clean(from) && Clean(to) && IsFileInDir(n, from) && n in s.files
    requires Rebased(n, from, to) != n
    ensures
      var t := Rebased(n, from, to);
      RenamedOne(s, n, MovedName(n, from, to))
        == FsState((s.files - {t})[t := s.files[n]] - {n}, s.removed - {t})
  {
    RebasedIs(n, from, to);
    CleanIsValid(n);
    CleanIsValid(Rebased(n, from, to));
  }

  /** The loop of single-file renames moves all of its files. */
  lemma {:induction false} RenamedEachMoves(s: FsState, names: seq<string>, from: string, to: string)
    requires Movable(names, from, to) && forall n | n in names :: n in s.files
    ensures IsMoved(RenamedEach(s, names, from, to), s, names, from, to)
    decreases |names|
  {
    if names != [] {
      var n0, t0 := names[0], Rebased(names[0], from, to);
      HeadAndTail(names, from, to);
      TargetFacts(names, from, to);
      assert t0 in Targets(names, from, to);
      RenamedOneIs(s, n0, from, to);
      var s1 := RenamedOne(s, n0, MovedName(n0, from, to));
      forall n | n in names[1..] ensures n in s1.files && s1.files[n] == s.files[n] {
        assert n in names;
      }
      RenamedEachMoves(s1, names[1..], from, to);
      assert t0 !in Targets(names[1..], from, to);
    }
  }

  /** A file of `from` arrives at `n`. */
  predicate Arrives(s: FsState, n: string, from: string, to: string) {
    Clean(n) && IsFileInDir(n, to) && Rebased(n, to, from) in s.files
  }

  function Kept(s: FsState, from: string): set<string> {
    set n | n in s.files && !IsFileInDir(n, from)
  }

  function Arrived(s: FsState, from: string, to: string): set<string> {
    set n | n in s.files && IsFileInDir(n, from) :: Rebased(n, from, to)
  }

  function MovedVal(s: FsState, n: string, from: string, to: string): FileVal {
    if Arrives(s, n, from, to) then s.files[Rebased(n, to, from)]
    else if n in s.files then s.files[n]
    else FileVal("", None)
  }

  /** The state with every `from/rest` moved to `to/rest`. */
  function DirMoved(s: FsState, from: string, to: string): FsState {
    FsState(map n | n in Kept(s, from) + Arrived(s, from, to) :: MovedVal(s, n, from, to),
            set n | n in s.removed && !Arrives(s, n, from, to))
  }

  lemma TargetsArrive(s: FsState, names: seq<string>, from: string, to: string)
    requires FsInv(s) && Movable(names, from, to)
    requires forall n :: n in names <==> n in s.files && IsFileInDir(n, from)
    ensures forall n :: n in Targets(names, from, to) <==> Arrives(s, n, from, to)
    ensures forall n | n in names :: Clean(MovedName(n, from, to))
  {
    forall n | n in names
      ensures Clean(MovedName(n, from, to)) && Arrives(s, Rebased(n, from, to), from, to)
    {
      RebasedIs(n, from, to);
    }
    forall n | Arrives(s, n, from, to) ensures n in Targets(names, from, to) {
      RebasedIs(n, to, from);
      assert Rebased(n, to, from) in names;
    }
  }

  lemma MovedFiles(r: FsState, s: FsState, names: seq<string>, from: string, to: string)
    requires FsInv(s) && Movable(names, from, to)
    requires forall n :: n in names <==> n in s.files && IsFileInDir(n, from)
    requires forall n :: n in Targets(names, from, to) <==> Arrives(s, n, from, to)
    requires IsMoved(r, s, names, from, to)
    ensures r.files.Keys == Kept(s, from) + Arrived(s, from, to)
    ensures forall n | n in r.files :: r.files[n] == MovedVal(s, n, from, to)
  {
    assert Arrived(s, from, to) == Targets(names, from, to);
    forall n | n in r.files ensures r.files[n] == MovedVal(s, n, from, to) {
      if Arrives(s, n, from, to) {
        RebasedIs(n, to, from);
      }
    }
  }

  /** Renaming a directory.  When neither path equals or contains the other and the source is not
      itself a file, the result is exactly the old map with every `from/rest` moved to `to/rest`,
      replacing what was there, and every other entry as it was. */
  lemma RenameDirectory(s: FsState, from: string, to: string)
    requires FsInv(s) && Clean(from) && Clean(to) && Apart(from, to) && from !in s.files
    ensures Renamed(s, from, to) == DirMoved(s, from, to)
    ensures FsInv(Renamed(s, from, to))
  {
    CleanIsValid(from);
    var names := Listing(Below(s, from));
    assert forall n :: n in names <==> n in SetOf(names);
    EachIsDirMoved(s, names, from, to);
  }

  lemma EachIsDirMoved(s: FsState, names: seq<string>, from: string, to: string)
    requires FsInv(s) && Movable(names, from, to)
    requires forall n :: n in names <==> n in s.files && IsFileInDir(n, from)
    ensures RenamedEach(s, names, from, to) == DirMoved(s, from, to)
    ensures FsInv(RenamedEach(s, names, from, to))
  {
    TargetsArrive(s, names, from, to);
    RenamedEachInv(s, names, from, to);
    RenamedEachMoves(s, names, from, to);
    MovedFiles(RenamedEach(s, names, from, to), s, names, from, to);
  }

  // ----- Copying -----------------------------------------------------------------------------

  /** Copy panics exactly when source and target are the same path and there is something to copy. */
  lemma CopyPanics(s: FsState, from: string, to: string)
    requires FsInv(s) && Clean(from) && Clean(to)
    ensures Copied(s, from, to).None? <==> from == to && (from in s.files || Below(s, from) != {})
  {
    CleanIsValid(from);
    CleanIsValid(to);
    if from !in s.files {
      var names := Listing(Below(s, from));
      assert forall n :: n in names <==> n in SetOf(names);
      if from == to {
        if names != [] {
          assert names[0] in names;
          RebasedIs(names[0], from, to);
        } else {
          assert Below(s, from) == {};
        }
      } else {
        CopyEachSucceeds(s, names, from, to);
      }
    }
  }

  lemma {:induction false} CopyEachSucceeds(s: FsState, names: seq<string>, from: string, to: string)
    requires Clean(from) && Clean(to) && from != to
    requires forall n | n in names :: Clean(n) && IsFileInDir(n, from)
    ensures CopiedEach(s, names, from, to).Some?
    decreases |names|
  {
    if names != [] {
      var n := names[0];
      assert n in names;
      UnderIs(n, from);
      assert n[..|from|] == from && Rebased(n, from, to)[..|to|] == to;
      CopyEachSucceeds(CopiedOne(s, n, Rebased(n, from, to)).value, names[1..], from, to);
    }
  }

  /** `r` is `s` with the files `names` copied to their targets. */
  ghost predicate IsCopied(r: FsState, s: FsState, names: seq<string>, from: string, to: string)
    requires forall n | n in names :: n in s.files
  {
    && r.removed == s.removed - Targets(names, from, to)
    && (forall n :: n in r.files <==> n in Targets(names, from, to) || n in s.files)
    && (forall n | n in names ::
          Rebased(n, from, to) in r.files && r.files[Rebased(n, from, to)] == CopyVal(s.files[n]))
    && (forall n | n in r.files && n !in Targets(names, from, to) :: r.files[n] == s.files[n])
  }

  /** The loop of single-file copies copies all of its files. */
  lemma {:induction false} CopiedEachCopies(s: FsState, names: seq<string>, from: string, to: string)
    requires Movable(names, from, to) && forall n | n in names :: n in s.files
    ensures CopiedEach(s, names, from, to).Some?
    ensures IsCopied(CopiedEach(s, names, from, to).value, s, names, from, to)
    decreases |names|
  {
    if names != [] {
      var n0, t0 := names[0], Rebased(names[0], from, to);
      HeadAndTail(names, from, to);
      TargetFacts(names, from, to);
      assert t0 in Targets(names, from, to);
      var s1 := CopiedOne(s, n0, t0).value;
      forall n | n in names[1..] ensures n in s1.files && s1.files[n] == s.files[n] {
        assert n in names;
      }
      CopiedEachCopies(s1, names[1..], from, to);
      assert t0 !in Targets(names[1..], from, to);
    }
  }

  function CopiedVal(s: FsState, n: string, from: string, to: string): FileVal {
    if Arrives(s, n, from, to) then CopyVal(s.files[Rebased(n, to, from)])
    else if n in s.files then s.files[n]
    else FileVal("", None)
  }

  /** The state with a copy of every `from/rest` at `to/rest`. */
  function DirCopied(s: FsState, from: string, to: string): FsState {
    FsState(map n | n in s.files.Keys + Arrived(s, from, to) :: CopiedVal(s, n, from, to),
            set n | n in s.removed && !Arrives(s, n, from, to))
  }

  lemma CopiedFiles(r: FsState, s: FsState, names: seq<string>, from: string, to: string)
    requires FsInv(s) && Movable(names, from, to)
    requires forall n :: n in names <==> n in s.files && IsFileInDir(n, from)
    requires forall n :: n in Targets(names, from, to) <==> Arrives(s, n, from, to)
    requires IsCopied(r, s, names, from, to)
    ensures r.files.Keys == s.files.Keys + Arrived(s, from, to)
    ensures forall n | n in r.files :: r.files[n] == CopiedVal(s, n, from, to)
  {
    assert Arrived(s, from, to) == Targets(names, from, to);
    forall n | n in r.files ensures r.files[n] == CopiedVal(s, n, from, to) {
      if Arrives(s, n, from, to) {
        RebasedIs(n, to, from);
      }
    }
  }

  lemma CopiedIs(r: FsState, s: FsState, names: seq<string>, from: string, to: string)
    requires FsInv(s) && Movable(names, from, to)
    requires forall n :: n in names <==> n in s.files && IsFileInDir(n, from)
    requires forall n :: n in Targets(names, from, to) <==> Arrives(s, n, from, to)
    requires IsCopied(r, s, names, from, to)
    ensures r == DirCopied(s, from, to)
  {
    CopiedFiles(r, s, names, from, to);
    assert r.files == DirCopied(s, from, to).files;
    assert r.removed == DirCopied(s, from, to).removed;
  }

  lemma EachIsDirCopied(s: FsState, names: seq<string>, from: string, to: string)
    requires FsInv(s) && Movable(names, from, to)
    requires forall n :: n in names <==> n in s.files && IsFileInDir(n, from)
    ensures CopiedEach(s, names, from, to) == Some(DirCopied(s, from, to))
  {
    TargetsArrive(s, names, from, to);
    CopiedEachCopies(s, names, from, to);
    CopiedIs(CopiedEach(s, names, from, to).value, s, names, from, to);
  }

  /** Copying a directory, under the conditions of RenameDirectory: every `to/rest` gets what a copy of
      `from/rest` holds, loses its tombstone, and every other entry and tombstone is as it was. */
  lemma CopyDirectory(s: FsState, from: string, to: string)
    requires FsInv(s) && Clean(from) && Clean(to) && Apart(from, to) && from !in s.files
    ensures Copied(s, from, to) == Some(DirCopied(s, from, to))
  {
    CleanIsValid(from);
    CleanIsValid(to);
    var names := Listing(Below(s, from));
    assert forall n :: n in names <==> n in SetOf(names);
    EachIsDirCopied(s, names, from, to);
  }

  // ----- Any sequence of operations ----------------------------------------------------------

  datatype Op =
    | CreateOp(name: string, orig: string)
    | ContentOp(name: string, data: Bytes)
    | RemoveOp(name: string)
    | EraseOp(name: string)
    | RenameOp(from: string, to: string)
    | CopyOp(from: string, to: string)

  /** Clean absolute paths, and no copy onto itself. */
  predicate Good(op: Op) {
    match op
    case CreateOp(n, _) => Clean(n)
    case ContentOp(n, _) => Clean(n)
    case RemoveOp(n) => Clean(n)
    case EraseOp(n) => Clean(n)
    case RenameOp(a, b) => Clean(a) && Clean(b)
    case CopyOp(a, b) => Clean(a) && Clean(b) && a != b
  }

  ghost function ApplyOp(s: FsState, op: Op): FsState {
    match op
    case CreateOp(n, orig) => Created(s, n, FileVal(orig, None))
    case ContentOp(n, data) => ContentSet(s, n, data)
    case RemoveOp(n) => Removed(s, n)
    case EraseOp(n) => Erased(s, n)
    case RenameOp(a, b) => Renamed(s, a, b)
    case CopyOp(a, b) => if Copied(s, a, b).Some? then Copied(s, a, b).value else s
  }

  ghost function ApplyOps(s: FsState, ops: seq<Op>): FsState {
    if ops == [] then s else ApplyOp(ApplyOps(s, ops[..|ops| - 1]), ops[|ops| - 1])
  }

  lemma RenamedInv(s: FsState, a: string, b: string)
    requires FsInv(s) && Clean(a) && Clean(b)
    ensures FsInv(Renamed(s, a, b))
  {
    if !CanRename(s, a, b) {
      CleanIsValid(a);
      var names := Listing(Below(s, a));
      forall n | n in names ensures Clean(MovedName(n, a, b)) {
        assert n in SetOf(names);
        RebasedIs(n, a, b);
      }
      RenamedEachInv(s, names, a, b);
    }
  }

  lemma CopiedInv(s: FsState, a: string, b: string)
    requires FsInv(s) && Clean(a) && Clean(b)
    ensures Copied(s, a, b).Some? ==> FsInv(Copied(s, a, b).value)
  {
    if a !in s.files {
      CleanIsValid(a);
      var names := Listing(Below(s, a));
      forall n | n in names ensures Clean(Rebased(n, a, b)) {
        assert n in SetOf(names);
        RebasedIs(n, a, b);
      }
      CopiedEachInv(s, names, a, b);
    }
  }

  /** Every operation keeps names clean and tombstones off live files. */
  lemma ApplyOpInv(s: FsState, op: Op)
    requires FsInv(s) && Good(op)
    ensures FsInv(ApplyOp(s, op))
  {
    if op.RenameOp? {
      RenamedInv(s, op.from, op.to);
    } else if op.CopyOp? {
      CopiedInv(s, op.from, op.to);
    }
  }

  lemma {:induction false} ApplyOpsInv(s: FsState, ops: seq<Op>)
    requires FsInv(s) && forall i: nat | i < |ops| :: Good(ops[i])
    ensures FsInv(ApplyOps(s, ops))
  {
    if ops != [] {
      ApplyOpsInv(s, ops[..|ops| - 1]);
      ApplyOpInv(ApplyOps(s, ops[..|ops| - 1]), ops[|ops| - 1]);
    }
  }
}
