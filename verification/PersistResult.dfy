/** What Persist without hooks achieves: its result in closed form, and exactly when that is right. */
module PersistResult {
  import opened Wrappers
  import opened Ordering
  import opened Paths
  import opened FsSpec
  import opened PersistSpec

  // ----- What ends up on disk ----------------------------------------------------------------

  /** The files persisted before `n`. */
  function Before(s: FsState, n: string): set<string> {
    set m | m in s.files && Less(m, n)
  }

  lemma BeforeShrinks(s: FsState, m: string, n: string)
    requires m in Before(s, n)
    ensures Before(s, m) < Before(s, n)
  {
    forall x | x in Before(s, m) ensures x in Before(s, n) {
      LessTransitive(x, m, n);
    }
    LessIrreflexive(m);
  }

  /** Clean file `n` was loaded from where the earlier file `m` is written. */
  ghost predicate IsOver(s: FsState, root: string, m: string, n: string)
    requires n in s.files
  {
    m in Before(s, n) && s.files[n].content.None? && s.files[n].orig == Join(root, m)
  }

  /** The file, if any, that is written over the original of `n` before its turn. */
  ghost function Over(s: FsState, root: string, n: string): (o: Option<string>)
    requires n in s.files
    ensures o.Some? ==> IsOver(s, root, o.value, n)
    ensures o.None? ==> forall m :: !IsOver(s, root, m, n)
  {
    if exists m :: IsOver(s, root, m, n) then
      var m :| IsOver(s, root, m, n);
      Some(m)
    else None
  }

  lemma OverIs(s: FsState, root: string, m: string, n: string)
    requires FsInv(s) && CleanDir(root) && n in s.files && IsOver(s, root, m, n)
    ensures Over(s, root, n) == Some(m)
  {
    JoinInjective(root, Over(s, root, n).value, m);
  }

  /** Persist writes file `n`: it is to be written, there is something to write, and neither the initial
      disk nor an earlier file above it is in the way. */
  ghost predicate Lands(d0: Disk, s: FsState, root: string, n: string)
    requires n in s.files
    decreases Before(s, n), 1
  {
    && Written(s.files[n], Join(root, n)) && Open(d0, Join(root, n))
    && Given(d0, s, root, n).Some?
    && forall m | m in Before(s, n) && IsFileInDir(n, m) :: (BeforeShrinks(s, m, n); !Lands(d0, s, root, m))
  }

  /** What file `n` has to write at its turn: what was set, or what an earlier file wrote over its original,
      or what the original held initially. */
  ghost function Given(d0: Disk, s: FsState, root: string, n: string): Option<Bytes>
    requires n in s.files
    decreases Before(s, n), 0
  {
    var o := Over(s, root, n);
    if o.Some? && (BeforeShrinks(s, o.value, n); Lands(d0, s, root, o.value))
    then Given(d0, s, root, o.value)
    else ContentOf(d0, s.files[n])
  }

  /** An earlier file `m` is written over the original of `n`. */
  ghost predicate Supplies(d0: Disk, s: FsState, root: string, m: string, n: string)
    requires n in s.files
  {
    IsOver(s, root, m, n) && Lands(d0, s, root, m)
  }

  lemma GivenFrom(d0: Disk, s: FsState, root: string, m: string, n: string)
    requires FsInv(s) && CleanDir(root) && n in s.files && Supplies(d0, s, root, m, n)
    ensures Given(d0, s, root, n) == Given(d0, s, root, m) && Given(d0, s, root, m).Some?
  {
    OverIs(s, root, m, n);
  }

  lemma NotSupplied(d0: Disk, s: FsState, root: string, n: string)
    requires FsInv(s) && CleanDir(root) && n in s.files && forall m :: !Supplies(d0, s, root, m, n)
    ensures Given(d0, s, root, n) == ContentOf(d0, s.files[n])
  {
    var o := Over(s, root, n);
    if o.Some? {
      assert !Supplies(d0, s, root, o.value, n);
    }
  }

  /** The paths written for `names`. */
  ghost function Landed(d0: Disk, s: FsState, root: string, names: set<string>): set<string> {
    set n | n in names && n in s.files && Lands(d0, s, root, n) :: Join(root, n)
  }

  /** The directories that persisting `names` may make. */
  function DirsAbove(root: string, names: set<string>): set<string> {
    set n, a | n in names && a in Ancestors(Join(root, n)) :: a
  }

  /** Disk `d` is the initial one with what lands of `names`. */
  ghost predicate Tracks(d: Disk, d0: Disk, s: FsState, root: string, names: set<string>) {
    && d.files.Keys == d0.files.Keys + Landed(d0, s, root, names)
    && (forall n | n in names && n in s.files && Lands(d0, s, root, n) ::
          d.files[Join(root, n)] == Given(d0, s, root, n).value)
    && (forall p | p in d.files && p !in Landed(d0, s, root, names) :: d.files[p] == d0.files[p])
    && d0.dirs <= d.dirs <= d0.dirs + DirsAbove(root, names)
  }

  lemma UnderIsLater(n: string, m: string)
    requires IsFileInDir(m, n)
    ensures Less(n, m)
  {
    assert m[..|n|] == FmtDirWithSlash(n)[..|n|] == n;
    PrefixLess(n, m);
  }

  /** Of the paths written before a clean `n`, its original is one exactly if some file supplies it. */
  lemma SupplierLanded(d0: Disk, s: FsState, root: string, n: string)
    requires n in s.files && s.files[n].content.None?
    ensures s.files[n].orig in Landed(d0, s, root, Before(s, n)) <==> exists m :: Supplies(d0, s, root, m, n)
  {
    if s.files[n].orig in Landed(d0, s, root, Before(s, n)) {
      var m :| m in Before(s, n) && m in s.files && Lands(d0, s, root, m) && s.files[n].orig == Join(root, m);
      assert Supplies(d0, s, root, m, n);
    }
    if m :| Supplies(d0, s, root, m, n) {
      assert Join(root, m) in Landed(d0, s, root, Before(s, n));
    }
  }

  /** What is on disk where a file of `names` landed. */
  lemma LandedValue(d: Disk, d0: Disk, s: FsState, root: string, names: set<string>, m: string)
    requires Tracks(d, d0, s, root, names) && m in names && m in s.files && Lands(d0, s, root, m)
    ensures Join(root, m) in d.files && d.files[Join(root, m)] == Given(d0, s, root, m).value
  {
    assert Join(root, m) in Landed(d0, s, root, names);
  }

  /** ... and where none did. */
  lemma OldValue(d: Disk, d0: Disk, s: FsState, root: string, names: set<string>, v: FileVal)
    requires Tracks(d, d0, s, root, names) && v.orig !in Landed(d0, s, root, names)
    ensures ContentOf(d, v) == ContentOf(d0, v)
  {
  }

  /** A file reads at its turn what it is given. */
  lemma ReadsGiven(d: Disk, d0: Disk, s: FsState, root: string, n: string)
    requires FsInv(s) && CleanDir(root) && n in s.files && Tracks(d, d0, s, root, Before(s, n))
    ensures ContentOf(d, s.files[n]) == Given(d0, s, root, n)
  {
    var v := s.files[n];
    if m :| Supplies(d0, s, root, m, n) {
      GivenFrom(d0, s, root, m, n);
      JoinIs(root, m);
      LandedValue(d, d0, s, root, Before(s, n), m);
    } else {
      NotSupplied(d0, s, root, n);
      if v.content.None? {
        SupplierLanded(d0, s, root, n);
        OldValue(d, d0, s, root, Before(s, n), v);
      }
    }
  }

  /** What stands in its way then is what Lands says. */
  lemma OpenAtTurn(d: Disk, d0: Disk, s: FsState, root: string, n: string)
    requires FsInv(s) && CleanDir(root) && n in s.files && Tracks(d, d0, s, root, Before(s, n))
    ensures Open(d, Join(root, n)) <==>
      Open(d0, Join(root, n)) && forall m | m in Before(s, n) && IsFileInDir(n, m) :: !Lands(d0, s, root, m)
  {
    var target := Join(root, n);
    JoinIs(root, n);
    if target in DirsAbove(root, Before(s, n)) {
      var m, a :| m in Before(s, n) && a in Ancestors(Join(root, m)) && a == target;
      NotUnderEarlier(root, m, n);
    }
    forall m | m in Before(s, n) && m in s.files && Lands(d0, s, root, m)
      ensures Join(root, m) in Ancestors(target) <==> IsFileInDir(n, m)
    {
      JoinIs(root, m);
      AncestorIsAbove(target, Join(root, m));
      JoinKeepsUnder(root, n, m);
    }
    if FileAbove(d0, target) {
      var a :| a in Ancestors(target) && a in d0.files;
      assert a in d.files;
    }
    forall m | m in Before(s, n) && IsFileInDir(n, m) && Lands(d0, s, root, m) ensures FileAbove(d, target) {
      assert Join(root, m) in Landed(d0, s, root, Before(s, n));
    }
    if FileAbove(d, target) && !FileAbove(d0, target) {
      var a :| a in Ancestors(target) && a in d.files;
      assert a in Landed(d0, s, root, Before(s, n));
    }
  }

  lemma NotUnderEarlier(root: string, m: string, n: string)
    requires CleanDir(root) && Clean(m) && Clean(n) && Less(m, n)
    ensures Join(root, n) !in Ancestors(Join(root, m))
  {
    JoinIs(root, m);
    JoinIs(root, n);
    AncestorIsAbove(Join(root, m), Join(root, n));
    JoinKeepsUnder(root, m, n);
    if IsFileInDir(m, n) {
      UnderIsLater(n, m);
      LessTransitive(m, n, m);
      LessIrreflexive(m);
    }
  }

  /** What persisting the next file does. */
  lemma NextFile(d: Disk, d0: Disk, s: FsState, root: string, n: string)
    requires FsInv(s) && CleanDir(root) && n in s.files && Tracks(d, d0, s, root, Before(s, n))
    ensures
      var d' := PersistFile(d, Join(root, n), s.files[n]);
      && d.dirs <= d'.dirs <= d.dirs + Ancestors(Join(root, n))
      && d'.files == if Lands(d0, s, root, n)
                     then d.files[Join(root, n) := Given(d0, s, root, n).value]
                     else d.files
  {
    JoinIs(root, n);
    ReadsGiven(d, d0, s, root, n);
    OpenAtTurn(d, d0, s, root, n);
    PersistFileIs(d, Join(root, n), s.files[n]);
  }

  lemma LandedMore(d0: Disk, s: FsState, root: string, before: set<string>, n: string)
    requires n in s.files
    ensures Landed(d0, s, root, before + {n})
         == Landed(d0, s, root, before) + (if Lands(d0, s, root, n) then {Join(root, n)} else {})
    ensures DirsAbove(root, before + {n}) == DirsAbove(root, before) + Ancestors(Join(root, n))
  {
  }

  lemma ValuesMore(d': Disk, d: Disk, d0: Disk, s: FsState, root: string, before: set<string>, n: string, m: string)
    requires FsInv(s) && CleanDir(root) && n in s.files && n !in before && before <= s.files.Keys
    requires Tracks(d, d0, s, root, before) && m in before + {n} && Lands(d0, s, root, m)
    requires d'.files == if Lands(d0, s, root, n)
                         then d.files[Join(root, n) := Given(d0, s, root, n).value]
                         else d.files
    ensures Join(root, m) in d'.files && d'.files[Join(root, m)] == Given(d0, s, root, m).value
  {
    if m != n {
      assert Join(root, m) in Landed(d0, s, root, before);
      if Join(root, m) == Join(root, n) {
        JoinInjective(root, m, n);
      }
    }
  }

  lemma TracksMore(d': Disk, d: Disk, d0: Disk, s: FsState, root: string, before: set<string>, n: string)
    requires FsInv(s) && CleanDir(root) && n in s.files && n !in before && before <= s.files.Keys
    requires Tracks(d, d0, s, root, before)
    requires d.dirs <= d'.dirs <= d.dirs + Ancestors(Join(root, n))
    requires d'.files == if Lands(d0, s, root, n)
                         then d.files[Join(root, n) := Given(d0, s, root, n).value]
                         else d.files
    ensures Tracks(d', d0, s, root, before + {n})
  {
    KeysMore(d', d, d0, s, root, before, n);
    forall m | m in before + {n} && m in s.files && Lands(d0, s, root, m)
      ensures Join(root, m) in d'.files && d'.files[Join(root, m)] == Given(d0, s, root, m).value
    {
      ValuesMore(d', d, d0, s, root, before, n, m);
    }
  }

  lemma KeysMore(d': Disk, d: Disk, d0: Disk, s: FsState, root: string, before: set<string>, n: string)
    requires n in s.files && Tracks(d, d0, s, root, before)
    requires d.dirs <= d'.dirs <= d.dirs + Ancestors(Join(root, n))
    requires d'.files == if Lands(d0, s, root, n)
                         then d.files[Join(root, n) := Given(d0, s, root, n).value]
                         else d.files
    ensures
      var l := Landed(d0, s, root, before + {n});
      && d'.files.Keys == d0.files.Keys + l
      && (forall p | p in d'.files && p !in l :: d'.files[p] == d0.files[p])
      && d0.dirs <= d'.dirs <= d0.dirs + DirsAbove(root, before + {n})
  {
    LandedMore(d0, s, root, before, n);
    var l := Landed(d0, s, root, before);
    if Lands(d0, s, root, n) {
      OneMoreWrite(d.files, d0.files, l, Join(root, n), Given(d0, s, root, n).value);
    }
  }

  lemma OneMoreWrite(m: map<string, Bytes>, m0: map<string, Bytes>, l: set<string>, t: string, x: Bytes)
    requires m.Keys == m0.Keys + l && forall p | p in m && p !in l :: m[p] == m0[p]
    ensures m[t := x].Keys == m0.Keys + (l + {t})
    ensures forall p | p in m[t := x] && p !in l + {t} :: m[t := x][p] == m0[p]
  {
  }

  lemma TracksStep(d: Disk, d0: Disk, s: FsState, root: string, n: string)
    requires FsInv(s) && CleanDir(root) && n in s.files && Tracks(d, d0, s, root, Before(s, n))
    ensures Tracks(PersistFile(d, Join(root, n), s.files[n]), d0, s, root, Before(s, n) + {n})
  {
    NextFile(d, d0, s, root, n);
    LessIrreflexive(n);
    TracksMore(PersistFile(d, Join(root, n), s.files[n]), d, d0, s, root, Before(s, n), n);
  }

  /** In a listing of at least the live names, those before one are the lesser ones. */
  lemma PrefixIsBefore(s: FsState, names: seq<string>, k: nat)
    requires StrictlySorted(names) && s.files.Keys <= SetOf(names) && k < |names|
    ensures SetOf(names[..k]) * s.files.Keys == Before(s, names[k])
    ensures SetOf(names[..k + 1]) * s.files.Keys
         == Before(s, names[k]) + (if names[k] in s.files then {names[k]} else {})
  {
    forall m ensures m in SetOf(names[..k]) && m in s.files <==> m in Before(s, names[k]) {
      if m in Before(s, names[k]) {
        assert m in SetOf(names);
        var i: nat :| i < |names| && names[i] == m;
        if i >= k {
          LessIrreflexive(names[k]);
          if i > k {
            LessTransitive(names[k], names[i], names[k]);
          }
        }
      }
    }
    assert names[..k + 1] == names[..k] + [names[k]];
  }

  lemma {:induction false} PersistTracks(d0: Disk, s: FsState, root: string, names: seq<string>, k: nat)
    requires FsInv(s) && CleanDir(root) && StrictlySorted(names) && s.files.Keys <= SetOf(names) && k <= |names|
    ensures Tracks(PersistEach(d0, s, root, [], names[..k]), d0, s, root, SetOf(names[..k]) * s.files.Keys)
  {
    if k > 0 {
      PersistTracks(d0, s, root, names, k - 1);
      PrefixIsBefore(s, names, k - 1);
      TracksNext(d0, s, root, names, k - 1);
    }
  }

  lemma TracksNext(d0: Disk, s: FsState, root: string, names: seq<string>, k: nat)
    requires FsInv(s) && CleanDir(root) && k < |names|
    requires Tracks(PersistEach(d0, s, root, [], names[..k]), d0, s, root, Before(s, names[k]))
    ensures Tracks(PersistEach(d0, s, root, [], names[..k + 1]), d0, s, root,
                   Before(s, names[k]) + (if names[k] in s.files then {names[k]} else {}))
  {
    assert names[..k + 1][..k] == names[..k];
    if names[k] in s.files {
      PersistEachStep(d0, s, root, [], names, k);
      TracksStep(PersistEach(d0, s, root, [], names[..k]), d0, s, root, names[k]);
    } else {
      assert Before(s, names[k]) + {} == Before(s, names[k]);
    }
  }

  /** Persist without hooks, in closed form: before the tombstones go, the disk holds what it held and what
      lands, file by file. */
  lemma PersistedFiles(d0: Disk, s: FsState, root: string)
    requires FsInv(s) && CleanDir(root)
    ensures Tracks(PersistEach(d0, s, root, [], Listing(s.files.Keys)), d0, s, root, s.files.Keys)
  {
    var names := Listing(s.files.Keys);
    PersistTracks(d0, s, root, names, |names|);
    assert names[..|names|] == names && SetOf(names) * s.files.Keys == s.files.Keys;
  }

  // ----- When persisting is right ------------------------------------------------------------

  /** Files lie in directories. */
  ghost predicate IsTree(d: Disk) {
    forall p | p in d.files :: !IsDir(d, p) && forall a | a in Ancestors(p) :: IsDir(d, a) && a !in d.files
  }

  /** After Persist file `n` holds what it held before, if it held anything. */
  ghost predicate Placed(d0: Disk, s: FsState, root: string, n: string)
    requires n in s.files
  {
    var d, c := Persisted(d0, s, root, []), ContentOf(d0, s.files[n]);
    c.Some? ==> Join(root, n) in d.files && d.files[Join(root, n)] == c.value
  }

  /** What can be told of file `n` beforehand: no tombstone lies above it, and if it is to be written, the
      way is free on disk, no file that lands lies above it, and none that lands earlier changes what its
      original holds. */
  ghost predicate Placeable(d0: Disk, s: FsState, root: string, n: string)
    requires n in s.files
  {
    && (forall t | t in s.removed :: !IsFileInDir(n, t))
    && (Written(s.files[n], Join(root, n)) ==>
          && Open(d0, Join(root, n))
          && (forall m | m in s.files && IsFileInDir(n, m) :: !Lands(d0, s, root, m))
          && (forall m | Supplies(d0, s, root, m, n) ::
                Given(d0, s, root, m) == ContentOf(d0, s.files[n])))
  }

  ghost predicate AllPlaced(d0: Disk, s: FsState, root: string) {
    forall n | n in s.files && ContentOf(d0, s.files[n]).Some? :: Placed(d0, s, root, n)
  }

  ghost predicate AllPlaceable(d0: Disk, s: FsState, root: string) {
    forall n | n in s.files && ContentOf(d0, s.files[n]).Some? :: Placeable(d0, s, root, n)
  }

  lemma PlaceableLands(d0: Disk, s: FsState, root: string, n: string)
    requires FsInv(s) && CleanDir(root) && n in s.files && ContentOf(d0, s.files[n]).Some?
    ensures Written(s.files[n], Join(root, n)) && Placeable(d0, s, root, n) ==>
      Lands(d0, s, root, n) && Given(d0, s, root, n) == ContentOf(d0, s.files[n])
  {
    if m :| Supplies(d0, s, root, m, n) {
      GivenFrom(d0, s, root, m, n);
    } else {
      NotSupplied(d0, s, root, n);
    }
  }

  /** A file that lands with what it held had nothing in its way. */
  lemma LandsPlaceable(d0: Disk, s: FsState, root: string, n: string)
    requires FsInv(s) && CleanDir(root) && n in s.files && ContentOf(d0, s.files[n]).Some?
    requires Lands(d0, s, root, n) && Given(d0, s, root, n) == ContentOf(d0, s.files[n])
    requires forall t | t in s.removed :: !IsFileInDir(n, t)
    ensures Placeable(d0, s, root, n)
  {
    forall m | m in s.files && IsFileInDir(n, m) ensures !Lands(d0, s, root, m) {
      UnderIsLater(m, n);
      assert m in Before(s, n);
    }
    forall m | Supplies(d0, s, root, m, n) ensures Given(d0, s, root, m) == ContentOf(d0, s.files[n]) {
      GivenFrom(d0, s, root, m, n);
    }
  }

  /** A target that nothing is written to and that has something in its way is not a file. */
  lemma InTheWay(d0: Disk, s: FsState, root: string, n: string)
    requires FsInv(s) && CleanDir(root) && IsTree(d0) && n in s.files && Given(d0, s, root, n).Some?
    requires Written(s.files[n], Join(root, n)) && !Lands(d0, s, root, n)
    ensures Join(root, n) !in d0.files
  {
    var target := Join(root, n);
    if Open(d0, target) {
      var m :| m in Before(s, n) && IsFileInDir(n, m) && Lands(d0, s, root, m);
      JoinIs(root, n);
      JoinIs(root, m);
      JoinKeepsUnder(root, n, m);
      AncestorIsAbove(target, Join(root, m));
      CleanIsValid(Join(root, m));
      assert Join(root, m) !in d0.dirs;
    }
  }

  /** Which tombstones take a path away. */
  lemma TombsOver(d: Disk, s: FsState, root: string, n: string)
    requires FsInv(s) && CleanDir(root) && n in s.files
    ensures
      var r := RemoveTrees(d, Tombs(s.removed, root));
      && (Join(root, n) in r.files <==>
            Join(root, n) in d.files && forall t | t in s.removed :: !IsFileInDir(n, t))
      && (Join(root, n) in r.files ==> r.files[Join(root, n)] == d.files[Join(root, n)])
  {
    forall t | t in s.removed
      ensures Join(root, t) in Tombs(s.removed, root) && Join(root, n) != Join(root, t)
      ensures IsFileInDir(Join(root, n), Join(root, t)) <==> IsFileInDir(n, t)
    {
      JoinKeepsUnder(root, n, t);
      if Join(root, n) == Join(root, t) {
        JoinInjective(root, n, t);
      }
    }
  }

  /** A file is on disk before the tombstones go, with what it held, exactly if it lands so or is not to be
      written. */
  lemma OnDisk(d: Disk, d0: Disk, s: FsState, root: string, n: string)
    requires FsInv(s) && CleanDir(root) && IsTree(d0) && Tracks(d, d0, s, root, s.files.Keys)
    requires n in s.files && ContentOf(d0, s.files[n]).Some?
    ensures
      var t, c := Join(root, n), ContentOf(d0, s.files[n]);
      (t in d.files && d.files[t] == c.value) <==>
        (Written(s.files[n], t) ==> Lands(d0, s, root, n) && Given(d0, s, root, n) == c)
  {
    var target := Join(root, n);
    if !Lands(d0, s, root, n) {
      if target in Landed(d0, s, root, s.files.Keys) {
        var m :| m in s.files && Lands(d0, s, root, m) && Join(root, m) == target;
        JoinInjective(root, m, n);
      }
      if Written(s.files[n], target) {
        SomethingGiven(d0, s, root, n);
        InTheWay(d0, s, root, n);
      }
    }
  }

  /** Who has content initially has some at its turn. */
  lemma SomethingGiven(d0: Disk, s: FsState, root: string, n: string)
    requires FsInv(s) && CleanDir(root) && n in s.files && ContentOf(d0, s.files[n]).Some?
    ensures Given(d0, s, root, n).Some?
  {
    if m :| Supplies(d0, s, root, m, n) {
      GivenFrom(d0, s, root, m, n);
    } else {
      NotSupplied(d0, s, root, n);
    }
  }

  /** File by file, Persist is right exactly where nothing of what Placeable names is in the way. */
  lemma PersistExact(d0: Disk, s: FsState, root: string, n: string)
    requires FsInv(s) && CleanDir(root) && IsTree(d0) && n in s.files && ContentOf(d0, s.files[n]).Some?
    ensures Placed(d0, s, root, n) <==> Placeable(d0, s, root, n)
  {
    PersistedFiles(d0, s, root);
    var d := PersistEach(d0, s, root, [], Listing(s.files.Keys));
    TombsOver(d, s, root, n);
    OnDisk(d, d0, s, root, n);
    PlaceableLands(d0, s, root, n);
    if Placed(d0, s, root, n) && Written(s.files[n], Join(root, n)) {
      LandsPlaceable(d0, s, root, n);
    }
  }

  lemma TombIsGone(d: Disk, s: FsState, root: string, t: string, p: string)
    requires t in s.removed && (p == Join(root, t) || IsFileInDir(p, Join(root, t)))
    ensures
      var r := RemoveTrees(d, Tombs(s.removed, root));
      p !in r.files && p !in r.dirs
  {
    assert Join(root, t) in Tombs(s.removed, root);
  }

  /** Persist without hooks: every live file that has content is on disk with the content it had before if
      and only if every one of them is placeable; and in any case nothing is left at or under a
      tombstone. */
  lemma PersistPlacesFiles(d0: Disk, s: FsState, root: string)
    requires FsInv(s) && CleanDir(root) && IsTree(d0)
    ensures AllPlaced(d0, s, root) <==> AllPlaceable(d0, s, root)
    ensures forall t, p | t in s.removed && (p == Join(root, t) || IsFileInDir(p, Join(root, t))) ::
      p !in Persisted(d0, s, root, []).files && p !in Persisted(d0, s, root, []).dirs
  {
    forall n | n in s.files && ContentOf(d0, s.files[n]).Some?
      ensures Placed(d0, s, root, n) <==> Placeable(d0, s, root, n)
    {
      PersistExact(d0, s, root, n);
    }
    forall t, p | t in s.removed && (p == Join(root, t) || IsFileInDir(p, Join(root, t)))
      ensures p !in Persisted(d0, s, root, []).files && p !in Persisted(d0, s, root, []).dirs
    {
      TombIsGone(PersistEach(d0, s, root, [], Listing(s.files.Keys)), s, root, t, p);
    }
  }

  // ----- The same, file against file ---------------------------------------------------------

  /** No original is missing on disk: then it is known beforehand who has content. */
  predicate OriginalsExist(d0: Disk, s: FsState) {
    forall n | n in s.files && s.files[n].content.None? && s.files[n].orig != "" :: s.files[n].orig in d0.files
  }

  /** No tombstone lies above `n`, and if it is to be written: the way is free on disk, no file with content
      lies above it, and no earlier file with other content is written over its original. */
  ghost predicate Unhindered(d0: Disk, s: FsState, root: string, n: string)
    requires n in s.files
  {
    && (forall t | t in s.removed :: !IsFileInDir(n, t))
    && (Written(s.files[n], Join(root, n)) ==>
          && Open(d0, Join(root, n))
          && (forall m | m in s.files && IsFileInDir(n, m) :: ContentOf(d0, s.files[m]).None?)
          && (forall m | IsOver(s, root, m, n) && Written(s.files[m], Join(root, m)) ::
                ContentOf(d0, s.files[m]).None? || ContentOf(d0, s.files[m]) == ContentOf(d0, s.files[n])))
  }

  ghost predicate AllUnhindered(d0: Disk, s: FsState, root: string) {
    forall n | n in s.files && ContentOf(d0, s.files[n]).Some? :: Unhindered(d0, s, root, n)
  }

  lemma GivenToSome(d0: Disk, s: FsState, root: string, n: string)
    requires FsInv(s) && CleanDir(root) && OriginalsExist(d0, s) && n in s.files && Given(d0, s, root, n).Some?
    ensures ContentOf(d0, s.files[n]).Some?
  {
    var o := Over(s, root, n);
    if o.Some? {
      JoinIs(root, o.value);
    }
  }

  /** A clean file that is to be written elsewhere is the only kind with another file over its original. */
  lemma OverIsWritten(s: FsState, root: string, m: string, n: string)
    requires FsInv(s) && CleanDir(root) && n in s.files && IsOver(s, root, m, n)
    ensures Written(s.files[n], Join(root, n))
  {
    if s.files[n].orig == Join(root, n) {
      JoinInjective(root, m, n);
      LessIrreflexive(n);
    }
  }

  lemma {:induction false} GivenIsPrior(d0: Disk, s: FsState, root: string, n: string)
    requires FsInv(s) && CleanDir(root) && OriginalsExist(d0, s) && AllUnhindered(d0, s, root)
    requires n in s.files && ContentOf(d0, s.files[n]).Some?
    ensures Given(d0, s, root, n) == ContentOf(d0, s.files[n])
    decreases Before(s, n)
  {
    if m :| Supplies(d0, s, root, m, n) {
      GivenFrom(d0, s, root, m, n);
      GivenToSome(d0, s, root, m);
      BeforeShrinks(s, m, n);
      GivenIsPrior(d0, s, root, m);
      OverIsWritten(s, root, m, n);
      assert Unhindered(d0, s, root, n);
    } else {
      NotSupplied(d0, s, root, n);
    }
  }

  lemma UnhinderedIsPlaceable(d0: Disk, s: FsState, root: string, n: string)
    requires FsInv(s) && CleanDir(root) && OriginalsExist(d0, s) && AllUnhindered(d0, s, root)
    requires n in s.files && ContentOf(d0, s.files[n]).Some?
    ensures Placeable(d0, s, root, n)
  {
    assert Unhindered(d0, s, root, n);
    forall m | m in s.files && Lands(d0, s, root, m)
      ensures ContentOf(d0, s.files[m]).Some? && Given(d0, s, root, m) == ContentOf(d0, s.files[m])
    {
      GivenToSome(d0, s, root, m);
      GivenIsPrior(d0, s, root, m);
    }
  }

  lemma PlaceableIsUnhindered(d0: Disk, s: FsState, root: string, n: string)
    requires FsInv(s) && CleanDir(root) && AllPlaceable(d0, s, root)
    requires n in s.files && ContentOf(d0, s.files[n]).Some?
    ensures Unhindered(d0, s, root, n)
  {
    assert Placeable(d0, s, root, n);
    forall m | m in s.files && ContentOf(d0, s.files[m]).Some? && Written(s.files[m], Join(root, m))
      ensures Lands(d0, s, root, m) && Given(d0, s, root, m) == ContentOf(d0, s.files[m])
    {
      PlaceableLands(d0, s, root, m);
    }
    forall m | m in s.files && IsFileInDir(n, m) && !Written(s.files[m], Join(root, m)) && Open(d0, Join(root, n))
      ensures ContentOf(d0, s.files[m]).None?
    {
      JoinIs(root, n);
      JoinIs(root, m);
      JoinKeepsUnder(root, n, m);
      AncestorIsAbove(Join(root, n), Join(root, m));
    }
  }

  /** Where no original is missing, Persist is right for every file exactly if none hinders another. */
  lemma PersistPairwise(d0: Disk, s: FsState, root: string)
    requires FsInv(s) && CleanDir(root) && IsTree(d0) && OriginalsExist(d0, s)
    ensures AllPlaced(d0, s, root) <==> AllUnhindered(d0, s, root)
  {
    PersistPlacesFiles(d0, s, root);
    if AllUnhindered(d0, s, root) {
      forall n | n in s.files && ContentOf(d0, s.files[n]).Some? ensures Placeable(d0, s, root, n) {
        UnhinderedIsPlaceable(d0, s, root, n);
      }
    }
    if AllPlaceable(d0, s, root) {
      forall n | n in s.files && ContentOf(d0, s.files[n]).Some? ensures Unhindered(d0, s, root, n) {
        PlaceableIsUnhindered(d0, s, root, n);
      }
    }
  }

  /** An earlier file that lands over the original of a later one: the later one ends with the earlier
      one's content, which is wrong if it had other content before. */
  lemma OverwrittenOriginal(d0: Disk, s: FsState, root: string, m: string, n: string)
    requires FsInv(s) && CleanDir(root) && n in s.files && Supplies(d0, s, root, m, n)
    requires Lands(d0, s, root, n) && forall t | t in s.removed :: !IsFileInDir(n, t)
    ensures
      var d := Persisted(d0, s, root, []);
      && Join(root, n) in d.files && Some(d.files[Join(root, n)]) == Given(d0, s, root, m)
      && (ContentOf(d0, s.files[n]).Some? && ContentOf(d0, s.files[n]) != Given(d0, s, root, m) ==>
            !Placed(d0, s, root, n))
  {
    PersistedFiles(d0, s, root);
    var d := PersistEach(d0, s, root, [], Listing(s.files.Keys));
    LandedValue(d, d0, s, root, s.files.Keys, n);
    TombsOver(d, s, root, n);
    GivenFrom(d0, s, root, m, n);
  }

  // ----- What Persist leaves alone -------------------------------------------------------------

  /** A file on disk that no live file is written over and no tombstone is at or above stays as it was, and
      every new file on disk is a live file's. */
  lemma PersistElsewhere(d0: Disk, s: FsState, root: string, p: string)
    requires FsInv(s) && CleanDir(root)
    requires forall n | n in s.files && Written(s.files[n], Join(root, n)) :: p != Join(root, n)
    requires forall t | t in s.removed :: p != Join(root, t) && !IsFileInDir(p, Join(root, t))
    ensures
      var d := Persisted(d0, s, root, []);
      (p in d.files <==> p in d0.files) && (p in d0.files ==> d.files[p] == d0.files[p])
  {
    PersistedFiles(d0, s, root);
    var d := PersistEach(d0, s, root, [], Listing(s.files.Keys));
    assert p !in Landed(d0, s, root, s.files.Keys);
    RemoveNotAt(d, Tombs(s.removed, root), p);
  }

  lemma RemoveNotAt(d: Disk, ps: set<string>, p: string)
    requires forall q | q in ps :: p != q && !IsFileInDir(p, q)
    ensures
      var r := RemoveTrees(d, ps);
      (p in r.files <==> p in d.files) && (p in d.files ==> r.files[p] == d.files[p])
  {
  }

  /** After a Remove, Persist leaves nothing at or under what was removed. */
  lemma RemovedIsGone(d0: Disk, s: FsState, root: string, name: string, n: string, p: string)
    requires FsInv(s) && Clean(name) && Taken(s, name, n)
    requires p == Join(root, n) || IsFileInDir(p, Join(root, n))
    ensures
      var d := Persisted(d0, Removed(s, name), root, []);
      p !in d.files && p !in d.dirs
  {
    RemovedIs(s, name);
    var r := Removed(s, name);
    TombIsGone(PersistEach(d0, r, root, [], Listing(r.files.Keys)), r, root, n, p);
  }

  /** After an Erase, what was on disk under that name stays, unless an older tombstone lies above it. */
  lemma ErasedStaysOnDisk(d0: Disk, s: FsState, root: string, name: string, n: string)
    requires FsInv(s) && CleanDir(root) && Clean(name) && Taken(s, name, n)
    requires forall t | t in s.removed :: !IsFileInDir(n, t)
    ensures
      var d, p := Persisted(d0, Erased(s, name), root, []), Join(root, n);
      (p in d.files <==> p in d0.files) && (p in d0.files ==> d.files[p] == d0.files[p])
  {
    RemovedIs(s, name);
    ErasedIs(s, name);
    var e := Erased(s, name);
    ErasedInv(s, name);
    forall m | m in e.files ensures Join(root, m) != Join(root, n) {
      if Join(root, m) == Join(root, n) {
        JoinInjective(root, m, n);
      }
    }
    forall t | t in e.removed ensures Join(root, n) != Join(root, t) && !IsFileInDir(Join(root, n), Join(root, t)) {
      JoinKeepsUnder(root, n, t);
      if Join(root, n) == Join(root, t) {
        JoinInjective(root, n, t);
      }
    }
    PersistElsewhere(d0, e, root, Join(root, n));
  }

  lemma ErasedInv(s: FsState, name: string)
    requires FsInv(s) && Clean(name)
    ensures FsInv(Erased(s, name))
  {
    RemovedIs(s, name);
    ErasedIs(s, name);
  }

  /** Everything on disk lies in directories. */
  ghost predicate IsWholeTree(d: Disk) {
    IsTree(d) && forall p, a | p in d.dirs && a in Ancestors(p) :: IsDir(d, a) && a !in d.files
  }

  /** Persisting a file keeps the disk a tree: all directories above what it writes are made. */
  lemma PersistFileKeepsTree(d: Disk, target: string, v: FileVal)
    requires IsWholeTree(d) && "/" !in d.files && Clean(target)
    ensures IsWholeTree(PersistFile(d, target, v)) && "/" !in PersistFile(d, target, v).files
  {
    ParentAbove(d, target);
    ParentIsAncestor(target);
    CleanIsValid(target);
    AncestorsOfParent(target);
  }

  lemma AncestorsOfParent(target: string)
    requires Clean(target)
    ensures forall a, b | a in Ancestors(target) && b in Ancestors(a) :: b in Ancestors(target)
    ensures target !in Ancestors(target)
  {
    if target in Ancestors(target) {
      AncestorIsAbove(target, target);
    }
    forall a, b | a in Ancestors(target) && b in Ancestors(a) ensures b in Ancestors(target) {
      var i: nat :| i < |target| && target[i] == '/' && a == if i == 0 then "/" else target[..i];
      var k: nat :| k < |a| && a[k] == '/' && b == if k == 0 then "/" else a[..k];
      assert target[k] == '/' && (k > 0 ==> target[..k] == b);
    }
  }
}
