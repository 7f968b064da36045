/** Persist with DropIfExist hooks: what the lazy existence cache (mfs/file_exist_cache.go) answers, and
    what ends up on disk. */
module PersistHooks {
  import opened Wrappers
  import opened Ordering
  import opened Paths
  import opened FsSpec
  import opened PersistSpec
  import opened PersistResult

  // ----- Hooks as a restriction of the state ---------------------------------------------------

  /** The state without the files that the hooks drop, by the disk as it was when Persist began. */
  function Undropped(d0: Disk, s: FsState, root: string, drops: seq<string>): FsState {
    s.(files := map n | n in s.files && !Drops(d0, root, drops, n) :: s.files[n])
  }

  lemma {:induction false} EachRestricted(d0: Disk, s: FsState, root: string, drops: seq<string>, names: seq<string>)
    ensures PersistEach(d0, s, root, drops, names)
         == PersistEach(d0, Undropped(d0, s, root, drops), root, [], names)
  {
    if names != [] {
      EachRestricted(d0, s, root, drops, names[..|names| - 1]);
    }
  }

  /** The live ones among some names. */
  function LiveOf(s: FsState, names: seq<string>): seq<string> {
    if names == [] then []
    else
      var n := |names| - 1;
      LiveOf(s, names[..n]) + (if names[n] in s.files then [names[n]] else [])
  }

  lemma {:induction false} LiveOfSorted(s: FsState, names: seq<string>)
    requires StrictlySorted(names)
    ensures StrictlySorted(LiveOf(s, names))
    ensures forall x :: x in LiveOf(s, names) <==> x in names && x in s.files
  {
    if names != [] {
      var n := |names| - 1;
      LiveOfSorted(s, names[..n]);
      assert names == names[..n] + [names[n]];
      forall x | x in LiveOf(s, names[..n]) ensures Less(x, names[n]) {
        assert x in names[..n];
      }
    }
  }

  lemma LastPersisted(d0: Disk, s: FsState, root: string, names: seq<string>, n: string)
    requires n in s.files
    ensures PersistEach(d0, s, root, [], names + [n])
         == PersistFile(PersistEach(d0, s, root, [], names), Join(root, n), s.files[n])
  {
    assert (names + [n])[..|names|] == names;
  }

  lemma {:induction false} EachOfLive(d0: Disk, s: FsState, root: string, names: seq<string>)
    ensures PersistEach(d0, s, root, [], names) == PersistEach(d0, s, root, [], LiveOf(s, names))
  {
    if names != [] {
      var n := |names| - 1;
      EachOfLive(d0, s, root, names[..n]);
      var l := LiveOf(s, names[..n]);
      if names[n] in s.files {
        assert LiveOf(s, names) == l + [names[n]];
        LastPersisted(d0, s, root, l, names[n]);
      } else {
        assert LiveOf(s, names) == l;
      }
    }
  }

  /** With hooks, Persist does what it does without them to the files that they do not drop; so all that is
      known of it without hooks holds of those files. */
  lemma HooksRestrict(d0: Disk, s: FsState, root: string, drops: seq<string>)
    ensures Persisted(d0, s, root, drops) == Persisted(d0, Undropped(d0, s, root, drops), root, [])
  {
    var u, names := Undropped(d0, s, root, drops), Listing(s.files.Keys);
    EachRestricted(d0, s, root, drops, names);
    EachOfLive(d0, u, root, names);
    LiveOfSorted(u, names);
    assert SetOf(LiveOf(u, names)) == u.files.Keys by {
      assert forall x :: x in names <==> x in SetOf(names);
    }
    StrictListingUnique(LiveOf(u, names), Listing(u.files.Keys));
  }

  lemma UndroppedInv(d0: Disk, s: FsState, root: string, drops: seq<string>)
    requires FsInv(s)
    ensures FsInv(Undropped(d0, s, root, drops))
  {
    forall n | n in Undropped(d0, s, root, drops).files ensures Clean(n) {
      assert n in s.files;
    }
  }

  /** A file that no hook drops ends with what it held before if and only if it is placeable among those. */
  lemma PersistExactWithHooks(d0: Disk, s: FsState, root: string, drops: seq<string>, n: string)
    requires FsInv(s) && CleanDir(root) && IsTree(d0)
    requires n in s.files && !Drops(d0, root, drops, n) && ContentOf(d0, s.files[n]).Some?
    ensures
      var d, t := Persisted(d0, s, root, drops), Join(root, n);
      t in d.files && d.files[t] == ContentOf(d0, s.files[n]).value <==>
        Placeable(d0, Undropped(d0, s, root, drops), root, n)
  {
    HooksRestrict(d0, s, root, drops);
    UndroppedInv(d0, s, root, drops);
    PersistExact(d0, Undropped(d0, s, root, drops), root, n);
  }

  /** A file at or under a dropped path where something stands on disk stays on disk as it was, unless a tombstone
      takes it away. */
  lemma DroppedStays(d0: Disk, s: FsState, root: string, drops: seq<string>, n: string, x: string)
    requires FsInv(s) && CleanDir(root) && n in s.files && x in drops && IsFileOrSubFile(n, x)
    requires Join(root, x) in d0.files || Join(root, x) in d0.dirs
    requires forall t | t in s.removed :: !IsFileInDir(n, t)
    ensures
      var d, p := Persisted(d0, s, root, drops), Join(root, n);
      (p in d.files <==> p in d0.files) && (p in d0.files ==> d.files[p] == d0.files[p])
  {
    HooksRestrict(d0, s, root, drops);
    UndroppedInv(d0, s, root, drops);
    var u := Undropped(d0, s, root, drops);
    forall m | m in u.files ensures Join(root, n) != Join(root, m) {
      if Join(root, n) == Join(root, m) {
        JoinInjective(root, n, m);
      }
    }
    forall t | t in u.removed ensures Join(root, n) != Join(root, t) && !IsFileInDir(Join(root, n), Join(root, t)) {
      JoinKeepsUnder(root, n, t);
      if Join(root, n) == Join(root, t) {
        JoinInjective(root, n, t);
      }
    }
    PersistElsewhere(d0, u, root, Join(root, n));
  }

  /** Dropped paths where nothing stands on disk, nor a file above them, drop nothing. */
  lemma MissingDropsNothing(d0: Disk, s: FsState, root: string, drops: seq<string>)
    requires forall x | x in drops ::
      var p := Join(root, x);
      p !in d0.files && p !in d0.dirs && p != "/" && forall a | a in Ancestors(p) :: a !in d0.files
    ensures Persisted(d0, s, root, drops) == Persisted(d0, s, root, [])
  {
    HooksRestrict(d0, s, root, drops);
    assert Undropped(d0, s, root, drops).files == s.files;
  }

  // ----- What the cache answers ----------------------------------------------------------------

  /** The clean form of a dropped path. */
  function Bare(x: string): string {
    if x == "" then "/" else FmtDirWithoutSlash(x)
  }

  /** An undropped live file above the dropped path is written in this Persist. */
  ghost predicate Shadowed(d0: Disk, u: FsState, root: string, x: string) {
    exists m :: m in u.files && IsFileInDir(Bare(x), m) && Lands(d0, u, root, m)
  }

  /** The one answer about a dropped path that every file at or under it gets. */
  ghost predicate Decided(d0: Disk, u: FsState, root: string, x: string) {
    Exists(d0, Join(root, x)) || Shadowed(d0, u, root, x)
  }

  /** A dropped path under which file `n` lies, or which it is, has a file above it at the turn of `n`
      exactly if it had one initially or is shadowed: whatever shadows it comes before `n`. */
  lemma AboveAtTurn(d: Disk, d0: Disk, u: FsState, root: string, n: string, x: string)
    requires FsInv(u) && CleanDir(root) && Clean(n) && DropPath(x) && IsFileOrSubFile(n, x)
    requires Tracks(d, d0, u, root, Before(u, n))
    ensures FileAbove(d, Join(root, x)) <==> FileAbove(d0, Join(root, x)) || Shadowed(d0, u, root, x)
  {
    SlashIgnored(x);
    var q, p := Bare(x), Join(root, Bare(x));
    forall m | m in u.files ensures Join(root, m) in Ancestors(p) <==> IsFileInDir(q, m) {
      AboveJoined(root, q, m);
    }
    forall m | m in u.files && IsFileInDir(q, m) ensures m in Before(u, n) {
      AboveIsBefore(m, q, n);
    }
    if FileAbove(d0, p) {
      var a :| a in Ancestors(p) && a in d0.files;
      assert a in d.files;
    }
    if m :| m in u.files && IsFileInDir(q, m) && Lands(d0, u, root, m) {
      assert Join(root, m) in Landed(d0, u, root, Before(u, n));
    }
    if FileAbove(d, p) && !FileAbove(d0, p) {
      var a :| a in Ancestors(p) && a in d.files;
      assert a in Landed(d0, u, root, Before(u, n));
    }
  }

  lemma AboveJoined(root: string, q: string, m: string)
    requires CleanDir(root) && CleanDir(q) && Clean(m)
    ensures Join(root, m) in Ancestors(Join(root, q)) <==> IsFileInDir(q, m)
  {
    JoinIs(root, m);
    CleanIsValid(m);
    if q == "/" {
      RootAbove(root, m);
    } else {
      JoinIs(root, q);
      JoinKeepsUnder(root, q, m);
      AncestorIsAbove(Join(root, q), Join(root, m));
    }
  }

  lemma RootJoined(root: string)
    requires CleanDir(root)
    ensures Join(root, "/") == root
  {
    if root != "/" {
      CleanIsValid(root);
    }
  }

  lemma RootAbove(root: string, m: string)
    requires CleanDir(root) && Clean(m)
    ensures Join(root, m) !in Ancestors(Join(root, "/")) && !IsFileInDir("/", m)
  {
    JoinIs(root, m);
    CleanIsValid(m);
    RootJoined(root);
    forall a | a in Ancestors(root) ensures |a| <= |root| {
    }
    assert |Join(root, m)| > |root| || root == "/";
  }

  lemma AboveIsBefore(m: string, q: string, n: string)
    requires IsFileInDir(q, m) && (n == q || IsFileInDir(n, q))
    ensures Less(m, n)
  {
    UnderIsLater(m, q);
    if n != q {
      UnderIsLater(q, n);
      LessTransitive(m, q, n);
    }
  }

  /** Every answer in the cache is the decided one, and a path not asked about exists if it did initially
      or has a file above it, and not otherwise. */
  ghost predicate CacheOk(cache: map<string, bool>, d: Disk, d0: Disk, u: FsState, root: string, drops: seq<string>) {
    forall i: nat | i < |drops| ::
      if Join(root, drops[i]) in cache then cache[Join(root, drops[i])] == Decided(d0, u, root, drops[i])
      else Exists(d, Join(root, drops[i])) <==> Exists(d0, Join(root, drops[i])) || FileAbove(d, Join(root, drops[i]))
  }

  /** A lookup at the turn of a file at or under the dropped path gives the decided answer, cached or not. */
  lemma CacheAnswer(cache: map<string, bool>, d: Disk, d0: Disk, u: FsState, root: string, drops: seq<string>,
                    i: nat, n: string)
    requires CacheOk(cache, d, d0, u, root, drops) && i < |drops| && DropPath(drops[i])
    requires FsInv(u) && CleanDir(root) && Clean(n) && IsFileOrSubFile(n, drops[i])
    requires Tracks(d, d0, u, root, Before(u, n))
    ensures Answer(cache, d, Join(root, drops[i])) == Decided(d0, u, root, drops[i])
  {
    AboveAtTurn(d, d0, u, root, n, drops[i]);
  }

  // ----- How the cache stays so ----------------------------------------------------------------

  lemma CacheStarts(d0: Disk, u: FsState, root: string, drops: seq<string>)
    ensures CacheOk(map[], d0, d0, u, root, drops)
  {
  }

  /** Dropped paths that join to the same path mean the same. */
  lemma BareUnique(root: string, x: string, y: string)
    requires CleanDir(root) && DropPath(x) && DropPath(y) && Join(root, x) == Join(root, y)
    ensures Bare(x) == Bare(y)
  {
    SlashIgnored(x);
    SlashIgnored(y);
    RootJoined(root);
    NotRoot(root, Bare(x));
    NotRoot(root, Bare(y));
    if Bare(x) != "/" && Bare(y) != "/" {
      JoinInjective(root, Bare(x), Bare(y));
    }
  }

  lemma NotRoot(root: string, q: string)
    requires CleanDir(root) && CleanDir(q)
    ensures Join(root, q) == root <==> q == "/"
  {
    RootJoined(root);
    if q != "/" {
      JoinIs(root, q);
      CleanIsValid(q);
    }
  }

  /** A lookup keeps it. */
  lemma CacheAsked(cache: map<string, bool>, d: Disk, d0: Disk, u: FsState, root: string, drops: seq<string>, i: nat)
    requires CacheOk(cache, d, d0, u, root, drops) && i < |drops| && CleanDir(root)
    requires forall j: nat | j < |drops| :: DropPath(drops[j])
    requires Answer(cache, d, Join(root, drops[i])) == Decided(d0, u, root, drops[i])
    ensures
      var p := Join(root, drops[i]);
      CacheOk(cache[p := Answer(cache, d, p)], d, d0, u, root, drops)
  {
    forall j: nat | j < |drops| && Join(root, drops[j]) == Join(root, drops[i])
      ensures Decided(d0, u, root, drops[j]) == Decided(d0, u, root, drops[i])
    {
      BareUnique(root, drops[i], drops[j]);
    }
  }

  /** A file is persisted only after every path it is at or under was asked about, so persisting it keeps it
      too. */
  lemma CacheKept(cache: map<string, bool>, d: Disk, d0: Disk, u: FsState, root: string, drops: seq<string>,
                  name: string, v: FileVal)
    requires CacheOk(cache, d, d0, u, root, drops) && CleanDir(root) && Clean(name)
    requires forall i: nat | i < |drops| :: DropPath(drops[i])
    requires forall i: nat | i < |drops| && IsFileOrSubFile(name, drops[i]) :: Join(root, drops[i]) in cache
    ensures CacheOk(cache, PersistFile(d, Join(root, name), v), d0, u, root, drops)
  {
    var d' := PersistFile(d, Join(root, name), v);
    forall i: nat | i < |drops| && Join(root, drops[i]) !in cache
      ensures Exists(d', Join(root, drops[i])) <==>
        Exists(d0, Join(root, drops[i])) || FileAbove(d', Join(root, drops[i]))
    {
      JoinIs(root, name);
      PersistFileGrows(d, Join(root, name), v, Join(root, drops[i]));
      NewAnswer(d, root, name, v, drops[i]);
    }
  }

  /** Some hook drops file `n`: the decided answer of a dropped path it is at or under is yes. */
  ghost predicate DropsNow(d0: Disk, u: FsState, root: string, drops: seq<string>, n: string) {
    exists i: nat :: i < |drops| && IsFileOrSubFile(n, drops[i]) && Decided(d0, u, root, drops[i])
  }

  /** Nothing can be written to a target, whatever the file. */
  ghost predicate Unwritable(d: Disk, target: string) {
    forall v :: PersistFile(d, target, v) == d
  }

  /** A file dropped only because its path is shadowed could not have been written: the outcome is the same. */
  lemma DropIsHarmless(d: Disk, d0: Disk, u: FsState, root: string, drops: seq<string>, n: string)
    requires FsInv(u) && CleanDir(root) && Clean(n) && Tracks(d, d0, u, root, Before(u, n))
    requires forall i: nat | i < |drops| :: DropPath(drops[i])
    requires DropsNow(d0, u, root, drops, n) && !Drops(d0, root, drops, n)
    ensures Unwritable(d, Join(root, n))
  {
    var i: nat :| i < |drops| && IsFileOrSubFile(n, drops[i]) && Decided(d0, u, root, drops[i]);
    AboveAtTurn(d, d0, u, root, n, drops[i]);
    forall v ensures PersistFile(d, Join(root, n), v) == d {
      BelowBlocked(d, root, n, v, drops[i]);
    }
  }

  /** The hooks from `i` on were asked about file `name` and did not drop it. */
  ghost predicate Asked(cache: map<string, bool>, d0: Disk, u: FsState, root: string, drops: seq<string>,
                        name: string, i: nat)
  {
    forall j: nat | i <= j < |drops| && IsFileOrSubFile(name, drops[j]) ::
      Join(root, drops[j]) in cache && !Decided(d0, u, root, drops[j])
  }

  lemma AskedMore(cache: map<string, bool>, cache': map<string, bool>, d0: Disk, u: FsState, root: string,
                  drops: seq<string>, name: string, i: nat)
    requires i < |drops| && Asked(cache, d0, u, root, drops, name, i + 1) && cache.Keys <= cache'.Keys
    requires IsFileOrSubFile(name, drops[i]) ==>
      Join(root, drops[i]) in cache' && !Decided(d0, u, root, drops[i])
    ensures Asked(cache', d0, u, root, drops, name, i)
  {
  }

  /** Before the turn of a listed file, the disk tracks the undropped files before it. */
  lemma TracksAtTurn(d0: Disk, s: FsState, root: string, drops: seq<string>, names: seq<string>, k: nat)
    requires FsInv(s) && CleanDir(root) && StrictlySorted(names) && s.files.Keys <= SetOf(names) && k < |names|
    ensures
      var u := Undropped(d0, s, root, drops);
      FsInv(u) && Tracks(PersistEach(d0, s, root, drops, names[..k]), d0, u, root, Before(u, names[k]))
  {
    var u := Undropped(d0, s, root, drops);
    UndroppedInv(d0, s, root, drops);
    EachRestricted(d0, s, root, drops, names[..k]);
    PersistTracks(d0, u, root, names, k);
    PrefixIsBefore(u, names, k);
  }

  /** Whichever file at or under a dropped path asks about it, and whenever in the listing its turn comes, it
      gets the decided answer.  That is the initial one if and only if the path existed then, or no undropped
      live file above it is written. */
  lemma AnswerIsInitial(d0: Disk, s: FsState, root: string, drops: seq<string>, names: seq<string>, k: nat,
                        cache: map<string, bool>, i: nat)
    requires FsInv(s) && CleanDir(root) && StrictlySorted(names) && SetOf(names) == s.files.Keys && k < |names|
    requires i < |drops| && DropPath(drops[i]) && IsFileOrSubFile(names[k], drops[i])
    requires CacheOk(cache, PersistEach(d0, s, root, drops, names[..k]), d0, Undropped(d0, s, root, drops), root, drops)
    ensures
      var u, p := Undropped(d0, s, root, drops), Join(root, drops[i]);
      var e := Answer(cache, PersistEach(d0, s, root, drops, names[..k]), p);
      && e == Decided(d0, u, root, drops[i])
      && (e == Exists(d0, p) <==> Exists(d0, p) || !Shadowed(d0, u, root, drops[i]))
  {
    var u := Undropped(d0, s, root, drops);
    assert names[k] in SetOf(names);
    TracksAtTurn(d0, s, root, drops, names, k);
    CacheAnswer(cache, PersistEach(d0, s, root, drops, names[..k]), d0, u, root, drops, i, names[k]);
  }
}
