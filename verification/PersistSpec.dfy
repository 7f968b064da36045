/** What Persist does to the disk (mfs/mem_filesystem.go, mfs/os.go), and what that changes about which
    paths exist. */
module PersistSpec {
  import opened Wrappers
  import opened Ordering
  import opened Paths
  import opened FsSpec

  /** A disk: regular files with their contents, and directories; the root always is one. */
  datatype Disk = Disk(files: map<string, Bytes>, dirs: set<string>)

  predicate IsDir(d: Disk, p: string) {
    p in d.dirs || p == "/"
  }

  /** A regular file stands where a path needs a directory. */
  predicate FileAbove(d: Disk, p: string) {
    exists a :: a in Ancestors(p) && a in d.files
  }

  /** What OS.Exist answers: only "no such file" counts as missing, and below a regular file the system
      says "not a directory". */
  predicate Exists(d: Disk, p: string) {
    p in d.files || IsDir(d, p) || FileAbove(d, p)
  }

  /** os.MkdirAll fails where a regular file is in the way. */
  predicate CanMkdir(d: Disk, dir: string) {
    dir !in d.files && !FileAbove(d, dir)
  }

  function Mkdir(d: Disk, dir: string): Disk {
    d.(dirs := d.dirs + {dir} + Ancestors(dir))
  }

  /** Opening for writing fails on a directory, where the parent is not one, and below a regular file. */
  predicate CanWrite(d: Disk, p: string) {
    !IsDir(d, p) && IsDir(d, Parent(p)) && !FileAbove(d, p)
  }

  /** os.RemoveAll of every path of a set. */
  function RemoveTrees(d: Disk, ps: set<string>): Disk {
    Disk(map p | p in d.files && !(exists q :: q in ps && (p == q || IsFileInDir(p, q))) :: d.files[p],
         set p | p in d.dirs && !(exists q :: q in ps && (p == q || IsFileInDir(p, q))))
  }

  /** loadContent: the set content, or else what the original file holds now. */
  function ContentOf(d: Disk, v: FileVal): Option<Bytes> {
    if v.content.Some? then v.content
    else if v.orig != "" && v.orig in d.files then Some(d.files[v.orig])
    else None
  }

  /** A file is written unless it is clean and already where it came from. */
  predicate Written(v: FileVal, target: string) {
    v.orig != target || v.content.Some?
  }

  /** _persitFile.  Failures leave the disk as it then is. */
  function PersistFile(d: Disk, target: string, v: FileVal): Disk {
    if !Written(v, target) then d
    else
      var dir := Parent(target);
      if !Exists(d, dir) && !CanMkdir(d, dir) then d
      else
        var d1 := if Exists(d, dir) then d else Mkdir(d, dir);
        match ContentOf(d1, v)
        case None => d1
        case Some(data) => if CanWrite(d1, target) then d1.(files := d1.files[target := data]) else d1
  }

  /** A DropIfExist path stops the file, judged by the disk as it was when Persist began. */
  predicate Drops(d0: Disk, root: string, drops: seq<string>, name: string) {
    exists i: nat :: i < |drops| && IsFileOrSubFile(name, drops[i]) && Exists(d0, Join(root, drops[i]))
  }

  /** The persist loop over the listed names, every drop decided on the initial disk. */
  function PersistEach(d0: Disk, s: FsState, root: string, drops: seq<string>, names: seq<string>): Disk {
    if names == [] then d0
    else
      var n := |names| - 1;
      var d := PersistEach(d0, s, root, drops, names[..n]);
      if names[n] !in s.files || Drops(d0, root, drops, names[n]) then d
      else PersistFile(d, Join(root, names[n]), s.files[names[n]])
  }

  lemma PersistEachStep(d0: Disk, s: FsState, root: string, drops: seq<string>, names: seq<string>, i: nat)
    requires i < |names| && names[i] in s.files
    ensures
      var d := PersistEach(d0, s, root, drops, names[..i]);
      PersistEach(d0, s, root, drops, names[..i + 1])
        == if Drops(d0, root, drops, names[i]) then d else PersistFile(d, Join(root, names[i]), s.files[names[i]])
  {
    assert names[..i + 1][..i] == names[..i];
  }

  function Tombs(names: set<string>, root: string): set<string> {
    set n | n in names :: Join(root, n)
  }

  ghost function Persisted(d0: Disk, s: FsState, root: string, drops: seq<string>): Disk {
    RemoveTrees(PersistEach(d0, s, root, drops, Listing(s.files.Keys)), Tombs(s.removed, root))
  }

  lemma RemoveNone(d: Disk)
    ensures RemoveTrees(d, Tombs({}, "")) == d
    ensures forall root :: RemoveTrees(d, Tombs({}, root)) == d
  {
  }

  /** Removals commute: their order does not matter. */
  lemma RemoveMore(d: Disk, ps: set<string>, p: string)
    ensures RemoveTrees(RemoveTrees(d, ps), {p}) == RemoveTrees(d, ps + {p})
  {
    var a, b := RemoveTrees(RemoveTrees(d, ps), {p}), RemoveTrees(d, ps + {p});
    assert a.files == b.files;
    assert a.dirs == b.dirs;
  }

  // ----- Copies --------------------------------------------------------------------------------

  /** `w` stands for the same content as `v`: on every disk it reads the same, and it is dirty exactly if
      `v` is.  A clean one still comes from the same original, a dirty one from none. */
  ghost predicate IsCopyOf(w: FileVal, v: FileVal) {
    && (forall d: Disk :: ContentOf(d, w) == ContentOf(d, v))
    && (w.content.Some? <==> v.content.Some?)
    && w.orig == if v.content.None? then v.orig else ""
  }

  /** A copied file reads as its source, at the target and still at the source. */
  lemma CopyFileReads(s: FsState, from: string, to: string)
    requires FsInv(s) && Clean(from) && Clean(to) && from != to && from in s.files
    ensures Copied(s, from, to).Some?
    ensures
      var r := Copied(s, from, to).value;
      && to in r.files && IsCopyOf(r.files[to], s.files[from])
      && (forall n | n != to :: (n in r.files <==> n in s.files) && (n in s.files ==> r.files[n] == s.files[n]))
      && (forall n :: n in r.removed <==> n in s.removed && n != to)
  {
    CleanIsValid(from);
    CleanIsValid(to);
  }

  /** So does every file of a copied directory. */
  lemma CopyDirectoryReads(s: FsState, from: string, to: string, n: string)
    requires FsInv(s) && Clean(from) && Clean(to) && Apart(from, to) && from !in s.files
    requires n in s.files && IsFileInDir(n, from)
    ensures Copied(s, from, to).Some?
    ensures
      var r := Copied(s, from, to).value;
      && to + n[|from|..] in r.files && IsCopyOf(r.files[to + n[|from|..]], s.files[n])
      && n in r.files && r.files[n] == s.files[n]
  {
    CopyDirectory(s, from, to);
    RebasedIs(n, from, to);
    UnderIs(n, from);
    if Arrives(s, n, from, to) {
      UnderLinear(n, from, to);
    }
  }

  // ----- Persisting one file -----------------------------------------------------------------

  /** Nothing stands in the way of a write target. */
  predicate Open(d: Disk, target: string) {
    target !in d.dirs && !FileAbove(d, target)
  }

  lemma ParentAbove(d: Disk, target: string)
    requires Clean(target)
    ensures FileAbove(d, target) <==> Parent(target) in d.files || FileAbove(d, Parent(target))
    ensures Ancestors(Parent(target)) + {Parent(target)} == Ancestors(target)
  {
    ParentIsAncestor(target);
    assert Ancestors("/") == {"/"} by {
      assert "/"[0] == '/';
    }
  }

  /** Below a regular file nothing is written and no directory made. */
  lemma BlockedByFile(d: Disk, target: string, v: FileVal)
    requires Clean(target) && FileAbove(d, target)
    ensures PersistFile(d, target, v) == d
  {
    ParentAbove(d, target);
  }

  /** Over a directory nothing is written. */
  lemma BlockedByDir(d: Disk, target: string, v: FileVal)
    requires Clean(target) && target in d.dirs
    ensures PersistFile(d, target, v).files == d.files
    ensures d.dirs <= PersistFile(d, target, v).dirs <= d.dirs + Ancestors(target)
  {
    ParentAbove(d, target);
  }

  /** With nothing in the way the write succeeds. */
  lemma PersistFileSucceeds(d: Disk, target: string, v: FileVal)
    requires Clean(target) && Written(v, target) && Open(d, target)
    ensures
      var d' := PersistFile(d, target, v);
      && d.dirs <= d'.dirs <= d.dirs + Ancestors(target)
      && d'.files == match ContentOf(d, v) { case Some(data) => d.files[target := data] case None => d.files }
  {
    ParentAbove(d, target);
    CleanIsValid(target);
    if target in Ancestors(target) {
      AncestorIsAbove(target, target);
    }
  }

  /** The three cases together: a file is written exactly if it is to be, has content, and nothing stands
      in the way. */
  lemma PersistFileIs(d: Disk, target: string, v: FileVal)
    requires Clean(target)
    ensures
      var d' := PersistFile(d, target, v);
      && d.dirs <= d'.dirs <= d.dirs + Ancestors(target)
      && d'.files == if Written(v, target) && Open(d, target) && ContentOf(d, v).Some?
                     then d.files[target := ContentOf(d, v).value]
                     else d.files
  {
    if FileAbove(d, target) {
      BlockedByFile(d, target, v);
    } else if target in d.dirs {
      BlockedByDir(d, target, v);
    } else if Written(v, target) {
      PersistFileSucceeds(d, target, v);
    }
  }

  // ----- Which paths exist -------------------------------------------------------------------

  /** Persisting one file makes exist at most its target, the directories above it and, as OS.Exist has
      it, what is below the file it wrote. */
  lemma PersistFileGrows(d: Disk, target: string, v: FileVal, p: string)
    requires Clean(target)
    ensures
      var d' := PersistFile(d, target, v);
      && (Exists(d, p) ==> Exists(d', p)) && (FileAbove(d, p) ==> FileAbove(d', p))
      && (Exists(d', p) ==>
            Exists(d, p) || p == target || p in Ancestors(target) || (target in Ancestors(p) && target in d'.files))
  {
    PersistFileIs(d, target, v);
    var d' := PersistFile(d, target, v);
    if FileAbove(d, p) {
      var a :| a in Ancestors(p) && a in d.files;
      assert a in d'.files;
    }
    if FileAbove(d', p) && !FileAbove(d, p) {
      var a :| a in Ancestors(p) && a in d'.files;
      assert a == target;
    }
  }

  /** A path that a file is not at or under exists after that file was persisted exactly if it did before
      or, by OS.Exist, lies below the file. */
  lemma UnrelatedExistence(d: Disk, root: string, name: string, v: FileVal, x: string)
    requires CleanDir(root) && Clean(name) && Clean(x) && !IsFileOrSubFile(name, x)
    ensures
      var d' := PersistFile(d, Join(root, name), v);
      Exists(d', Join(root, x)) <==>
        Exists(d, Join(root, x)) || (IsFileInDir(x, name) && Join(root, name) in d'.files)
  {
    var target, p := Join(root, name), Join(root, x);
    JoinIs(root, name);
    JoinIs(root, x);
    CleanIsValid(x);
    JoinKeepsUnder(root, name, x);
    JoinKeepsUnder(root, x, name);
    AncestorIsAbove(target, p);
    AncestorIsAbove(p, target);
    if p == target {
      JoinInjective(root, x, name);
    }
    PersistFileGrows(d, target, v, p);
    if IsFileInDir(x, name) && target in PersistFile(d, target, v).files {
      assert FileAbove(PersistFile(d, target, v), p);
    }
  }

  /** The answer that asking about a path would give now. */
  function Answer(cache: map<string, bool>, d: Disk, p: string): bool {
    if p in cache then cache[p] else Exists(d, p)
  }

  /** ... so a path that comes to exist without a file at or under it being persisted has a file above it. */
  lemma NewAnswer(d: Disk, root: string, name: string, v: FileVal, x: string)
    requires CleanDir(root) && Clean(name) && DropPath(x) && !IsFileOrSubFile(name, x)
    ensures
      var d', p := PersistFile(d, Join(root, name), v), Join(root, x);
      Exists(d', p) && !Exists(d, p) ==> FileAbove(d', p)
  {
    SlashIgnored(x);
    var q := if x == "" then "/" else FmtDirWithoutSlash(x);
    CleanIsValid(name);
    assert IsFileOrSubFile(name, "/") by {
      assert FmtDirWithSlash("/") == "/" && name[..1] == "/";
    }
    UnrelatedExistence(d, root, name, v, q);
    var d', p := PersistFile(d, Join(root, name), v), Join(root, x);
    if IsFileInDir(q, name) && Join(root, name) in d'.files {
      JoinIs(root, name);
      JoinIs(root, q);
      JoinKeepsUnder(root, q, name);
      AncestorIsAbove(p, Join(root, name));
    }
  }

  /** Below a path with a file above it nothing can be written either. */
  lemma BelowBlocked(d: Disk, root: string, name: string, v: FileVal, x: string)
    requires CleanDir(root) && Clean(name) && DropPath(x) && IsFileOrSubFile(name, x)
    requires FileAbove(d, Join(root, x))
    ensures PersistFile(d, Join(root, name), v) == d
  {
    SlashIgnored(x);
    var q := if x == "" then "/" else FmtDirWithoutSlash(x);
    var target, p := Join(root, name), Join(root, q);
    JoinIs(root, name);
    if name != q {
      UnderJoined(root, name, q);
      AncestorsGrow(target, p);
    }
    assert FileAbove(d, target) by {
      var a :| a in Ancestors(p) && a in d.files;
      assert a in Ancestors(target);
    }
    BlockedByFile(d, target, v);
  }

  lemma UnderJoined(root: string, name: string, q: string)
    requires CleanDir(root) && Clean(name) && CleanDir(q) && IsFileInDir(name, q)
    ensures IsFileInDir(Join(root, name), Join(root, q))
  {
    JoinIs(root, name);
    CleanIsValid(name);
    CleanIsValid(Join(root, name));
    if q == "/" {
      assert Join(root, q) == root by {
        if root != "/" {
          CleanIsValid(root);
        }
      }
      if root == "/" {
        assert FmtDirWithSlash("/") == "/" && name[..1] == "/";
      } else {
        ConcatIsUnder(root, name);
      }
    } else {
      JoinKeepsUnder(root, name, q);
    }
  }
}
