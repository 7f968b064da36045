/** The string operations of mfs/utils.go, and facts about clean paths. */
module Paths {
  // ----- mfs/utils.go ------------------------------------------------------------------------

  predicate HasPrefix(s: string, p: string) {
    p <= s
  }

  predicate HasSuffix(s: string, p: string) {
    |p| <= |s| && s[|s| - |p|..] == p
  }

  function TrimStart(s: string, p: string): string {
    if HasPrefix(s, p) then s[|p|..] else s
  }

  function TrimEnd(s: string, p: string): string {
    if HasSuffix(s, p) then s[..|s| - |p|] else s
  }

  function PrependSlash(f: string): string {
    if !HasPrefix(f, "/") && f != "" then "/" + f else f
  }

  function FmtDirWithoutSlash(d: string): string {
    if d == "/" then d else TrimEnd(d, "/")
  }

  function TrimPrefix(filename: string, prefix: string): string {
    if prefix == "" then filename
    else
      var p := FmtDirWithoutSlash(prefix);
      if p != "/" then TrimStart(filename, p) else filename
  }

  function FmtDirWithSlash(d: string): string {
    if HasSuffix(d, "/") then d else d + "/"
  }

  predicate IsFileInDir(file: string, dir: string) {
    HasPrefix(file, FmtDirWithSlash(dir)) && file != FmtDirWithSlash(dir)
  }

  predicate IsFileOrSubFile(file: string, fileOrDir: string) {
    file == FmtDirWithoutSlash(fileOrDir) || IsFileInDir(file, fileOrDir)
  }

  /** The directory that `absname` was joined from. */
  function GetDirByFile(absname: string, relname: string): string {
    TrimEnd(absname, TrimStart(relname, "/"))
  }

  predicate IsValidFileName(f: string) {
    HasPrefix(f, "/") && !HasSuffix(f, "/")
  }

  // ----- Clean paths -------------------------------------------------------------------------

  /** The component that starts at `i` is not empty, `.` or `..`. */
  predicate CleanAt(p: string, i: nat)
    requires i <= |p|
  {
    && i < |p| && p[i] != '/'
    && !(p[i] == '.' && (i + 1 == |p| || p[i + 1] == '/'))
    && !(p[i] == '.' && i + 1 < |p| && p[i + 1] == '.' && (i + 2 == |p| || p[i + 2] == '/'))
  }

  /** An absolute file name as filepath.Clean leaves it: slash-separated proper components. */
  predicate Clean(p: string) {
    p != "" && p[0] == '/' && forall i: nat | i < |p| && p[i] == '/' :: CleanAt(p, i + 1)
  }

  predicate CleanDir(p: string) {
    p == "/" || Clean(p)
  }

  /** filepath.Join of a clean directory and a clean path, either possibly with a trailing slash. */
  function Join(dir: string, p: string): string {
    var r := TrimEnd(dir, "/") + TrimEnd(p, "/");
    if r == "" then "/" else r
  }

  /** What DropIfExist may be given: a clean directory or file, with or without a trailing slash, or
      nothing, which stands for the root. */
  predicate DropPath(p: string) {
    p == "" || CleanDir(p) || (HasSuffix(p, "/") && Clean(p[..|p| - 1]))
  }

  /** The directories above a path. */
  function Ancestors(p: string): set<string> {
    set i: nat | i < |p| && p[i] == '/' :: if i == 0 then "/" else p[..i]
  }

  /** filepath.Dir of a clean path. */
  function Parent(p: string): string {
    var i := LastSlash(p);
    if i == 0 then "/" else p[..i]
  }

  function LastSlash(p: string): (i: nat)
    ensures i < |p| || i == 0
  {
    if p == "" then 0
    else if p[|p| - 1] == '/' then |p| - 1
    else LastSlash(p[..|p| - 1])
  }

  lemma {:induction false} LastSlashIsLast(p: string)
    requires '/' in p
    ensures LastSlash(p) < |p| && p[LastSlash(p)] == '/'
    ensures forall j: nat | LastSlash(p) < j < |p| :: p[j] != '/'
  {
    var n := |p| - 1;
    if p[n] != '/' {
      assert p == p[..n] + [p[n]];
      LastSlashIsLast(p[..n]);
    }
  }

  lemma CleanIsValid(p: string)
    requires Clean(p)
    ensures IsValidFileName(p) && p != "/" && FmtDirWithoutSlash(p) == p && PrependSlash(p) == p
    ensures TrimEnd(p, "/") == p && FmtDirWithSlash(p) == p + "/" && |p| >= 2
  {
    assert CleanAt(p, 1);
    assert p[|p| - 1] != '/';
  }

  /** The leading slash of a name may be left out. */
  lemma SlashOptional(p: string)
    requires Clean(p)
    ensures PrependSlash(p) == p && PrependSlash(p[1..]) == p
  {
    assert CleanAt(p, 1);
    assert p == "/" + p[1..];
  }

  lemma CleanConcat(a: string, b: string)
    requires Clean(a) && Clean(b)
    ensures Clean(a + b)
  {
    CleanIsValid(a);
    forall i: nat | i < |a + b| && (a + b)[i] == '/' ensures CleanAt(a + b, i + 1) {
      if i < |a| {
        assert CleanAt(a, i + 1);
      } else {
        assert CleanAt(b, i - |a| + 1);
      }
    }
  }

  lemma CleanTail(p: string, k: nat)
    requires Clean(p) && k < |p| && p[k] == '/'
    ensures Clean(p[k..])
  {
    forall i: nat | i < |p[k..]| && p[k..][i] == '/' ensures CleanAt(p[k..], i + 1) {
      assert CleanAt(p, k + i + 1);
    }
  }

  lemma CleanHead(p: string, k: nat)
    requires Clean(p) && 0 < k < |p| && p[k] == '/'
    ensures Clean(p[..k])
  {
    forall i: nat | i < |p[..k]| && p[..k][i] == '/' ensures CleanAt(p[..k], i + 1) {
      assert CleanAt(p, i + 1);
    }
  }

  // ----- Join --------------------------------------------------------------------------------

  lemma JoinIs(dir: string, p: string)
    requires CleanDir(dir) && Clean(p)
    ensures Clean(Join(dir, p))
    ensures Join(dir, p) == if dir == "/" then p else dir + p
  {
    CleanIsValid(p);
    if dir != "/" {
      CleanIsValid(dir);
      CleanConcat(dir, p);
    }
  }

  /** A trailing slash changes nothing about a drop path. */
  lemma SlashIgnored(p: string)
    requires DropPath(p)
    ensures
      var q := if p == "" then "/" else FmtDirWithoutSlash(p);
      && CleanDir(q)
      && (forall root :: Join(root, p) == Join(root, q))
      && (forall f | Clean(f) :: IsFileOrSubFile(f, p) <==> IsFileOrSubFile(f, q))
  {
    if p != "" && !CleanDir(p) {
      CleanIsValid(p[..|p| - 1]);
    } else if p == "" {
      assert TrimEnd("/", "/") == "" && FmtDirWithSlash("") == FmtDirWithSlash("/") == "/";
    } else if p != "/" {
      CleanIsValid(p);
    }
  }

  lemma JoinInjective(dir: string, p: string, q: string)
    requires CleanDir(dir) && Clean(p) && Clean(q) && Join(dir, p) == Join(dir, q)
    ensures p == q
  {
    JoinIs(dir, p);
    JoinIs(dir, q);
    if dir != "/" {
      assert p == (dir + p)[|dir|..] && q == (dir + q)[|dir|..];
    }
  }

  /** Inside a joined tree, lying below a directory means the same as before. */
  lemma JoinKeepsUnder(dir: string, p: string, q: string)
    requires CleanDir(dir) && Clean(p) && Clean(q)
    ensures IsFileInDir(Join(dir, p), Join(dir, q)) <==> IsFileInDir(p, q)
  {
    JoinIs(dir, p);
    JoinIs(dir, q);
    CleanIsValid(q);
    CleanIsValid(Join(dir, q));
    if dir != "/" {
      CommonPrefix(dir, q + "/", p);
      assert Join(dir, q) + "/" == dir + (q + "/");
    }
  }

  lemma CommonPrefix(a: string, x: string, y: string)
    ensures HasPrefix(a + y, a + x) <==> HasPrefix(y, x)
    ensures a + x == a + y <==> x == y
  {
    assert y == (a + y)[|a|..] && x == (a + x)[|a|..];
    if HasPrefix(a + y, a + x) {
      assert (a + y)[|a|..|a + x|] == (a + x)[|a|..];
      assert y[..|x|] == x;
    }
  }

  /** A file in a clean directory is the directory with a clean rest. */
  lemma UnderIs(file: string, dir: string)
    requires Clean(file) && Clean(dir) && IsFileInDir(file, dir)
    ensures Clean(file[|dir|..]) && file == dir + file[|dir|..] && TrimPrefix(file, dir) == file[|dir|..]
    ensures |file| > |dir|
  {
    CleanIsValid(dir);
    assert file[|dir|] == (dir + "/")[|dir|];
    CleanTail(file, |dir|);
    assert file[..|dir|] == (dir + "/")[..|dir|];
  }

  lemma ConcatIsUnder(dir: string, rest: string)
    requires Clean(dir) && Clean(rest)
    ensures IsFileInDir(dir + rest, dir) && Clean(dir + rest) && (dir + rest)[|dir|..] == rest
  {
    CleanIsValid(dir);
    CleanIsValid(rest);
    CleanConcat(dir, rest);
    assert (dir + rest)[..|dir| + 1] == dir + "/";
  }

  /** Two directories above the same file lie one above the other. */
  lemma UnderLinear(file: string, a: string, b: string)
    requires Clean(file) && Clean(a) && Clean(b) && IsFileInDir(file, a) && IsFileInDir(file, b)
    ensures a == b || IsFileInDir(a, b) || IsFileInDir(b, a)
  {
    UnderIs(file, a);
    UnderIs(file, b);
    CleanIsValid(a);
    CleanIsValid(b);
    if |a| == |b| {
      assert a == file[..|a|] == b;
    } else if |a| < |b| {
      assert b[..|a| + 1] == file[..|a| + 1] == a + "/";
    } else {
      assert a[..|b| + 1] == file[..|b| + 1] == b + "/";
    }
  }

  // ----- Ancestors ---------------------------------------------------------------------------

  lemma AncestorIsAbove(p: string, a: string)
    requires Clean(p) && CleanDir(a)
    ensures a in Ancestors(p) <==> IsFileInDir(p, a)
  {
    CleanIsValid(p);
    if a == "/" {
      assert p[0] == '/' && FmtDirWithSlash(a) == "/" && p[..1] == "/";
      assert a in Ancestors(p);
    } else {
      CleanIsValid(a);
      if IsFileInDir(p, a) {
        UnderIs(p, a);
        assert p[|a|] == '/' && p[..|a|] == a;
      }
      if a in Ancestors(p) {
        var i: nat :| i < |p| && p[i] == '/' && a == if i == 0 then "/" else p[..i];
        assert p[..i + 1] == a + "/";
      }
    }
  }

  lemma ParentIsAncestor(p: string)
    requires Clean(p)
    ensures Parent(p) in Ancestors(p) && CleanDir(Parent(p))
    ensures Parent(p) != "/" ==> Ancestors(p) == Ancestors(Parent(p)) + {Parent(p)}
    ensures Parent(p) == "/" ==> Ancestors(p) == {"/"}
  {
    assert p[0] == '/';
    LastSlashIsLast(p);
    var k := LastSlash(p);
    if k > 0 {
      CleanHead(p, k);
      var q := p[..k];
      forall a ensures a in Ancestors(p) <==> a in Ancestors(q) + {q} {
        if a in Ancestors(p) {
          var i: nat :| i < |p| && p[i] == '/' && a == if i == 0 then "/" else p[..i];
          if i < k {
            assert q[i] == '/' && q[..i] == p[..i];
          }
        }
        if a in Ancestors(q) {
          var i: nat :| i < |q| && q[i] == '/' && a == if i == 0 then "/" else q[..i];
          assert p[i] == '/' && q[..i] == p[..i];
        }
      }
    }
  }

  /** What lies above a path lies above everything under it. */
  lemma AncestorsGrow(p: string, dir: string)
    requires IsFileInDir(p, dir)
    ensures Ancestors(dir) <= Ancestors(p)
  {
    var k := |dir|;
    assert p[..k] == FmtDirWithSlash(dir)[..k] == dir;
    forall a | a in Ancestors(dir) ensures a in Ancestors(p) {
      var i: nat :| i < |dir| && dir[i] == '/' && a == if i == 0 then "/" else dir[..i];
      assert p[i] == dir[i] && p[..i] == dir[..i];
    }
  }

  /** The directory a persisted file's target was made from, and dropping below it. */
  lemma DirOfJoined(root: string, name: string, d: string)
    requires CleanDir(root) && Clean(name)
    ensures Join(GetDirByFile(Join(root, name), name), d) == Join(root, d)
  {
    JoinIs(root, name);
    CleanIsValid(name);
    var abs := Join(root, name);
    var rel := name[1..];
    assert TrimStart(name, "/") == rel;
    assert abs[|abs| - |rel|..] == rel;
    var dir := GetDirByFile(abs, name);
    if root == "/" {
      assert dir == "/";
    } else {
      assert dir == root + "/";
      CleanIsValid(root);
      assert TrimEnd(dir, "/") == root;
    }
  }
}
