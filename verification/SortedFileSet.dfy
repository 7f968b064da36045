/** The sorted file set of mfs/sorted_fileset.go: a name list kept sorted beside the name-to-file
    map. */
module SortedFileSet {
  import opened Wrappers
  import opened Ordering
  import opened Paths

  /** What insertName leaves in the list. */
  function Inserted(list: seq<string>, name: string): seq<string> {
    SortedOf(list + [name])
  }

  /** Set on a name that is present lists it twice, so that Foreach would visit it twice. */
  lemma SetPresentDuplicates(list: seq<string>, name: string)
    requires name in list
    ensures multiset(Inserted(list, name))[name] == multiset(list)[name] + 1 >= 2
    ensures !StrictlySorted(Inserted(list, name))
  {
    var l := Inserted(list, name);
    assert multiset(l) == multiset(list) + multiset{name};
    assert name in multiset(list);
    if StrictlySorted(l) {
      DistinctCount(l, name);
    }
  }

  /** What Rename does to the map. */
  function RenamedMap<F>(m: map<string, F>, from: string, to: string): map<string, F>
    requires from in m
  {
    m[to := m[from]] - {from}
  }

  /** Renaming a name to itself deletes it. */
  lemma RenameToSelfDeletes<F>(m: map<string, F>, name: string)
    requires name in m
    ensures RenamedMap(m, name, name) == m - {name}
  {
  }

  /** The names of `list` that lie in `dir`, in order. */
  function NamesIn(list: seq<string>, dir: string): seq<string> {
    if list == [] then []
    else
      var n := |list| - 1;
      NamesIn(list[..n], dir) + (if IsFileInDir(list[n], dir) then [list[n]] else [])
  }

  lemma {:induction false} NamesInSorted(list: seq<string>, dir: string)
    requires StrictlySorted(list)
    ensures StrictlySorted(NamesIn(list, dir))
    ensures forall x :: x in NamesIn(list, dir) <==> x in list && IsFileInDir(x, dir)
  {
    if list != [] {
      var n := |list| - 1;
      NamesInSorted(list[..n], dir);
      var r := NamesIn(list[..n], dir);
      assert list == list[..n] + [list[n]];
      forall x | x in r ensures Less(x, list[n]) {
        assert x in list[..n];
      }
    }
  }

  class SortedFileSet<F> {
    var fileList: seq<string>
    var fileMap: map<string, F>

    ghost predicate Valid()
      reads this
    {
      StrictlySorted(fileList) && SetOf(fileList) == fileMap.Keys
    }

    constructor ()
      ensures Valid() && fileMap == map[]
    {
      fileList, fileMap := [], map[];
    }

    method Get(name: string) returns (f: Option<F>)
      ensures f == if name in fileMap then Some(fileMap[name]) else None
    {
      f := if name in fileMap then Some(fileMap[name]) else None;
    }

    method Contains(name: string) returns (ok: bool)
      ensures ok == (name in fileMap)
    {
      ok := name in fileMap;
    }

    /** An absent name keeps list and map in step; a present one would be listed twice. */
    method Set(name: string, f: F)
      modifies this
      ensures fileMap == old(fileMap)[name := f] && fileList == Inserted(old(fileList), name)
      ensures old(Valid()) && name !in old(fileMap) ==> Valid()
      ensures old(Valid()) && name in old(fileMap) ==> !Valid()
    {
      if Valid() {
        assert name in SetOf(fileList) <==> name in fileMap;
        if name in fileList {
          SetPresentDuplicates(fileList, name);
        } else {
          AddedName(fileList, name);
        }
      }
      fileMap := fileMap[name := f];
      InsertName(name);
    }

    method Remove(name: string) returns (removed: bool)
      requires Valid()
      modifies this
      ensures Valid() && removed == (name in old(fileMap)) && fileMap == old(fileMap) - {name}
    {
      if name !in fileMap {
        return false;
      }
      fileMap := fileMap - {name};
      RemoveName(name);
      return true;
    }

    /** Renaming a name to itself deletes it. */
    method Rename(from: string, to: string) returns (ok: bool)
      requires Valid()
      modifies this
      ensures Valid() && ok == (from in old(fileMap))
      ensures fileMap == if ok then RenamedMap(old(fileMap), from, to) else old(fileMap)
    {
      if from !in fileMap {
        return false;
      }
      if to !in fileMap {
        assert to !in SetOf(fileList);
        AddedName(fileList, to);
        InsertName(to);
      }
      fileMap := fileMap[to := fileMap[from]];
      fileMap := fileMap - {from};
      RemoveName(from);
      return true;
    }

    method InsertName(name: string)
      modifies this`fileList
      ensures fileList == Inserted(old(fileList), name)
    {
      fileList := SortedOf(fileList + [name]);
    }

    /** The shift in place: everything after the name moves down one. */
    method RemoveName(name: string)
      requires StrictlySorted(fileList)
      modifies this`fileList
      ensures StrictlySorted(fileList) && SetOf(fileList) == SetOf(old(fileList)) - {name}
    {
      ghost var was := fileList;
      ghost var at: nat := |was|;
      var found := 0;
      var i: nat := 0;
      while i < |fileList|
        invariant i <= |fileList| == |was| && 0 <= found <= 1
        invariant found == 0 ==> name !in was[..i] && fileList == was
        invariant found == 1 ==> at < i && was[at] == name
        invariant found == 1 ==> fileList[..i - 1] == was[..at] + was[at + 1..i] && fileList[i..] == was[i..]
      {
        if fileList[i] == name {
          if found == 1 {
            assert fileList[i..][0] == was[i..][0];
            StrictIsDistinct(was, at, i);
          }
          found := 1;
          at := i;
        } else if found != 0 {
          ghost var before := fileList;
          assert before[i..][0] == was[i..][0];
          fileList := fileList[i - found := fileList[i]];
          assert fileList[..i] == before[..i - 1] + [before[i]];
          assert was[at + 1..i + 1] == was[at + 1..i] + [was[i]];
          assert fileList[i + 1..] == before[i..][1..] == was[i + 1..];
        }
        i := i + 1;
      }
      fileList := fileList[..|fileList| - found];
      if found == 1 {
        WithoutAt(was, at);
        assert was[at + 1..|was|] == was[at + 1..];
      } else {
        assert was[..|was|] == was;
      }
    }

    static lemma WithoutAt(s: seq<string>, k: nat)
      requires StrictlySorted(s) && k < |s|
      ensures StrictlySorted(s[..k] + s[k + 1..])
      ensures SetOf(s[..k] + s[k + 1..]) == SetOf(s) - {s[k]}
    {
      var r := s[..k] + s[k + 1..];
      forall x ensures x in r <==> x in s && x != s[k] {
        if x in s && x != s[k] {
          var i: nat :| i < |s| && s[i] == x;
          assert r[if i < k then i else i - 1] == x;
        }
        if x in r {
          var i: nat :| i < |r| && r[i] == x;
          var j := if i < k then i else i + 1;
          assert s[j] == x;
          if s[j] == s[k] {
            StrictIsDistinct(s, j, k);
          }
        }
      }
    }

    /** Foreach's snapshot: each live file in the directory once, in name order. */
    method Snapshot(dir: string) returns (names: seq<string>, files: seq<F>)
      requires Valid()
      ensures |files| == |names| && forall i: nat | i < |names| :: names[i] in fileMap && files[i] == fileMap[names[i]]
      ensures StrictlySorted(names)
      ensures forall x :: x in names <==> x in fileMap && IsFileInDir(x, dir)
    {
      names, files := [], [];
      for i := 0 to |fileList|
        invariant names == NamesIn(fileList[..i], dir)
        invariant |files| == |names|
        invariant forall j: nat | j < |names| :: names[j] in fileMap && files[j] == fileMap[names[j]]
      {
        var file := fileList[i];
        assert fileList[..i + 1][..i] == fileList[..i];
        assert file in SetOf(fileList);
        if IsFileInDir(file, dir) {
          names := names + [file];
          files := files + [fileMap[file]];
        }
      }
      assert fileList[..|fileList|] == fileList;
      NamesInSorted(fileList, dir);
      assert forall x :: x in fileList <==> x in SetOf(fileList);
    }
  }
}
