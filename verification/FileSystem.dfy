/** The in-memory file system of mfs/mem_filesystem.go over its sorted file set, its event bus and its
    file objects. */
module FileSystem {
  import opened Wrappers
  import opened Ordering
  import opened Paths
  import opened FsSpec
  import opened MemFile
  import opened PersistSpec
  import opened PersistResult
  import opened PersistHooks
  import opened FileExistCache
  import S = SortedFileSet

  class MemFileSystem {
    const drv: Bus
    const fileSet: S.SortedFileSet<MFile>
    const ios: Os
    var removedFiles: set<string>
    /** The paths given to DropIfExist, oldest first: each wraps the persist function once more. */
    var drops: seq<string>
    /** Every file object created here, replaced and removed ones included. */
    ghost var objs: set<MFile>
    /** The abstract state: names with their files' values, and the tombstones. */
    ghost var state: FsState

    /** A file in the index has not unsubscribed and has the key's value. */
    ghost predicate Entry(n: string, f: MFile)
      reads this, f
    {
      f.unEventList != [] && n in state.files && state.files[n] == FileVal(f.origFile, f.content)
    }

    /** ... and it goes by its key. */
    ghost predicate Indexed(n: string, f: MFile)
      reads this, f
    {
      f.name == n && Entry(n, f)
    }

    ghost predicate Valid()
      reads this, drv, fileSet, objs
    {
      && fileSet.Valid()
      && drv.Consistent(objs)
      && (forall n {:trigger n in state.files} :: n in state.files <==> n in fileSet.fileMap)
      && (forall n {:trigger fileSet.fileMap[n]} | n in fileSet.fileMap ::
            fileSet.fileMap[n] in objs && Indexed(n, fileSet.fileMap[n]))
      && (forall f | f in objs :: f.dirty == f.content.Some?)
      && removedFiles == state.removed
      && FsInv(state)
    }

    constructor (ios: Os)
      ensures Valid() && state == FsState(map[], {}) && objs == {} && drops == []
      ensures fresh(drv) && fresh(fileSet) && this.ios == ios
    {
      this.ios, drops := ios, [];
      drv := new Bus();
      fileSet := new S.SortedFileSet();
      removedFiles, objs, state := {}, {}, FsState(map[], {});
    }

    method Exist(name: string) returns (ok: bool)
      requires Valid()
      ensures ok == (PrependSlash(name) in state.files)
    {
      ok := fileSet.Contains(PrependSlash(name));
    }

    /** The file set forgets a name. */
    method Unindex(name: string) returns (removed: bool)
      requires Valid()
      modifies this`state, fileSet
      ensures Valid() && removed == (name in old(state.files))
      ensures state == old(state).(files := old(state).files - {name})
    {
      removed := fileSet.Remove(name);
      state := state.(files := state.files - {name});
      assert drv.Consistent(objs);
      forall n | n in fileSet.fileMap ensures Indexed(n, fileSet.fileMap[n]) {
        assert old(Indexed(n, fileSet.fileMap[n]));
      }
    }

    /** The file set learns a name it does not have. */
    method Index(name: string, f: MFile)
      requires Valid() && Clean(name) && name !in state.files && name !in state.removed
      requires f in objs && f.name == name && f.unEventList != []
      modifies this`state, fileSet
      ensures Valid() && fileSet.fileMap == old(fileSet.fileMap)[name := f]
      ensures state == old(state).(files := old(state).files[name := FileVal(f.origFile, f.content)])
    {
      ghost var more := state.(files := state.files[name := FileVal(f.origFile, f.content)]);
      assert FsInv(more);
      fileSet.Set(name, f);
      assert fileSet.Valid() && drv.Consistent(objs);
      state := more;
      assert Indexed(name, f);
      forall n | n in fileSet.fileMap && n != name
        ensures fileSet.fileMap[n] in objs && Indexed(n, fileSet.fileMap[n])
      {
        assert old(Indexed(n, fileSet.fileMap[n]));
      }
    }

    method MarkFileRemoved(name: string)
      requires Valid() && Clean(name) && name !in state.files
      modifies this`state, this`removedFiles
      ensures Valid() && state == old(state).(removed := old(state).removed + {name})
    {
      removedFiles := removedFiles + {name};
      state := state.(removed := state.removed + {name});
    }

    method UnmarkFileRemoved(name: string)
      requires Valid()
      modifies this`state, this`removedFiles
      ensures Valid() && state == old(state).(removed := old(state).removed - {name})
    {
      removedFiles := removedFiles - {name};
      state := state.(removed := state.removed - {name});
    }

    /** The removed event for a name that is no longer indexed. */
    method TriggerRemoved(name: string)
      requires Valid() && name !in state.files
      modifies drv, objs`unEventList
      ensures Valid()
    {
      drv.TriggerRemoved(name, objs);
      forall n | n in fileSet.fileMap ensures Indexed(n, fileSet.fileMap[n]) {
        var f := fileSet.fileMap[n];
        assert old(Indexed(n, f));
      }
    }

    /** createFile: a new object, subscribed and not yet indexed. */
    method NewFile(name: string, origFile: string) returns (f: MFile)
      requires Valid()
      modifies this`objs, drv
      ensures Valid() && fresh(f) && objs == old(objs) + {f}
      ensures f.name == name && f.origFile == origFile && f.content == None && f.unEventList != []
    {
      f := new MFile(drv, origFile, name);
      f.RegistListener(objs);
      objs := objs + {f};
      forall n | n in fileSet.fileMap ensures Indexed(n, fileSet.fileMap[n]) {
        var g := fileSet.fileMap[n];
        assert old(Indexed(n, g));
      }
    }

    /** removeFile: tombstone and event. */
    method RemoveFile(name: string) returns (ok: bool)
      requires Valid()
      modifies this`removedFiles, this`state, fileSet, drv, objs`unEventList
      ensures Valid() && state == RemovedOne(old(state), name) && ok == (name in old(state.files))
    {
      ok := Unindex(name);
      if ok {
        MarkFileRemoved(name);
        TriggerRemoved(name);
      }
    }

    /** createFileWithOrigFile: an object that is replaced loses its index entry but not its
        subscriptions. */
    method CreateFileWithOrigFile(name: string, origFile: string) returns (f: MFile)
      requires Valid() && Clean(name)
      modifies this`removedFiles, this`objs, this`state, fileSet, drv
      ensures Valid() && state == Created(old(state), name, FileVal(origFile, None))
      ensures fresh(f) && objs == old(objs) + {f}
      ensures name in fileSet.fileMap && fileSet.fileMap[name] == f && f.name == name
      ensures f.origFile == origFile && f.content == None
    {
      f := NewFile(name, origFile);
      var present := fileSet.Contains(name);
      if present {
        var _ := Unindex(name);
      }
      UnmarkFileRemoved(name);
      Index(name, f);
      ReplacedEntry(old(state).files, name, state.files[name]);
    }

    /** loadContent: what was set, or else what the original file holds now. */
    method LoadContent(f: MFile) returns (data: Option<Bytes>)
      ensures data == ContentOf(ios.View(), FileVal(f.origFile, f.content))
    {
      data := f.content;
      if data.None? && f.origFile != "" {
        data := ios.Open(f.origFile);
      }
    }

    /** Map on any file object, indexed or not. */
    method Map(f: MFile, fn: Option<Bytes> -> seq<Bytes>)
      requires Valid() && f in objs
      modifies this`state, f`content, f`dirty
      ensures Valid()
      ensures
        var data := LastWrite(fn(ContentOf(ios.View(), FileVal(f.origFile, old(f.content)))));
        f.content == Some(data) && state == Stored(old(state), old(IsIndexed(f)), f.name, data)
    {
      var src := LoadContent(f);
      MapLoaded(f, src, fn);
    }

    ghost predicate IsIndexed(f: MFile)
      reads f, fileSet
    {
      f.name in fileSet.fileMap && fileSet.fileMap[f.name] == f
    }

    method MapLoaded(f: MFile, src: Option<Bytes>, fn: Option<Bytes> -> seq<Bytes>)
      requires Valid() && f in objs
      modifies this`state, f`content, f`dirty
      ensures Valid()
      ensures f.content == Some(LastWrite(fn(src)))
      ensures state == Stored(old(state), old(IsIndexed(f)), f.name, LastWrite(fn(src)))
    {
      f.Map(src, fn, objs);
      state := Stored(state, IsIndexed(f), f.name, f.content.value);
      forall n | n in fileSet.fileMap ensures Indexed(n, fileSet.fileMap[n]) {
        assert old(Indexed(n, fileSet.fileMap[n]));
        assert fileSet.fileMap[n] == f ==> n == f.name;
      }
    }

    method SetContent(f: MFile, data: Bytes)
      requires Valid() && f in objs
      modifies this`state, f`content, f`dirty
      ensures Valid() && f.content == Some(data)
      ensures state == Stored(old(state), old(IsIndexed(f)), f.name, data)
    {
      Map(f, _ => [data]);
    }

    /** SetContent on an indexed file. */
    method SetIndexed(name: string, f: MFile, data: Bytes)
      requires Valid() && name in fileSet.fileMap && fileSet.fileMap[name] == f
      modifies this`state, f`content, f`dirty
      ensures Valid() && state == ContentSet(old(state), name, data)
    {
      assert Indexed(name, f);
      SetContent(f, data);
    }

    /** Between the two halves of a rename: the file at `to` still goes by `from`. */
    ghost predicate HalfMoved(from: string, to: string)
      reads this, drv, fileSet, objs
    {
      && fileSet.Valid()
      && drv.Consistent(objs)
      && (forall n {:trigger n in state.files} :: n in state.files <==> n in fileSet.fileMap)
      && (forall n {:trigger fileSet.fileMap[n]} | n in fileSet.fileMap ::
            && fileSet.fileMap[n] in objs && Entry(n, fileSet.fileMap[n])
            && (n == to ==> fileSet.fileMap[n].name == from)
            && (n != to ==> fileSet.fileMap[n].name == n))
      && (forall f | f in objs :: f.dirty == f.content.Some?)
      && removedFiles == state.removed
      && FsInv(state)
    }

    /** The index entry moves. */
    method MoveEntry(from: string, to: string)
      requires Valid() && from in state.files && to !in state.files && to !in state.removed && Clean(to)
      modifies this`state, fileSet
      ensures HalfMoved(from, to) && from !in state.files && from != to
      ensures state == old(state).(files := old(state).files[to := old(state).files[from]] - {from})
    {
      ghost var moved := state.(files := state.files[to := state.files[from]] - {from});
      assert FsInv(moved);
      var ok := fileSet.Rename(from, to);
      assert drv.Consistent(objs);
      state := moved;
      forall n | n in fileSet.fileMap ensures Entry(n, fileSet.fileMap[n]) {
        assert old(Indexed(from, fileSet.fileMap[from]));
        assert n != to ==> old(Indexed(n, fileSet.fileMap[n]));
      }
    }

    /** The index entry moves, then the rename event moves the file's own name. */
    method MoveIndexed(from: string, to: string)
      requires Valid() && from in state.files && to !in state.files && to !in state.removed && Clean(to)
      modifies this`state, fileSet, objs`name
      ensures Valid()
      ensures state == old(state).(files := old(state).files[to := old(state).files[from]] - {from})
    {
      MoveEntry(from, to);
      FinishMove(from, to);
    }

    method FinishMove(from: string, to: string)
      requires HalfMoved(from, to) && from !in state.files && from != to
      modifies objs`name
      ensures Valid()
    {
      assert from !in fileSet.fileMap;
      drv.TriggerMoved(from, to, objs, fileSet.fileMap);
      forall n | n in fileSet.fileMap ensures Entry(n, fileSet.fileMap[n]) {
        assert old(Entry(n, fileSet.fileMap[n]));
      }
    }

    method RenameFile(from: string, to: string) returns (ok: bool)
      requires Valid() && (IsValidFileName(to) ==> Clean(to))
      modifies this`removedFiles, this`state, fileSet, drv, objs`unEventList, objs`name
      ensures Valid() && state == RenamedOne(old(state), from, to) && ok == CanRename(old(state), from, to)
    {
      ok := false;
      if IsValidFileName(from) && IsValidFileName(to) && from != to {
        var present := fileSet.Contains(from);
        if !present {
          assert from !in state.files;
          return;
        }
        ok := true;
        RenameLive(from, to);
      }
    }

    method RenameLive(from: string, to: string)
      requires Valid() && from in state.files && Clean(to) && from != to
      modifies this`removedFiles, this`state, fileSet, drv, objs`unEventList, objs`name
      ensures Valid()
      ensures state == FsState((old(state).files - {to})[to := old(state).files[from]] - {from},
                               old(state).removed - {to})
    {
      var clash := fileSet.Contains(to);
      ReplacedEntry(state.files, to, state.files[from]);
      if clash {
        DropTarget(to);
      }
      UnmarkFileRemoved(to);
      MoveIndexed(from, to);
    }

    /** A rename's target leaves the set with a removed event and no tombstone. */
    method DropTarget(to: string)
      requires Valid()
      modifies this`state, fileSet, drv, objs`unEventList
      ensures Valid() && state == old(state).(files := old(state).files - {to})
    {
      var _ := Unindex(to);
      TriggerRemoved(to);
    }

    /** ReadDir: the files of a directory, or of its whole tree, once each and in name order. */
    method ReadDir(dir: string, recursive: bool) returns (names: seq<string>, files: seq<MFile>)
      requires Valid()
      ensures |names| == |files|
      ensures forall i: nat | i < |names| :: names[i] in fileSet.fileMap && files[i] == fileSet.fileMap[names[i]]
      ensures StrictlySorted(names)
      ensures
        var d := FmtDirWithoutSlash(PrependSlash(dir));
        forall n :: n in names <==> n in Below(state, d) && (recursive || d == Parent(n))
    {
      var d := FmtDirWithoutSlash(PrependSlash(dir));
      var all, objects := fileSet.Snapshot(d);
      assert forall n :: n in all <==> n in Below(state, d);
      if recursive {
        return all, objects;
      }
      names, files := DirectChildren(all, objects, d);
    }

    method DirectChildren(all: seq<string>, objects: seq<MFile>, d: string)
      returns (names: seq<string>, files: seq<MFile>)
      requires StrictlySorted(all) && |objects| == |all|
      requires forall j: nat | j < |all| :: all[j] in fileSet.fileMap && objects[j] == fileSet.fileMap[all[j]]
      ensures StrictlySorted(names) && |files| == |names|
      ensures forall n :: n in names <==> n in all && d == Parent(n)
      ensures forall j: nat | j < |names| :: names[j] in fileSet.fileMap && files[j] == fileSet.fileMap[names[j]]
    {
      names, files := [], [];
      for i := 0 to |all|
        invariant |names| == |files| && names == Children(all[..i], d)
        invariant forall j: nat | j < |names| :: names[j] in fileSet.fileMap && files[j] == fileSet.fileMap[names[j]]
      {
        assert all[..i + 1][..i] == all[..i];
        if d == Parent(all[i]) {
          names := names + [all[i]];
          files := files + [objects[i]];
        }
      }
      assert all[..|all|] == all;
      ChildrenSorted(all, d);
    }

    /** The names of a whole tree. */
    method NamesUnder(dir: string) returns (names: seq<string>)
      requires Valid() && PrependSlash(dir) == dir
      ensures names == Listing(Below(state, FmtDirWithoutSlash(dir)))
      ensures forall i: nat | i < |names| ::
        names[i] in state.files && Clean(names[i]) && IsFileInDir(names[i], FmtDirWithoutSlash(dir))
    {
      var files;
      names, files := ReadDir(dir, true);
      StrictListingUnique(names, Listing(Below(state, FmtDirWithoutSlash(dir))));
      assert forall i: nat | i < |names| :: names[i] in Below(state, FmtDirWithoutSlash(dir));
    }

    method Rename(from: string, to: string)
      requires Valid() && SourceDir(PrependSlash(from)) && CleanDir(PrependSlash(to))
      modifies this`removedFiles, this`state, fileSet, drv, objs`unEventList, objs`name
      ensures Valid() && state == Renamed(old(state), PrependSlash(from), PrependSlash(to))
    {
      var a, b := PrependSlash(from), PrependSlash(to);
      var done := RenameFile(a, b);
      if !done {
        RenameTree(a, b);
      }
    }

    /** The loop over a snapshot of the directory's names. */
    method RenameTree(a: string, b: string)
      requires Valid() && SourceDir(a) && CleanDir(b)
      modifies this`removedFiles, this`state, fileSet, drv, objs`unEventList, objs`name
      ensures Valid()
      ensures state == RenamedEach(old(state), Listing(Below(old(state), FmtDirWithoutSlash(a))), a, b)
    {
      ghost var start := state;
      var names := NamesUnder(a);
      forall i: nat | i < |names| ensures Clean(MovedName(names[i], a, b)) {
        MovedNameClean(names[i], a, b);
      }
      assert names[0..] == names;
      for i := 0 to |names|
        invariant Valid()
        invariant RenamedEach(state, names[i..], a, b) == RenamedEach(start, names, a, b)
      {
        RenamedEachStep(state, names, i, a, b);
        var _ := RenameFile(names[i], MovedName(names[i], a, b));
      }
    }

    method Remove(name: string)
      requires Valid()
      modifies this`removedFiles, this`state, fileSet, drv, objs`unEventList
      ensures Valid() && state == Removed(old(state), PrependSlash(name))
    {
      var n := PrependSlash(name);
      if !IsValidFileName(n) {
        return;
      }
      var done := RemoveFile(n);
      if !done {
        RemoveTree(n, true);
      }
    }

    /** The loop of Remove, and with `mark` false that of Erase.  A file's name is asked for when its
        turn comes. */
    method RemoveTree(n: string, mark: bool)
      requires Valid() && PrependSlash(n) == n
      modifies this`removedFiles, this`state, fileSet, drv, objs`unEventList
      ensures Valid()
      ensures state == TakenAway(old(state), Below(old(state), FmtDirWithoutSlash(n)), mark)
    {
      ghost var start := state;
      var names, files := ReadDir(n, true);
      assert forall i: nat | i < |names| :: names[i] in start.files && files[i].name == names[i] by {
        forall i: nat | i < |names| ensures names[i] in start.files && files[i].name == names[i] {
          assert names[i] in Below(start, FmtDirWithoutSlash(n));
          assert Indexed(names[i], fileSet.fileMap[names[i]]);
        }
      }
      for i := 0 to |names|
        invariant Valid()
        invariant state == TakenAway(start, SetOf(names[..i]), mark)
      {
        OneMoreTaken(start, names, i, mark);
        RemoveMember(files[i].name, mark);
      }
      assert SetOf(names[..|names|]) == Below(start, FmtDirWithoutSlash(n));
    }

    method RemoveMember(n: string, mark: bool)
      requires Valid() && n in state.files
      modifies this`removedFiles, this`state, fileSet, drv, objs`unEventList
      ensures Valid() && state == TakenAway(old(state), {n}, mark)
    {
      var ok := RemoveFile(n);
      if ok && !mark {
        UnmarkFileRemoved(n);
      }
    }

    method Erase(name: string)
      requires Valid()
      modifies this`removedFiles, this`state, fileSet, drv, objs`unEventList
      ensures Valid() && state == Erased(old(state), PrependSlash(name))
    {
      var n := PrependSlash(name);
      if !IsValidFileName(n) {
        return;
      }
      var done := RemoveFile(n);
      if done {
        UnmarkFileRemoved(n);
      } else {
        RemoveTree(n, false);
      }
    }

    /** copyFile.  With equal paths the file is removed before it is read, and reading it panics. */
    method CopyFile(from: string, to: string) returns (ok: bool, panicked: bool)
      requires Valid() && Clean(to)
      modifies this`removedFiles, this`state, this`objs, fileSet, drv
      modifies objs`unEventList
      ensures Valid()
      ensures panicked <==> CopiedOne(old(state), from, to).None?
      ensures if panicked then state == RemovedOne(old(state), to) else Some(state) == CopiedOne(old(state), from, to)
      ensures ok == (from in old(state).files)
      ensures fresh(objs - old(objs))
    {
      ok, panicked := false, false;
      var present := fileSet.Contains(from);
      if !present {
        return;
      }
      ok := true;
      panicked := CopyLive(from, to);
    }

    method CopyLive(from: string, to: string) returns (panicked: bool)
      requires Valid() && Clean(to) && from in state.files
      modifies this`removedFiles, this`state, this`objs, fileSet, drv
      modifies objs`unEventList
      ensures Valid()
      ensures panicked <==> from == to
      ensures state == if panicked then RemovedOne(old(state), to)
                       else Created(RemovedOne(old(state), to), to, CopyVal(old(state).files[from]))
      ensures fresh(objs - old(objs))
    {
      RemoveClash(to);
      var file := fileSet.Get(from);
      if file.None? {
        assert from !in state.files;
        return true;
      }
      assert Indexed(from, file.value);
      ghost var before := objs;
      var f := CopyInto(file.value, to);
      assert objs - before <= {f};
      return false;
    }

    method RemoveClash(to: string)
      requires Valid()
      modifies this`removedFiles, this`state, fileSet, drv, objs`unEventList
      ensures Valid() && state == RemovedOne(old(state), to)
    {
      var clash := fileSet.Contains(to);
      if clash {
        var _ := RemoveFile(to);
      } else {
        assert to !in state.files;
      }
    }

    method CopyInto(file: MFile, to: string) returns (f: MFile)
      requires Valid() && Clean(to) && file in objs
      modifies this`removedFiles, this`state, this`objs, fileSet, drv
      ensures Valid()
      ensures state == Created(old(state), to, CopyVal(FileVal(file.origFile, old(file.content))))
      ensures fresh(f) && objs == old(objs) + {f}
    {
      if file.dirty {
        f := CreateWithContent(to, file.content.value);
      } else {
        f := CreateFileWithOrigFile(to, file.origFile);
      }
    }

    method CreateWithContent(name: string, data: Bytes) returns (f: MFile)
      requires Valid() && Clean(name)
      modifies this`removedFiles, this`state, this`objs, fileSet, drv
      ensures Valid() && fresh(f) && objs == old(objs) + {f}
      ensures state == Created(old(state), name, FileVal("", Some(data)))
    {
      CreatedThenSet(state, name, "", data);
      f := CreateFileWithOrigFile(name, "");
      SetIndexed(name, f, data);
    }

    /** Copy, of a file or of a directory's files one by one. */
    method Copy(from: string, to: string) returns (panicked: bool)
      requires Valid() && (IsValidFileName(PrependSlash(from)) ==> Clean(PrependSlash(from)))
      requires IsValidFileName(PrependSlash(to)) ==> Clean(PrependSlash(to))
      modifies this`removedFiles, this`state, this`objs, fileSet, drv
      modifies objs`unEventList
      ensures Valid()
      ensures fresh(objs - old(objs))
      ensures panicked <==> Copied(old(state), PrependSlash(from), PrependSlash(to)).None?
      ensures !panicked ==> Some(state) == Copied(old(state), PrependSlash(from), PrependSlash(to))
    {
      var a, b := PrependSlash(from), PrependSlash(to);
      if !IsValidFileName(a) || !IsValidFileName(b) {
        return false;
      }
      var ok;
      ok, panicked := CopyFile(a, b);
      if !ok {
        panicked := CopyTree(a, b);
      }
    }

    method CopyTree(a: string, b: string) returns (panicked: bool)
      requires Valid() && Clean(a) && Clean(b)
      modifies this`removedFiles, this`state, this`objs, fileSet, drv
      modifies objs`unEventList
      ensures Valid() && fresh(objs - old(objs))
      ensures
        var r := CopiedEach(old(state), Listing(Below(old(state), FmtDirWithoutSlash(a))), a, b);
        (panicked <==> r.None?) && (!panicked ==> Some(state) == r)
    {
      ghost var start := state;
      CleanIsValid(a);
      var names := NamesUnder(a);
      forall i: nat | i < |names| ensures Clean(Rebased(names[i], a, b)) {
        RebasedIs(names[i], a, b);
      }
      assert names[0..] == names;
      var i := 0;
      panicked := false;
      while i < |names| && !panicked
        invariant 0 <= i <= |names| && Valid() && fresh(objs - old(objs))
        invariant CopiedEach(start, names, a, b)
               == if panicked then None else CopiedEach(state, names[i..], a, b)
      {
        panicked := CopyMember(names, i, a, b);
        i := i + 1;
      }
    }

    method CopyMember(names: seq<string>, i: nat, a: string, b: string) returns (panicked: bool)
      requires Valid() && i < |names| && Clean(Rebased(names[i], a, b))
      modifies this`removedFiles, this`state, this`objs, fileSet, drv
      modifies objs`unEventList
      ensures Valid() && fresh(objs - old(objs))
      ensures CopiedEach(old(state), names[i..], a, b)
           == if panicked then None else CopiedEach(state, names[i + 1..], a, b)
    {
      CopiedEachStep(state, names, i, a, b);
      var ok;
      ok, panicked := CopyFile(names[i], Rebased(names[i], a, b));
    }

    method RunOp(op: Op)
      requires Valid() && Good(op)
      modifies this`removedFiles, this`state, this`objs, fileSet, drv
      modifies objs`unEventList, objs`name, objs`content, objs`dirty
      ensures Valid() && state == ApplyOp(old(state), op)
      ensures fresh(objs - old(objs))
    {
      match op {
        case CreateOp(n, orig) =>
          var _ := CreateFileWithOrigFile(n, orig);
        case ContentOp(n, data) =>
          var f := fileSet.Get(n);
          if f.Some? {
            assert Indexed(n, f.value);
            SetIndexed(n, f.value, data);
          } else {
            assert n !in state.files;
          }
        case RemoveOp(n) =>
          CleanIsValid(n);
          Remove(n);
        case EraseOp(n) =>
          CleanIsValid(n);
          Erase(n);
        case RenameOp(a, b) =>
          CleanIsValid(a);
          CleanIsValid(b);
          Rename(a, b);
        case CopyOp(a, b) =>
          CleanIsValid(a);
          CleanIsValid(b);
          CopyPanics(state, a, b);
          var _ := Copy(a, b);
      }
    }

    /** After any sequence of operations the invariant holds, and with it IndexedFilesListen. */
    method RunOps(ops: seq<Op>)
      requires Valid() && forall i: nat | i < |ops| :: Good(ops[i])
      modifies this`removedFiles, this`state, this`objs, fileSet, drv
      modifies objs`unEventList, objs`name, objs`content, objs`dirty
      ensures Valid() && state == ApplyOps(old(state), ops)
    {
      for i := 0 to |ops|
        invariant Valid() && state == ApplyOps(old(state), ops[..i])
        invariant fresh(objs - old(objs))
      {
        assert ops[..i + 1][..i] == ops[..i];
        RunOp(ops[i]);
      }
      assert ops[..|ops|] == ops;
    }

    /** Every indexed file goes by its key and still holds its rename and removed subscriptions on the
        bus, although replaced objects stay subscribed there too. */
    lemma IndexedFilesListen(n: string)
      requires Valid() && n in fileSet.fileMap
      ensures fileSet.fileMap[n].name == n && drv.Subscribed(fileSet.fileMap[n])
    {
      var f := fileSet.fileMap[n];
      assert Indexed(n, f);
      assert drv.Settled(f);
    }

    method DropIfExist(name: string)
      requires Valid() && DropPath(PrependSlash(name))
      modifies this`drops
      ensures Valid() && drops == old(drops) + [PrependSlash(name)]
    {
      drops := drops + [PrependSlash(name)];
    }

    /** _persitFile, with loadContent and mkAll. */
    method PersistFile(f: MFile, fullname: string)
      requires f.dirty == f.content.Some?
      modifies ios
      ensures ios.View() == PersistSpec.PersistFile(old(ios.View()), fullname, FileVal(f.origFile, f.content))
    {
      if f.origFile != fullname || f.dirty {
        var dir := Parent(fullname);
        var there := ios.Exist(dir);
        if !there {
          var made := ios.MkdirAll(dir);
          if !made {
            return;
          }
        }
        var data := LoadContent(f);
        if data.Some? {
          var _ := ios.WriteToFile(fullname, data.value);
        }
      }
    }

    /** The DropIfExist hooks around one file, newest first, against the cache of this Persist, `u` being the
        files that no hook drops by the disk `d0` when Persist began.  A file is dropped exactly if the decided
        answer of a dropped path it is at or under is yes: the path existed, or a file of `u` above it is
        written.  In the second case nothing could have been written for the file. */
    method Dropped(f: MFile, fullname: string, root: string, fc: Cache, ghost d0: Disk, ghost u: FsState)
      returns (drop: bool)
      requires Clean(f.name) && CleanDir(root) && fullname == Join(root, f.name) && fc.os == ios
      requires forall i: nat | i < |drops| :: DropPath(drops[i])
      requires FsInv(u) && Tracks(ios.View(), d0, u, root, Before(u, f.name))
      requires CacheOk(fc.files, ios.View(), d0, u, root, drops)
      modifies fc`files
      ensures CacheOk(fc.files, ios.View(), d0, u, root, drops)
      ensures drop == DropsNow(d0, u, root, drops, f.name)
      ensures Drops(d0, root, drops, f.name) ==> drop
      ensures drop && !Drops(d0, root, drops, f.name) ==> Unwritable(ios.View(), fullname)
      ensures !drop ==> Asked(fc.files, d0, u, root, drops, f.name, 0)
    {
      drop := AnyHookDrops(f, fullname, root, fc, d0, u);
      if drop && !Drops(d0, root, drops, f.name) {
        DropIsHarmless(ios.View(), d0, u, root, drops, f.name);
      }
      assert forall i: nat | i < |drops| && IsFileOrSubFile(f.name, drops[i]) && Exists(d0, Join(root, drops[i])) ::
        Decided(d0, u, root, drops[i]);
    }

    method AnyHookDrops(f: MFile, fullname: string, root: string, fc: Cache, ghost d0: Disk, ghost u: FsState)
      returns (drop: bool)
      requires Clean(f.name) && CleanDir(root) && fullname == Join(root, f.name) && fc.os == ios
      requires forall i: nat | i < |drops| :: DropPath(drops[i])
      requires FsInv(u) && Tracks(ios.View(), d0, u, root, Before(u, f.name))
      requires CacheOk(fc.files, ios.View(), d0, u, root, drops)
      modifies fc`files
      ensures CacheOk(fc.files, ios.View(), d0, u, root, drops)
      ensures drop == DropsNow(d0, u, root, drops, f.name)
      ensures !drop ==> Asked(fc.files, d0, u, root, drops, f.name, 0)
    {
      var i := |drops|;
      while i > 0
        invariant 0 <= i <= |drops|
        invariant CacheOk(fc.files, ios.View(), d0, u, root, drops)
        invariant Asked(fc.files, d0, u, root, drops, f.name, i)
      {
        i := i - 1;
        ghost var before := fc.files;
        var there := HookDrops(f, fullname, root, fc, d0, u, i);
        if there {
          return true;
        }
        AskedMore(before, fc.files, d0, u, root, drops, f.name, i);
      }
      return false;
    }

    /** The test of one hook.  Every file at or under the dropped path gets the same answer. */
    method HookDrops(f: MFile, fullname: string, root: string, fc: Cache, ghost d0: Disk, ghost u: FsState, i: nat)
      returns (drop: bool)
      requires Clean(f.name) && CleanDir(root) && fullname == Join(root, f.name) && fc.os == ios
      requires i < |drops| && forall j: nat | j < |drops| :: DropPath(drops[j])
      requires FsInv(u) && Tracks(ios.View(), d0, u, root, Before(u, f.name))
      requires CacheOk(fc.files, ios.View(), d0, u, root, drops)
      modifies fc`files
      ensures CacheOk(fc.files, ios.View(), d0, u, root, drops)
      ensures drop == (IsFileOrSubFile(f.name, drops[i]) && Decided(d0, u, root, drops[i]))
      ensures IsFileOrSubFile(f.name, drops[i]) ==> Join(root, drops[i]) in fc.files
      ensures old(fc.files.Keys) <= fc.files.Keys
    {
      var targetDir := GetDirByFile(fullname, f.name);
      if IsFileOrSubFile(f.name, drops[i]) {
        DirOfJoined(root, f.name, drops[i]);
        CacheAnswer(fc.files, ios.View(), d0, u, root, drops, i, f.name);
        CacheAsked(fc.files, ios.View(), d0, u, root, drops, i);
        drop := fc.Exist(Join(targetDir, drops[i]));
      } else {
        drop := false;
      }
    }

    /** Persist.  Though each answer about a dropped path is looked up lazily, between writes, the disk
        ends as if every one had been taken when Persist began. */
    method Persist(rootDir: string) returns (ok: bool)
      requires Valid() && (rootDir != "" ==> CleanDir(rootDir))
      requires forall i: nat | i < |drops| :: DropPath(drops[i])
      modifies ios
      ensures ok == (rootDir != "")
      ensures ios.View() == if ok then Persisted(old(ios.View()), state, rootDir, drops) else old(ios.View())
    {
      if rootDir == "" {
        return false;
      }
      var fc := new Cache(ios);
      PersistLive(rootDir, fc);
      RemoveMarked(rootDir);
      return true;
    }

    /** The persist function on one file: its hooks, then the write. */
    method PersistMember(f: MFile, root: string, fc: Cache, ghost d0: Disk, ghost u: FsState)
      requires f.dirty == f.content.Some? && Clean(f.name) && CleanDir(root) && fc.os == ios
      requires forall i: nat | i < |drops| :: DropPath(drops[i])
      requires FsInv(u) && Tracks(ios.View(), d0, u, root, Before(u, f.name))
      requires CacheOk(fc.files, ios.View(), d0, u, root, drops)
      modifies ios, fc`files
      ensures CacheOk(fc.files, ios.View(), d0, u, root, drops)
      ensures
        var d := old(ios.View());
        ios.View() == if Drops(d0, root, drops, f.name) then d
                      else PersistSpec.PersistFile(d, Join(root, f.name), FileVal(f.origFile, f.content))
    {
      var full := Join(root, f.name);
      var drop := Dropped(f, full, root, fc, d0, u);
      if !drop {
        CacheKept(fc.files, ios.View(), d0, u, root, drops, f.name, FileVal(f.origFile, f.content));
        PersistFile(f, full);
      }
    }

    /** All live files in name order. */
    method ListFiles() returns (names: seq<string>, files: seq<MFile>)
      requires Valid()
      ensures names == Listing(state.files.Keys) && |files| == |names|
      ensures forall i: nat | i < |names| ::
        && names[i] in state.files && Clean(names[i])
        && files[i].name == names[i] && files[i].dirty == files[i].content.Some?
        && state.files[names[i]] == FileVal(files[i].origFile, files[i].content)
    {
      names, files := fileSet.Snapshot("/");
      forall n | n in state.files ensures IsFileInDir(n, "/") {
        assert Clean(n);
        CleanIsValid(n);
        assert n[..1] == "/";
      }
      assert forall n :: n in names <==> n in state.files;
      StrictListingUnique(names, Listing(state.files.Keys));
      forall i: nat | i < |names| ensures Clean(names[i]) && Indexed(names[i], files[i]) {
        assert names[i] in state.files;
      }
    }

    method PersistLive(root: string, fc: Cache)
      requires Valid() && CleanDir(root) && fc.os == ios && fc.files == map[]
      requires forall i: nat | i < |drops| :: DropPath(drops[i])
      modifies ios, fc
      ensures ios.View() == PersistEach(old(ios.View()), state, root, drops, Listing(state.files.Keys))
    {
      var names, files := ListFiles();
      PersistAll(names, files, root, fc);
    }

    method PersistAll(names: seq<string>, files: seq<MFile>, root: string, fc: Cache)
      requires CleanDir(root) && fc.os == ios && fc.files == map[] && FsInv(state)
      requires forall i: nat | i < |drops| :: DropPath(drops[i])
      requires |files| == |names| && StrictlySorted(names) && SetOf(names) == state.files.Keys
      requires forall i: nat | i < |names| ::
        && names[i] in state.files && Clean(names[i])
        && files[i].name == names[i] && files[i].dirty == files[i].content.Some?
        && state.files[names[i]] == FileVal(files[i].origFile, files[i].content)
      modifies ios, fc
      ensures ios.View() == PersistEach(old(ios.View()), state, root, drops, names)
    {
      ghost var d0 := ios.View();
      ghost var u := Undropped(d0, state, root, drops);
      CacheStarts(d0, u, root, drops);
      for i := 0 to |names|
        invariant ios.View() == PersistEach(d0, state, root, drops, names[..i])
        invariant CacheOk(fc.files, ios.View(), d0, u, root, drops)
      {
        PersistEachStep(d0, state, root, drops, names, i);
        TracksAtTurn(d0, state, root, drops, names, i);
        PersistMember(files[i], root, fc, d0, u);
      }
      assert names[..|names|] == names;
    }

    /** The tombstones' paths, in the arbitrary order of a map's keys. */
    method RemoveMarked(root: string)
      requires Valid() && CleanDir(root)
      modifies ios
      ensures ios.View() == RemoveTrees(old(ios.View()), Tombs(state.removed, root))
    {
      var todo := removedFiles;
      ghost var done: set<string> := {};
      RemoveNone(ios.View());
      while todo != {}
        invariant done !! todo && done + todo == removedFiles
        invariant ios.View() == RemoveTrees(old(ios.View()), Tombs(done, root))
        decreases todo
      {
        var t :| t in todo;
        RemoveMore(old(ios.View()), Tombs(done, root), Join(root, t));
        assert Tombs(done + {t}, root) == Tombs(done, root) + {Join(root, t)};
        ios.Remove(Join(root, t));
        todo := todo - {t};
        done := done + {t};
      }
      assert done == state.removed;
    }
  }
}
