/** The disk behind the file system (the OS interface of mfs/os.go) and the lazy existence cache of
    mfs/file_exist_cache.go. */
module FileExistCache {
  import opened Wrappers
  import opened Paths
  import opened FsSpec
  import opened PersistSpec

  class Os {
    var files: map<string, Bytes>
    var dirs: set<string>

    ghost function View(): Disk
      reads this
    {
      Disk(files, dirs)
    }

    constructor (files: map<string, Bytes>, dirs: set<string>)
      ensures View() == Disk(files, dirs)
    {
      this.files, this.dirs := files, dirs;
    }

    /** Below a regular file the error is not "no such file", so the answer is yes. */
    method Exist(p: string) returns (ok: bool)
      ensures ok == Exists(View(), p)
    {
      ok := p in files || p in dirs || p == "/" || exists a :: a in Ancestors(p) && a in files;
    }

    method Open(p: string) returns (data: Option<Bytes>)
      ensures data == if p in files then Some(files[p]) else None
    {
      data := if p in files then Some(files[p]) else None;
    }

    method MkdirAll(dir: string) returns (ok: bool)
      modifies this`dirs
      ensures ok == CanMkdir(old(View()), dir)
      ensures View() == if ok then Mkdir(old(View()), dir) else old(View())
    {
      if dir in files || exists a :: a in Ancestors(dir) && a in files {
        return false;
      }
      dirs := dirs + {dir} + Ancestors(dir);
      return true;
    }

    method WriteToFile(p: string, data: Bytes) returns (ok: bool)
      modifies this`files
      ensures ok == CanWrite(old(View()), p)
      ensures View() == if ok then old(View()).(files := old(files)[p := data]) else old(View())
    {
      if p in dirs || p == "/" || !(Parent(p) in dirs || Parent(p) == "/") {
        return false;
      }
      if exists a :: a in Ancestors(p) && a in files {
        return false;
      }
      files := files[p := data];
      return true;
    }

    /** os.RemoveAll. */
    method Remove(p: string)
      modifies this
      ensures View() == RemoveTrees(old(View()), {p})
    {
      ghost var d := View();
      files := map q | q in files && !(q == p || IsFileInDir(q, p)) :: files[q];
      dirs := set q | q in dirs && !(q == p || IsFileInDir(q, p));
      assert files == RemoveTrees(d, {p}).files;
      assert dirs == RemoveTrees(d, {p}).dirs;
    }
  }

  class Cache {
    const os: Os
    var files: map<string, bool>

    constructor (os: Os)
      ensures this.os == os && files == map[]
    {
      this.os, files := os, map[];
    }

    /** The first answer for a path is kept. */
    method Exist(file: string) returns (e: bool)
      modifies this`files
      ensures e == if file in old(files) then old(files)[file] else Exists(os.View(), file)
      ensures files == old(files)[file := e]
    {
      if file in files {
        return files[file];
      }
      e := os.Exist(file);
      files := files[file := e];
    }
  }
}
