/** Runs of the file system on which Persist does not do what one would expect. */
module PersistExample {
  import opened Wrappers
  import opened Ordering
  import opened Paths
  import opened FsSpec
  import opened PersistSpec
  import opened PersistResult
  import opened PersistHooks

  /** Two files loaded from /r and swapped by three renames. */
  const SWAP: seq<Op> := [
    CreateOp("/a", "/r/a"), CreateOp("/b", "/r/b"), RenameOp("/a", "/t"), RenameOp("/b", "/a"), RenameOp("/t", "/b")
  ]

  const SWAPPED := FsState(map["/a" := FileVal("/r/b", None), "/b" := FileVal("/r/a", None)], {})

  function SwapDisk(a: Bytes, b: Bytes): Disk {
    Disk(map["/r/a" := a, "/r/b" := b], {"/r"})
  }

  lemma SwapNames()
    ensures Clean("/a") && Clean("/b") && Clean("/t") && Clean("/r")
    ensures forall op | op in SWAP :: Good(op)
  {
  }

  lemma OneMoreOp(s: FsState, ops: seq<Op>, op: Op)
    ensures ApplyOps(s, ops + [op]) == ApplyOp(ApplyOps(s, ops), op)
  {
    assert (ops + [op])[..|ops|] == ops;
  }

  lemma RenamedFile(s0: FsState, ops: seq<Op>, a: string, b: string)
    requires Clean(a) && Clean(b) && a != b && a in ApplyOps(s0, ops).files
    ensures
      var s := ApplyOps(s0, ops);
      ApplyOps(s0, ops + [RenameOp(a, b)]) == FsState((s.files - {b})[b := s.files[a]] - {a}, s.removed - {b})
  {
    CleanIsValid(a);
    CleanIsValid(b);
    OneMoreOp(s0, ops, RenameOp(a, b));
  }

  /** Loading both files. */
  lemma SwapLoads()
    ensures ApplyOps(FsState(map[], {}), SWAP[..2])
         == FsState(map["/a" := FileVal("/r/a", None), "/b" := FileVal("/r/b", None)], {})
  {
    var s0 := FsState(map[], {});
    OneMoreOp(s0, [], SWAP[0]);
    OneMoreOp(s0, [SWAP[0]], SWAP[1]);
    assert [] + [SWAP[0]] == [SWAP[0]] && SWAP[..2] == [SWAP[0]] + [SWAP[1]];
    assert ApplyOps(s0, []) == s0;
  }

  /** The three renames. */
  lemma SwapRenames()
    ensures ApplyOps(FsState(map[], {}), SWAP) == SWAPPED
  {
    var s0 := FsState(map[], {});
    var (va, vb) := (FileVal("/r/a", None), FileVal("/r/b", None));
    SwapNames();
    SwapLoads();
    assert SWAP[..3] == SWAP[..2] + [RenameOp("/a", "/t")];
    assert SWAP[..4] == SWAP[..3] + [RenameOp("/b", "/a")];
    assert SWAP == SWAP[..4] + [RenameOp("/t", "/b")];
    RenamedFile(s0, SWAP[..2], "/a", "/t");
    assert ApplyOps(s0, SWAP[..3]).files == map["/t" := va, "/b" := vb];
    RenamedFile(s0, SWAP[..3], "/b", "/a");
    assert ApplyOps(s0, SWAP[..4]).files == map["/t" := va, "/a" := vb];
    RenamedFile(s0, SWAP[..4], "/t", "/b");
    assert ApplyOps(s0, SWAP).files == map["/b" := va, "/a" := vb];
  }

  lemma SwapAncestors(p: string)
    requires p == "/r/a" || p == "/r/b"
    ensures Ancestors(p) == {"/", "/r"}
  {
    assert p[0] == '/' && p[2] == '/' && p[..2] == "/r";
  }

  /** The first file is written over what the second one was loaded from. */
  lemma SwapLands(a: Bytes, b: Bytes)
    ensures FsInv(SWAPPED) && CleanDir("/r") && Join("/r", "/a") == "/r/a" && Join("/r", "/b") == "/r/b"
    ensures Given(SwapDisk(a, b), SWAPPED, "/r", "/a") == Some(b)
    ensures Supplies(SwapDisk(a, b), SWAPPED, "/r", "/a", "/b")
    ensures Lands(SwapDisk(a, b), SWAPPED, "/r", "/b")
  {
    var d0 := SwapDisk(a, b);
    SwapNames();
    SwapAncestors("/r/a");
    SwapAncestors("/r/b");
    assert Less("/a", "/b") by {
      assert "/a"[1..] == "a" && "/b"[1..] == "b";
    }
    LessIrreflexive("/a");
    assert !Less("/b", "/a") by {
      if Less("/b", "/a") {
        LessTransitive("/a", "/b", "/a");
      }
    }
    assert Before(SWAPPED, "/a") == {};
    NotSupplied(d0, SWAPPED, "/r", "/a");
    assert Lands(d0, SWAPPED, "/r", "/a");
    GivenFrom(d0, SWAPPED, "/r", "/a", "/b");
    assert !IsFileInDir("/b", "/a");
    LessIrreflexive("/b");
  }

  /** Persisting the swap to where the files came from does not swap them: both end with the second one's
      content. */
  lemma SwapLosesContent(a: Bytes, b: Bytes)
    requires a != b
    ensures ApplyOps(FsState(map[], {}), SWAP) == SWAPPED
    ensures ContentOf(SwapDisk(a, b), SWAPPED.files["/b"]) == Some(a)
    ensures
      var d := Persisted(SwapDisk(a, b), SWAPPED, "/r", []);
      "/r/b" in d.files && d.files["/r/b"] == b
  {
    SwapRenames();
    SwapLands(a, b);
    OverwrittenOriginal(SwapDisk(a, b), SWAPPED, "/r", "/a", "/b");
  }

  // ----- A cached answer that changes ----------------------------------------------------------

  /** Two new files with content, one below the other's name. */
  function Stacked(a: Bytes, c: Bytes): seq<Op> {
    [CreateOp("/a", ""), ContentOp("/a", a), CreateOp("/a/b/c", ""), ContentOp("/a/b/c", c)]
  }

  function StackedState(a: Bytes, c: Bytes): FsState {
    FsState(map["/a" := FileVal("", Some(a)), "/a/b/c" := FileVal("", Some(c))], {})
  }

  const EMPTY_ROOT := Disk(map[], {"/r"})

  lemma StackedNames(a: Bytes, c: Bytes)
    ensures Clean("/a") && Clean("/a/b") && Clean("/a/b/c") && Clean("/r/a")
    ensures forall op | op in Stacked(a, c) :: Good(op)
  {
  }

  lemma StackedRuns(a: Bytes, c: Bytes)
    ensures ApplyOps(FsState(map[], {}), Stacked(a, c)) == StackedState(a, c)
  {
    var s0, ops := FsState(map[], {}), Stacked(a, c);
    assert ops[..1] == [] + [ops[0]] && ops[..2] == ops[..1] + [ops[1]];
    assert ops[..3] == ops[..2] + [ops[2]] && ops == ops[..3] + [ops[3]];
    OneMoreOp(s0, [], ops[0]);
    OneMoreOp(s0, ops[..1], ops[1]);
    OneMoreOp(s0, ops[..2], ops[2]);
    OneMoreOp(s0, ops[..3], ops[3]);
    assert ApplyOps(s0, []) == s0;
    assert ApplyOps(s0, ops[..2]) == FsState(map["/a" := FileVal("", Some(a))], {});
  }

  lemma StackedPaths()
    ensures Join("/r", "/a") == "/r/a" && Join("/r", "/a/b") == "/r/a/b"
    ensures "/r/a" in Ancestors("/r/a/b") && Ancestors("/r/a") == {"/", "/r"}
    ensures !IsFileOrSubFile("/a", "/a/b") && IsFileOrSubFile("/a/b/c", "/a/b")
    ensures Ancestors("/r/a/b") == {"/", "/r", "/r/a"}
  {
    SwapAncestors("/r/a");
    assert "/r/a/b"[4] == '/' && "/r/a/b"[..4] == "/r/a" && "/r/a/b"[2] == '/' && "/r/a/b"[..2] == "/r";
    assert "/a/b/c"[..5] == "/a/b/";
    forall x ensures x in Ancestors("/r/a/b") <==> x in {"/", "/r", "/r/a"} {
    }
  }

  /** With /a/b dropped if it exists, and nothing on disk: before /a is persisted the path does not exist, and
      when /a/b/c asks about it, it does. */
  lemma AnswerChanges(a: Bytes, c: Bytes)
    ensures ApplyOps(FsState(map[], {}), Stacked(a, c)) == StackedState(a, c)
    ensures !Exists(EMPTY_ROOT, Join("/r", "/a/b"))
    ensures
      var d := PersistEach(EMPTY_ROOT, StackedState(a, c), "/r", ["/a/b"], ["/a"]);
      IsFileOrSubFile("/a/b/c", "/a/b") && Answer(map[], d, Join("/r", "/a/b"))
  {
    StackedNames(a, c);
    StackedRuns(a, c);
    StackedPaths();
    var s := StackedState(a, c);
    assert !Drops(EMPTY_ROOT, "/r", ["/a/b"], "/a");
    assert ["/a"][..0] == [];
    PersistFileSucceeds(EMPTY_ROOT, "/r/a", s.files["/a"]);
  }
}
