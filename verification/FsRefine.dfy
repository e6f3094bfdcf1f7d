/** Refinement: every call on a well-formed disk is the abstract call on the tree it stands for. */
module FsRefine {
  import opened Common
  import opened DirCodec
  import opened FsSpec
  import opened FsTree
  import opened FsWalk
  import opened FsUpdate
  import opened FsSpace
  import opened FsContent
  import opened FsOps
  import opened FsAbstract
  import opened FsCalls

  /** The outcome of a call whose directory edit is `res`. */
  ghost predicate Did(d: Disk, out: Outcome, dirs: seq<Path>, res: Reply<Kids>, freed: set<nat>, taken: set<nat>) {
    match res
    case Err(e) => out == Outcome(d, Err(e))
    case Ok(kids') => out.reply == Ok(()) && TreeCommit(d, out.disk, dirs, kids', freed, taken)
  }

  // ---- mkdir ----

  lemma MakeDirFound(d: Disk, dirs: seq<Path>, l: nat, n: Name, op: Op, noRoom: bool)
    requires Reached(d, dirs, l) && op.Mkdir?
    requires Find(TableAt(d, l), n) < 8 || FreeSlot(TableAt(d, l)) == 8
    ensures Did(d, MakeDirIn(d, l, n), dirs, Edit(KidsAt(d, l, Level(dirs)), n, op, noRoom), {}, {})
  {
    hide Wf, Foot, KidsAt, ResolveFrom, TableAt, TreeCommit, Find;
    ReachedTable(d, dirs, l);
    FindInKids(d, l, Level(dirs), n);
    FullIff(d, l, Level(dirs));
  }

  lemma MakeDirNoRoom(d: Disk, dirs: seq<Path>, l: nat, n: Name, op: Op)
    requires Reached(d, dirs, l) && op.Mkdir?
    requires Find(TableAt(d, l), n) == 8 && FreeSlot(TableAt(d, l)) < 8
    requires FitFrom(Occupied(d, None), 1, 0).None?
    ensures Did(d, MakeDirIn(d, l, n), dirs, Edit(KidsAt(d, l, Level(dirs)), n, op, true), {}, {})
  {
    hide Wf, Foot, KidsAt, ResolveFrom, TableAt, TreeCommit, Find, FitFrom, Occupied;
    ReachedTable(d, dirs, l);
    FindInKids(d, l, Level(dirs), n);
    FullIff(d, l, Level(dirs));
  }

  lemma MakeDirPlaced(d: Disk, dirs: seq<Path>, l: nat, n: Name, op: Op, s: nat)
    requires Reached(d, dirs, l) && op.Mkdir? && Level(dirs) > 0
    requires Find(TableAt(d, l), n) == 8 && FreeSlot(TableAt(d, l)) < 8
    requires FitFrom(Occupied(d, None), 1, 0) == Some(s)
    requires RunFree(Foot(d, DIR_LBA, MAX_DEPTH), 1, s)
    ensures Did(d, MakeDirIn(d, l, n), dirs, Edit(KidsAt(d, l, Level(dirs)), n, op, false), {}, {FILE_DATA_START_LBA + s})
  {
    hide Wf, Foot, KidsAt, ResolveFrom, TableAt, TreeCommit, Find, FitFrom, Occupied, SlotCommit, Reached, FreeSlot;
    var home := FILE_DATA_START_LBA + s;
    assert home in SpanSet(home, 1);
    ReachedTable(d, dirs, l);
    FindInKids(d, l, Level(dirs), n);
    FullIff(d, l, Level(dirs));
    WithDirTree(d, dirs, l, n, home);
  }

  lemma MakeDirAt(d: Disk, dirs: seq<Path>, l: nat, n: Name, op: Op)
    requires Reached(d, dirs, l) && op.Mkdir? && Level(dirs) > 0
    ensures exists taken ::
              Did(d, MakeDirIn(d, l, n), dirs,
                  Edit(KidsAt(d, l, Level(dirs)), n, op, NoRun(Foot(d, DIR_LBA, MAX_DEPTH), 1)), {}, taken)
  {
    hide Wf, Foot, KidsAt, ResolveFrom, TableAt, Find, FitFrom, FreeSlot, Occupied, RunFree, NoRun, Did, Edit, MakeDirIn;
    var noRoom := NoRun(Foot(d, DIR_LBA, MAX_DEPTH), 1);
    OccupiedAll(d);
    FirstFit(Occupied(d, None), Foot(d, DIR_LBA, MAX_DEPTH), 1);
    FindInKids(d, l, Level(dirs), n);
    FreeSlotRange(TableAt(d, l));
    if Find(TableAt(d, l), n) < 8 || FreeSlot(TableAt(d, l)) == 8 {
      MakeDirFound(d, dirs, l, n, op, noRoom);
    } else if noRoom {
      MakeDirNoRoom(d, dirs, l, n, op);
    } else {
      var s := FitFrom(Occupied(d, None), 1, 0).value;
      MakeDirPlaced(d, dirs, l, n, op, s);
    }
  }

  lemma FreeSlotRange(t: Table)
    ensures FreeSlot(t) <= 8
  {
  }

  // ---- rm and rmdir ----

  lemma DeleteAt(d: Disk, dirs: seq<Path>, l: nat, n: Name, op: Op, noRoom: bool)
    requires Reached(d, dirs, l) && op.Rm?
    ensures exists freed ::
              Did(d, DeleteFileIn(d, l, n), dirs, Edit(KidsAt(d, l, Level(dirs)), n, op, noRoom), freed, {})
  {
    hide Wf, Foot, KidsAt, ResolveFrom, TableAt, TreeCommit, Find, SlotFoot, Reached, Commit;
    ReachedTable(d, dirs, l);
    FindInKids(d, l, Level(dirs), n);
    FoundUsed(TableAt(d, l), n);
    KidIsDir(d, l, Level(dirs), Find(TableAt(d, l), n), n);
    if Find(TableAt(d, l), n) < 8 {
      ClearTree(d, dirs, l, Find(TableAt(d, l), n));
      var freed := SlotFoot(d, TableAt(d, l)[Find(TableAt(d, l), n)], Level(dirs));
      assert Did(d, DeleteFileIn(d, l, n), dirs, Edit(KidsAt(d, l, Level(dirs)), n, op, noRoom), freed, {});
    } else {
      assert Did(d, DeleteFileIn(d, l, n), dirs, Edit(KidsAt(d, l, Level(dirs)), n, op, noRoom), {}, {});
    }
  }

  lemma EmptyDirIff(d: Disk, l: nat, r: nat)
    ensures AllUnused(TableAt(d, l)) <==> KidsAt(d, l, r) == map[]
  {
    var t := TableAt(d, l);
    KidNames(d, l, r);
    if AllUnused(t) {
      assert UsedNames(t) == {};
    } else {
      var i: nat :| i < 8 && t[i].used;
      assert t[i].name in KidsAt(d, l, r).Keys;
    }
  }

  lemma RemoveDirAt(d: Disk, dirs: seq<Path>, l: nat, n: Name, op: Op, noRoom: bool)
    requires Reached(d, dirs, l) && op.Rmdir?
    ensures exists freed ::
              Did(d, RemoveDirIn(d, l, n), dirs, Edit(KidsAt(d, l, Level(dirs)), n, op, noRoom), freed, {})
  {
    hide Wf, Foot, KidsAt, ResolveFrom, TableAt, TreeCommit, Find, SlotFoot, Reached, Commit, AllUnused;
    ReachedTable(d, dirs, l);
    FindInKids(d, l, Level(dirs), n);
    FoundUsed(TableAt(d, l), n);
    var i := Find(TableAt(d, l), n);
    KidIsDir(d, l, Level(dirs), i, n);
    if i < 8 && TableAt(d, l)[i].isDir {
      EmptyDirIff(d, TableAt(d, l)[i].startLba, Level(dirs) - 1);
      ClearTree(d, dirs, l, i);
      var freed := SlotFoot(d, TableAt(d, l)[i], Level(dirs));
      assert Did(d, RemoveDirIn(d, l, n), dirs, Edit(KidsAt(d, l, Level(dirs)), n, op, noRoom), freed, {});
    } else {
      assert Did(d, RemoveDirIn(d, l, n), dirs, Edit(KidsAt(d, l, Level(dirs)), n, op, noRoom), {}, {});
    }
  }

  // ---- write ----

  /** Sectors of the file that a write to name `n` of table `l` replaces. */
  ghost function Replaced(d: Disk, l: nat, n: Name): set<nat> {
    var t := TableAt(d, l);
    var k := Find(t, n);
    if k < 8 then SpanSet(t[k].startLba, t[k].sectorCount) else {}
  }

  lemma WriteRefused(d: Disk, dirs: seq<Path>, l: nat, n: Name, op: Op, noRoom: bool)
    requires Reached(d, dirs, l) && op.Write? && |op.data| <= MAX_FILE_BYTES
    requires var t := TableAt(d, l);
             (Find(t, n) < 8 && t[Find(t, n)].isDir) || WriteSlot(t, n) == 8
    ensures Did(d, WriteFileIn(d, l, n, op.data), dirs, Edit(KidsAt(d, l, Level(dirs)), n, op, noRoom), {}, {})
  {
    hide Wf, Foot, KidsAt, ResolveFrom, TableAt, TreeCommit, Find, Reached, FreeSlot, Occupied, FitFrom, PlaceFile, Commit;
    ReachedTable(d, dirs, l);
    FindInKids(d, l, Level(dirs), n);
    FoundUsed(TableAt(d, l), n);
    KidIsDir(d, l, Level(dirs), Find(TableAt(d, l), n), n);
    FullIff(d, l, Level(dirs));
  }

  /** The edit of a write that is not refused. */
  lemma WriteAllowed(d: Disk, dirs: seq<Path>, l: nat, n: Name, op: Op, noRoom: bool)
    requires Reached(d, dirs, l) && op.Write?
    requires var t := TableAt(d, l);
             !(Find(t, n) < 8 && t[Find(t, n)].isDir) && WriteSlot(t, n) < 8
    ensures Edit(KidsAt(d, l, Level(dirs)), n, op, noRoom)
            == if noRoom then Err(NoSpace) else Ok(KidsAt(d, l, Level(dirs))[n := File(op.data)])
  {
    hide Wf, Foot, KidsAt, ResolveFrom, TableAt, Find, Reached, FreeSlot;
    ReachedTable(d, dirs, l);
    FindInKids(d, l, Level(dirs), n);
    FoundUsed(TableAt(d, l), n);
    KidIsDir(d, l, Level(dirs), Find(TableAt(d, l), n), n);
    FullIff(d, l, Level(dirs));
  }

  lemma WriteSlotFacts(t: Table, n: Name)
    ensures WriteSlot(t, n) <= 8
    ensures WriteSlot(t, n) < 8 ==> (t[WriteSlot(t, n)].used <==> Find(t, n) < 8)
    ensures Find(t, n) < 8 ==> WriteSlot(t, n) == Find(t, n)
  {
  }

  lemma FileFoot(d: Disk, l: nat, r: nat, n: Name)
    requires WriteSlot(TableAt(d, l), n) < 8
    requires !(Find(TableAt(d, l), n) < 8 && TableAt(d, l)[Find(TableAt(d, l), n)].isDir)
    ensures SlotFoot(d, TableAt(d, l)[WriteSlot(TableAt(d, l), n)], r) == Replaced(d, l, n)
  {
    hide TableAt, Find, WriteSlot, Foot;
    WriteSlotFacts(TableAt(d, l), n);
    FoundUsed(TableAt(d, l), n);
  }

  /** What the allocator sees when a file is written: every owned sector but the file's old ones. */
  lemma WriteScan(d: Disk, dirs: seq<Path>, l: nat, n: Name)
    requires Reached(d, dirs, l) && WriteSlot(TableAt(d, l), n) < 8
    requires !(Find(TableAt(d, l), n) < 8 && TableAt(d, l)[Find(TableAt(d, l), n)].isDir)
    ensures Scans(Occupied(d, OldSpan(TableAt(d, l)[WriteSlot(TableAt(d, l), n)])),
                  Foot(d, DIR_LBA, MAX_DEPTH) - Replaced(d, l, n))
  {
    hide Wf, Foot, TableAt, Find, WriteSlot, Scans, Occupied, ResolveFrom;
    var t := TableAt(d, l);
    WriteSlotFacts(t, n);
    FoundUsed(t, n);
    if Find(t, n) < 8 {
      OccupiedExcept(d, dirs, Find(t, n), t[Find(t, n)]);
    } else {
      OccupiedAll(d);
      assert Foot(d, DIR_LBA, MAX_DEPTH) - {} == Foot(d, DIR_LBA, MAX_DEPTH);
    }
  }

  lemma RoomFound(d: Disk, dirs: seq<Path>, l: nat, n: Name, data: seq<Byte>, s: nat)
    requires Reached(d, dirs, l) && WriteSlot(TableAt(d, l), n) < 8
    requires !(Find(TableAt(d, l), n) < 8 && TableAt(d, l)[Find(TableAt(d, l), n)].isDir)
    requires 0 < |data| <= MAX_FILE_BYTES && Level(dirs) > 0
    requires RunFree(Foot(d, DIR_LBA, MAX_DEPTH) - Replaced(d, l, n), SectorsFor(|data|), s)
    ensures RoomFor(d, dirs, l, n, data, FILE_DATA_START_LBA + s) && l < |d|
  {
    hide Wf, Foot, TableAt, Find, WriteSlot, ResolveFrom, SlotFoot, Reached, Replaced;
    ReachedTable(d, dirs, l);
    FileFoot(d, l, Level(dirs), n);
    WriteSlotFacts(TableAt(d, l), n);
    FoundUsed(TableAt(d, l), n);
    assert SectorsFor(|data|) > 0;
  }

  lemma WriteEmpty(d: Disk, dirs: seq<Path>, l: nat, n: Name, op: Op)
    requires Reached(d, dirs, l) && op.Write? && op.data == []
    requires WriteSlot(TableAt(d, l), n) < 8
    requires !(Find(TableAt(d, l), n) < 8 && TableAt(d, l)[Find(TableAt(d, l), n)].isDir)
    ensures exists freed ::
              Did(d, WriteFileIn(d, l, n, op.data), dirs, Edit(KidsAt(d, l, Level(dirs)), n, op, false), freed, {})
  {
    hide Wf, Foot, KidsAt, ResolveFrom, TableAt, TreeCommit, Find, WriteSlot, Reached, FileEntry, SlotFoot, Edit, WriteChunks;
    var r, t, k := Level(dirs), TableAt(d, l), WriteSlot(TableAt(d, l), n);
    ReachedTable(d, dirs, l);
    WriteSlotFacts(t, n);
    WriteAllowed(d, dirs, l, n, op, false);
    StoreTree(d, dirs, l, n, [], 0);
    NothingWritten(d, l, n);
    var freed := SlotFoot(d, t[k], r);
    assert SpanSet(0, SectorsFor(0)) == {};
    assert Did(d, WriteFileIn(d, l, n, op.data), dirs, Edit(KidsAt(d, l, r), n, op, false), freed, {});
  }

  lemma NothingWritten(d: Disk, l: nat, n: Name)
    requires l < |d| && WriteSlot(TableAt(d, l), n) < 8
    ensures Commit(d, l, TableAt(d, l)[WriteSlot(TableAt(d, l), n) := FileEntry(n, 0, 0)])
            == Outcome(Stored(d, l, n, [], 0), Ok(()))
  {
  }

  lemma WritePlaced(d: Disk, dirs: seq<Path>, l: nat, n: Name, op: Op, s: nat)
    requires Reached(d, dirs, l) && op.Write? && 0 < |op.data| <= MAX_FILE_BYTES && Level(dirs) > 0
    requires WriteSlot(TableAt(d, l), n) < 8
    requires !(Find(TableAt(d, l), n) < 8 && TableAt(d, l)[Find(TableAt(d, l), n)].isDir)
    requires FitFrom(Occupied(d, OldSpan(TableAt(d, l)[WriteSlot(TableAt(d, l), n)])), SectorsFor(|op.data|), 0) == Some(s)
    requires RunFree(Foot(d, DIR_LBA, MAX_DEPTH) - Replaced(d, l, n), SectorsFor(|op.data|), s)
    ensures exists freed, taken ::
              Did(d, WriteFileIn(d, l, n, op.data), dirs, Edit(KidsAt(d, l, Level(dirs)), n, op, false), freed, taken)
  {
    hide Wf, Foot, KidsAt, ResolveFrom, TableAt, TreeCommit, Find, WriteSlot, Reached, FileEntry, SlotFoot, Edit;
    hide WriteChunks, RunFree, Replaced, FitFrom, Occupied, OldSpan, RoomFor;
    var r, t, k := Level(dirs), TableAt(d, l), WriteSlot(TableAt(d, l), n);
    var start := FILE_DATA_START_LBA + s;
    WriteSlotFacts(t, n);
    WriteAllowed(d, dirs, l, n, op, false);
    RoomFound(d, dirs, l, n, op.data, s);
    RoomBounds(d, dirs, l, n, op.data, start);
    StoreTree(d, dirs, l, n, op.data, start);
    var freed, taken := SlotFoot(d, t[k], r), SpanSet(start, SectorsFor(|op.data|));
    assert Did(d, WriteFileIn(d, l, n, op.data), dirs, Edit(KidsAt(d, l, r), n, op, false), freed, taken);
  }

  lemma RoomBounds(d: Disk, dirs: seq<Path>, l: nat, n: Name, data: seq<Byte>, start: nat)
    requires RoomFor(d, dirs, l, n, data, start)
    ensures |data| <= MAX_FILE_BYTES && start < POOL_END && start + SectorsFor(|data|) <= POOL_END
  {
  }

  lemma WriteNoRoom(d: Disk, dirs: seq<Path>, l: nat, n: Name, op: Op)
    requires Reached(d, dirs, l) && op.Write? && 0 < |op.data| <= MAX_FILE_BYTES
    requires WriteSlot(TableAt(d, l), n) < 8
    requires !(Find(TableAt(d, l), n) < 8 && TableAt(d, l)[Find(TableAt(d, l), n)].isDir)
    requires FitFrom(Occupied(d, OldSpan(TableAt(d, l)[WriteSlot(TableAt(d, l), n)])), SectorsFor(|op.data|), 0).None?
    ensures Did(d, WriteFileIn(d, l, n, op.data), dirs, Edit(KidsAt(d, l, Level(dirs)), n, op, true), {}, {})
  {
    hide Wf, Foot, KidsAt, ResolveFrom, TableAt, TreeCommit, Find, WriteSlot, Reached, Edit, OldSpan, Occupied, FitFrom;
    WriteAllowed(d, dirs, l, n, op, true);
  }

  /** Whether the pool has no free run for a write of `data` to name `n` of table `l`. */
  ghost predicate WriteNoRun(d: Disk, l: nat, n: Name, data: seq<Byte>) {
    data != [] && NoRun(Foot(d, DIR_LBA, MAX_DEPTH) - Replaced(d, l, n), SectorsFor(|data|))
  }

  lemma WriteFileAt(d: Disk, dirs: seq<Path>, l: nat, n: Name, op: Op)
    requires Reached(d, dirs, l) && op.Write? && |op.data| <= MAX_FILE_BYTES
    requires op.data != [] ==> Level(dirs) > 0
    ensures exists freed, taken ::
              Did(d, WriteFileIn(d, l, n, op.data), dirs,
                  Edit(KidsAt(d, l, Level(dirs)), n, op, WriteNoRun(d, l, n, op.data)), freed, taken)
  {
    hide Wf, Foot, KidsAt, ResolveFrom, TableAt, Find, FitFrom, WriteSlot, Occupied, RunFree, NoRun, Did, Edit, WriteFileIn;
    hide Replaced, Scans, OldSpan, Reached;
    var t := TableAt(d, l);
    FoundUsed(t, n);
    WriteSlotFacts(t, n);
    if (Find(t, n) < 8 && t[Find(t, n)].isDir) || WriteSlot(t, n) == 8 {
      WriteRefused(d, dirs, l, n, op, WriteNoRun(d, l, n, op.data));
    } else if op.data == [] {
      WriteEmpty(d, dirs, l, n, op);
      assert !WriteNoRun(d, l, n, op.data);
      var freed :| Did(d, WriteFileIn(d, l, n, op.data), dirs, Edit(KidsAt(d, l, Level(dirs)), n, op, false), freed, {});
    } else {
      WriteScan(d, dirs, l, n);
      FirstFit(Occupied(d, OldSpan(t[WriteSlot(t, n)])), Foot(d, DIR_LBA, MAX_DEPTH) - Replaced(d, l, n), SectorsFor(|op.data|));
      if WriteNoRun(d, l, n, op.data) {
        WriteNoRoom(d, dirs, l, n, op);
      } else {
        WritePlaced(d, dirs, l, n, op, FitFrom(Occupied(d, OldSpan(t[WriteSlot(t, n)])), SectorsFor(|op.data|), 0).value);
      }
    }
  }

  // ---- Every call ----

  /** The call inside the table its path leads to. */
  function ApplyIn(d: Disk, op: Op, l: nat, n: Name): Outcome
    requires op.Write? ==> |op.data| <= MAX_FILE_BYTES
  {
    match op
    case Write(_, data) => WriteFileIn(d, l, n, data)
    case Mkdir(_) => MakeDirIn(d, l, n)
    case Rm(_) => DeleteFileIn(d, l, n)
    case Rmdir(_) => RemoveDirIn(d, l, n)
  }

  /** Whether the pool has no free run for the sectors this call needs, in a table it resolves to. */
  ghost predicate NoRoomIn(d: Disk, op: Op, l: nat, n: Name) {
    match op
    case Write(_, data) => WriteNoRun(d, l, n, data)
    case Mkdir(_) => NoRun(Foot(d, DIR_LBA, MAX_DEPTH), 1)
    case _ => false
  }

  ghost predicate NoRoom(d: Disk, op: Op) {
    match Resolve(d, op.path)
    case Err(_) => false
    case Ok(place) => NoRoomIn(d, op, place.lba, NameBytes(place.leaf))
  }

  /** Not an allocation under exactly 32 directory components, the one level that
      path resolution accepts and the occupancy scan skips. */
  predicate Shallow(op: Op) {
    ParsePath(op.path).Ok? && Needed(op) > 0 ==> |ParsePath(op.path).value.dirs| != MAX_DEPTH
  }

  lemma ApplyInRefines(d: Disk, dirs: seq<Path>, l: nat, n: Name, op: Op)
    requires Reached(d, dirs, l)
    requires op.Write? ==> |op.data| <= MAX_FILE_BYTES
    requires Needed(op) > 0 ==> Level(dirs) > 0
    ensures exists freed, taken ::
              Did(d, ApplyIn(d, op, l, n), dirs,
                  Edit(KidsAt(d, l, Level(dirs)), n, op, NoRoomIn(d, op, l, n)), freed, taken)
  {
    hide Wf, Foot, KidsAt, Did, Edit, WriteFileIn, MakeDirIn, DeleteFileIn, RemoveDirIn, WriteNoRun, NoRun, Reached;
    var kids := KidsAt(d, l, Level(dirs));
    var noRoom := NoRoomIn(d, op, l, n);
    match op {
      case Write(_, data) =>
        WriteFileAt(d, dirs, l, n, op);
        var freed, taken :| Did(d, WriteFileIn(d, l, n, data), dirs, Edit(kids, n, op, noRoom), freed, taken);
        assert Did(d, ApplyIn(d, op, l, n), dirs, Edit(kids, n, op, noRoom), freed, taken);
      case Mkdir(_) =>
        MakeDirAt(d, dirs, l, n, op);
        var taken :| Did(d, MakeDirIn(d, l, n), dirs, Edit(kids, n, op, noRoom), {}, taken);
        assert Did(d, ApplyIn(d, op, l, n), dirs, Edit(kids, n, op, noRoom), {}, taken);
      case Rm(_) =>
        DeleteAt(d, dirs, l, n, op, false);
        var freed :| Did(d, DeleteFileIn(d, l, n), dirs, Edit(kids, n, op, noRoom), freed, {});
        assert Did(d, ApplyIn(d, op, l, n), dirs, Edit(kids, n, op, noRoom), freed, {});
      case Rmdir(_) =>
        RemoveDirAt(d, dirs, l, n, op, false);
        var freed :| Did(d, RemoveDirIn(d, l, n), dirs, Edit(kids, n, op, noRoom), freed, {});
        assert Did(d, ApplyIn(d, op, l, n), dirs, Edit(kids, n, op, noRoom), freed, {});
    }
  }

  /** Splitting a call into resolving its path and the work in that table. */
  lemma ApplySplit(d: Disk, op: Op)
    ensures Apply(d, op)
            == if op.Write? && |op.data| > MAX_FILE_BYTES then Outcome(d, Err(TooLarge))
               else match Resolve(d, op.path)
                    case Err(e) => Outcome(d, Err(e))
                    case Ok(place) => ApplyIn(d, op, place.lba, NameBytes(place.leaf))
  {
    hide WriteFileIn, MakeDirIn, DeleteFileIn, RemoveDirIn, Resolve, NameBytes;
  }

  ghost predicate Matches(d: Disk, op: Op, out: Outcome, noRoom: bool) {
    && WfDisk(out.disk)
    && AbsOutcome(Tree(out.disk), out.reply) == AbsApply(Tree(d), op, noRoom)
    && (out.reply.Err? ==> out.disk == d)
  }

  lemma DidMatches(d: Disk, op: Op, out: Outcome, l: nat, noRoom: bool, freed: set<nat>, taken: set<nat>)
    requires ParsePath(op.path).Ok? && Reached(d, ParsePath(op.path).value.dirs, l)
    requires op.Write? ==> |op.data| <= MAX_FILE_BYTES
    requires var a := ParsePath(op.path).value;
             Did(d, out, a.dirs, Edit(KidsAt(d, l, Level(a.dirs)), NameBytes(a.leaf), op, noRoom), freed, taken)
    ensures Matches(d, op, out, noRoom)
  {
    hide Wf, Foot, KidsAt, Edit, ParsePath, ResolveFrom, NameBytes, Keys, Descend, Replace, AbsWalk;
    WalkedTo(d, ParsePath(op.path).value.dirs, l);
  }

  lemma WalkedTo(d: Disk, dirs: seq<Path>, l: nat)
    requires Reached(d, dirs, l)
    ensures AbsWalk(Tree(d), dirs, 0) == Ok(KidsAt(d, l, Level(dirs)))
  {
    hide Wf, Foot, KidsAt, ResolveFrom, AbsWalk;
    WalkRefines(d, dirs, 0, DIR_LBA, MAX_DEPTH);
  }

  lemma WalkFails(d: Disk, dirs: seq<Path>)
    requires WfDisk(d) && ResolveFrom(d, dirs, 0, DIR_LBA).Err?
    ensures AbsWalk(Tree(d), dirs, 0) == Err(ResolveFrom(d, dirs, 0, DIR_LBA).error)
  {
    hide Wf, Foot, KidsAt, ResolveFrom, AbsWalk;
    WalkRefines(d, dirs, 0, DIR_LBA, MAX_DEPTH);
  }

  /** Refinement, one call: the disk stays well formed, its tree and the reply are the abstract
      call's, and a call that fails leaves the disk untouched. */
  lemma Refines(d: Disk, op: Op)
    requires WfDisk(d) && Shallow(op)
    ensures Matches(d, op, Apply(d, op), NoRoom(d, op))
  {
    hide WfDisk, Foot, Tree, Edit, ParsePath, ResolveFrom, NameBytes, Keys, Descend, Replace, AbsWalk, Apply, ApplyIn;
    hide NoRoomIn, Did, Needed, Reached;
    ApplySplit(d, op);
    if (op.Write? && |op.data| > MAX_FILE_BYTES) || ParsePath(op.path).Err? {
    } else {
      var a := ParsePath(op.path).value;
      ReachedIff(d, a.dirs);
      if ResolveFrom(d, a.dirs, 0, DIR_LBA).Err? {
        WalkFails(d, a.dirs);
      } else {
        var l := ResolveFrom(d, a.dirs, 0, DIR_LBA).value;
        LevelPositive(d, a.dirs, l);
        ApplyInRefines(d, a.dirs, l, NameBytes(a.leaf), op);
        var freed, taken :|
          Did(d, ApplyIn(d, op, l, NameBytes(a.leaf)), a.dirs,
              Edit(KidsAt(d, l, Level(a.dirs)), NameBytes(a.leaf), op, NoRoomIn(d, op, l, NameBytes(a.leaf))), freed, taken);
        DidMatches(d, op, ApplyIn(d, op, l, NameBytes(a.leaf)), l, NoRoomIn(d, op, l, NameBytes(a.leaf)), freed, taken);
      }
    }
  }

  lemma LevelPositive(d: Disk, dirs: seq<Path>, l: nat)
    requires Reached(d, dirs, l)
    ensures Level(dirs) > 0 <==> |dirs| != MAX_DEPTH
  {
  }

  /** Reading a file reads it from the tree, errors included. */
  lemma ReadRefines(d: Disk, path: Path)
    requires WfDisk(d)
    ensures ReadFile(d, path) == AbsRead(Tree(d), path)
  {
    hide WfDisk, Foot, Tree, ParsePath, ResolveFrom, NameBytes, AbsWalk, ReadFileIn, Reached, TableAt;
    if ParsePath(path).Ok? {
      var a := ParsePath(path).value;
      ReachedIff(d, a.dirs);
      if ResolveFrom(d, a.dirs, 0, DIR_LBA).Err? {
        WalkFails(d, a.dirs);
      } else {
        var l := ResolveFrom(d, a.dirs, 0, DIR_LBA).value;
        WalkedTo(d, a.dirs, l);
        ReadAt(d, a.dirs, l, NameBytes(a.leaf));
      }
    }
  }

  lemma ReadAt(d: Disk, dirs: seq<Path>, l: nat, n: Name)
    requires Reached(d, dirs, l)
    ensures var kids := KidsAt(d, l, Level(dirs));
            ReadFileIn(d, TableAt(d, l), n)
            == if n !in kids then Err(NoSuchFile) else if kids[n].Dir? then Err(IsADirectory) else Ok(kids[n].data)
  {
    hide WfDisk, Foot, KidsAt, ResolveFrom, TableAt, Reached, Find, Wf, SlotOk, EntryBytes, NodeOf;
    ReachedTable(d, dirs, l);
    FindInKids(d, l, Level(dirs), n);
    if n in KidsAt(d, l, Level(dirs)) {
      ReadSlot(d, l, Level(dirs), n);
    }
  }

  lemma ReadSlot(d: Disk, l: nat, r: nat, n: Name)
    requires Wf(d, l, r) && n in KidsAt(d, l, r)
    ensures var i, node := Find(TableAt(d, l), n), KidsAt(d, l, r)[n];
            && i < 8
            && (TableAt(d, l)[i].isDir <==> node.Dir?)
            && (node.File? ==> EntryBytes(d, TableAt(d, l)[i]) == Ok(node.data))
  {
    hide Foot, Find, EntryBytes, ReadSectors;
    FindUsed(TableAt(d, l), n);
    FoundUsed(TableAt(d, l), n);
    var e := TableAt(d, l)[Find(TableAt(d, l), n)];
    assert SlotOk(d, e, r);
    if !e.isDir {
      FileReads(d, e, r);
    }
  }
}
