/** The two depth guards disagree by one level: path resolution accepts 32 directory components,
    the occupancy scan does not look inside a table at depth 32. What an allocation there does. */
module FsDepth {
  import opened Common
  import opened DirCodec
  import opened FsSpec
  import opened FsTree
  import opened FsWalk
  import opened FsUpdate
  import opened FsSpace
  import opened FsOps
  import opened FsAbstract
  import opened FsCalls
  import opened FsRefine

  // ---- Paths through unchanged tables ----

  lemma BelowRoot(d: Disk, dirs: seq<Path>, depth: nat, lba: nat, r: nat, l: nat)
    requires Wf(d, lba, r) && lba !in Foot(d, lba, r) && depth + r == MAX_DEPTH
    requires ResolveFrom(d, dirs, depth, lba) == Ok(l)
    ensures l in Owned(d, lba, r) && |dirs| <= r
  {
    hide Wf, Foot, KidsAt, ResolveFrom, Descend;
    Walk(d, dirs, depth, lba, r);
  }

  /** What one step of a successful walk goes through. */
  lemma StepInto(d: Disk, dirs: seq<Path>, depth: nat, lba: nat, r: nat, l: nat)
    requires Wf(d, lba, r) && lba !in Foot(d, lba, r) && depth + r == MAX_DEPTH && dirs != []
    requires ResolveFrom(d, dirs, depth, lba) == Ok(l)
    ensures var i := Find(TableAt(d, lba), NameBytes(dirs[0]));
            && i < 8 && TableAt(d, lba)[i].used && TableAt(d, lba)[i].isDir && r > 0
            && dirs[0] != [] && depth < MAX_DEPTH
            && var c := TableAt(d, lba)[i].startLba;
               && Wf(d, c, r - 1) && c !in Foot(d, c, r - 1)
               && ResolveFrom(d, dirs[1..], depth + 1, c) == Ok(l)
               && Owned(d, c, r - 1) <= Foot(d, lba, r)
               && SlotFoot(d, TableAt(d, lba)[i], r) == Owned(d, c, r - 1)
               && l in Owned(d, c, r - 1) && l != lba
  {
    hide Wf, Foot, KidsAt, TableAt, SlotFoot, Find, NameBytes;
    FoundUsed(TableAt(d, lba), NameBytes(dirs[0]));
    var i := Find(TableAt(d, lba), NameBytes(dirs[0]));
    ChildDir(d, lba, r, i);
    BelowRoot(d, dirs[1..], depth + 1, TableAt(d, lba)[i].startLba, r - 1, l);
  }

  lemma {:induction false} ResolveFrame(d: Disk, d': Disk, dirs: seq<Path>, depth: nat, lba: nat, r: nat, l: nat)
    requires Wf(d, lba, r) && lba !in Foot(d, lba, r) && depth + r == MAX_DEPTH
    requires ResolveFrom(d, dirs, depth, lba) == Ok(l)
    requires SameOn(d, d', Owned(d, lba, r) - {l})
    ensures ResolveFrom(d', dirs, depth, lba) == Ok(l)
    decreases |dirs|
  {
    hide Wf, Foot, KidsAt, SlotFoot, Find, NameBytes;
    if dirs != [] {
      StepInto(d, dirs, depth, lba, r, l);
      var c := TableAt(d, lba)[Find(TableAt(d, lba), NameBytes(dirs[0]))].startLba;
      ResolveFrame(d, d', dirs[1..], depth + 1, c, r - 1, l);
      assert TableAt(d', lba) == TableAt(d, lba);
    }
  }

  // ---- The scan does not see the last level ----

  lemma {:induction false} SameRanges(d: Disk, d': Disk, t: Table, i: nat, depth: nat)
    requires i <= 8 && depth < MAX_DEPTH
    requires forall j: nat :: i <= j < 8 ==> SlotRanges(d', t[j], depth) == SlotRanges(d, t[j], depth)
    ensures CollectFrom(d', t, i, depth) == CollectFrom(d, t, i, depth)
    decreases 8 - i
  {
    if i < 8 {
      SameRanges(d, d', t, i + 1, depth);
      CollectSplit(d, t, i, depth);
      CollectSplit(d', t, i, depth);
      assert SlotRanges(d', t[i], depth) == SlotRanges(d, t[i], depth);
    }
  }

  lemma {:induction false} SlotRangesFrame(d: Disk, d': Disk, e: DirEntry, r: nat)
    requires SlotOk(d, e, r) && 0 < r <= MAX_DEPTH
    requires SameOn(d, d', SlotFoot(d, e, r))
    ensures SlotRanges(d', e, MAX_DEPTH - r) == SlotRanges(d, e, MAX_DEPTH - r)
    decreases r, 0
  {
    hide Foot, Wf, Collect, SlotOk, SlotFoot;
    if e.used && e.isDir {
      DirSlotOk(d, e, r);
      CollectFrame(d, d', e.startLba, r - 1);
    }
  }

  /** The scan below a table reads only sectors the table owns. */
  lemma {:induction false} CollectFrame(d: Disk, d': Disk, lba: nat, r: nat)
    requires Wf(d, lba, r) && r <= MAX_DEPTH
    requires SameOn(d, d', Owned(d, lba, r))
    ensures Collect(d', lba, MAX_DEPTH - r) == Collect(d, lba, MAX_DEPTH - r)
    decreases r, 2
  {
    hide Foot, Wf, SlotOk, SlotFoot, SlotRanges, CollectFrom;
    if r > 0 {
      var t := TableAt(d, lba);
      forall j: nat | j < 8 ensures SlotRanges(d', t[j], MAX_DEPTH - r) == SlotRanges(d, t[j], MAX_DEPTH - r) {
        SlotOfWf(d, lba, r, j);
        SlotFootInFoot(d, lba, r, j);
        SlotRangesFrame(d, d', t[j], r);
      }
      SameRanges(d, d', t, 0, MAX_DEPTH - r);
    }
  }

  lemma OtherSlot(d: Disk, lba: nat, r: nat, i: nat, j: nat)
    requires Wf(d, lba, r) && i < 8 && j < 8 && i != j
    requires TableAt(d, lba)[i].used
    ensures SlotFoot(d, TableAt(d, lba)[i], r) !! SlotFoot(d, TableAt(d, lba)[j], r)
  {
    hide Foot, SlotOk;
    assert if i < j then Apart(d, TableAt(d, lba)[i], TableAt(d, lba)[j], r)
           else Apart(d, TableAt(d, lba)[j], TableAt(d, lba)[i], r);
  }

  lemma BlindSlot(d: Disk, d': Disk, dirs: seq<Path>, depth: nat, lba: nat, r: nat, l: nat, j: nat)
    requires Wf(d, lba, r) && lba !in Foot(d, lba, r) && depth + r == MAX_DEPTH && dirs != []
    requires ResolveFrom(d, dirs, depth, lba) == Ok(l)
    requires SameOn(d, d', Owned(d, lba, r) - {l})
    requires j < 8 && j != Find(TableAt(d, lba), NameBytes(dirs[0])) && depth < MAX_DEPTH
    ensures SlotRanges(d', TableAt(d, lba)[j], depth) == SlotRanges(d, TableAt(d, lba)[j], depth)
  {
    hide Foot, Wf, SlotOk, SlotFoot, SlotRanges, TableAt, Find, NameBytes, ResolveFrom;
    StepInto(d, dirs, depth, lba, r, l);
    SlotOfWf(d, lba, r, j);
    SlotFootInFoot(d, lba, r, j);
    OtherSlot(d, lba, r, Find(TableAt(d, lba), NameBytes(dirs[0])), j);
    SlotRangesFrame(d, d', TableAt(d, lba)[j], r);
  }

  lemma {:induction false} ScanBlind(d: Disk, d': Disk, dirs: seq<Path>, depth: nat, lba: nat, r: nat, l: nat)
    requires Wf(d, lba, r) && lba !in Foot(d, lba, r) && depth + r == MAX_DEPTH && |dirs| == r
    requires ResolveFrom(d, dirs, depth, lba) == Ok(l)
    requires SameOn(d, d', Owned(d, lba, r) - {l})
    ensures Collect(d', lba, depth) == Collect(d, lba, depth)
    decreases |dirs|
  {
    hide Foot, Wf, SlotOk, SlotFoot, SlotRanges, CollectFrom, Find, NameBytes, ResolveFrom;
    if dirs != [] {
      var t := TableAt(d, lba);
      StepInto(d, dirs, depth, lba, r, l);
      var i := Find(t, NameBytes(dirs[0]));
      ScanBlind(d, d', dirs[1..], depth + 1, t[i].startLba, r - 1, l);
      forall j: nat | j < 8 ensures SlotRanges(d', t[j], depth) == SlotRanges(d, t[j], depth) {
        if j == i {
          DirRanges(d, d', t[j], depth);
        } else {
          BlindSlot(d, d', dirs, depth, lba, r, l, j);
        }
      }
      SameRanges(d, d', t, 0, depth);
    }
  }

  lemma DirRanges(d: Disk, d': Disk, e: DirEntry, depth: nat)
    requires depth < MAX_DEPTH && Collect(d', e.startLba, depth + 1) == Collect(d, e.startLba, depth + 1)
    ensures SlotRanges(d', e, depth) == SlotRanges(d, e, depth)
  {
    hide Collect;
  }

  // ---- An allocation at the last level ----

  /** An entry that owns sectors. */
  predicate Owning(e: DirEntry) {
    e.used && (e.isDir || e.sectorCount > 0)
  }

  /** Table `l` now has an entry that owns sectors; no other owned sector changed. */
  ghost predicate DeepChange(d: Disk, d': Disk, l: nat) {
    && SameOn(d, d', Owned(d, DIR_LBA, MAX_DEPTH) - {l})
    && exists k: nat :: k < 8 && Owning(TableAt(d', l)[k])
  }

  ghost predicate DeepDid(d: Disk, out: Outcome, l: nat, res: Reply<Kids>) {
    match res
    case Err(e) => out == Outcome(d, Err(e))
    case Ok(_) => out.reply == Ok(()) && DeepChange(d, out.disk, l)
  }

  lemma LastLevelEntries(d: Disk, l: nat, k: nat)
    requires Wf(d, l, 0) && k < 8
    ensures !Owning(TableAt(d, l)[k])
  {
    assert SlotOk(d, TableAt(d, l)[k], 0);
  }

  lemma PlacedDir(d: Disk, l: nat, n: Name, home: nat)
    requires InPool(home) && l < |d| && l != home && home !in Owned(d, DIR_LBA, MAX_DEPTH)
    requires FreeSlot(TableAt(d, l)) < 8
    ensures PlaceDir(d, l, n, home).reply == Ok(()) && DeepChange(d, PlaceDir(d, l, n, home).disk, l)
  {
    hide Foot, TableAt, FreeSlot;
    var t' := TableAt(d, l)[FreeSlot(TableAt(d, l)) := DirEntryAt(n, home)];
    SavedTable(d[home := EncodeTable(EMPTY_TABLE)], l, t');
    assert Owning(TableAt(PlaceDir(d, l, n, home).disk, l)[FreeSlot(TableAt(d, l))]);
  }

  lemma DeepMkdir(d: Disk, dirs: seq<Path>, l: nat, n: Name, op: Op)
    requires Reached(d, dirs, l) && |dirs| == MAX_DEPTH && op.Mkdir?
    ensures DeepDid(d, MakeDirIn(d, l, n), l, Edit(KidsAt(d, l, Level(dirs)), n, op, NoRoomIn(d, op, l, n)))
  {
    hide Wf, Foot, KidsAt, ResolveFrom, TableAt, Find, FitFrom, FreeSlot, Occupied, RunFree, NoRun, DeepChange, PlaceDir;
    hide Edit, MakeDirIn, DeepDid;
    var noRoom := NoRun(Foot(d, DIR_LBA, MAX_DEPTH), 1);
    OccupiedAll(d);
    FirstFit(Occupied(d, None), Foot(d, DIR_LBA, MAX_DEPTH), 1);
    FindInKids(d, l, Level(dirs), n);
    FreeSlotRange(TableAt(d, l));
    ReachedTable(d, dirs, l);
    if Find(TableAt(d, l), n) < 8 || FreeSlot(TableAt(d, l)) == 8 {
      MakeDirFound(d, dirs, l, n, op, noRoom);
      DeepSame(d, MakeDirIn(d, l, n), dirs, l, Edit(KidsAt(d, l, Level(dirs)), n, op, noRoom));
      RefusedEdit(d, dirs, l, n, op, noRoom);
    } else if noRoom {
      MakeDirNoRoom(d, dirs, l, n, op);
      DeepSame(d, MakeDirIn(d, l, n), dirs, l, Edit(KidsAt(d, l, Level(dirs)), n, op, true));
      NoRoomEdit(d, dirs, l, n, op);
    } else {
      DeepPlaced(d, dirs, l, n, op, FitFrom(Occupied(d, None), 1, 0).value);
    }
  }

  /** An edit refused leaves the disk, at any level. */
  lemma DeepSame(d: Disk, out: Outcome, dirs: seq<Path>, l: nat, res: Reply<Kids>)
    requires Did(d, out, dirs, res, {}, {})
    ensures res.Err? ==> DeepDid(d, out, l, res)
  {
    hide TreeCommit;
  }

  lemma RefusedEdit(d: Disk, dirs: seq<Path>, l: nat, n: Name, op: Op, noRoom: bool)
    requires Reached(d, dirs, l) && op.Mkdir?
    requires Find(TableAt(d, l), n) < 8 || FreeSlot(TableAt(d, l)) == 8
    ensures Edit(KidsAt(d, l, Level(dirs)), n, op, noRoom).Err?
  {
    hide Wf, Foot, KidsAt, ResolveFrom, TableAt, Find, Reached, FreeSlot;
    ReachedTable(d, dirs, l);
    FindInKids(d, l, Level(dirs), n);
    FullIff(d, l, Level(dirs));
  }

  lemma NoRoomEdit(d: Disk, dirs: seq<Path>, l: nat, n: Name, op: Op)
    requires op.Mkdir?
    ensures Edit(KidsAt(d, l, Level(dirs)), n, op, true).Err?
  {
    hide KidsAt;
  }

  lemma DeepPlaced(d: Disk, dirs: seq<Path>, l: nat, n: Name, op: Op, s: nat)
    requires Reached(d, dirs, l) && |dirs| == MAX_DEPTH && op.Mkdir?
    requires Find(TableAt(d, l), n) == 8 && FreeSlot(TableAt(d, l)) < 8
    requires FitFrom(Occupied(d, None), 1, 0) == Some(s) && RunFree(Foot(d, DIR_LBA, MAX_DEPTH), 1, s)
    ensures DeepDid(d, MakeDirIn(d, l, n), l, Edit(KidsAt(d, l, Level(dirs)), n, op, false))
  {
    hide Wf, Foot, KidsAt, ResolveFrom, TableAt, Find, FitFrom, FreeSlot, Occupied, RunFree, DeepChange, PlaceDir, Reached;
    ReachedTable(d, dirs, l);
    FindInKids(d, l, Level(dirs), n);
    FullIff(d, l, Level(dirs));
    FreshHome(d, s);
    PlacedDir(d, l, n, FILE_DATA_START_LBA + s);
  }

  lemma FreshHome(d: Disk, s: nat)
    requires RunFree(Foot(d, DIR_LBA, MAX_DEPTH), 1, s)
    ensures InPool(FILE_DATA_START_LBA + s) && FILE_DATA_START_LBA + s !in Owned(d, DIR_LBA, MAX_DEPTH)
  {
    hide Foot;
    assert FILE_DATA_START_LBA + s in SpanSet(FILE_DATA_START_LBA + s, 1);
  }

  lemma NothingReplaced(d: Disk, dirs: seq<Path>, l: nat, n: Name)
    requires Reached(d, dirs, l) && |dirs| == MAX_DEPTH
    ensures Replaced(d, l, n) == {}
    ensures l in Owned(d, DIR_LBA, MAX_DEPTH) && l < POOL_END
  {
    hide Wf, Foot, KidsAt, ResolveFrom, TableAt, Find, Reached;
    ReachedTable(d, dirs, l);
    FoundUsed(TableAt(d, l), n);
    if Find(TableAt(d, l), n) < 8 {
      LastLevelEntries(d, l, Find(TableAt(d, l), n));
    }
  }

  lemma PlacedFile(d: Disk, l: nat, n: Name, data: seq<Byte>, start: nat)
    requires 0 < |data| <= MAX_FILE_BYTES && start + SectorsFor(|data|) <= POOL_END && l < |d|
    requires WriteSlot(TableAt(d, l), n) < 8
    requires l in Owned(d, DIR_LBA, MAX_DEPTH)
    requires SpanSet(start, SectorsFor(|data|)) !! Owned(d, DIR_LBA, MAX_DEPTH)
    ensures PlaceFile(d, l, n, data, start).reply == Ok(()) && DeepChange(d, PlaceFile(d, l, n, data, start).disk, l)
  {
    hide Foot, TableAt, WriteSlot, WriteChunks;
    FsContent.WriteChunksEffect(d, start, data, 0);
    var t' := TableAt(d, l)[WriteSlot(TableAt(d, l), n) := FileEntry(n, |data|, start)];
    SavedTable(WriteChunks(d, start, data, 0), l, t');
    assert Owning(TableAt(PlaceFile(d, l, n, data, start).disk, l)[WriteSlot(TableAt(d, l), n)]);
  }

  lemma DeepWrite(d: Disk, dirs: seq<Path>, l: nat, n: Name, op: Op)
    requires Reached(d, dirs, l) && |dirs| == MAX_DEPTH && op.Write? && 0 < |op.data| <= MAX_FILE_BYTES
    ensures DeepDid(d, WriteFileIn(d, l, n, op.data), l, Edit(KidsAt(d, l, Level(dirs)), n, op, NoRoomIn(d, op, l, n)))
  {
    hide Wf, Foot, KidsAt, TableAt, Find, FitFrom, WriteSlot, Occupied, RunFree, NoRun, Edit, DeepChange;
    hide Replaced, Scans, OldSpan, Reached, PlaceFile;
    var t := TableAt(d, l);
    FoundUsed(t, n);
    WriteSlotFacts(t, n);
    if (Find(t, n) < 8 && t[Find(t, n)].isDir) || WriteSlot(t, n) == 8 {
      WriteRefused(d, dirs, l, n, op, WriteNoRun(d, l, n, op.data));
    } else {
      WriteScan(d, dirs, l, n);
      NothingReplaced(d, dirs, l, n);
      FirstFit(Occupied(d, OldSpan(t[WriteSlot(t, n)])), Foot(d, DIR_LBA, MAX_DEPTH) - Replaced(d, l, n), SectorsFor(|op.data|));
      WriteAllowed(d, dirs, l, n, op, WriteNoRun(d, l, n, op.data));
      if !WriteNoRun(d, l, n, op.data) {
        var s := FitFrom(Occupied(d, OldSpan(t[WriteSlot(t, n)])), SectorsFor(|op.data|), 0).value;
        FreshSpan(d, SectorsFor(|op.data|), s);
        PlacedFile(d, l, n, op.data, FILE_DATA_START_LBA + s);
      }
    }
  }

  lemma FreshSpan(d: Disk, needed: nat, s: nat)
    requires RunFree(Foot(d, DIR_LBA, MAX_DEPTH) - {}, needed, s)
    ensures FILE_DATA_START_LBA + s + needed <= POOL_END
    ensures SpanSet(FILE_DATA_START_LBA + s, needed) !! Owned(d, DIR_LBA, MAX_DEPTH)
  {
    hide Foot;
    assert Foot(d, DIR_LBA, MAX_DEPTH) - {} == Foot(d, DIR_LBA, MAX_DEPTH);
  }

  // ---- Exactly when a call breaks the tree invariant ----

  lemma DeepBreaks(d: Disk, d': Disk, dirs: seq<Path>, l: nat)
    requires Reached(d, dirs, l) && |dirs| == MAX_DEPTH && DeepChange(d, d', l)
    ensures !WfDisk(d')
  {
    hide Wf, Foot, KidsAt, ResolveFrom, TableAt;
    RootApart(d);
    ResolveFrame(d, d', dirs, 0, DIR_LBA, MAX_DEPTH, l);
    if WfDisk(d') {
      ReachedTable(d', dirs, l);
      var k: nat :| k < 8 && Owning(TableAt(d', l)[k]);
      LastLevelEntries(d', l, k);
    }
  }

  ghost predicate DeepMatches(d: Disk, op: Op, out: Outcome, noRoom: bool) {
    && out.reply == AbsApply(Tree(d), op, noRoom).reply
    && (out.reply.Err? ==> out.disk == d)
    && (out.reply.Ok? ==> !WfDisk(out.disk))
  }

  lemma DeepDidMatches(d: Disk, op: Op, out: Outcome, l: nat, noRoom: bool)
    requires ParsePath(op.path).Ok? && Reached(d, ParsePath(op.path).value.dirs, l)
    requires |ParsePath(op.path).value.dirs| == MAX_DEPTH
    requires op.Write? ==> |op.data| <= MAX_FILE_BYTES
    requires var a := ParsePath(op.path).value;
             DeepDid(d, out, l, Edit(KidsAt(d, l, Level(a.dirs)), NameBytes(a.leaf), op, noRoom))
    ensures DeepMatches(d, op, out, noRoom)
  {
    hide Wf, WfDisk, Foot, KidsAt, Edit, ParsePath, ResolveFrom, NameBytes, Keys, Descend, Replace, AbsWalk, DeepChange, Reached;
    WalkedTo(d, ParsePath(op.path).value.dirs, l);
    if out.reply.Ok? {
      DeepBreaks(d, out.disk, ParsePath(op.path).value.dirs, l);
    }
  }

  lemma DeepApplyIn(d: Disk, dirs: seq<Path>, l: nat, n: Name, op: Op)
    requires Reached(d, dirs, l) && |dirs| == MAX_DEPTH && Needed(op) > 0
    requires op.Write? ==> |op.data| <= MAX_FILE_BYTES
    ensures DeepDid(d, ApplyIn(d, op, l, n), l, Edit(KidsAt(d, l, Level(dirs)), n, op, NoRoomIn(d, op, l, n)))
  {
    hide Wf, Foot, KidsAt, Edit, WriteFileIn, MakeDirIn, DeepChange, DeepDid, Reached, NoRoomIn;
    match op {
      case Write(_, data) => DeepWrite(d, dirs, l, n, op);
      case Mkdir(_) => DeepMkdir(d, dirs, l, n, op);
      case _ =>
    }
  }

  lemma DeepCall(d: Disk, op: Op)
    requires WfDisk(d) && !Shallow(op)
    ensures DeepMatches(d, op, Apply(d, op), NoRoom(d, op))
  {
    hide Wf, WfDisk, Foot, Tree, Edit, ParsePath, ResolveFrom, NameBytes, Keys, Descend, Replace, AbsWalk, Apply, ApplyIn;
    hide NoRoomIn, DeepDid, Needed, Reached;
    ApplySplit(d, op);
    if !(op.Write? && |op.data| > MAX_FILE_BYTES) {
      var a := ParsePath(op.path).value;
      ReachedIff(d, a.dirs);
      if ResolveFrom(d, a.dirs, 0, DIR_LBA).Err? {
        WalkFails(d, a.dirs);
      } else {
        var l := ResolveFrom(d, a.dirs, 0, DIR_LBA).value;
        DeepApplyIn(d, a.dirs, l, NameBytes(a.leaf), op);
        DeepDidMatches(d, op, ApplyIn(d, op, l, NameBytes(a.leaf)), l, NoRoomIn(d, op, l, NameBytes(a.leaf)));
      }
    }
  }

  /** The exact condition: a call keeps the tree invariant if and only if it does not allocate under
      exactly 32 directories, or is refused. In every case it replies as the abstract call does. */
  lemma KeepsInvariantIff(d: Disk, op: Op)
    requires WfDisk(d)
    ensures Apply(d, op).reply == AbsApply(Tree(d), op, NoRoom(d, op)).reply
    ensures WfDisk(Apply(d, op).disk) <==> Shallow(op) || AbsApply(Tree(d), op, NoRoom(d, op)).reply.Err?
  {
    hide WfDisk, Tree, AbsApply, Apply, NoRoom, Shallow;
    if Shallow(op) {
      Refines(d, op);
    } else {
      DeepCall(d, op);
    }
  }

  // ---- The consequence: the same sectors are handed out again ----

  lemma DeepApplied(d: Disk, op: Op)
    requires WfDisk(d) && !Shallow(op) && Apply(d, op).reply.Ok?
    ensures var dirs := ParsePath(op.path).value.dirs;
            && ResolveFrom(d, dirs, 0, DIR_LBA).Ok? && |dirs| == MAX_DEPTH
            && DeepChange(d, Apply(d, op).disk, ResolveFrom(d, dirs, 0, DIR_LBA).value)
  {
    hide Wf, WfDisk, Foot, Tree, Edit, ParsePath, ResolveFrom, NameBytes, Keys, Descend, Replace, AbsWalk, Apply, ApplyIn;
    hide NoRoomIn, Needed, Reached, DeepChange;
    ApplySplit(d, op);
    var a := ParsePath(op.path).value;
    ReachedIff(d, a.dirs);
    var l := ResolveFrom(d, a.dirs, 0, DIR_LBA).value;
    DeepApplyIn(d, a.dirs, l, NameBytes(a.leaf), op);
  }

  /** After an allocation under 32 directories the scan reports exactly what it reported before,
      so the next allocation of any size is given the same place: the deep entry's own sectors included. */
  lemma DeepSectorsReused(d: Disk, op: Op, needed: nat)
    requires WfDisk(d) && !Shallow(op) && Apply(d, op).reply.Ok? && needed <= NUM_DATA_SECTORS
    ensures Occupied(Apply(d, op).disk, None) == Occupied(d, None)
    ensures FitFrom(Occupied(Apply(d, op).disk, None), needed, 0) == FitFrom(Occupied(d, None), needed, 0)
  {
    hide Wf, Foot, ResolveFrom, Collect, FitFrom, ParsePath, Apply;
    var dirs := ParsePath(op.path).value.dirs;
    DeepApplied(d, op);
    RootApart(d);
    ScanBlind(d, Apply(d, op).disk, dirs, 0, DIR_LBA, MAX_DEPTH, ResolveFrom(d, dirs, 0, DIR_LBA).value);
  }
}
