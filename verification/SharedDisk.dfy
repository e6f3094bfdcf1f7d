/** The filesystem and the saved weights on one disk: neither disturbs the other. */
module SharedDisk {
  import opened Common
  import opened DirCodec
  import opened FsSpec
  import opened FsTree
  import opened FsUpdate
  import opened FsContent
  import opened FsOps
  import opened FsAbstract
  import opened FsRefine
  import FsRuns
  import FsDamage
  import W = WeightStore

  /** Saving weights keeps the tree, and with it what every path reads. */
  lemma SavingKeepsFiles(d: Disk, es: seq<W.Entry>, path: Path)
    requires WfDisk(d) && es != []
    ensures var d' := W.Save(d, es).value;
            WfDisk(d') && Tree(d') == Tree(d) && ReadFile(d', path) == ReadFile(d, path)
  {
    hide Wf, Foot, KidsAt, W.StoreSector, ReadFile, AbsRead;
    var d' := W.Save(d, es).value;
    OwnedAboveZero(d);
    Frame(d, d', DIR_LBA, MAX_DEPTH);
    ReadRefines(d, path);
    ReadRefines(d', path);
  }

  lemma OwnedAboveZero(d: Disk)
    requires WfDisk(d)
    ensures 0 !in Owned(d, DIR_LBA, MAX_DEPTH)
  {
    hide Wf, Foot;
    FootInPool(d, DIR_LBA, MAX_DEPTH);
  }

  lemma CommitKeepsZero(d: Disk, l: nat, t: Table)
    ensures l > 0 ==> Commit(d, l, t).disk[0] == d[0]
  {
    hide EncodeTable;
  }

  lemma ChunksKeepZero(d: Disk, start: nat, data: seq<Byte>)
    requires start > 0 && start + SectorsFor(|data|) <= |d|
    ensures WriteChunks(d, start, data, 0)[0] == d[0]
  {
    hide WriteChunks;
    WriteChunksEffect(d, start, data, 0);
  }

  /** A call inside a table that is not sector 0 writes no sector 0. */
  lemma ApplyInKeepsZero(d: Disk, op: Op, l: nat, n: Name)
    requires l > 0 && (op.Write? ==> |op.data| <= MAX_FILE_BYTES)
    ensures ApplyIn(d, op, l, n).disk[0] == d[0]
  {
    hide TableAt, Find, FreeSlot, FitFrom, Occupied, WriteChunks, Commit, AllUnused, OldSpan, FileEntry;
    var t := TableAt(d, l);
    FsDamage.FindRange(t, n);
    match op {
      case Write(_, data) => WriteKeepsZero(d, l, n, data);
      case Mkdir(_) => MkdirKeepsZero(d, l, n);
      case Rm(_) => if Find(t, n) < 8 { CommitKeepsZero(d, l, t[Find(t, n) := EMPTY_ENTRY]); }
      case Rmdir(_) => if Find(t, n) < 8 { CommitKeepsZero(d, l, t[Find(t, n) := EMPTY_ENTRY]); }
    }
  }

  lemma WriteKeepsZero(d: Disk, l: nat, n: Name, data: seq<Byte>)
    requires l > 0 && |data| <= MAX_FILE_BYTES
    ensures WriteFileIn(d, l, n, data).disk[0] == d[0]
  {
    hide TableAt, Find, FreeSlot, Occupied, WriteChunks, Commit, FileEntry;
    var t, slot := TableAt(d, l), WriteSlot(TableAt(d, l), n);
    WriteSlotFacts(t, n);
    if data == [] && slot < 8 {
      CommitKeepsZero(d, l, t[slot := FileEntry(n, 0, 0)]);
    } else if slot < 8 {
      var fit := FitFrom(Occupied(d, OldSpan(t[slot])), SectorsFor(|data|), 0);
      if fit.Some? {
        var start := FILE_DATA_START_LBA + fit.value;
        ChunksKeepZero(d, start, data);
        CommitKeepsZero(WriteChunks(d, start, data, 0), l, t[slot := FileEntry(n, |data|, start)]);
      }
    }
  }

  lemma MkdirKeepsZero(d: Disk, l: nat, n: Name)
    requires l > 0
    ensures MakeDirIn(d, l, n).disk[0] == d[0]
  {
    hide TableAt, Find, FreeSlot, Occupied, Commit, EncodeTable;
    var t := TableAt(d, l);
    FreeSlotRange(t);
    if FreeSlot(t) < 8 {
      var fit := FitFrom(Occupied(d, None), 1, 0);
      if fit.Some? {
        var home := FILE_DATA_START_LBA + fit.value;
        CommitKeepsZero(d[home := EncodeTable(EMPTY_TABLE)], l, t[FreeSlot(t) := DirEntryAt(n, home)]);
      }
    }
  }

  lemma CallKeepsZero(d: Disk, op: Op)
    requires WfDisk(d)
    ensures Apply(d, op).disk[0] == d[0]
  {
    hide Wf, WfDisk, Foot, ParsePath, ResolveFrom, NameBytes, ApplyIn, Apply, Reached, Owned, EncodeTable, Tree;
    ApplySplit(d, op);
    if ParsePath(op.path).Ok? && ResolveFrom(d, ParsePath(op.path).value.dirs, 0, DIR_LBA).Ok? {
      var a := ParsePath(op.path).value;
      TableAboveZero(d, a.dirs);
      if !(op.Write? && |op.data| > MAX_FILE_BYTES) {
        ApplyInKeepsZero(d, op, ResolveFrom(d, a.dirs, 0, DIR_LBA).value, NameBytes(a.leaf));
      }
    }
  }

  lemma TableAboveZero(d: Disk, dirs: seq<Path>)
    requires WfDisk(d) && ResolveFrom(d, dirs, 0, DIR_LBA).Ok?
    ensures ResolveFrom(d, dirs, 0, DIR_LBA).value > 0
  {
    hide WfDisk, Foot, ResolveFrom, Reached, Owned, Tree;
    ReachedIff(d, dirs);
    FsDamage.OwnedTable(d, dirs, ResolveFrom(d, dirs, 0, DIR_LBA).value);
    OwnedAboveZero(d);
  }

  lemma SameSectorLoads(d: Disk, d': Disk)
    requires d'[0] == d[0]
    ensures W.Load(d') == W.Load(d)
  {
    hide W.EntryIn;
  }

  /** Every filesystem call, at any depth, keeps the saved weights. */
  lemma CallKeepsWeights(d: Disk, op: Op)
    requires WfDisk(d)
    ensures W.Load(Apply(d, op).disk) == W.Load(d)
  {
    hide WfDisk, Apply, W.Load;
    CallKeepsZero(d, op);
    SameSectorLoads(d, Apply(d, op).disk);
  }

  /** So weights saved before any run of filesystem calls that keeps the tree are loaded after it. */
  lemma {:induction false} RunKeepsWeights(d: Disk, ops: seq<Op>)
    requires WfDisk(d) && FsRuns.Tame(d, ops)
    ensures W.Load(FsRuns.Run(d, ops).disk) == W.Load(d)
    decreases |ops|
  {
    hide WfDisk, Apply, W.Load, Shallow, NoRoom, Tree, AbsApply;
    if ops != [] {
      CallKeepsWeights(d, ops[0]);
      FsRuns.TameCall(d, ops[0]);
      RunKeepsWeights(Apply(d, ops[0]).disk, ops[1..]);
    }
  }
}
