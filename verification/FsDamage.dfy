/** What an allocation at the level the occupancy scan skips leads to: the next file of the same size is
    written over it. */
module FsDamage {
  import opened Common
  import opened DirCodec
  import opened FsSpec
  import opened FsTree
  import opened FsWalk
  import opened FsUpdate
  import opened FsSpace
  import opened FsContent
  import opened FsOps
  import opened FsAbstract
  import opened FsCalls
  import opened FsRefine
  import opened FsDepth
  import opened FsRuns

  // ---- Tables that gain an entry ----

  /** Every directory found in `t` is found in `t'`, at the same slot and unchanged. */
  ghost predicate KeepsDirs(t: Table, t': Table) {
    forall n :: Find(t, n) < 8 && t[Find(t, n)].isDir ==> Find(t', n) == Find(t, n) && t'[Find(t, n)] == t[Find(t, n)]
  }

  /** Slot `WriteSlot(t, n)` may take an entry of name `n`. */
  predicate Puttable(t: Table, n: Name) {
    WriteSlot(t, n) < 8 && !(Find(t, n) < 8 && t[Find(t, n)].isDir)
  }

  lemma FindIs(t: Table, n: Name, i: nat)
    requires i < 8 && t[i].used && t[i].name == n
    requires forall j :: 0 <= j < i ==> !(t[j].used && t[j].name == n)
    ensures Find(t, n) == i
  {
    hide FindFrom;
    FindRange(t, n);
  }

  lemma FindRange(t: Table, n: Name)
    ensures Find(t, n) <= 8
    ensures Find(t, n) < 8 ==> t[Find(t, n)].used && t[Find(t, n)].name == n
    ensures forall j :: 0 <= j < Find(t, n) ==> !(t[j].used && t[j].name == n)
  {
  }

  lemma PutFinds(t: Table, n: Name, e: DirEntry)
    requires Puttable(t, n) && e.used && e.name == n
    ensures Find(t[WriteSlot(t, n) := e], n) == WriteSlot(t, n)
  {
    hide Find, FreeSlot;
    FindRange(t, n);
    FindIs(t[WriteSlot(t, n) := e], n, WriteSlot(t, n));
  }

  lemma PutKeepsDirs(t: Table, n: Name, e: DirEntry)
    requires Puttable(t, n) && e.used && e.name == n
    ensures KeepsDirs(t, t[WriteSlot(t, n) := e])
  {
    hide Find, FreeSlot, WriteSlot;
    var k := WriteSlot(t, n);
    var t' := t[k := e];
    WriteSlotFacts(t, n);
    FindRange(t, n);
    forall m | Find(t, m) < 8 && t[Find(t, m)].isDir ensures Find(t', m) == Find(t, m) && t'[Find(t, m)] == t[Find(t, m)] {
      FindRange(t, m);
      FindIs(t', m, Find(t, m));
    }
  }

  /** A walk goes the same way when every table it may meet keeps its directories. */
  lemma {:induction false} ResolveKept(d: Disk, d': Disk, dirs: seq<Path>, depth: nat, lba: nat, r: nat, l: nat)
    requires Wf(d, lba, r) && lba !in Foot(d, lba, r) && depth + r == MAX_DEPTH
    requires ResolveFrom(d, dirs, depth, lba) == Ok(l)
    requires forall x :: x in Owned(d, lba, r) ==> KeepsDirs(TableAt(d, x), TableAt(d', x))
    ensures ResolveFrom(d', dirs, depth, lba) == Ok(l)
    decreases |dirs|
  {
    hide Wf, Foot, KidsAt, SlotFoot, Find, NameBytes, TableAt;
    if dirs != [] {
      StepInto(d, dirs, depth, lba, r, l);
      var c := TableAt(d, lba)[Find(TableAt(d, lba), NameBytes(dirs[0]))].startLba;
      ResolveKept(d, d', dirs[1..], depth + 1, c, r - 1, l);
      assert lba in Owned(d, lba, r);
    }
  }

  /** A shorter path never ends at the table a longer one ends at. */
  lemma {:induction false} EndsApart(d: Disk, dirs: seq<Path>, l: nat, dirs2: seq<Path>, l2: nat, depth: nat, lba: nat, r: nat)
    requires Wf(d, lba, r) && lba !in Foot(d, lba, r) && depth + r == MAX_DEPTH
    requires ResolveFrom(d, dirs, depth, lba) == Ok(l) && ResolveFrom(d, dirs2, depth, lba) == Ok(l2)
    requires |dirs2| < |dirs|
    ensures l2 != l
    decreases |dirs|
  {
    hide Wf, Foot, KidsAt, SlotFoot, Find, NameBytes, TableAt, ResolveFrom;
    StepInto(d, dirs, depth, lba, r, l);
    if dirs2 == [] {
      ResolveHere(d, depth, lba);
    } else {
      StepInto(d, dirs2, depth, lba, r, l2);
      var t := TableAt(d, lba);
      var i, j := Find(t, NameBytes(dirs[0])), Find(t, NameBytes(dirs2[0]));
      if i == j {
        EndsApart(d, dirs[1..], l, dirs2[1..], l2, depth + 1, t[i].startLba, r - 1);
      } else {
        OtherSlot(d, lba, r, i, j);
      }
    }
  }

  // ---- After the deep call ----

  /** `d1` is `d` with entry `e`, of name `n`, put into table `l` under 32 directories; `e` lies on sectors
      nothing else owns, and the scan of `d1` still offers exactly those to the next call that needs as many. */
  ghost predicate DeepPut(d: Disk, d1: Disk, dirs: seq<Path>, l: nat, n: Name, e: DirEntry) {
    && Reached(d, dirs, l) && |dirs| == MAX_DEPTH
    && e.used && e.name == n && e.sectorCount > 0
    && FILE_DATA_START_LBA <= e.startLba && e.startLba + e.sectorCount <= POOL_END
    && Puttable(TableAt(d, l), n)
    && TableAt(d1, l) == TableAt(d, l)[WriteSlot(TableAt(d, l), n) := e]
    && SameOn(d, d1, Owned(d, DIR_LBA, MAX_DEPTH) - {l})
    && SpanSet(e.startLba, e.sectorCount) !! Owned(d, DIR_LBA, MAX_DEPTH)
    && e.sectorCount <= NUM_DATA_SECTORS
    && FitFrom(Occupied(d1, None), e.sectorCount, 0) == Some(e.startLba - FILE_DATA_START_LBA)
  }

  lemma SameFit(rs: seq<Range>, rs': seq<Range>, foot: set<nat>, needed: nat)
    requires Scans(rs, foot) && Scans(rs', foot) && 0 < needed <= NUM_DATA_SECTORS
    ensures FitFrom(rs, needed, 0) == FitFrom(rs', needed, 0)
  {
    hide Scans, RunFree, FitFrom;
    FirstFit(rs, foot, needed);
    FirstFit(rs', foot, needed);
    var a, b := FitFrom(rs, needed, 0), FitFrom(rs', needed, 0);
    if a.Some? && b.Some? {
      assert !(a.value < b.value) && !(b.value < a.value);
    }
  }

  lemma SameScan(d: Disk, d1: Disk, dirs: seq<Path>, l: nat)
    requires Reached(d, dirs, l) && |dirs| == MAX_DEPTH && SameOn(d, d1, Owned(d, DIR_LBA, MAX_DEPTH) - {l})
    ensures Occupied(d1, None) == Occupied(d, None)
  {
    hide Wf, Foot, ResolveFrom, Collect;
    RootApart(d);
    ScanBlind(d, d1, dirs, 0, DIR_LBA, MAX_DEPTH, l);
  }

  lemma WriteOk(d: Disk, l: nat, n: Name, data: seq<Byte>)
    requires 0 < |data| <= MAX_FILE_BYTES && WriteFileIn(d, l, n, data).reply.Ok?
    ensures Puttable(TableAt(d, l), n)
    ensures var fit := FitFrom(Occupied(d, OldSpan(TableAt(d, l)[WriteSlot(TableAt(d, l), n)])), SectorsFor(|data|), 0);
            fit.Some? && WriteFileIn(d, l, n, data) == PlaceFile(d, l, n, data, FILE_DATA_START_LBA + fit.value)
  {
    hide TableAt, Find, FreeSlot, Occupied, PlaceFile;
    WriteSlotFacts(TableAt(d, l), n);
  }

  /** The span a deep write takes: the first free run the scan offers. */
  lemma DeepStart(d: Disk, dirs: seq<Path>, l: nat, n: Name, data: seq<Byte>) returns (s: nat)
    requires Reached(d, dirs, l) && |dirs| == MAX_DEPTH && 0 < |data| <= MAX_FILE_BYTES
    requires WriteFileIn(d, l, n, data).reply.Ok?
    ensures Puttable(TableAt(d, l), n)
    ensures FitFrom(Occupied(d, None), SectorsFor(|data|), 0) == Some(s)
    ensures s + SectorsFor(|data|) <= NUM_DATA_SECTORS
    ensures SpanSet(FILE_DATA_START_LBA + s, SectorsFor(|data|)) !! Owned(d, DIR_LBA, MAX_DEPTH)
    ensures l in Owned(d, DIR_LBA, MAX_DEPTH) && l < POOL_END
    ensures WriteFileIn(d, l, n, data) == PlaceFile(d, l, n, data, FILE_DATA_START_LBA + s)
  {
    hide Wf, Foot, TableAt, Find, WriteSlot, Scans, Occupied, ResolveFrom, FitFrom, Reached, Replaced, RunFree, PlaceFile, Commit;
    var t := TableAt(d, l);
    WriteOk(d, l, n, data);
    var rs := Occupied(d, OldSpan(t[WriteSlot(t, n)]));
    var foot := Foot(d, DIR_LBA, MAX_DEPTH);
    WriteScan(d, dirs, l, n);
    NothingReplaced(d, dirs, l, n);
    assert foot - {} == foot;
    ReachedWf(d, dirs, l);
    OccupiedAll(d);
    SameFit(rs, Occupied(d, None), foot, SectorsFor(|data|));
    FirstFit(rs, foot, SectorsFor(|data|));
    s := FitFrom(rs, SectorsFor(|data|), 0).value;
    FreshSpan(d, SectorsFor(|data|), s);
  }

  lemma ReachedWf(d: Disk, dirs: seq<Path>, l: nat)
    requires Reached(d, dirs, l)
    ensures WfDisk(d)
  {
    hide WfDisk;
  }

  /** What placing a file does to the disk. */
  lemma PlacedAt(d: Disk, l: nat, n: Name, data: seq<Byte>, start: nat)
    requires Puttable(TableAt(d, l), n) && 0 < |data| <= MAX_FILE_BYTES && start + SectorsFor(|data|) <= POOL_END
    requires l < |d| && l !in SpanSet(start, SectorsFor(|data|))
    ensures var out := PlaceFile(d, l, n, data, start);
            && out.reply == Ok(()) && |out.disk| == |d|
            && TableAt(out.disk, l) == TableAt(d, l)[WriteSlot(TableAt(d, l), n) := FileEntry(n, |data|, start)]
            && Holds(out.disk, start, data, SectorsFor(|data|))
            && forall x: nat :: x < |d| && x !in SpanSet(start, SectorsFor(|data|)) && x != l ==> out.disk[x] == d[x]
  {
    hide TableAt, WriteSlot, WriteChunks, Find;
    WriteChunksEffect(d, start, data, 0);
    var t' := TableAt(d, l)[WriteSlot(TableAt(d, l), n) := FileEntry(n, |data|, start)];
    SavedTable(WriteChunks(d, start, data, 0), l, t');
  }

  lemma DeepWritePut(d: Disk, dirs: seq<Path>, l: nat, n: Name, data: seq<Byte>) returns (start: nat)
    requires Reached(d, dirs, l) && |dirs| == MAX_DEPTH && 0 < |data| <= MAX_FILE_BYTES
    requires WriteFileIn(d, l, n, data).reply.Ok?
    ensures start < POOL_END
    ensures DeepPut(d, WriteFileIn(d, l, n, data).disk, dirs, l, n, FileEntry(n, |data|, start))
    ensures Holds(WriteFileIn(d, l, n, data).disk, start, data, SectorsFor(|data|))
  {
    hide Foot, Reached, TableAt, Find, WriteSlot, FreeSlot, Occupied, FitFrom, PlaceFile, WriteFileIn, Puttable;
    var s := DeepStart(d, dirs, l, n, data);
    start := FILE_DATA_START_LBA + s;
    PlacedAt(d, l, n, data, start);
    SameScan(d, WriteFileIn(d, l, n, data).disk, dirs, l);
  }

  lemma MkdirOk(d: Disk, l: nat, n: Name)
    requires MakeDirIn(d, l, n).reply.Ok?
    ensures Puttable(TableAt(d, l), n) && WriteSlot(TableAt(d, l), n) == FreeSlot(TableAt(d, l)) < 8
    ensures Find(TableAt(d, l), n) == 8
    ensures FitFrom(Occupied(d, None), 1, 0).Some?
    ensures MakeDirIn(d, l, n) == PlaceDir(d, l, n, FILE_DATA_START_LBA + FitFrom(Occupied(d, None), 1, 0).value)
  {
    hide TableAt, Occupied, PlaceDir;
  }

  lemma DeepMkdirPut(d: Disk, dirs: seq<Path>, l: nat, n: Name) returns (home: nat)
    requires Reached(d, dirs, l) && |dirs| == MAX_DEPTH && MakeDirIn(d, l, n).reply.Ok?
    ensures home < POOL_END
    ensures DeepPut(d, MakeDirIn(d, l, n).disk, dirs, l, n, DirEntryAt(n, home))
  {
    hide Foot, Reached, TableAt, Find, WriteSlot, FreeSlot, Occupied, FitFrom, MakeDirIn, Scans, RunFree, Puttable;
    MkdirOk(d, l, n);
    NothingReplaced(d, dirs, l, n);
    ReachedWf(d, dirs, l);
    OccupiedAll(d);
    FirstFit(Occupied(d, None), Foot(d, DIR_LBA, MAX_DEPTH), 1);
    var s := FitFrom(Occupied(d, None), 1, 0).value;
    home := FILE_DATA_START_LBA + s;
    FreshHome(d, s);
    var t' := TableAt(d, l)[FreeSlot(TableAt(d, l)) := DirEntryAt(n, home)];
    SavedTable(d[home := EncodeTable(EMPTY_TABLE)], l, t');
    SameScan(d, MakeDirIn(d, l, n).disk, dirs, l);
    assert SpanSet(home, 1) == {home};
  }

  // ---- The next file of that size ----

  /** Both walks still end where they did, the deep entry is still there, and the new file's bytes lie on
      the deep entry's sectors. */
  ghost predicate WrittenOver(d: Disk, d2: Disk, dirs: seq<Path>, l: nat, n: Name, e: DirEntry, dirs2: seq<Path>, l2: nat,
                              n2: Name, other: seq<Byte>)
    requires |other| <= MAX_FILE_BYTES && e.startLba < POOL_END
  {
    && ResolveFrom(d2, dirs, 0, DIR_LBA) == Ok(l)
    && ResolveFrom(d2, dirs2, 0, DIR_LBA) == Ok(l2)
    && Find(TableAt(d2, l), n) < 8 && TableAt(d2, l)[Find(TableAt(d2, l), n)] == e
    && Find(TableAt(d2, l2), n2) < 8 && TableAt(d2, l2)[Find(TableAt(d2, l2), n2)] == FileEntry(n2, |other|, e.startLba)
    && Holds(d2, e.startLba, other, SectorsFor(|other|))
  }

  lemma SameTables(d: Disk, d1: Disk, l: nat)
    requires SameOn(d, d1, Owned(d, DIR_LBA, MAX_DEPTH) - {l})
    ensures forall x :: x in Owned(d, DIR_LBA, MAX_DEPTH) && x != l ==> TableAt(d1, x) == TableAt(d, x)
  {
    hide Foot;
  }

  lemma KeepsDirsSelf(t: Table)
    ensures KeepsDirs(t, t)
  {
  }

  lemma StillResolves(d: Disk, d': Disk, dirs: seq<Path>, l: nat)
    requires Reached(d, dirs, l)
    requires forall x :: x in Owned(d, DIR_LBA, MAX_DEPTH) ==> KeepsDirs(TableAt(d, x), TableAt(d', x))
    ensures ResolveFrom(d', dirs, 0, DIR_LBA) == Ok(l)
  {
    hide Foot, Wf, ResolveFrom, KeepsDirs, TableAt;
    RootApart(d);
    ResolveKept(d, d', dirs, 0, DIR_LBA, MAX_DEPTH, l);
  }

  lemma OwnedTable(d: Disk, dirs: seq<Path>, l: nat)
    requires Reached(d, dirs, l)
    ensures l in Owned(d, DIR_LBA, MAX_DEPTH) && l < POOL_END
  {
    hide Foot, Wf, ResolveFrom, KidsAt, Reached;
    ReachedTable(d, dirs, l);
  }

  /** After the deep call the shorter path still ends at the same, unchanged table. */
  lemma AfterDeep(d: Disk, d1: Disk, dirs: seq<Path>, l: nat, n: Name, e: DirEntry, dirs2: seq<Path>, l2: nat)
    requires DeepPut(d, d1, dirs, l, n, e) && Reached(d, dirs2, l2) && |dirs2| < MAX_DEPTH
    ensures ResolveFrom(d1, dirs2, 0, DIR_LBA) == Ok(l2) && l2 != l && TableAt(d1, l2) == TableAt(d, l2)
  {
    hide Foot, Wf, ResolveFrom, Occupied, FitFrom, KeepsDirs, TableAt, WriteSlot, Puttable, Find;
    RootApart(d);
    EndsApart(d, dirs, l, dirs2, l2, 0, DIR_LBA, MAX_DEPTH);
    SameTables(d, d1, l);
    OwnedTable(d, dirs2, l2);
    forall x | x in Owned(d, DIR_LBA, MAX_DEPTH) ensures KeepsDirs(TableAt(d, x), TableAt(d1, x)) {
      if x == l {
        PutKeepsDirs(TableAt(d, l), n, e);
      } else {
        KeepsDirsSelf(TableAt(d, x));
      }
    }
    StillResolves(d, d1, dirs2, l2);
  }

  lemma NewFilePlace(d1: Disk, l2: nat, n2: Name, other: seq<Byte>, s: nat)
    requires Find(TableAt(d1, l2), n2) == 8 && FreeSlot(TableAt(d1, l2)) < 8 && 0 < |other| <= MAX_FILE_BYTES
    requires FitFrom(Occupied(d1, None), SectorsFor(|other|), 0) == Some(s)
    ensures Puttable(TableAt(d1, l2), n2) && s + SectorsFor(|other|) <= NUM_DATA_SECTORS
    ensures WriteFileIn(d1, l2, n2, other) == PlaceFile(d1, l2, n2, other, FILE_DATA_START_LBA + s)
  {
    hide TableAt, Occupied, PlaceFile;
  }

  /** A new file of as many sectors as the deep entry is written over it. */
  lemma LaterWrite(d: Disk, d1: Disk, dirs: seq<Path>, l: nat, n: Name, e: DirEntry, dirs2: seq<Path>, l2: nat, n2: Name, other: seq<Byte>)
    requires DeepPut(d, d1, dirs, l, n, e) && Reached(d, dirs2, l2) && |dirs2| < MAX_DEPTH
    requires Find(TableAt(d, l2), n2) == 8 && FreeSlot(TableAt(d, l2)) < 8
    requires 0 < |other| <= MAX_FILE_BYTES && SectorsFor(|other|) == e.sectorCount
    ensures ResolveFrom(d1, dirs2, 0, DIR_LBA) == Ok(l2)
    ensures WriteFileIn(d1, l2, n2, other).reply == Ok(())
    ensures WrittenOver(d, WriteFileIn(d1, l2, n2, other).disk, dirs, l, n, e, dirs2, l2, n2, other)
  {
    hide Foot, Wf, ResolveFrom, Occupied, FitFrom, KeepsDirs, TableAt, WriteSlot, FreeSlot, Puttable, Find, Reached, PlaceFile, WriteFileIn, Holds;
    hide FileEntry, SectorsFor;
    var start := e.startLba;
    AfterDeep(d, d1, dirs, l, n, e, dirs2, l2);
    NewFilePlace(d1, l2, n2, other, start - FILE_DATA_START_LBA);
    OwnedTable(d, dirs, l);
    OwnedTable(d, dirs2, l2);
    PlacedAt(d1, l2, n2, other, start);
    var d2 := WriteFileIn(d1, l2, n2, other).disk;
    var f := FileEntry(n2, |other|, start);
    EntryNamed(n2, |other|, start);
    SameTables(d, d1, l);
    KeptTables(d, d1, d2, l2, start, SectorsFor(|other|));
    forall x | x in Owned(d, DIR_LBA, MAX_DEPTH) ensures KeepsDirs(TableAt(d, x), TableAt(d2, x)) {
      if x == l {
        PutKeepsDirs(TableAt(d, l), n, e);
      } else if x == l2 {
        PutKeepsDirs(TableAt(d, l2), n2, f);
      } else {
        KeepsDirsSelf(TableAt(d, x));
      }
    }
    StillResolves(d, d2, dirs, l);
    StillResolves(d, d2, dirs2, l2);
    PutFinds(TableAt(d, l), n, e);
    PutFinds(TableAt(d, l2), n2, f);
    PutHolds(TableAt(d, l), n, e);
    PutHolds(TableAt(d, l2), n2, f);
  }

  lemma PutHolds(t: Table, n: Name, e: DirEntry)
    requires Puttable(t, n)
    ensures WriteSlot(t, n) < 8 && t[WriteSlot(t, n) := e][WriteSlot(t, n)] == e
  {
  }

  lemma EntryNamed(n: Name, len: nat, start: nat)
    requires len <= MAX_FILE_BYTES && start < POOL_END
    ensures FileEntry(n, len, start).used && FileEntry(n, len, start).name == n
  {
  }

  lemma KeptTables(d: Disk, d1: Disk, d2: Disk, l2: nat, start: nat, count: nat)
    requires |d2| == |d1| && SpanSet(start, count) !! Owned(d, DIR_LBA, MAX_DEPTH)
    requires forall x: nat :: x < |d1| && x !in SpanSet(start, count) && x != l2 ==> d2[x] == d1[x]
    ensures forall x :: x in Owned(d, DIR_LBA, MAX_DEPTH) && x != l2 ==> TableAt(d2, x) == TableAt(d1, x)
  {
    hide Foot;
  }

  // ---- By path ----

  lemma ApplyWrite(d: Disk, path: Path, data: seq<Byte>)
    requires |data| <= MAX_FILE_BYTES && ParsePath(path).Ok?
    requires ResolveFrom(d, ParsePath(path).value.dirs, 0, DIR_LBA).Ok?
    ensures var a := ParsePath(path).value;
            Apply(d, Write(path, data)) == WriteFileIn(d, ResolveFrom(d, a.dirs, 0, DIR_LBA).value, NameBytes(a.leaf), data)
  {
    hide ParsePath, ResolveFrom, NameBytes, WriteFileIn;
  }

  lemma ApplyMkdir(d: Disk, path: Path)
    requires ParsePath(path).Ok? && ResolveFrom(d, ParsePath(path).value.dirs, 0, DIR_LBA).Ok?
    ensures var a := ParsePath(path).value;
            Apply(d, Mkdir(path)) == MakeDirIn(d, ResolveFrom(d, a.dirs, 0, DIR_LBA).value, NameBytes(a.leaf))
  {
    hide ParsePath, ResolveFrom, NameBytes, MakeDirIn;
  }

  lemma OkResolves(d: Disk, op: Op)
    requires WfDisk(d) && Apply(d, op).reply.Ok?
    ensures ParsePath(op.path).Ok? && ResolveFrom(d, ParsePath(op.path).value.dirs, 0, DIR_LBA).Ok?
    ensures var dirs := ParsePath(op.path).value.dirs; Reached(d, dirs, ResolveFrom(d, dirs, 0, DIR_LBA).value)
    ensures op.Write? ==> |op.data| <= MAX_FILE_BYTES
  {
    hide WfDisk, Wf, Tree, Foot, ParsePath, ResolveFrom, NameBytes, WriteFileIn, MakeDirIn, DeleteFileIn, RemoveDirIn, Reached, Descend, Keys, NoEmpty;
    if ParsePath(op.path).Ok? {
      ReachedIff(d, ParsePath(op.path).value.dirs);
    }
  }

  /** A write that succeeds and makes a new file: where it resolves, and what its table has. */
  lemma NewFileFacts(d: Disk, path: Path, data: seq<Byte>)
    requires WfDisk(d) && data != [] && Apply(d, Write(path, data)).reply.Ok? && ReadFile(d, path) == Err(NoSuchFile)
    ensures |data| <= MAX_FILE_BYTES
    ensures ParsePath(path).Ok? && ResolveFrom(d, ParsePath(path).value.dirs, 0, DIR_LBA).Ok?
    ensures var a := ParsePath(path).value;
            var l := ResolveFrom(d, a.dirs, 0, DIR_LBA).value;
            Reached(d, a.dirs, l) && Find(TableAt(d, l), NameBytes(a.leaf)) == 8 && FreeSlot(TableAt(d, l)) < 8
  {
    hide WfDisk, Wf, Foot, ParsePath, ResolveFrom, NameBytes, WriteFileIn, Apply, Find, FreeSlot, TableAt, EntryBytes, Reached;
    OkResolves(d, Write(path, data));
    ApplyWrite(d, path, data);
    var a := ParsePath(path).value;
    NewSlot(d, ResolveFrom(d, a.dirs, 0, DIR_LBA).value, NameBytes(a.leaf), data);
  }

  lemma {:induction false} SectorErrors(d: Disk, start: nat, count: nat)
    ensures ReadSectors(d, start, count) != Err(NoSuchFile)
  {
    if count > 0 {
      SectorErrors(d, start, count - 1);
    }
  }

  lemma EntryErrors(d: Disk, e: DirEntry)
    ensures EntryBytes(d, e) != Err(NoSuchFile)
  {
    SectorErrors(d, e.startLba, e.sectorCount);
  }

  lemma NewSlot(d: Disk, l: nat, n: Name, data: seq<Byte>)
    requires |data| <= MAX_FILE_BYTES && WriteFileIn(d, l, n, data).reply.Ok?
    requires ReadFileIn(d, TableAt(d, l), n) == Err(NoSuchFile)
    ensures Find(TableAt(d, l), n) == 8 && FreeSlot(TableAt(d, l)) < 8
  {
    hide TableAt, EntryBytes, Occupied, FitFrom, PlaceFile, Find, FreeSlot;
    FindRange(TableAt(d, l), n);
    FreeSlotRange(TableAt(d, l));
    if Find(TableAt(d, l), n) < 8 {
      EntryErrors(d, TableAt(d, l)[Find(TableAt(d, l), n)]);
    }
  }

  lemma ReadThere(d: Disk, path: Path, l: nat)
    requires ParsePath(path).Ok? && ResolveFrom(d, ParsePath(path).value.dirs, 0, DIR_LBA) == Ok(l)
    requires var n := NameBytes(ParsePath(path).value.leaf); Find(TableAt(d, l), n) < 8 && !TableAt(d, l)[Find(TableAt(d, l), n)].isDir
    ensures var n := NameBytes(ParsePath(path).value.leaf);
            ReadFile(d, path) == EntryBytes(d, TableAt(d, l)[Find(TableAt(d, l), n)])
  {
    hide ParsePath, ResolveFrom, NameBytes, Find, TableAt, EntryBytes;
  }

  /** The sectors of `other`, zero-padded to their end. */
  function PaddedOut(other: seq<Byte>): seq<Byte> {
    other + Zeros(512 * SectorsFor(|other|) - |other|)
  }

  lemma {:induction false} HeldBytes(d: Disk, start: nat, data: seq<Byte>, n: nat)
    requires Holds(d, start, data, n)
    ensures ReadSectors(d, start, n) == Ok(PaddedOut(data)[..512 * n])
  {
    if n > 0 {
      HeldBytes(d, start, data, n - 1);
      assert d[start + (n - 1)] == Chunk(data, n - 1);
      assert PaddedOut(data)[..512 * n] == PaddedOut(data)[..512 * (n - 1)] + Chunk(data, n - 1);
    }
  }

  /** A file entry of `len` bytes over sectors that hold `other`. */
  lemma OverlaidBytes(d: Disk, n: Name, len: nat, start: nat, other: seq<Byte>)
    requires 0 < len <= MAX_FILE_BYTES && start < POOL_END && SectorsFor(len) == SectorsFor(|other|)
    requires Holds(d, start, other, SectorsFor(|other|))
    ensures EntryBytes(d, FileEntry(n, len, start)) == Ok(Truncate(PaddedOut(other), len))
  {
    hide Holds, PaddedOut, ReadSectors;
    HeldBytes(d, start, other, SectorsFor(|other|));
    PaddedSize(other);
    assert PaddedOut(other)[..512 * SectorsFor(|other|)] == PaddedOut(other);
  }

  lemma PaddedSize(other: seq<Byte>)
    ensures |PaddedOut(other)| == 512 * SectorsFor(|other|)
  {
  }

  lemma OneRead(d: Disk, path: Path, l: nat, e: DirEntry)
    requires ParsePath(path).Ok? && ResolveFrom(d, ParsePath(path).value.dirs, 0, DIR_LBA) == Ok(l)
    requires var n := NameBytes(ParsePath(path).value.leaf); Find(TableAt(d, l), n) < 8 && TableAt(d, l)[Find(TableAt(d, l), n)] == e
    requires !e.isDir
    ensures ReadFile(d, path) == EntryBytes(d, e)
  {
    hide ParsePath, ResolveFrom, NameBytes, Find, TableAt, EntryBytes, ReadFile;
    ReadThere(d, path, l);
  }

  /** The file just written under 32 directories reads back. */
  lemma DeepReads(d: Disk, d1: Disk, path: Path, l: nat, data: seq<Byte>, start: nat)
    requires ParsePath(path).Ok? && 0 < |data| <= MAX_FILE_BYTES && start < POOL_END
    requires var a := ParsePath(path).value; DeepPut(d, d1, a.dirs, l, NameBytes(a.leaf), FileEntry(NameBytes(a.leaf), |data|, start))
    requires Holds(d1, start, data, SectorsFor(|data|))
    ensures ReadFile(d1, path) == Ok(data)
  {
    hide ParsePath, NameBytes, Find, TableAt, EntryBytes, ReadFile, Holds, Foot, Wf, ResolveFrom, KeepsDirs, Puttable, WriteSlot, Occupied, FitFrom, Reached, FileEntry;
    var a := ParsePath(path).value;
    var n := NameBytes(a.leaf);
    var e := FileEntry(n, |data|, start);
    EntryNamed(n, |data|, start);
    DeepStillResolves(d, d1, a.dirs, l, n, e);
    PutFinds(TableAt(d, l), n, e);
    PutHolds(TableAt(d, l), n, e);
    FileIsFile(n, |data|, start);
    OneRead(d1, path, l, e);
    WrittenBytes(d1, n, data, start);
  }

  lemma FileIsFile(n: Name, len: nat, start: nat)
    requires len <= MAX_FILE_BYTES && start < POOL_END
    ensures !FileEntry(n, len, start).isDir && FileEntry(n, len, start).sectorCount == SectorsFor(len)
    ensures len > 0 ==> FileEntry(n, len, start).startLba == start
  {
  }

  lemma DeepStillResolves(d: Disk, d1: Disk, dirs: seq<Path>, l: nat, n: Name, e: DirEntry)
    requires DeepPut(d, d1, dirs, l, n, e)
    ensures ResolveFrom(d1, dirs, 0, DIR_LBA) == Ok(l)
  {
    hide Foot, Wf, ResolveFrom, Occupied, FitFrom, KeepsDirs, TableAt, WriteSlot, Puttable, Find, Reached;
    SameTables(d, d1, l);
    forall x | x in Owned(d, DIR_LBA, MAX_DEPTH) ensures KeepsDirs(TableAt(d, x), TableAt(d1, x)) {
      if x == l {
        PutKeepsDirs(TableAt(d, l), n, e);
      } else {
        KeepsDirsSelf(TableAt(d, x));
      }
    }
    StillResolves(d, d1, dirs, l);
  }

  /** A file written under exactly 32 directories reads back, until the next new file of as many sectors at any
      scanned level, anywhere on the disk: that file is written over it. Both calls report success, and the deep file
      then reads as the other file's bytes, cut or padded with zeros to its own length. */
  lemma DeepFileOverwritten(d: Disk, path: Path, data: seq<Byte>, path2: Path, other: seq<Byte>)
    requires WfDisk(d) && !Shallow(Write(path, data)) && Apply(d, Write(path, data)).reply.Ok?
    requires Shallow(Write(path2, other)) && Apply(d, Write(path2, other)).reply.Ok? && ReadFile(d, path2) == Err(NoSuchFile)
    requires SectorsFor(|other|) == SectorsFor(|data|)
    ensures var d1 := Apply(d, Write(path, data)).disk;
            var out := Apply(d1, Write(path2, other));
            && ReadFile(d1, path) == Ok(data)
            && out.reply == Ok(()) && ReadFile(out.disk, path2) == Ok(other)
            && ReadFile(out.disk, path) == Ok(Truncate(PaddedOut(other), |data|))
            && (|other| == |data| ==> ReadFile(out.disk, path) == Ok(other))
  {
    hide WfDisk, Foot, ParsePath, ResolveFrom, NameBytes, WriteFileIn, Apply, Find, FreeSlot, TableAt, EntryBytes, Reached, ReadFile, Holds, DeepPut;
    hide FileEntry, SectorsFor, PaddedOut;
    OkResolves(d, Write(path, data));
    NotEmptyCount(data, other);
    NewFileFacts(d, path2, other);
    var a, b := ParsePath(path).value, ParsePath(path2).value;
    var n, n2 := NameBytes(a.leaf), NameBytes(b.leaf);
    var l, l2 := ResolveFrom(d, a.dirs, 0, DIR_LBA).value, ResolveFrom(d, b.dirs, 0, DIR_LBA).value;
    ApplyWrite(d, path, data);
    var start := DeepWritePut(d, a.dirs, l, n, data);
    var d1 := Apply(d, Write(path, data)).disk;
    DeepReads(d, d1, path, l, data, start);
    var e := FileEntry(n, |data|, start);
    FileIsFile(n, |data|, start);
    FileIsFile(n2, |other|, start);
    ShortPath(d, b.dirs, l2);
    LaterWrite(d, d1, a.dirs, l, n, e, b.dirs, l2, n2, other);
    ApplyWrite(d1, path2, other);
    var d2 := Apply(d1, Write(path2, other)).disk;
    OneRead(d2, path, l, e);
    OneRead(d2, path2, l2, FileEntry(n2, |other|, start));
    OverlaidBytes(d2, n, |data|, start, other);
    WrittenBytes(d2, n2, other, start);
    PaddedCut(other, |data|);
  }

  lemma NotEmptyCount(data: seq<Byte>, other: seq<Byte>)
    requires SectorsFor(|other|) == SectorsFor(|data|)
    ensures data != [] <==> other != []
    ensures SectorsFor(|data|) > 0 <==> data != []
  {
  }

  lemma ShortPath(d: Disk, dirs: seq<Path>, l: nat)
    requires Reached(d, dirs, l)
    ensures |dirs| <= MAX_DEPTH
  {
  }

  lemma PaddedCut(other: seq<Byte>, n: nat)
    ensures n == |other| ==> Truncate(PaddedOut(other), n) == other
  {
  }

  lemma RemoveThere(d: Disk, path: Path, l: nat, e: DirEntry)
    requires ParsePath(path).Ok? && ResolveFrom(d, ParsePath(path).value.dirs, 0, DIR_LBA) == Ok(l) && l < |d|
    requires var n := NameBytes(ParsePath(path).value.leaf); Find(TableAt(d, l), n) < 8 && TableAt(d, l)[Find(TableAt(d, l), n)] == e
    requires e.isDir
    ensures RemoveDir(d, path).reply == if AllUnused(TableAt(d, e.startLba)) then Ok(()) else Err(NotEmpty)
  {
    hide ParsePath, ResolveFrom, NameBytes, Find, TableAt;
  }

  /** A directory made under exactly 32 directories: the next new file of one sector is written over its
      table, and its content then decides whether the directory counts as empty. */
  lemma DeepDirOverwritten(d: Disk, path: Path, path2: Path, other: seq<Byte>)
    requires WfDisk(d) && !Shallow(Mkdir(path)) && Apply(d, Mkdir(path)).reply.Ok?
    requires Shallow(Write(path2, other)) && Apply(d, Write(path2, other)).reply.Ok? && ReadFile(d, path2) == Err(NoSuchFile)
    requires 0 < |other| <= 512
    ensures var out := Apply(Apply(d, Mkdir(path)).disk, Write(path2, other));
            && out.reply == Ok(()) && ReadFile(out.disk, path2) == Ok(other)
            && RemoveDir(out.disk, path).reply == if AllUnused(DecodeTable(Chunk(other, 0))) then Ok(()) else Err(NotEmpty)
  {
    hide WfDisk, Foot, ParsePath, ResolveFrom, NameBytes, WriteFileIn, MakeDirIn, Apply, Find, FreeSlot, TableAt, EntryBytes, Reached, ReadFile;
    hide Holds, DeepPut, FileEntry, RemoveDir, DecodeTable, Chunk, AllUnused;
    OkResolves(d, Mkdir(path));
    NewFileFacts(d, path2, other);
    var a, b := ParsePath(path).value, ParsePath(path2).value;
    var n, n2 := NameBytes(a.leaf), NameBytes(b.leaf);
    var l, l2 := ResolveFrom(d, a.dirs, 0, DIR_LBA).value, ResolveFrom(d, b.dirs, 0, DIR_LBA).value;
    ApplyMkdir(d, path);
    var home := DeepMkdirPut(d, a.dirs, l, n);
    var d1 := Apply(d, Mkdir(path)).disk;
    FileIsFile(n2, |other|, home);
    ShortPath(d, b.dirs, l2);
    OwnedTable(d, a.dirs, l);
    LaterWrite(d, d1, a.dirs, l, n, DirEntryAt(n, home), b.dirs, l2, n2, other);
    ApplyWrite(d1, path2, other);
    var d2 := Apply(d1, Write(path2, other)).disk;
    OneRead(d2, path2, l2, FileEntry(n2, |other|, home));
    WrittenBytes(d2, n2, other, home);
    RemoveThere(d2, path, l, DirEntryAt(n, home));
    OneSector(d2, home, other);
  }

  lemma OneSector(d: Disk, home: nat, other: seq<Byte>)
    requires 0 < |other| <= 512 && Holds(d, home, other, SectorsFor(|other|))
    ensures TableAt(d, home) == DecodeTable(Chunk(other, 0))
  {
    hide DecodeTable, Chunk;
    assert d[home + 0] == Chunk(other, 0);
  }

  /** Exactly which files survive: a file just written still reads back after another new file of as many
      sectors, with other bytes, was written at a scanned level, if and only if it does not lie under exactly 32
      directories. */
  lemma SurvivesIff(d: Disk, path: Path, data: seq<Byte>, path2: Path, other: seq<Byte>)
    requires WfDisk(d) && data != [] && Apply(d, Write(path, data)).reply.Ok?
    requires Shallow(Write(path2, other)) && Apply(d, Write(path2, other)).reply.Ok? && ReadFile(d, path2) == Err(NoSuchFile)
    requires ParsePath(path).Ok? && ParsePath(path2).Ok? && !SameTarget(ParsePath(path).value, ParsePath(path2).value)
    requires SectorsFor(|other|) == SectorsFor(|data|) && Truncate(PaddedOut(other), |data|) != data
    ensures var d1 := Apply(d, Write(path, data)).disk;
            ReadFile(Apply(d1, Write(path2, other)).disk, path) == Ok(data) <==> |ParsePath(path).value.dirs| != MAX_DEPTH
  {
    hide WfDisk, Foot, ParsePath, Apply, ReadFile, Needed, PaddedOut, NameBytes, Keys;
    var d1 := Apply(d, Write(path, data)).disk;
    ShallowMeans(path, data);
    if Shallow(Write(path, data)) {
      Refines(d, Write(path, data));
      AppliedWrite(d, path, data);
      WriteThenRead(d, path, data, path);
      OthersUnchanged(d1, Write(path2, other), path);
    } else {
      DeepFileOverwritten(d, path, data, path2, other);
    }
  }

  lemma AppliedWrite(d: Disk, path: Path, data: seq<Byte>)
    ensures Apply(d, Write(path, data)) == WriteFile(d, path, data)
  {
    hide WriteFile;
  }

  lemma ShallowMeans(path: Path, data: seq<Byte>)
    requires data != [] && ParsePath(path).Ok?
    ensures Shallow(Write(path, data)) <==> |ParsePath(path).value.dirs| != MAX_DEPTH
  {
    hide ParsePath;
  }

  /** A write that succeeds reads back by its path, at any depth. */
  lemma WriteReadsBack(d: Disk, path: Path, data: seq<Byte>)
    requires WfDisk(d) && WriteFile(d, path, data).reply.Ok?
    ensures ReadFile(WriteFile(d, path, data).disk, path) == Ok(data)
  {
    hide WfDisk, Foot, ParsePath, ResolveFrom, NameBytes, WriteFileIn, WriteFile, TableAt, Reached, ReadFile, Holds, DeepPut, SectorsFor, FileEntry;
    AppliedWrite(d, path, data);
    var op := Write(path, data);
    if Shallow(op) {
      WriteThenRead(d, path, data, path);
    } else {
      OkResolves(d, op);
      var a := ParsePath(path).value;
      var l := ResolveFrom(d, a.dirs, 0, DIR_LBA).value;
      NotEmptyCount(data, data);
      ApplyWrite(d, path, data);
      var start := DeepWritePut(d, a.dirs, l, NameBytes(a.leaf), data);
      DeepReads(d, Apply(d, op).disk, path, l, data, start);
    }
  }
}
