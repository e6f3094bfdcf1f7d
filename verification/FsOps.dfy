/** Every filesystem call, seen as an operation on the abstract tree. */
module FsOps {
  import opened Common
  import opened DirCodec
  import opened FsSpec
  import opened FsTree
  import opened FsWalk
  import opened FsUpdate
  import opened FsSpace
  import opened FsContent

  /** Level of the table that `dirs` leads to, counted up from the last scanned level. */
  function Level(dirs: seq<Path>): nat {
    if |dirs| <= MAX_DEPTH then MAX_DEPTH - |dirs| else 0
  }

  /** The table `l` at the end of `dirs` on a well-formed disk. */
  ghost predicate Reached(d: Disk, dirs: seq<Path>, l: nat) {
    && WfDisk(d)
    && |dirs| <= MAX_DEPTH
    && ResolveFrom(d, dirs, 0, DIR_LBA) == Ok(l)
  }

  lemma ReachedTable(d: Disk, dirs: seq<Path>, l: nat)
    requires Reached(d, dirs, l)
    ensures Wf(d, l, Level(dirs)) && l !in Foot(d, l, Level(dirs))
    ensures Owned(d, l, Level(dirs)) <= Owned(d, DIR_LBA, MAX_DEPTH)
    ensures l < POOL_END
    ensures Descend(Tree(d), Keys(dirs)) == Some(KidsAt(d, l, Level(dirs)))
    ensures NoEmpty(dirs)
  {
    hide Wf, Foot, KidsAt, ResolveFrom, Descend;
    RootApart(d);
    Walk(d, dirs, 0, DIR_LBA, MAX_DEPTH);
    FootInPool(d, DIR_LBA, MAX_DEPTH);
  }

  /** What the walk of `dirs` returns, in terms of the tree. */
  lemma ReachedIff(d: Disk, dirs: seq<Path>)
    requires WfDisk(d)
    ensures ResolveFrom(d, dirs, 0, DIR_LBA).Ok? <==> NoEmpty(dirs) && Descend(Tree(d), Keys(dirs)).Some?
    ensures ResolveFrom(d, dirs, 0, DIR_LBA).Ok? ==> Reached(d, dirs, ResolveFrom(d, dirs, 0, DIR_LBA).value)
  {
    hide Wf, Foot, KidsAt, ResolveFrom, Descend;
    RootApart(d);
    Walk(d, dirs, 0, DIR_LBA, MAX_DEPTH);
  }

  // ---- Committing one changed slot ----

  /** `d'` is `d` with slot `k` of table `l` set to `e`; every sector of `d` owned outside that slot is kept. */
  ghost predicate SlotCommit(d: Disk, d': Disk, dirs: seq<Path>, l: nat, k: nat, e: DirEntry) {
    && Reached(d, dirs, l)
    && k < 8
    && TableAt(d', l) == TableAt(d, l)[k := e]
    && SameOn(d, d', Owned(d, DIR_LBA, MAX_DEPTH) - SlotFoot(d, TableAt(d, l)[k], Level(dirs)) - {l})
    && SlotOk(d', e, Level(dirs))
    && (e.used ==> forall j :: 0 <= j < 8 && j != k && TableAt(d, l)[j].used ==> TableAt(d, l)[j].name != e.name)
    && SlotFoot(d', e, Level(dirs)) !! Owned(d, DIR_LBA, MAX_DEPTH) - SlotFoot(d, TableAt(d, l)[k], Level(dirs))
  }

  lemma CommitFacts(d: Disk, d': Disk, dirs: seq<Path>, l: nat, k: nat, e: DirEntry)
    requires SlotCommit(d, d', dirs, l, k, e)
    ensures Reached(d, dirs, l) && WfDisk(d) && k < 8
    ensures ResolveFrom(d, dirs, 0, DIR_LBA) == Ok(l)
    ensures |dirs| <= MAX_DEPTH && Level(dirs) == MAX_DEPTH - |dirs|
    ensures SlotFoot(d', e, Level(dirs)) !! Owned(d, DIR_LBA, MAX_DEPTH) - SlotFoot(d, TableAt(d, l)[k], Level(dirs))
  {
    hide Wf, Foot, KidsAt, SlotFoot, SlotOk, TableAt, ResolveFrom;
  }

  lemma CommitSlot(d: Disk, d': Disk, dirs: seq<Path>, l: nat, k: nat, e: DirEntry)
    requires SlotCommit(d, d', dirs, l, k, e)
    ensures SlotChange(d, d', l, Level(dirs), k, e)
  {
    hide Wf, Foot, KidsAt, SlotFoot, SlotOk, Reached, TableAt;
    ReachedTable(d, dirs, l);
    SlotFootInFoot(d, l, Level(dirs), k);
  }

  lemma CommitSubtree(d: Disk, d': Disk, dirs: seq<Path>, l: nat, k: nat, e: DirEntry)
    requires SlotCommit(d, d', dirs, l, k, e)
    ensures SubtreeChange(d, d', DIR_LBA, MAX_DEPTH, l, |dirs|)
  {
    hide Wf, Foot, KidsAt, SlotFoot, SlotOk, Reached, TableAt, SlotChange, RestFoot, SlotCommit;
    CommitFacts(d, d', dirs, l, k, e);
    CommitSlot(d, d', dirs, l, k, e);
    ChangedTree(d, d', l, Level(dirs), k, e);
    CommitSets(d, d', dirs, l, k, e);
  }

  lemma CommitSets(d: Disk, d': Disk, dirs: seq<Path>, l: nat, k: nat, e: DirEntry)
    requires SlotCommit(d, d', dirs, l, k, e)
    ensures var r := Level(dirs);
            var outside := Owned(d, DIR_LBA, MAX_DEPTH) - Owned(d, l, r);
            && RestFoot(d, l, r, k) + SlotFoot(d', e, r) !! outside
            && SameOn(d, d', outside)
            && RestFoot(d, l, r, k) == Foot(d, l, r) - SlotFoot(d, TableAt(d, l)[k], r)
            && SlotFoot(d, TableAt(d, l)[k], r) <= Foot(d, l, r)
            && Owned(d, l, r) <= Owned(d, DIR_LBA, MAX_DEPTH)
  {
    hide Wf, Foot, KidsAt, SlotFoot, SlotOk, Reached, TableAt;
    ReachedTable(d, dirs, l);
    SlotFootInFoot(d, l, Level(dirs), k);
  }

  /** The effect of a committed slot on the whole disk. */
  ghost predicate TreeCommit(d: Disk, d': Disk, dirs: seq<Path>, kids': Kids, freed: set<nat>, taken: set<nat>) {
    && WfDisk(d')
    && Descend(Tree(d), Keys(dirs)).Some?
    && Tree(d') == Replace(Tree(d), Keys(dirs), kids')
    && Foot(d', DIR_LBA, MAX_DEPTH) == Foot(d, DIR_LBA, MAX_DEPTH) - freed + taken
  }

  lemma CommitEffect(d: Disk, d': Disk, dirs: seq<Path>, l: nat, k: nat, e: DirEntry)
    requires SlotCommit(d, d', dirs, l, k, e)
    ensures SubtreeEffect(d, d', DIR_LBA, MAX_DEPTH, Keys(dirs), l, |dirs|)
    ensures KidsAt(d', l, Level(dirs))
            == ChangedKids(KidsAt(d, l, Level(dirs)), TableAt(d, l)[k], e, NodeOf(d', e, Level(dirs)))
    ensures Foot(d', l, Level(dirs)) == RestFoot(d, l, Level(dirs), k) + SlotFoot(d', e, Level(dirs))
  {
    hide Wf, Foot, KidsAt, SlotFoot, SlotOk, TableAt, SlotChange, ResolveFrom, ChangedKids, NodeOf;
    hide SubtreeChange, SubtreeEffect, RestFoot, Reached;
    CommitFacts(d, d', dirs, l, k, e);
    RootApart(d);
    CommitSubtree(d, d', dirs, l, k, e);
    Focus(d, d', dirs, 0, DIR_LBA, MAX_DEPTH);
    CommitSlot(d, d', dirs, l, k, e);
    ChangedTree(d, d', l, Level(dirs), k, e);
  }

  lemma CommitKids(d: Disk, d': Disk, dirs: seq<Path>, l: nat, k: nat, e: DirEntry)
    requires SlotCommit(d, d', dirs, l, k, e)
    ensures var r := Level(dirs);
            && WfDisk(d')
            && Descend(Tree(d), Keys(dirs)).Some?
            && Tree(d') == Replace(Tree(d), Keys(dirs),
                                   ChangedKids(KidsAt(d, l, r), TableAt(d, l)[k], e, NodeOf(d', e, r)))
  {
    hide Wf, Foot, KidsAt, SlotFoot, SlotOk, TableAt, Descend, Replace, ChangedKids, NodeOf, SlotCommit, RestFoot;
    hide Owned, Keys, Reached, ResolveFrom;
    CommitFacts(d, d', dirs, l, k, e);
    CommitEffect(d, d', dirs, l, k, e);
  }

  lemma CommitOwned(d: Disk, d': Disk, dirs: seq<Path>, l: nat, k: nat, e: DirEntry)
    requires SlotCommit(d, d', dirs, l, k, e)
    ensures var r := Level(dirs);
            Foot(d', DIR_LBA, MAX_DEPTH)
            == Foot(d, DIR_LBA, MAX_DEPTH) - SlotFoot(d, TableAt(d, l)[k], r) + SlotFoot(d', e, r)
  {
    hide Wf, Foot, KidsAt, SlotFoot, SlotOk, TableAt, Descend, Replace, ChangedKids, NodeOf, SlotCommit, Reached;
    hide ResolveFrom;
    CommitFacts(d, d', dirs, l, k, e);
    var r := Level(dirs);
    var freed, taken := SlotFoot(d, TableAt(d, l)[k], r), SlotFoot(d', e, r);
    ReachedTable(d, dirs, l);
    RootApart(d);
    FootInPool(d, l, r);
    CommitEffect(d, d', dirs, l, k, e);
    CommitSets(d, d', dirs, l, k, e);
    CommitFoot(Foot(d, DIR_LBA, MAX_DEPTH), Foot(d', DIR_LBA, MAX_DEPTH), DIR_LBA, l, Foot(d, l, r), freed, taken);
  }

  /** Committing one slot of a reached table: the tree stays well formed, its contents change at
      that directory only, and its sectors change by exactly the slot's own. */
  lemma CommitTree(d: Disk, d': Disk, dirs: seq<Path>, l: nat, k: nat, e: DirEntry)
    requires SlotCommit(d, d', dirs, l, k, e)
    ensures var r := Level(dirs);
            TreeCommit(d, d', dirs, ChangedKids(KidsAt(d, l, r), TableAt(d, l)[k], e, NodeOf(d', e, r)),
                       SlotFoot(d, TableAt(d, l)[k], r), SlotFoot(d', e, r))
  {
    hide Wf, Foot, KidsAt, SlotFoot, SlotOk, TableAt, Descend, Replace, ChangedKids, NodeOf, SlotCommit, Reached;
    CommitFacts(d, d', dirs, l, k, e);
    CommitKids(d, d', dirs, l, k, e);
    CommitOwned(d, d', dirs, l, k, e);
  }

  lemma CommitFoot(root: set<nat>, root': set<nat>, lba: nat, l: nat, sub: set<nat>, freed: set<nat>, taken: set<nat>)
    requires lba !in root && lba !in root' && lba !in taken
    requires {l} + sub <= {lba} + root && freed <= sub && l !in sub
    requires {lba} + root' == {lba} + root - ({l} + sub) + ({l} + (sub - freed + taken))
    ensures root' == root - freed + taken
  {
    forall s ensures s in root' <==> s in root - freed + taken {
      assert s in {lba} + root' <==> s in {lba} + root - ({l} + sub) + ({l} + (sub - freed + taken));
      assert s in {l} + sub ==> s in {lba} + root;
    }
  }

  // ---- Common pieces ----

  lemma SavedTable(d: Disk, l: nat, t: Table)
    requires l < |d|
    ensures Commit(d, l, t).reply == Ok(()) && Commit(d, l, t).disk == d[l := EncodeTable(t)]
    ensures TableAt(d[l := EncodeTable(t)], l) == t
  {
    LoadAfterSave(t);
  }

  /** The slot a new entry of name `n` takes leaves no other entry of that name. */
  lemma SlotForName(d: Disk, l: nat, r: nat, n: Name)
    requires Wf(d, l, r) && WriteSlot(TableAt(d, l), n) < 8
    ensures var t, k := TableAt(d, l), WriteSlot(TableAt(d, l), n);
            && (forall j :: 0 <= j < 8 && j != k && t[j].used ==> t[j].name != n)
            && (t[k].used ==> t[k].name == n && k == Find(t, n))
            && (!t[k].used ==> n !in KidsAt(d, l, r))
  {
    var t, k := TableAt(d, l), WriteSlot(TableAt(d, l), n);
    KidsOfSlot(d, l, r, n);
    if Find(t, n) < 8 {
      OtherNames(d, l, r, k);
    }
  }

  lemma BindKid(kids: Kids, was: DirEntry, e: DirEntry, node: Node)
    requires e.used
    requires if was.used then was.name == e.name else e.name !in kids
    ensures ChangedKids(kids, was, e, node) == kids[e.name := node]
  {
  }

  lemma DropKid(kids: Kids, was: DirEntry)
    requires was.used
    ensures ChangedKids(kids, was, EMPTY_ENTRY, File([])) == kids - {was.name}
    ensures forall node :: ChangedKids(kids, was, EMPTY_ENTRY, node) == kids - {was.name}
  {
  }

  // ---- Removing an entry ----

  lemma ClearSlot(d: Disk, dirs: seq<Path>, l: nat, k: nat)
    requires Reached(d, dirs, l) && k < 8
    ensures l < |d|
    ensures SlotCommit(d, d[l := EncodeTable(TableAt(d, l)[k := EMPTY_ENTRY])], dirs, l, k, EMPTY_ENTRY)
  {
    hide Wf, Foot, KidsAt, ResolveFrom, TableAt;
    ReachedTable(d, dirs, l);
    SavedTable(d, l, TableAt(d, l)[k := EMPTY_ENTRY]);
  }

  /** Clearing a used slot removes that name and frees exactly the sectors the entry owned. */
  lemma ClearTree(d: Disk, dirs: seq<Path>, l: nat, k: nat)
    requires Reached(d, dirs, l) && k < 8 && TableAt(d, l)[k].used
    ensures var t := TableAt(d, l);
            var out := Commit(d, l, t[k := EMPTY_ENTRY]);
            && out.reply == Ok(())
            && TreeCommit(d, out.disk, dirs, KidsAt(d, l, Level(dirs)) - {t[k].name},
                          SlotFoot(d, t[k], Level(dirs)), {})
  {
    hide Wf, Foot, KidsAt, ResolveFrom, TableAt, SlotCommit, TreeCommit, ChangedKids, Reached;
    var t := TableAt(d, l);
    ClearSlot(d, dirs, l, k);
    SavedTable(d, l, t[k := EMPTY_ENTRY]);
    var d' := d[l := EncodeTable(t[k := EMPTY_ENTRY])];
    CommitTree(d, d', dirs, l, k, EMPTY_ENTRY);
    DropKid(KidsAt(d, l, Level(dirs)), t[k]);
    assert SlotFoot(d', EMPTY_ENTRY, Level(dirs)) == {};
  }

  // ---- Storing a file ----

  ghost predicate RoomFor(d: Disk, dirs: seq<Path>, l: nat, n: Name, data: seq<Byte>, start: nat) {
    var t, k := TableAt(d, l), WriteSlot(TableAt(d, l), n);
    && Reached(d, dirs, l)
    && k < 8
    && !(t[k].used && t[k].isDir)
    && |data| <= MAX_FILE_BYTES
    && start < POOL_END && start + SectorsFor(|data|) <= POOL_END
    && (data != [] ==>
          && Level(dirs) > 0
          && start >= FILE_DATA_START_LBA
          && SpanSet(start, SectorsFor(|data|)) !! Owned(d, DIR_LBA, MAX_DEPTH) - SlotFoot(d, t[k], Level(dirs)))
  }

  /** The disk after the data sectors and then the entry are written. */
  ghost function Stored(d: Disk, l: nat, n: Name, data: seq<Byte>, start: nat): Disk
    requires |data| <= MAX_FILE_BYTES && start < POOL_END && start + SectorsFor(|data|) <= POOL_END
    requires l < |d| && WriteSlot(TableAt(d, l), n) < 8
  {
    WriteChunks(d, start, data, 0)[l := EncodeTable(TableAt(d, l)[WriteSlot(TableAt(d, l), n) := FileEntry(n, |data|, start)])]
  }

  lemma EntrySpan(n: Name, len: nat, start: nat)
    requires len <= MAX_FILE_BYTES && start < POOL_END
    ensures var e := FileEntry(n, len, start);
            SpanSet(e.startLba, e.sectorCount) == SpanSet(start, SectorsFor(len))
  {
  }

  lemma FileSlot(d: Disk, n: Name, len: nat, start: nat, r: nat)
    requires len <= MAX_FILE_BYTES && start < POOL_END && start + SectorsFor(len) <= POOL_END
    requires len > 0 ==> r > 0 && start >= FILE_DATA_START_LBA
    ensures SlotOk(d, FileEntry(n, len, start), r)
    ensures SlotFoot(d, FileEntry(n, len, start), r) == SpanSet(start, SectorsFor(len))
    ensures NodeOf(d, FileEntry(n, len, start), r) == File(Bytes(d, FileEntry(n, len, start)))
  {
    EntrySpan(n, len, start);
  }

  /** The table being updated is not among the sectors the data goes to. */
  lemma TableSafe(d: Disk, dirs: seq<Path>, l: nat, n: Name, data: seq<Byte>, start: nat)
    requires RoomFor(d, dirs, l, n, data, start)
    ensures l !in SpanSet(start, SectorsFor(|data|)) && l < |d|
    ensures Reached(d, dirs, l)
  {
    hide Wf, Foot, KidsAt, ResolveFrom, TableAt, SlotOk, SlotFoot, Reached;
    ReachedTable(d, dirs, l);
    SlotFootInFoot(d, l, Level(dirs), WriteSlot(TableAt(d, l), n));
    assert data == [] ==> SectorsFor(|data|) == 0;
  }

  lemma StoredHolds(d: Disk, dirs: seq<Path>, l: nat, n: Name, data: seq<Byte>, start: nat)
    requires RoomFor(d, dirs, l, n, data, start) && l < |d|
    ensures var d' := Stored(d, l, n, data, start);
            && |d'| == |d|
            && Holds(d', start, data, SectorsFor(|data|))
            && (forall s: nat :: s < |d| && s != l && s !in SpanSet(start, SectorsFor(|data|)) ==> d'[s] == d[s])
            && TableAt(d', l) == TableAt(d, l)[WriteSlot(TableAt(d, l), n) := FileEntry(n, |data|, start)]
  {
    hide Wf, Foot, KidsAt, ResolveFrom, TableAt, SlotOk, SlotFoot, Reached;
    TableSafe(d, dirs, l, n, data, start);
    WriteChunksEffect(d, start, data, 0);
    SavedTable(WriteChunks(d, start, data, 0), l,
               TableAt(d, l)[WriteSlot(TableAt(d, l), n) := FileEntry(n, |data|, start)]);
  }

  lemma StoreSlot(d: Disk, dirs: seq<Path>, l: nat, n: Name, data: seq<Byte>, start: nat)
    requires RoomFor(d, dirs, l, n, data, start) && l < |d|
    ensures SlotCommit(d, Stored(d, l, n, data, start), dirs, l, WriteSlot(TableAt(d, l), n), FileEntry(n, |data|, start))
  {
    hide Wf, Foot, KidsAt, ResolveFrom, TableAt, SlotOk, SlotFoot, Reached, Stored, Holds, FileEntry, WriteSlot;
    StoredHolds(d, dirs, l, n, data, start);
    TableSafe(d, dirs, l, n, data, start);
    ReachedTable(d, dirs, l);
    SlotForName(d, l, Level(dirs), n);
    FileSlot(Stored(d, l, n, data, start), n, |data|, start, Level(dirs));
    FileEntryName(n, |data|, start);
    assert data == [] ==> SpanSet(start, SectorsFor(|data|)) == {};
  }

  lemma FileEntryName(n: Name, len: nat, start: nat)
    requires len <= MAX_FILE_BYTES && start < POOL_END
    ensures FileEntry(n, len, start).used && FileEntry(n, len, start).name == n
  {
  }

  /** A file stored in sectors nobody else owns: that name now has those bytes, nothing else changes. */
  lemma StoreTree(d: Disk, dirs: seq<Path>, l: nat, n: Name, data: seq<Byte>, start: nat)
    requires RoomFor(d, dirs, l, n, data, start) && l < |d|
    ensures TreeCommit(d, Stored(d, l, n, data, start), dirs, KidsAt(d, l, Level(dirs))[n := File(data)],
                       SlotFoot(d, TableAt(d, l)[WriteSlot(TableAt(d, l), n)], Level(dirs)),
                       SpanSet(start, SectorsFor(|data|)))
  {
    hide Wf, Foot, KidsAt, ResolveFrom, TableAt, SlotOk, SlotFoot, Reached, Stored, Holds, FileEntry, WriteSlot;
    hide SlotCommit, TreeCommit, ChangedKids, NodeOf;
    var r, k, e := Level(dirs), WriteSlot(TableAt(d, l), n), FileEntry(n, |data|, start);
    var d' := Stored(d, l, n, data, start);
    StoreSlot(d, dirs, l, n, data, start);
    CommitTree(d, d', dirs, l, k, e);
    FileSlot(d', n, |data|, start, r);
    StoredHolds(d, dirs, l, n, data, start);
    WrittenBytes(d', n, data, start);
    TableSafe(d, dirs, l, n, data, start);
    ReachedTable(d, dirs, l);
    SlotForName(d, l, r, n);
    FileEntryName(n, |data|, start);
    BindKid(KidsAt(d, l, r), TableAt(d, l)[k], e, File(data));
  }
}
