/** The tree a disk holds: which sectors it owns, when it is well formed, and the
    abstract tree of names and bytes it stands for. */
module FsTree {
  import opened Common
  import opened DirCodec
  import opened FsSpec

  /** A file's bytes, or a directory's children keyed by sixteen-byte names. */
  datatype Node = File(data: seq<Byte>) | Dir(kids: Kids)
  type Kids = map<Name, Node>

  predicate InSpan(s: nat, start: nat, count: nat) {
    start <= s < start + count
  }

  /** Sectors `start..start + count`. */
  function SpanSet(start: nat, count: nat): (ss: set<nat>)
    ensures forall s :: s in ss <==> start <= s < start + count
  {
    set s: nat | s < start + count && InSpan(s, start, count)
  }

  predicate InPool(s: nat) {
    FILE_DATA_START_LBA <= s < POOL_END
  }

  // ---- Sectors owned ----

  /** Sectors owned by the entries of the table at `lba`, `r` levels of tables below it. */
  ghost function Foot(d: Disk, lba: nat, r: nat): set<nat>
    decreases r, 1
  {
    set i: nat, s | i < 8 && s in SlotFoot(d, TableAt(d, lba)[i], r) :: s
  }

  ghost function SlotFoot(d: Disk, e: DirEntry, r: nat): set<nat>
    decreases r, 0
  {
    if !e.used then {}
    else
      SpanSet(e.startLba, e.sectorCount)
      + (if e.isDir && r > 0 then Foot(d, e.startLba, r - 1) else {})
  }

  // ---- Well-formed trees ----

  /** A well-formed table with at most `r` levels of tables below it, none of whose
      sectors is owned twice. Tables at the last level own no sectors. */
  ghost predicate Wf(d: Disk, lba: nat, r: nat)
    decreases r, 1
  {
    var t := TableAt(d, lba);
    && (forall i :: 0 <= i < 8 ==> SlotOk(d, t[i], r))
    && (forall i, j :: 0 <= i < j < 8 ==> Apart(d, t[i], t[j], r))
  }

  ghost predicate SlotOk(d: Disk, e: DirEntry, r: nat)
    decreases r, 0
  {
    e.used ==>
      if e.isDir then
        && r > 0
        && e.sectorCount == 1
        && InPool(e.startLba)
        && e.startLba !in Foot(d, e.startLba, r - 1)
        && Wf(d, e.startLba, r - 1)
      else
        && e.len <= MAX_FILE_BYTES
        && e.sectorCount == SectorsFor(e.len)
        && (e.sectorCount > 0 ==>
              r > 0 && FILE_DATA_START_LBA <= e.startLba && e.startLba + e.sectorCount <= POOL_END)
  }

  ghost predicate Apart(d: Disk, e: DirEntry, f: DirEntry, r: nat) {
    e.used && f.used ==> e.name != f.name && SlotFoot(d, e, r) !! SlotFoot(d, f, r)
  }

  /** The whole disk: root table at sector 1, at most 32 levels below it. */
  ghost predicate WfDisk(d: Disk) {
    Wf(d, DIR_LBA, MAX_DEPTH)
  }

  // ---- Abstraction ----

  ghost function UsedNames(t: Table): set<Name> {
    set i: nat | i < 8 && t[i].used :: t[i].name
  }

  ghost function KidsAt(d: Disk, lba: nat, r: nat): Kids
    decreases r, 1
  {
    var t := TableAt(d, lba);
    map n | n in UsedNames(t) :: NodeOf(d, t[Find(t, n)], r)
  }

  ghost function NodeOf(d: Disk, e: DirEntry, r: nat): Node
    decreases r, 0
  {
    if e.isDir then Dir(if r > 0 then KidsAt(d, e.startLba, r - 1) else map[])
    else File(Bytes(d, e))
  }

  ghost function Bytes(d: Disk, e: DirEntry): seq<Byte> {
    var r := EntryBytes(d, e);
    if r.Ok? then r.value else []
  }

  ghost function Tree(d: Disk): Kids {
    KidsAt(d, DIR_LBA, MAX_DEPTH)
  }

  // ---- Basic facts ----

  lemma FindUsed(t: Table, n: Name)
    ensures n in UsedNames(t) <==> Find(t, n) < 8
  {
    if n in UsedNames(t) {
      var i: nat :| i < 8 && t[i].used && t[i].name == n;
    }
  }

  lemma SlotFootInFoot(d: Disk, lba: nat, r: nat, i: nat)
    requires i < 8
    ensures SlotFoot(d, TableAt(d, lba)[i], r) <= Foot(d, lba, r)
  {
  }

  lemma SlotFootInPool(d: Disk, e: DirEntry, r: nat)
    requires SlotOk(d, e, r)
    ensures forall s :: s in SlotFoot(d, e, r) ==> InPool(s)
    decreases r, 0
  {
    if e.used && e.isDir {
      FootInPool(d, e.startLba, r - 1);
    }
  }

  lemma FootInPool(d: Disk, lba: nat, r: nat)
    requires Wf(d, lba, r)
    ensures forall s :: s in Foot(d, lba, r) ==> InPool(s)
    decreases r, 1
  {
    forall s | s in Foot(d, lba, r) ensures InPool(s) {
      var i: nat :| i < 8 && s in SlotFoot(d, TableAt(d, lba)[i], r);
      SlotFootInPool(d, TableAt(d, lba)[i], r);
    }
  }

  /** The root table is outside the pool, so it is never owned by an entry. */
  lemma RootApart(d: Disk)
    requires WfDisk(d)
    ensures DIR_LBA !in Foot(d, DIR_LBA, MAX_DEPTH)
  {
    FootInPool(d, DIR_LBA, MAX_DEPTH);
  }

  // ---- Framing ----

  lemma ReadSectorsFrame(d: Disk, d': Disk, start: nat, count: nat)
    requires |d| == |d'|
    requires forall s :: s in SpanSet(start, count) && s < |d| ==> d[s] == d'[s]
    ensures ReadSectors(d, start, count) == ReadSectors(d', start, count)
  {
    if count > 0 {
      ReadSectorsFrame(d, d', start, count - 1);
      assert start + count - 1 in SpanSet(start, count);
    }
  }

  ghost predicate SameOn(d: Disk, d': Disk, ss: set<nat>) {
    |d| == |d'| && forall s :: s in ss && s < |d| ==> d[s] == d'[s]
  }

  /** Entry `e` means the same on both disks. */
  ghost predicate SameSlot(d: Disk, d': Disk, e: DirEntry, r: nat) {
    && SlotOk(d', e, r)
    && SlotFoot(d', e, r) == SlotFoot(d, e, r)
    && (e.used ==> NodeOf(d', e, r) == NodeOf(d, e, r))
  }

  lemma SlotFrame(d: Disk, d': Disk, e: DirEntry, r: nat)
    requires SlotOk(d, e, r)
    requires SameOn(d, d', SlotFoot(d, e, r))
    ensures SameSlot(d, d', e, r)
    decreases r, 0
  {
    if e.used {
      if e.isDir {
        assert e.startLba in SpanSet(e.startLba, e.sectorCount);
        Frame(d, d', e.startLba, r - 1);
      } else {
        ReadSectorsFrame(d, d', e.startLba, e.sectorCount);
      }
    }
  }

  lemma FrameSlots(d: Disk, d': Disk, lba: nat, r: nat, i: nat)
    requires Wf(d, lba, r) && i < 8
    requires SameOn(d, d', Foot(d, lba, r))
    ensures SameSlot(d, d', TableAt(d, lba)[i], r)
    decreases r, 1
  {
    var e := TableAt(d, lba)[i];
    SlotFootInFoot(d, lba, r, i);
    SlotFrame(d, d', e, r);
  }

  lemma SameSlotsKids(d: Disk, d': Disk, lba: nat, r: nat)
    requires TableAt(d', lba) == TableAt(d, lba)
    requires forall i: nat :: i < 8 ==> SameSlot(d, d', TableAt(d, lba)[i], r)
    ensures KidsAt(d', lba, r) == KidsAt(d, lba, r)
  {
    var t := TableAt(d, lba);
    forall n | n in UsedNames(t)
      ensures NodeOf(d', t[Find(t, n)], r) == NodeOf(d, t[Find(t, n)], r)
    {
      FindUsed(t, n);
      assert SameSlot(d, d', t[Find(t, n)], r);
    }
  }

  lemma SameSlotsFoot(d: Disk, d': Disk, lba: nat, r: nat)
    requires TableAt(d', lba) == TableAt(d, lba)
    requires forall i: nat :: i < 8 ==> SameSlot(d, d', TableAt(d, lba)[i], r)
    ensures Foot(d', lba, r) == Foot(d, lba, r)
  {
    var t := TableAt(d, lba);
    assert forall i: nat :: i < 8 ==> SlotFoot(d', t[i], r) == SlotFoot(d, t[i], r) by {
      forall i: nat | i < 8 ensures SlotFoot(d', t[i], r) == SlotFoot(d, t[i], r) {
        assert SameSlot(d, d', t[i], r);
      }
    }
  }

  lemma SameSlotsWf(d: Disk, d': Disk, lba: nat, r: nat)
    requires Wf(d, lba, r)
    requires TableAt(d', lba) == TableAt(d, lba)
    requires forall i: nat :: i < 8 ==> SameSlot(d, d', TableAt(d, lba)[i], r)
    ensures Wf(d', lba, r)
  {
    var t := TableAt(d, lba);
    forall i: nat, j: nat | i < j < 8 ensures Apart(d', t[i], t[j], r) {
      assert Apart(d, t[i], t[j], r) && SameSlot(d, d', t[i], r) && SameSlot(d, d', t[j], r);
    }
    forall i: nat | i < 8 ensures SlotOk(d', t[i], r) {
      assert SameSlot(d, d', t[i], r);
    }
  }

  /** What a table stands for depends only on its own sector and the sectors it owns. */
  lemma Frame(d: Disk, d': Disk, lba: nat, r: nat)
    requires Wf(d, lba, r)
    requires SameOn(d, d', {lba} + Foot(d, lba, r))
    ensures Wf(d', lba, r)
    ensures Foot(d', lba, r) == Foot(d, lba, r)
    ensures KidsAt(d', lba, r) == KidsAt(d, lba, r)
    decreases r, 2
  {
    var t := TableAt(d, lba);
    assert lba in {lba} + Foot(d, lba, r);
    assert TableAt(d', lba) == t;
    forall i: nat | i < 8 ensures SameSlot(d, d', t[i], r) {
      FrameSlots(d, d', lba, r, i);
    }
    SameSlotsKids(d, d', lba, r);
    SameSlotsFoot(d, d', lba, r);
    SameSlotsWf(d, d', lba, r);
  }
}
