/** The calls on a well-formed disk do what the abstract filesystem does. */
module FsCalls {
  import opened Common
  import opened DirCodec
  import opened FsSpec
  import opened FsTree
  import opened FsWalk
  import opened FsUpdate
  import opened FsSpace
  import opened FsContent
  import opened FsOps
  import opened FsAbstract

  // ---- Walking ----

  ghost predicate WalkAgrees(d: Disk, dirs: seq<Path>, depth: nat, lba: nat, r: nat) {
    match ResolveFrom(d, dirs, depth, lba)
    case Err(e) => AbsWalk(KidsAt(d, lba, r), dirs, depth) == Err(e)
    case Ok(l) => |dirs| <= r && AbsWalk(KidsAt(d, lba, r), dirs, depth) == Ok(KidsAt(d, l, r - |dirs|))
  }

  lemma WalkAgreesHere(d: Disk, depth: nat, lba: nat, r: nat)
    ensures WalkAgrees(d, [], depth, lba, r)
  {
    hide KidsAt;
    assert r - 0 == r;
  }

  lemma WalkAgreesStuck(d: Disk, dirs: seq<Path>, depth: nat, lba: nat, r: nat)
    requires Wf(d, lba, r) && dirs != []
    requires var i := Find(TableAt(d, lba), NameBytes(dirs[0]));
             dirs[0] == [] || depth >= MAX_DEPTH || i == 8 || !TableAt(d, lba)[i].isDir
    ensures WalkAgrees(d, dirs, depth, lba, r)
  {
    hide KidsAt, Wf, TableAt, NameBytes;
    KidIsDir(d, lba, r, Find(TableAt(d, lba), NameBytes(dirs[0])), NameBytes(dirs[0]));
    FindInKids(d, lba, r, NameBytes(dirs[0]));
  }

  lemma FindInKids(d: Disk, lba: nat, r: nat, n: Name)
    ensures Find(TableAt(d, lba), n) <= 8
    ensures n in KidsAt(d, lba, r) <==> Find(TableAt(d, lba), n) < 8
  {
    hide KidsAt;
    KidsOfSlot(d, lba, r, n);
  }

  lemma WalkAgreesInto(d: Disk, dirs: seq<Path>, depth: nat, lba: nat, r: nat, i: nat)
    requires Wf(d, lba, r) && dirs != [] && dirs[0] != [] && depth < MAX_DEPTH
    requires i == Find(TableAt(d, lba), NameBytes(dirs[0])) && i < 8 && TableAt(d, lba)[i].isDir
    requires r > 0 && WalkAgrees(d, dirs[1..], depth + 1, TableAt(d, lba)[i].startLba, r - 1)
    ensures WalkAgrees(d, dirs, depth, lba, r)
  {
    hide KidsAt, Wf, TableAt, NameBytes, Find;
    KidIsDir(d, lba, r, i, NameBytes(dirs[0]));
    var res := ResolveFrom(d, dirs[1..], depth + 1, TableAt(d, lba)[i].startLba);
    assert ResolveFrom(d, dirs, depth, lba) == res;
    assert res.Ok? ==> r - 1 - |dirs[1..]| == r - |dirs|;
  }

  /** Walking the disk and walking the tree agree, errors included. */
  lemma {:induction false} WalkRefines(d: Disk, dirs: seq<Path>, depth: nat, lba: nat, r: nat)
    requires Wf(d, lba, r) && depth + r == MAX_DEPTH
    ensures WalkAgrees(d, dirs, depth, lba, r)
    decreases |dirs|
  {
    hide KidsAt, Wf, Foot, TableAt, NameBytes, Find, WalkAgrees, SlotFoot;
    if dirs == [] {
      WalkAgreesHere(d, depth, lba, r);
    } else {
      FindInKids(d, lba, r, NameBytes(dirs[0]));
      var i := Find(TableAt(d, lba), NameBytes(dirs[0]));
      if dirs[0] == [] || depth >= MAX_DEPTH || i == 8 || !TableAt(d, lba)[i].isDir {
        WalkAgreesStuck(d, dirs, depth, lba, r);
      } else {
        FoundUsed(TableAt(d, lba), NameBytes(dirs[0]));
        ChildDir(d, lba, r, i);
        WalkRefines(d, dirs[1..], depth + 1, TableAt(d, lba)[i].startLba, r - 1);
        WalkAgreesInto(d, dirs, depth, lba, r, i);
      }
    }
  }

  // ---- Full directories ----

  ghost function NamesBelow(t: Table, i: nat): set<Name>
    requires i <= 8
  {
    if i == 0 then {} else NamesBelow(t, i - 1) + (if t[i - 1].used then {t[i - 1].name} else {})
  }

  ghost function CountBelow(t: Table, i: nat): nat
    requires i <= 8
  {
    if i == 0 then 0 else CountBelow(t, i - 1) + (if t[i - 1].used then 1 else 0)
  }

  ghost predicate DistinctNames(t: Table) {
    forall i, j :: 0 <= i < j < 8 && t[i].used && t[j].used ==> t[i].name != t[j].name
  }

  lemma {:induction false} NamesBelowMember(t: Table, i: nat, n: Name)
    requires i <= 8
    ensures n in NamesBelow(t, i) <==> exists j: nat :: j < i && t[j].used && t[j].name == n
  {
    if i > 0 {
      NamesBelowMember(t, i - 1, n);
    }
  }

  lemma {:induction false} NamesCount(t: Table, i: nat)
    requires DistinctNames(t) && i <= 8
    ensures |NamesBelow(t, i)| == CountBelow(t, i)
  {
    if i > 0 {
      NamesCount(t, i - 1);
      NamesBelowMember(t, i - 1, t[i - 1].name);
    }
  }

  lemma NamesBelowAll(t: Table)
    ensures NamesBelow(t, 8) == UsedNames(t)
  {
    forall n ensures n in NamesBelow(t, 8) <==> n in UsedNames(t) {
      NamesBelowMember(t, 8, n);
      hide NamesBelow;
    }
  }

  lemma {:induction false} CountFull(t: Table, i: nat)
    requires i <= 8
    ensures CountBelow(t, i) <= i
    ensures CountBelow(t, i) == i <==> forall j :: 0 <= j < i ==> t[j].used
  {
    if i > 0 {
      CountFull(t, i - 1);
    }
  }

  lemma WfDistinct(d: Disk, l: nat, r: nat)
    requires Wf(d, l, r)
    ensures DistinctNames(TableAt(d, l))
  {
    var t := TableAt(d, l);
    forall i: nat, j: nat | i < j < 8 && t[i].used && t[j].used ensures t[i].name != t[j].name {
      assert Apart(d, t[i], t[j], r);
    }
  }

  lemma KidNames(d: Disk, l: nat, r: nat)
    ensures KidsAt(d, l, r).Keys == UsedNames(TableAt(d, l))
    ensures |KidsAt(d, l, r)| == |UsedNames(TableAt(d, l))|
  {
    assert KidsAt(d, l, r).Keys == UsedNames(TableAt(d, l));
  }

  /** A directory has eight children exactly when its table has no unused slot. */
  lemma FullIff(d: Disk, l: nat, r: nat)
    requires Wf(d, l, r)
    ensures FreeSlot(TableAt(d, l)) == 8 <==> |KidsAt(d, l, r)| == MAX_ENTRIES
  {
    hide Wf, KidsAt, TableAt, Foot, NamesBelow, CountBelow;
    var t := TableAt(d, l);
    WfDistinct(d, l, r);
    NamesCount(t, 8);
    CountFull(t, 8);
    KidNames(d, l, r);
    NamesBelowAll(t);
  }

  // ---- Free space ----

  ghost predicate RunFree(foot: set<nat>, needed: nat, s: nat) {
    s + needed <= NUM_DATA_SECTORS && SpanSet(FILE_DATA_START_LBA + s, needed) !! foot
  }

  ghost predicate NoRun(foot: set<nat>, needed: nat) {
    forall s: nat :: !RunFree(foot, needed, s)
  }

  lemma FitsIff(rs: seq<Range>, foot: set<nat>, needed: nat, s: nat)
    requires Scans(rs, foot) && needed > 0
    ensures Fits(rs, needed, s) <==> RunFree(foot, needed, s)
  {
    SpanFreeMeans(rs, FILE_DATA_START_LBA + s, needed);
  }

  /** First fit finds a run exactly when the pool has one, and takes the lowest. */
  lemma FirstFit(rs: seq<Range>, foot: set<nat>, needed: nat)
    requires Scans(rs, foot) && 0 < needed <= NUM_DATA_SECTORS
    ensures var r := FitFrom(rs, needed, 0);
            && (r.None? <==> NoRun(foot, needed))
            && (r.Some? ==> RunFree(foot, needed, r.value)
                            && forall s: nat :: s < r.value ==> !RunFree(foot, needed, s))
  {
    hide Scans, Fits, RunFree;
    forall s: nat ensures Fits(rs, needed, s) <==> RunFree(foot, needed, s) {
      FitsIff(rs, foot, needed, s);
    }
  }

  // ---- Making a directory ----

  ghost predicate RoomForDir(d: Disk, dirs: seq<Path>, l: nat, n: Name, home: nat) {
    && Reached(d, dirs, l)
    && Find(TableAt(d, l), n) == 8
    && FreeSlot(TableAt(d, l)) < 8
    && Level(dirs) > 0
    && InPool(home)
    && home !in Owned(d, DIR_LBA, MAX_DEPTH)
  }

  ghost function WithDir(d: Disk, l: nat, n: Name, home: nat): Disk
    requires InPool(home) && l < |d| && FreeSlot(TableAt(d, l)) < 8
  {
    d[home := EncodeTable(EMPTY_TABLE)][l := EncodeTable(TableAt(d, l)[FreeSlot(TableAt(d, l)) := DirEntryAt(n, home)])]
  }

  lemma EmptyTableWf(d: Disk, lba: nat, r: nat)
    requires TableAt(d, lba) == EMPTY_TABLE
    ensures Wf(d, lba, r) && Foot(d, lba, r) == {} && KidsAt(d, lba, r) == map[]
  {
    forall i: nat | i < 8 ensures SlotFoot(d, EMPTY_TABLE[i], r) == {} && !EMPTY_TABLE[i].used {
    }
    assert UsedNames(EMPTY_TABLE) == {};
  }

  lemma NewDirSlot(d: Disk, n: Name, home: nat, r: nat)
    requires InPool(home) && r > 0 && TableAt(d, home) == EMPTY_TABLE
    ensures SlotOk(d, DirEntryAt(n, home), r)
    ensures SlotFoot(d, DirEntryAt(n, home), r) == {home}
    ensures NodeOf(d, DirEntryAt(n, home), r) == Dir(map[])
  {
    EmptyTableWf(d, home, r - 1);
    assert SpanSet(home, 1) == {home};
  }

  lemma WithDirSectors(d: Disk, dirs: seq<Path>, l: nat, n: Name, home: nat)
    requires RoomForDir(d, dirs, l, n, home)
    ensures l < |d| && l != home
    ensures var d' := WithDir(d, l, n, home);
            && |d'| == |d|
            && TableAt(d', home) == EMPTY_TABLE
            && TableAt(d', l) == TableAt(d, l)[FreeSlot(TableAt(d, l)) := DirEntryAt(n, home)]
            && (forall s :: 0 <= s < |d| && s != l && s != home ==> d'[s] == d[s])
  {
    hide Wf, Foot, KidsAt, ResolveFrom, TableAt, Reached;
    ReachedTable(d, dirs, l);
    SavedTable(d, home, EMPTY_TABLE);
    SavedTable(d[home := EncodeTable(EMPTY_TABLE)], l, TableAt(d, l)[FreeSlot(TableAt(d, l)) := DirEntryAt(n, home)]);
    SameSector(d[home := EncodeTable(EMPTY_TABLE)], WithDir(d, l, n, home), home);
  }

  lemma WithDirCommit(d: Disk, dirs: seq<Path>, l: nat, n: Name, home: nat)
    requires RoomForDir(d, dirs, l, n, home) && l < |d|
    ensures SlotCommit(d, WithDir(d, l, n, home), dirs, l, FreeSlot(TableAt(d, l)), DirEntryAt(n, home))
  {
    hide Wf, Foot, KidsAt, ResolveFrom, TableAt, SlotOk, SlotFoot, WithDir;
    WithDirSectors(d, dirs, l, n, home);
    ReachedTable(d, dirs, l);
    SlotForName(d, l, Level(dirs), n);
    NewDirSlot(WithDir(d, l, n, home), n, home, Level(dirs));
  }

  lemma WithDirTree(d: Disk, dirs: seq<Path>, l: nat, n: Name, home: nat)
    requires RoomForDir(d, dirs, l, n, home) && l < |d|
    ensures TreeCommit(d, WithDir(d, l, n, home), dirs, KidsAt(d, l, Level(dirs))[n := Dir(map[])], {}, {home})
  {
    hide Wf, Foot, KidsAt, ResolveFrom, TableAt, SlotOk, WithDir, SlotCommit, TreeCommit, ChangedKids, NodeOf, Owned;
    var r, k, e := Level(dirs), FreeSlot(TableAt(d, l)), DirEntryAt(n, home);
    WithDirCommit(d, dirs, l, n, home);
    CommitTree(d, WithDir(d, l, n, home), dirs, l, k, e);
    WithDirSectors(d, dirs, l, n, home);
    NewDirSlot(WithDir(d, l, n, home), n, home, r);
    ReachedTable(d, dirs, l);
    SlotForName(d, l, r, n);
    BindKid(KidsAt(d, l, r), TableAt(d, l)[k], e, Dir(map[]));
    assert SlotFoot(d, TableAt(d, l)[k], r) == {};
  }
}
