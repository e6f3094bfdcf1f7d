/** Walking to a table and changing it: what a change to one table does to the whole tree. */
module FsWalk {
  import opened Common
  import opened DirCodec
  import opened FsSpec
  import opened FsTree

  // ---- Paths in the abstract tree ----

  function Keys(dirs: seq<Path>): seq<Name> {
    seq(|dirs|, i requires 0 <= i < |dirs| => NameBytes(dirs[i]))
  }

  predicate NoEmpty(dirs: seq<Path>) {
    forall i :: 0 <= i < |dirs| ==> dirs[i] != []
  }

  /** The children of the directory that `ks` names, if there is one. */
  ghost function Descend(t: Kids, ks: seq<Name>): Option<Kids>
    decreases |ks|
  {
    if ks == [] then Some(t)
    else if ks[0] in t && t[ks[0]].Dir? then Descend(t[ks[0]].kids, ks[1..])
    else None
  }

  /** The tree with the children of directory `ks` replaced by `kids`. */
  ghost function Replace(t: Kids, ks: seq<Name>, kids: Kids): Kids
    requires Descend(t, ks).Some?
    decreases |ks|
  {
    if ks == [] then kids
    else t[ks[0] := Dir(Replace(t[ks[0]].kids, ks[1..], kids))]
  }

  // ---- Table lookup against the abstraction ----

  lemma FindUnique(d: Disk, lba: nat, r: nat, i: nat)
    requires Wf(d, lba, r) && i < 8 && TableAt(d, lba)[i].used
    ensures Find(TableAt(d, lba), TableAt(d, lba)[i].name) == i
  {
    var t := TableAt(d, lba);
    var k := Find(t, t[i].name);
    assert k < i ==> Apart(d, t[k], t[i], r);
  }

  lemma KidsOfSlot(d: Disk, lba: nat, r: nat, n: Name)
    ensures n in KidsAt(d, lba, r) <==> Find(TableAt(d, lba), n) < 8
    ensures n in KidsAt(d, lba, r) ==>
              var e := TableAt(d, lba)[Find(TableAt(d, lba), n)];
              e.used && e.name == n && KidsAt(d, lba, r)[n] == NodeOf(d, e, r)
  {
    FindUsed(TableAt(d, lba), n);
  }

  lemma FoundUsed(t: Table, n: Name)
    ensures Find(t, n) <= 8
    ensures Find(t, n) < 8 ==> t[Find(t, n)].used && t[Find(t, n)].name == n
  {
  }

  // ---- Walking ----

  /** What reaching table `l`, `m` levels below `lba`, gives. */
  ghost predicate Below(d: Disk, lba: nat, r: nat, l: nat, m: nat) {
    && m <= r
    && Wf(d, l, r - m)
    && l !in Foot(d, l, r - m)
    && {l} + Foot(d, l, r - m) <= {lba} + Foot(d, lba, r)
    && (m > 0 ==> {l} + Foot(d, l, r - m) <= Foot(d, lba, r))
  }

  lemma KeysTail(dirs: seq<Path>)
    requires dirs != []
    ensures Keys(dirs) != [] && Keys(dirs)[0] == NameBytes(dirs[0]) && Keys(dirs)[1..] == Keys(dirs[1..])
  {
  }

  lemma SlotOfWf(d: Disk, lba: nat, r: nat, i: nat)
    requires Wf(d, lba, r) && i < 8
    ensures SlotOk(d, TableAt(d, lba)[i], r)
  {
  }

  lemma DirSlotOk(d: Disk, e: DirEntry, r: nat)
    requires SlotOk(d, e, r) && e.used && e.isDir
    ensures r > 0 && e.sectorCount == 1 && InPool(e.startLba)
    ensures Wf(d, e.startLba, r - 1) && e.startLba !in Foot(d, e.startLba, r - 1)
    ensures SlotFoot(d, e, r) == {e.startLba} + Foot(d, e.startLba, r - 1)
  {
    assert SpanSet(e.startLba, 1) == {e.startLba};
  }

  lemma ChildDir(d: Disk, lba: nat, r: nat, i: nat)
    requires Wf(d, lba, r) && i < 8
    requires TableAt(d, lba)[i].used && TableAt(d, lba)[i].isDir
    ensures var c := TableAt(d, lba)[i].startLba;
            r > 0 && TableAt(d, lba)[i].sectorCount == 1 && InPool(c)
            && Wf(d, c, r - 1) && c !in Foot(d, c, r - 1)
            && SlotFoot(d, TableAt(d, lba)[i], r) == {c} + Foot(d, c, r - 1)
            && {c} + Foot(d, c, r - 1) <= Foot(d, lba, r)
  {
    hide Wf, Foot, SlotFoot, SlotOk, TableAt;
    SlotOfWf(d, lba, r, i);
    DirSlotOk(d, TableAt(d, lba)[i], r);
    SlotFootInFoot(d, lba, r, i);
  }

  lemma NoEmptyTail(dirs: seq<Path>)
    requires dirs != []
    ensures NoEmpty(dirs) <==> dirs[0] != [] && NoEmpty(dirs[1..])
  {
    if dirs[0] != [] && NoEmpty(dirs[1..]) {
      forall j | 0 <= j < |dirs| ensures dirs[j] != [] {
        if j > 0 { assert dirs[1..][j - 1] == dirs[j]; }
      }
    }
    if NoEmpty(dirs) {
      forall j | 0 <= j < |dirs[1..]| ensures dirs[1..][j] != [] {
        assert dirs[1..][j] == dirs[j + 1];
      }
    }
  }

  /** The child a lookup finds, and what kind of node it is. */
  lemma KidIsDir(d: Disk, lba: nat, r: nat, i: nat, n: Name)
    requires Wf(d, lba, r)
    requires i == Find(TableAt(d, lba), n)
    ensures i < 8 && TableAt(d, lba)[i].isDir ==>
              r > 0 && n in KidsAt(d, lba, r)
              && KidsAt(d, lba, r)[n] == Dir(KidsAt(d, TableAt(d, lba)[i].startLba, r - 1))
    ensures !(i < 8 && TableAt(d, lba)[i].isDir) ==>
              n in KidsAt(d, lba, r) ==> KidsAt(d, lba, r)[n].File?
  {
    KidsOfSlot(d, lba, r, n);
    assert i < 8 ==> SlotOk(d, TableAt(d, lba)[i], r);
    hide KidsAt, Wf;
  }

  lemma DescendStep(d: Disk, lba: nat, r: nat, i: nat, ks: seq<Name>)
    requires Wf(d, lba, r) && ks != []
    requires i == Find(TableAt(d, lba), ks[0])
    ensures i < 8 && TableAt(d, lba)[i].isDir ==>
              r > 0 && Descend(KidsAt(d, lba, r), ks)
                       == Descend(KidsAt(d, TableAt(d, lba)[i].startLba, r - 1), ks[1..])
    ensures !(i < 8 && TableAt(d, lba)[i].isDir) ==> Descend(KidsAt(d, lba, r), ks).None?
  {
    hide KidsAt, Wf;
    KidIsDir(d, lba, r, i, ks[0]);
  }

  /** What walking `dirs` from `lba` establishes. */
  ghost predicate WalkResult(d: Disk, dirs: seq<Path>, depth: nat, lba: nat, r: nat) {
    var res := ResolveFrom(d, dirs, depth, lba);
    && (res.Ok? <==> NoEmpty(dirs) && Descend(KidsAt(d, lba, r), Keys(dirs)).Some?)
    && (res.Ok? ==>
          && Below(d, lba, r, res.value, |dirs|)
          && Descend(KidsAt(d, lba, r), Keys(dirs)) == Some(KidsAt(d, res.value, r - |dirs|)))
  }

  /** A table below a child directory is below its parent. */
  lemma BelowChild(d: Disk, lba: nat, r: nat, c: nat, l: nat, m: nat)
    requires r > 0 && {c} + Foot(d, c, r - 1) <= Foot(d, lba, r)
    requires Below(d, c, r - 1, l, m)
    ensures Below(d, lba, r, l, m + 1)
  {
    assert r - 1 - m == r - (m + 1);
  }

  lemma WalkInto(d: Disk, dirs: seq<Path>, depth: nat, lba: nat, r: nat, i: nat)
    requires Wf(d, lba, r) && depth + r == MAX_DEPTH && dirs != []
    requires i == Find(TableAt(d, lba), NameBytes(dirs[0])) && i < 8 && TableAt(d, lba)[i].isDir
    requires r > 0 && WalkResult(d, dirs[1..], depth + 1, TableAt(d, lba)[i].startLba, r - 1)
    ensures WalkResult(d, dirs, depth, lba, r)
  {
    hide KidsAt, Wf, Foot, Descend, TableAt, Find, NameBytes, Keys, NoEmpty, Below;
    var c := TableAt(d, lba)[i].startLba;
    var res := ResolveFrom(d, dirs[1..], depth + 1, c);
    KeysTail(dirs);
    NoEmptyTail(dirs);
    FoundUsed(TableAt(d, lba), NameBytes(dirs[0]));
    DescendStep(d, lba, r, i, Keys(dirs));
    ChildDir(d, lba, r, i);
    assert dirs[0] != [] ==> ResolveFrom(d, dirs, depth, lba) == res;
    if dirs[0] != [] && res.Ok? {
      BelowChild(d, lba, r, c, res.value, |dirs| - 1);
      assert r - 1 - (|dirs| - 1) == r - |dirs|;
    }
  }

  lemma WalkHere(d: Disk, depth: nat, lba: nat, r: nat)
    requires Wf(d, lba, r) && lba !in Foot(d, lba, r)
    ensures WalkResult(d, [], depth, lba, r)
  {
    hide KidsAt, Wf, Foot;
    assert Keys([]) == [];
  }

  lemma WalkStuck(d: Disk, dirs: seq<Path>, depth: nat, lba: nat, r: nat, i: nat)
    requires Wf(d, lba, r) && depth + r == MAX_DEPTH && dirs != []
    requires i == Find(TableAt(d, lba), NameBytes(dirs[0])) && !(i < 8 && TableAt(d, lba)[i].isDir)
    ensures WalkResult(d, dirs, depth, lba, r)
  {
    hide KidsAt, Wf, Foot, Descend;
    KeysTail(dirs);
    DescendStep(d, lba, r, i, Keys(dirs));
  }

  /** The walk succeeds exactly when the abstract tree has that directory, and ends at a
      well-formed table that stands for it. */
  lemma {:induction false} Walk(d: Disk, dirs: seq<Path>, depth: nat, lba: nat, r: nat)
    requires Wf(d, lba, r) && lba !in Foot(d, lba, r) && depth + r == MAX_DEPTH
    ensures WalkResult(d, dirs, depth, lba, r)
    decreases |dirs|
  {
    hide KidsAt, Wf, Foot, WalkResult;
    if dirs != [] {
      var i := Find(TableAt(d, lba), NameBytes(dirs[0]));
      if i < 8 && TableAt(d, lba)[i].isDir {
        ChildDir(d, lba, r, i);
        Walk(d, dirs[1..], depth + 1, TableAt(d, lba)[i].startLba, r - 1);
        WalkInto(d, dirs, depth, lba, r, i);
      } else {
        WalkStuck(d, dirs, depth, lba, r, i);
      }
    } else {
      WalkHere(d, depth, lba, r);
    }
  }
}
