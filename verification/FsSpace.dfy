/** The allocator's view of the disk: the scan finds exactly the sectors the tree owns. */
module FsSpace {
  import opened Common
  import opened DirCodec
  import opened FsSpec
  import opened FsTree
  import opened FsWalk
  import opened FsUpdate

  ghost function Covered(rs: seq<Range>): set<nat> {
    if rs == [] then {} else SpanSet(rs[0].start, rs[0].count) + Covered(rs[1..])
  }

  /** Ranges are non-empty and no sector lies in two of them. */
  ghost predicate Separate(rs: seq<Range>) {
    rs == [] || (rs[0].count > 0
                 && SpanSet(rs[0].start, rs[0].count) !! Covered(rs[1..])
                 && Separate(rs[1..]))
  }

  lemma {:induction false} CoveredConcat(a: seq<Range>, b: seq<Range>)
    ensures Covered(a + b) == Covered(a) + Covered(b)
    ensures Separate(a) && Separate(b) && Covered(a) !! Covered(b) ==> Separate(a + b)
  {
    if a == [] {
      assert a + b == b;
    } else {
      assert (a + b)[1..] == a[1..] + b;
      CoveredConcat(a[1..], b);
    }
  }

  /** Sectors owned through entries `i..8`. */
  ghost function TailFoot(d: Disk, t: Table, i: nat, r: nat): set<nat> {
    set j: nat, s | i <= j < 8 && s in SlotFoot(d, t[j], r) :: s
  }

  lemma TailFootSplit(d: Disk, t: Table, i: nat, r: nat)
    requires i < 8
    ensures TailFoot(d, t, i, r) == SlotFoot(d, t[i], r) + TailFoot(d, t, i + 1, r)
  {
    hide SlotFoot;
    forall s | s in TailFoot(d, t, i, r) ensures s in SlotFoot(d, t[i], r) + TailFoot(d, t, i + 1, r) {
      var j: nat :| i <= j < 8 && s in SlotFoot(d, t[j], r);
      assert j > i ==> s in TailFoot(d, t, i + 1, r);
    }
  }

  lemma FootIsTail(d: Disk, lba: nat, r: nat)
    ensures Foot(d, lba, r) == TailFoot(d, TableAt(d, lba), 0, r)
  {
    hide SlotFoot;
  }

  ghost predicate SlotsOk(d: Disk, t: Table, r: nat) {
    && (forall i :: 0 <= i < 8 ==> SlotOk(d, t[i], r))
    && (forall i, j :: 0 <= i < j < 8 ==> Apart(d, t[i], t[j], r))
  }

  lemma SlotApartFromTail(d: Disk, t: Table, i: nat, r: nat)
    requires SlotsOk(d, t, r) && i < 8
    ensures SlotFoot(d, t[i], r) !! TailFoot(d, t, i + 1, r)
  {
    forall s | s in TailFoot(d, t, i + 1, r) ensures s !in SlotFoot(d, t[i], r) {
      var j: nat :| i + 1 <= j < 8 && s in SlotFoot(d, t[j], r);
      assert Apart(d, t[i], t[j], r);
    }
  }

  /** What the scan pushes for one entry. */
  ghost function SlotRanges(d: Disk, e: DirEntry, depth: nat): seq<Range>
    requires depth < MAX_DEPTH
  {
    if !e.used || e.sectorCount == 0 then []
    else [Range(e.startLba, e.sectorCount)] + (if e.isDir then Collect(d, e.startLba, depth + 1) else [])
  }

  lemma CollectSplit(d: Disk, t: Table, i: nat, depth: nat)
    requires i < 8 && depth < MAX_DEPTH
    ensures CollectFrom(d, t, i, depth) == SlotRanges(d, t[i], depth) + CollectFrom(d, t, i + 1, depth)
  {
  }

  /** `rs` lists the sectors of `foot`, each once. */
  ghost predicate Scans(rs: seq<Range>, foot: set<nat>) {
    Covered(rs) == foot && Separate(rs)
  }

  lemma SlotRangesCover(d: Disk, e: DirEntry, r: nat)
    requires SlotOk(d, e, r) && 0 < r <= MAX_DEPTH
    ensures Scans(SlotRanges(d, e, MAX_DEPTH - r), SlotFoot(d, e, r))
    decreases r, 0
  {
    hide Foot, Wf, Collect;
    if e.used && e.sectorCount > 0 {
      var head := [Range(e.startLba, e.sectorCount)];
      assert head[1..] == [];
      assert Covered(head) == SpanSet(e.startLba, e.sectorCount) + Covered([]) && Separate(head);
      if e.isDir {
        CollectCovers(d, e.startLba, r - 1);
        assert SpanSet(e.startLba, 1) == {e.startLba};
        CoveredConcat(head, Collect(d, e.startLba, MAX_DEPTH - r + 1));
      }
    }
  }

  lemma CollectFromCovers(d: Disk, t: Table, i: nat, r: nat)
    requires SlotsOk(d, t, r) && 0 < r <= MAX_DEPTH && i <= 8
    ensures Scans(CollectFrom(d, t, i, MAX_DEPTH - r), TailFoot(d, t, i, r))
    decreases r, 1, 8 - i
  {
    if i < 8 {
      assert SlotOk(d, t[i], r);
      SlotRangesCover(d, t[i], r);
      CollectFromCovers(d, t, i + 1, r);
      SlotApartFromTail(d, t, i, r);
      TailFootSplit(d, t, i, r);
      CollectSplit(d, t, i, MAX_DEPTH - r);
      hide Foot, SlotFoot, TailFoot, CollectFrom, SlotRanges, Covered, Separate, SlotsOk;
      CoveredConcat(SlotRanges(d, t[i], MAX_DEPTH - r), CollectFrom(d, t, i + 1, MAX_DEPTH - r));
    }
  }

  lemma LastLevelOwnsNothing(d: Disk, lba: nat)
    requires Wf(d, lba, 0)
    ensures Foot(d, lba, 0) == {}
  {
    forall i: nat | i < 8 ensures SlotFoot(d, TableAt(d, lba)[i], 0) == {} {
      assert SlotOk(d, TableAt(d, lba)[i], 0);
    }
  }

  /** The recursive scan reports every sector the tree owns, once. */
  lemma CollectCovers(d: Disk, lba: nat, r: nat)
    requires Wf(d, lba, r) && r <= MAX_DEPTH
    ensures Scans(Collect(d, lba, MAX_DEPTH - r), Foot(d, lba, r))
    decreases r, 2
  {
    if r == 0 {
      LastLevelOwnsNothing(d, lba);
    } else {
      CollectFromCovers(d, TableAt(d, lba), 0, r);
      FootIsTail(d, lba, r);
    }
  }

  // ---- Free spans ----

  lemma {:induction false} SpanFreeMeans(rs: seq<Range>, start: nat, needed: nat)
    requires Separate(rs) && needed > 0
    ensures SpanFree(rs, start, needed) <==> SpanSet(start, needed) !! Covered(rs)
  {
    if rs != [] {
      SpanFreeMeans(rs[1..], start, needed);
      assert Clash(rs[0], start, needed) <==> !(SpanSet(start, needed) !! SpanSet(rs[0].start, rs[0].count)) by {
        var s := if start < rs[0].start then rs[0].start else start;
        assert Clash(rs[0], start, needed) ==> s in SpanSet(start, needed) && s in SpanSet(rs[0].start, rs[0].count);
      }
      SpanFreeTail(rs, start, needed);
    }
  }

  lemma SpanFreeTail(rs: seq<Range>, start: nat, needed: nat)
    requires rs != []
    ensures SpanFree(rs, start, needed) <==> !Clash(rs[0], start, needed) && SpanFree(rs[1..], start, needed)
  {
    if !Clash(rs[0], start, needed) && SpanFree(rs[1..], start, needed) {
      forall k | 0 <= k < |rs| ensures !Clash(rs[k], start, needed) {
        assert k > 0 ==> rs[k] == rs[1..][k - 1];
      }
    }
    if SpanFree(rs, start, needed) {
      forall k | 0 <= k < |rs[1..]| ensures !Clash(rs[1..][k], start, needed) {
        assert rs[1..][k] == rs[k + 1];
      }
    }
  }

  /** Dropping the first range equal to `x` frees exactly that range's sectors. */
  lemma {:induction false} DropRange(rs: seq<Range>, x: Range)
    requires Separate(rs) && IndexOf(rs, x) < |rs|
    ensures Scans(Without(rs, x), Covered(rs) - SpanSet(x.start, x.count))
  {
    var k := IndexOf(rs, x);
    var rest := rs[..k] + rs[k + 1..];
    if rs[0] == x {
      assert rest == rs[1..];
    } else {
      DropRange(rs[1..], x);
      assert rs[1..][..k - 1] + rs[1..][k..] == rest[1..];
      InCovered(rs[1..], x);
    }
  }

  lemma {:induction false} InCovered(rs: seq<Range>, x: Range)
    requires IndexOf(rs, x) < |rs|
    ensures SpanSet(x.start, x.count) <= Covered(rs)
  {
    if rs[0] != x {
      InCovered(rs[1..], x);
    }
  }

  // ---- Every entry reached by a path is in the scan ----

  ghost predicate Listed(rs: seq<Range>, x: Range) {
    IndexOf(rs, x) < |rs|
  }

  lemma {:induction false} ListedConcat(a: seq<Range>, b: seq<Range>, x: Range)
    ensures Listed(a + b, x) <==> Listed(a, x) || Listed(b, x)
  {
    if a == [] {
      assert a + b == b;
    } else {
      assert (a + b)[1..] == a[1..] + b;
      ListedConcat(a[1..], b, x);
    }
  }

  lemma {:induction false} SlotInScan(d: Disk, t: Table, i: nat, j: nat, depth: nat, x: Range)
    requires i <= j < 8 && depth < MAX_DEPTH
    requires Listed(SlotRanges(d, t[j], depth), x)
    ensures Listed(CollectFrom(d, t, i, depth), x)
    decreases j - i
  {
    if i < j {
      SlotInScan(d, t, i + 1, j, depth, x);
    }
    CollectSplit(d, t, i, depth);
    hide CollectFrom, SlotRanges, Listed;
    ListedConcat(SlotRanges(d, t[i], depth), CollectFrom(d, t, i + 1, depth), x);
  }

  lemma FileInScan(d: Disk, lba: nat, depth: nat, j: nat)
    requires depth < MAX_DEPTH && j < 8
    requires TableAt(d, lba)[j].used && !TableAt(d, lba)[j].isDir && TableAt(d, lba)[j].sectorCount > 0
    ensures Listed(Collect(d, lba, depth), Range(TableAt(d, lba)[j].startLba, TableAt(d, lba)[j].sectorCount))
  {
    var e := TableAt(d, lba)[j];
    assert SlotRanges(d, e, depth) == [Range(e.startLba, e.sectorCount)];
    SlotInScan(d, TableAt(d, lba), 0, j, depth, Range(e.startLba, e.sectorCount));
  }

  lemma ChildInScan(d: Disk, lba: nat, depth: nat, i: nat, x: Range)
    requires depth < MAX_DEPTH && i < 8
    requires TableAt(d, lba)[i].used && TableAt(d, lba)[i].isDir && TableAt(d, lba)[i].sectorCount == 1
    requires Listed(Collect(d, TableAt(d, lba)[i].startLba, depth + 1), x)
    ensures Listed(Collect(d, lba, depth), x)
  {
    var c := TableAt(d, lba)[i];
    var head := [Range(c.startLba, 1)];
    assert SlotRanges(d, c, depth) == head + Collect(d, c.startLba, depth + 1);
    ListedConcat(head, Collect(d, c.startLba, depth + 1), x);
    SlotInScan(d, TableAt(d, lba), 0, i, depth, x);
  }

  /** The file entry `j` of the table that `dirs` leads to. */
  ghost predicate FileAt(d: Disk, dirs: seq<Path>, depth: nat, lba: nat, j: nat, e: DirEntry) {
    && j < 8
    && ResolveFrom(d, dirs, depth, lba).Ok?
    && TableAt(d, ResolveFrom(d, dirs, depth, lba).value)[j] == e
    && e.used && !e.isDir
  }

  lemma FileHere(d: Disk, depth: nat, lba: nat, r: nat, j: nat, e: DirEntry)
    requires Wf(d, lba, r) && depth + r == MAX_DEPTH && FileAt(d, [], depth, lba, j, e) && e.sectorCount > 0
    ensures Listed(Collect(d, lba, depth), Range(e.startLba, e.sectorCount))
  {
    assert SlotOk(d, e, r);
    hide Wf, Collect, Listed;
    FileInScan(d, lba, depth, j);
  }

  lemma FileBelow(d: Disk, dirs: seq<Path>, depth: nat, lba: nat, j: nat, e: DirEntry)
    requires dirs != [] && FileAt(d, dirs, depth, lba, j, e)
    ensures ResolveFrom(d, dirs, depth, lba).Ok?
    ensures Find(TableAt(d, lba), NameBytes(dirs[0])) < 8
    ensures FileAt(d, dirs[1..], depth + 1, TableAt(d, lba)[Find(TableAt(d, lba), NameBytes(dirs[0]))].startLba, j, e)
  {
    ResolveStep(d, dirs, depth, lba);
  }

  lemma {:induction false} EntryInScan(d: Disk, dirs: seq<Path>, depth: nat, lba: nat, r: nat, j: nat, e: DirEntry)
    requires Wf(d, lba, r) && lba !in Foot(d, lba, r) && depth + r == MAX_DEPTH
    requires FileAt(d, dirs, depth, lba, j, e) && e.sectorCount > 0
    ensures Listed(Collect(d, lba, depth), Range(e.startLba, e.sectorCount))
    decreases |dirs|
  {
    hide Wf, Foot, ResolveFrom, Collect, Listed, TableAt, Find, FileAt;
    if dirs == [] {
      FileHere(d, depth, lba, r, j, e);
    } else {
      FileBelow(d, dirs, depth, lba, j, e);
      ResolveStep(d, dirs, depth, lba);
      var i := Find(TableAt(d, lba), NameBytes(dirs[0]));
      var c := TableAt(d, lba)[i].startLba;
      ChildDir(d, lba, r, i);
      EntryInScan(d, dirs[1..], depth + 1, c, r - 1, j, e);
      ChildInScan(d, lba, depth, i, Range(e.startLba, e.sectorCount));
    }
  }

  /** The occupied list with nothing excluded. */
  lemma OccupiedAll(d: Disk)
    requires WfDisk(d)
    ensures Scans(Occupied(d, None), Foot(d, DIR_LBA, MAX_DEPTH))
  {
    CollectCovers(d, DIR_LBA, MAX_DEPTH);
  }

  lemma {:induction false} NotListed(rs: seq<Range>, x: Range)
    requires Separate(rs) && x.count == 0
    ensures IndexOf(rs, x) == |rs|
  {
    if rs != [] {
      NotListed(rs[1..], x);
    }
  }

  lemma Exclude(rs: seq<Range>, foot: set<nat>, x: Range)
    requires Scans(rs, foot)
    requires x.count > 0 ==> Listed(rs, x)
    ensures Scans(Without(rs, x), foot - SpanSet(x.start, x.count))
  {
    hide Covered, Separate;
    if x.count > 0 {
      DropRange(rs, x);
    } else {
      NotListed(rs, x);
    }
  }

  /** Rewriting a file excludes exactly that file's own sectors. */
  lemma OccupiedExcept(d: Disk, dirs: seq<Path>, j: nat, e: DirEntry)
    requires WfDisk(d) && FileAt(d, dirs, 0, DIR_LBA, j, e)
    ensures Scans(Occupied(d, OldSpan(e)), Foot(d, DIR_LBA, MAX_DEPTH) - SpanSet(e.startLba, e.sectorCount))
  {
    hide Foot, Wf, Collect, Without, Scans, ResolveFrom, TableAt;
    CollectCovers(d, DIR_LBA, MAX_DEPTH);
    RootApart(d);
    if e.sectorCount > 0 {
      EntryInScan(d, dirs, 0, DIR_LBA, MAX_DEPTH, j, e);
    }
    Exclude(Collect(d, DIR_LBA, 0), Foot(d, DIR_LBA, MAX_DEPTH), Range(e.startLba, e.sectorCount));
  }
}
