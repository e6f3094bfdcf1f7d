/** The physical frame allocator (kernel/src/memory.rs). */
module Frames {
  import opened Common

  const PAGE_SIZE := 4096

  datatype Region = Region(start: nat, end: nat, usable: bool)

  /** The frame that contains an address. */
  function FrameOf(addr: nat): nat {
    addr - addr % PAGE_SIZE
  }

  /** Frames of the addresses `from`, `from + 4096`, ... below `end`. */
  function FramesFrom(from: nat, end: nat): seq<nat>
    decreases if from < end then end - from else 0
  {
    if from >= end then [] else [FrameOf(from)] + FramesFrom(from + PAGE_SIZE, end)
  }

  /** Every usable frame of the memory map, in map order. */
  function UsableFrames(regions: seq<Region>): seq<nat> {
    if regions == [] then []
    else (if regions[0].usable then FramesFrom(regions[0].start, regions[0].end) else []) + UsableFrames(regions[1..])
  }

  predicate NoRepeats(fs: seq<nat>) {
    forall i, j :: 0 <= i < j < |fs| ==> fs[i] != fs[j]
  }

  // ---- When a frame comes twice ----

  function FramesOf(r: Region): seq<nat> {
    FramesFrom(r.start, r.end)
  }

  /** How many addresses `start`, `start + 4096`, ... lie below the region's end. */
  function Count(r: Region): nat {
    if r.start >= r.end then 0 else (r.end - r.start + (PAGE_SIZE - 1)) / PAGE_SIZE
  }

  /** The pages two regions step through do not meet. */
  predicate PagesApart(a: Region, b: Region) {
    || Count(a) == 0 || Count(b) == 0
    || FrameOf(a.start) + PAGE_SIZE * Count(a) <= FrameOf(b.start)
    || FrameOf(b.start) + PAGE_SIZE * Count(b) <= FrameOf(a.start)
  }

  predicate AllApart(regions: seq<Region>) {
    forall i, j :: 0 <= i < j < |regions| && regions[i].usable && regions[j].usable ==> PagesApart(regions[i], regions[j])
  }

  /** A region gives consecutive frames, from the one that contains its start. */
  lemma {:induction false} FramesAt(r: Region)
    ensures |FramesOf(r)| == Count(r)
    ensures forall k :: 0 <= k < |FramesOf(r)| ==> FramesOf(r)[k] == FrameOf(r.start) + PAGE_SIZE * k
    decreases Count(r)
  {
    if r.start < r.end {
      var next := r.(start := r.start + PAGE_SIZE);
      assert Count(r) == 1 + Count(next);
      assert FrameOf(next.start) == FrameOf(r.start) + PAGE_SIZE;
      FramesAt(next);
      assert FramesOf(r) == [FrameOf(r.start)] + FramesOf(next);
    }
  }

  lemma RegionDistinct(r: Region)
    ensures NoRepeats(FramesOf(r))
  {
    hide FramesOf, FrameOf, Count;
    FramesAt(r);
  }

  lemma ApartMeans(a: Region, b: Region, f: nat)
    requires PagesApart(a, b) && f in FramesOf(a)
    ensures f !in FramesOf(b)
  {
    hide FramesOf, FrameOf, Count;
    FramesAt(a);
    FramesAt(b);
  }

  /** Two regions that are not apart both give the later of their first frames. */
  lemma MeetingFrame(a: Region, b: Region) returns (f: nat)
    requires !PagesApart(a, b)
    ensures f in FramesOf(a) && f in FramesOf(b)
  {
    hide FramesOf, Count;
    FramesAt(a);
    FramesAt(b);
    var x, y := a.start / PAGE_SIZE, b.start / PAGE_SIZE;
    assert FrameOf(a.start) == PAGE_SIZE * x && FrameOf(b.start) == PAGE_SIZE * y;
    if x <= y {
      f := FrameOf(b.start);
      assert FramesOf(a)[y - x] == f && FramesOf(b)[0] == f;
    } else {
      f := FrameOf(a.start);
      assert FramesOf(b)[x - y] == f && FramesOf(a)[0] == f;
    }
  }

  /** The usable frames are those of the usable regions. */
  lemma {:induction false} UsableFrom(regions: seq<Region>, f: nat)
    ensures f in UsableFrames(regions) <==> exists i :: 0 <= i < |regions| && regions[i].usable && f in FramesOf(regions[i])
  {
    if regions != [] {
      var rest := regions[1..];
      UsableFrom(rest, f);
      if i :| 0 <= i < |rest| && rest[i].usable && f in FramesOf(rest[i]) {
        assert regions[i + 1] == rest[i];
      }
      if i :| 0 <= i < |regions| && regions[i].usable && f in FramesOf(regions[i]) {
        assert i > 0 ==> rest[i - 1] == regions[i];
      }
    }
  }

  lemma ConcatDistinctIff(a: seq<nat>, b: seq<nat>)
    ensures NoRepeats(a + b) <==> NoRepeats(a) && NoRepeats(b) && forall x :: x in a ==> x !in b
  {
    var c := a + b;
    assert forall i :: 0 <= i < |a| ==> c[i] == a[i];
    assert forall j :: 0 <= j < |b| ==> c[|a| + j] == b[j];
    if NoRepeats(c) {
      forall x | x in a ensures x !in b {
        var i :| 0 <= i < |a| && a[i] == x;
        forall j | 0 <= j < |b| ensures b[j] != x {
          assert c[i] != c[|a| + j];
        }
      }
      forall i, j | 0 <= i < j < |b| ensures b[i] != b[j] {
        assert c[|a| + i] != c[|a| + j];
      }
    } else {
      var i, j :| 0 <= i < j < |c| && c[i] == c[j];
      if j < |a| {
        assert a[i] == a[j];
      } else if i >= |a| {
        assert b[i - |a|] == b[j - |a|];
      } else {
        assert a[i] in a && a[i] == b[j - |a|] && a[i] in b;
      }
    }
  }

  /** No later usable region meets `r`. */
  predicate ApartFrom(r: Region, rest: seq<Region>) {
    forall j :: 0 <= j < |rest| && rest[j].usable ==> PagesApart(r, rest[j])
  }

  lemma AllApartCons(r: Region, rest: seq<Region>)
    ensures AllApart([r] + rest) <==> AllApart(rest) && (r.usable ==> ApartFrom(r, rest))
  {
    hide PagesApart;
    var all := [r] + rest;
    assert forall j :: 0 <= j < |rest| ==> all[j + 1] == rest[j];
    if AllApart(all) {
      forall i, j | 0 <= i < j < |rest| && rest[i].usable && rest[j].usable ensures PagesApart(rest[i], rest[j]) {
        assert PagesApart(all[i + 1], all[j + 1]);
      }
      forall j | 0 <= j < |rest| && r.usable && rest[j].usable ensures PagesApart(r, rest[j]) {
        assert PagesApart(all[0], all[j + 1]);
      }
    }
    if AllApart(rest) && (r.usable ==> ApartFrom(r, rest)) {
      forall i, j | 0 <= i < j < |all| && all[i].usable && all[j].usable ensures PagesApart(all[i], all[j]) {
        assert all[j] == rest[j - 1] && (i > 0 ==> all[i] == rest[i - 1]);
      }
    }
  }

  lemma ApartFromIff(r: Region, rest: seq<Region>)
    ensures ApartFrom(r, rest) <==> forall x :: x in FramesOf(r) ==> x !in UsableFrames(rest)
  {
    hide FramesOf, PagesApart, UsableFrames;
    if ApartFrom(r, rest) {
      forall x | x in FramesOf(r) ensures x !in UsableFrames(rest) {
        UsableFrom(rest, x);
        forall i | 0 <= i < |rest| && rest[i].usable ensures x !in FramesOf(rest[i]) {
          ApartMeans(r, rest[i], x);
        }
      }
    } else {
      var j :| 0 <= j < |rest| && rest[j].usable && !PagesApart(r, rest[j]);
      var f := MeetingFrame(r, rest[j]);
      UsableFrom(rest, f);
    }
  }

  /** No frame comes twice, so the bump allocator never returns one frame twice, exactly when no two
      usable regions step through a common page. */
  lemma {:induction false} UsableDistinctIff(regions: seq<Region>)
    ensures NoRepeats(UsableFrames(regions)) <==> AllApart(regions)
  {
    hide FramesOf, PagesApart, NoRepeats, ApartFrom, AllApart;
    if regions == [] {
      NoRegions();
    } else {
      var r, rest := regions[0], regions[1..];
      assert regions == [r] + rest;
      AllApartCons(r, rest);
      UsableDistinctIff(rest);
      UsableCons(r, rest);
      RegionDistinct(r);
      ConcatDistinctIff(FramesOf(r), UsableFrames(rest));
      ApartFromIff(r, rest);
    }
  }

  lemma UsableCons(r: Region, rest: seq<Region>)
    ensures UsableFrames([r] + rest) == if r.usable then FramesOf(r) + UsableFrames(rest) else UsableFrames(rest)
  {
    assert ([r] + rest)[1..] == rest;
  }

  lemma NoRegions()
    ensures NoRepeats(UsableFrames([])) && AllApart([])
  {
  }

  predicate Disjoint(a: Region, b: Region) {
    a.end <= b.start || b.end <= a.start
  }

  /** Usable regions start on a page boundary and do not overlap. */
  predicate MapOk(regions: seq<Region>) {
    && (forall i :: 0 <= i < |regions| && regions[i].usable ==> regions[i].start % PAGE_SIZE == 0)
    && (forall i, j :: 0 <= i < j < |regions| && regions[i].usable && regions[j].usable ==> Disjoint(regions[i], regions[j]))
  }

  /** Disjoint, page-aligned usable regions give no frame twice. */
  lemma UsableDistinct(regions: seq<Region>)
    requires MapOk(regions)
    ensures NoRepeats(UsableFrames(regions))
  {
    UsableDistinctIff(regions);
    forall i, j | 0 <= i < j < |regions| && regions[i].usable && regions[j].usable
      ensures PagesApart(regions[i], regions[j])
    {
      AlignedApart(regions[i], regions[j]);
    }
  }

  lemma AlignedApart(a: Region, b: Region)
    requires Disjoint(a, b) && a.start % PAGE_SIZE == 0 && b.start % PAGE_SIZE == 0
    ensures PagesApart(a, b)
  {
  }

  /** Disjoint is not enough: regions that meet inside a page give that page's frame twice. */
  lemma UnalignedRepeats()
    ensures var m := [Region(0x1000, 0x1800, true), Region(0x1800, 0x2000, true)];
            Disjoint(m[0], m[1]) && UsableFrames(m) == [0x1000, 0x1000]
  {
    var m := [Region(0x1000, 0x1800, true), Region(0x1800, 0x2000, true)];
    assert FramesFrom(0x1000, 0x1800) == [0x1000] + FramesFrom(0x2000, 0x1800);
    assert FramesFrom(0x1800, 0x2000) == [0x1000] + FramesFrom(0x2800, 0x2000);
    assert UsableFrames(m[1..]) == [0x1000] + UsableFrames(m[1..][1..]);
  }

  class FrameAllocator {
    const regions: seq<Region>
    var next: nat

    constructor (regions: seq<Region>)
      ensures this.regions == regions && next == 0
    {
      this.regions := regions;
      next := 0;
    }

    /** The next usable frame, if any is left. On a map whose usable regions are apart it was never
        returned before and never is again. */
    method Allocate() returns (frame: Option<nat>)
      modifies this
      ensures next == old(next) + 1
      ensures frame == if old(next) < |UsableFrames(regions)| then Some(UsableFrames(regions)[old(next)]) else None
      ensures AllApart(regions) && frame.Some? ==>
                forall k :: 0 <= k < |UsableFrames(regions)| && k != old(next) ==> UsableFrames(regions)[k] != frame.value
    {
      UsableDistinctIff(regions);
      var usable := UsableFrames(regions);
      frame := if next < |usable| then Some(usable[next]) else None;
      next := next + 1;
    }
  }
}
