/** What the loaders accept and which pages a program gets, stated on addresses alone. */
module LoadLaws {
  import opened Common
  import opened Elf
  import opened AddressSpaces

  /** The part of the address space that is the process's own: PML4 slot 170. */
  const SLOT_START := 0x5500_0000_0000
  const SLOT_END := 0x5580_0000_0000

  lemma SlotIs(va: nat)
    ensures Canonical(va) && SlotOf(va) == USER_SLOT && va < TWO_64 ==> SLOT_START <= va < SLOT_END
    ensures SLOT_START <= va < SLOT_END ==> Canonical(va) && SlotOf(va) == USER_SLOT
  {
    SlotNumber(va);
  }

  lemma SlotNumber(va: nat)
    ensures va < 0x8000_0000_0000 ==> va / 0x80_0000_0000 < 256 && SlotOf(va) == va / 0x80_0000_0000
    ensures TWO_64 - 0x8000_0000_0000 <= va < TWO_64 ==> SlotOf(va) >= 256
    ensures va / 0x80_0000_0000 == 170 <==> SLOT_START <= va < SLOT_END
  {
    DivBounds(va, 0x80_0000_0000);
  }

  /** Addresses past the last 64-bit one, which a segment near it can reach, are in slot 0. */
  lemma PastTheEnd(va: nat)
    requires TWO_64 <= va < TWO_64 + 0x10_0000
    ensures SlotOf(va) == 0
  {
    DivIs(va, 0x80_0000_0000, 0x200_0000);
  }

  // ---- What is checked ----

  /** A segment that may be loaded: page-aligned, not empty, at most four pages, and inside the slot. */
  predicate SegmentFits(s: Segment) {
    && s.vaddr % 4096 == 0
    && 0 < s.memSize <= 4 * 4096
    && SLOT_START <= s.vaddr && s.vaddr + s.memSize <= SLOT_END
  }

  /** The first page count that covers `size` bytes. */
  predicate IsPageCount(size: nat, n: nat) {
    size <= n * 4096 && (n == 0 || (n - 1) * 4096 < size)
  }

  lemma PagesAre(s: Segment)
    ensures IsPageCount(s.memSize, PagesOf(s))
    ensures s.memSize == 0 <==> PagesOf(s) == 0
    ensures PagesOf(s) <= 4 <==> s.memSize <= 4 * 4096
  {
    DivBounds(s.memSize + 4095, 4096);
  }

  /** Total of the page counts of the first `k` segments. */
  function PageTotal(segments: seq<Segment>, k: nat): nat
    requires k <= |segments|
  {
    if k == 0 then 0 else PageTotal(segments, k - 1) + (segments[k - 1].memSize + 4095) / 4096
  }

  predicate Holds(s: Segment, entry: nat) {
    s.vaddr <= entry < s.vaddr + s.memSize
  }

  /** What a program must be to be loaded, before frames and overlaps are looked at. */
  predicate Loadable(entry: nat, segments: seq<Segment>) {
    && entry == 0x5555_5000_0000
    && 1 <= |segments| <= 8
    && (forall k :: 0 <= k < |segments| ==> SegmentFits(segments[k]))
    && (exists k :: 0 <= k < |segments| && Holds(segments[k], entry))
    && PageTotal(segments, |segments|) <= 16
  }

  /** Page `i` of the segment is where it may be. */
  predicate PageInSlot(s: Segment, i: nat) {
    SLOT_START <= s.vaddr + i * 4096 < SLOT_END
  }

  lemma OnePageChecked(s: Segment, i: nat)
    requires i <= 4
    ensures Canonical(s.vaddr + i * PAGE_SIZE) && SlotOf(s.vaddr + i * PAGE_SIZE) == USER_SLOT <==> PageInSlot(s, i)
  {
    hide Canonical, SlotOf;
    SlotIs(s.vaddr + i * PAGE_SIZE);
    if s.vaddr + i * PAGE_SIZE >= TWO_64 {
      PastTheEnd(s.vaddr + i * PAGE_SIZE);
    }
  }

  lemma {:induction false} PagesChecked(s: Segment, i: nat)
    requires i <= PagesOf(s) <= 4
    ensures PageError(s, i).None? <==> forall j: nat :: i <= j < PagesOf(s) ==> PageInSlot(s, j)
    decreases PagesOf(s) - i
  {
    hide PagesOf, Canonical, SlotOf, PageInSlot;
    if i < PagesOf(s) {
      PagesChecked(s, i + 1);
      OnePageChecked(s, i);
    }
  }

  lemma SegmentChecked(s: Segment)
    ensures CheckSegment(s).None? <==> SegmentFits(s)
  {
    hide PagesOf, PageError;
    PagesAre(s);
    if s.vaddr % 4096 == 0 && 0 < s.memSize <= 4 * 4096 {
      PagesChecked(s, 0);
      PagesInside(s);
    }
  }

  lemma PagesInside(s: Segment)
    requires s.vaddr % 4096 == 0 && 0 < s.memSize
    ensures (forall j: nat :: j < PagesOf(s) ==> PageInSlot(s, j)) <==> SLOT_START <= s.vaddr && s.vaddr + s.memSize <= SLOT_END
  {
    hide PagesOf;
    PagesAre(s);
    var n := PagesOf(s);
    if forall j: nat :: j < n ==> PageInSlot(s, j) {
      assert PageInSlot(s, 0) && PageInSlot(s, n - 1);
      LastPage(s.vaddr, n);
    }
  }

  /** A page that starts in the slot ends in it. */
  lemma LastPage(vaddr: nat, n: nat)
    requires vaddr % 4096 == 0 && n > 0 && vaddr + (n - 1) * 4096 < SLOT_END
    ensures vaddr + n * 4096 <= SLOT_END
  {
    var x := vaddr / 4096;
    assert vaddr == 4096 * x;
  }

  lemma {:induction false} AllChecked(segments: seq<Segment>, k: nat)
    requires k <= |segments|
    ensures CheckFrom(segments, k).None? <==> forall m :: k <= m < |segments| ==> SegmentFits(segments[m])
    decreases |segments| - k
  {
    hide CheckSegment, SegmentFits;
    if k < |segments| {
      AllChecked(segments, k + 1);
      SegmentChecked(segments[k]);
    }
  }

  lemma {:induction false} TotalIs(segments: seq<Segment>, k: nat)
    requires k <= |segments|
    ensures TotalPages(segments, k) == PageTotal(segments, k)
  {
    if k > 0 {
      TotalIs(segments, k - 1);
    }
  }

  lemma EntryHeld(segments: seq<Segment>)
    ensures SomeCovers(segments, USER_CODE) <==> exists k :: 0 <= k < |segments| && Holds(segments[k], USER_CODE)
  {
    if SomeCovers(segments, USER_CODE) {
      var k :| 0 <= k < |segments| && Covers(segments[k], USER_CODE);
      assert Holds(segments[k], USER_CODE);
    }
    if k :| 0 <= k < |segments| && Holds(segments[k], USER_CODE) {
      assert Covers(segments[k], USER_CODE);
    }
  }

  /** Exactly which programs pass the checks made before anything is mapped. */
  lemma ChecksIff(entry: nat, segments: seq<Segment>)
    ensures CheckLoad(entry, segments).None? <==> Loadable(entry, segments)
  {
    hide CheckFrom, SomeCovers, SegmentFits, Holds, TotalPages, PageTotal;
    AllChecked(segments, 0);
    TotalIs(segments, |segments|);
    EntryHeld(segments);
  }

  // ---- Which pages ----

  /** Page `va` belongs to segment `s`. */
  predicate SegmentHas(s: Segment, va: nat) {
    s.vaddr <= va < s.vaddr + s.memSize && va % 4096 == 0
  }

  predicate SomeHas(segments: seq<Segment>, va: nat) {
    exists k :: 0 <= k < |segments| && SegmentHas(segments[k], va)
  }

  predicate StackOrHeap(va: nat) {
    va == 0x5555_6000_0000 || (0x5555_7000_0000 <= va < 0x5555_7000_4000 && va % 4096 == 0)
  }

  predicate HasVa(jobs: seq<Job>, va: nat) {
    exists j :: j in jobs && j.va == va
  }

  lemma ConcatHas(a: seq<Job>, b: seq<Job>, va: nat)
    ensures HasVa(a + b, va) <==> HasVa(a, va) || HasVa(b, va)
  {
    assert forall j :: j in a + b <==> j in a || j in b;
  }

  lemma OneHas(job: Job, va: nat)
    ensures HasVa([job], va) <==> job.va == va
  {
    assert job in [job];
  }

  lemma NoneHas(va: nat)
    ensures !HasVa([], va)
  {
  }

  /** Job pages of a segment from page `i` on, as addresses. */
  lemma {:induction false} SegmentJobPages(image: Image, s: Segment, i: nat, va: nat)
    requires SegmentOk(image, s) && i <= PagesOf(s) && s.vaddr % 4096 == 0
    ensures HasVa(SegmentJobs(image, s, i), va) <==> SegmentHas(s, va) && s.vaddr + i * 4096 <= va
    decreases PagesOf(s) - i
  {
    hide SegmentPage, PagesOf, HasVa, SegmentHas;
    PagesAre(s);
    if i == PagesOf(s) {
      NoMorePages(s, i, va);
      NoneHas(va);
    } else {
      SegmentJobPages(image, s, i + 1, va);
      NextPage(s.vaddr, i, va);
      var first := Job(s.vaddr + i * PAGE_SIZE, Some(SegmentPage(image, s, i)));
      var rest := SegmentJobs(image, s, i + 1);
      assert SegmentJobs(image, s, i) == [first] + rest;
      ConcatHas([first], rest, va);
      OneHas(first, va);
      HasAligned(s, va);
      FirstPageHas(s, i);
    }
  }

  lemma HasAligned(s: Segment, va: nat)
    ensures SegmentHas(s, va) ==> va % 4096 == 0
  {
  }

  lemma NoMorePages(s: Segment, n: nat, va: nat)
    requires IsPageCount(s.memSize, n) && s.vaddr % 4096 == 0
    ensures !(SegmentHas(s, va) && s.vaddr + n * 4096 <= va)
  {
  }

  lemma NextPage(vaddr: nat, i: nat, va: nat)
    requires vaddr % 4096 == 0
    ensures va % 4096 == 0 && vaddr + i * 4096 <= va ==> va == vaddr + i * 4096 || vaddr + (i + 1) * 4096 <= va
  {
    if va % 4096 == 0 && vaddr + i * 4096 <= va {
      var x, y := vaddr / 4096, va / 4096;
      assert vaddr == 4096 * x && va == 4096 * y;
    }
  }

  lemma FirstPageHas(s: Segment, i: nat)
    requires s.vaddr % 4096 == 0 && i < PagesOf(s)
    ensures SegmentHas(s, s.vaddr + i * 4096)
  {
    PagesAre(s);
    PageMultiple(s.vaddr, i);
  }

  lemma PageMultiple(vaddr: nat, i: nat)
    requires vaddr % 4096 == 0
    ensures (vaddr + i * 4096) % 4096 == 0
  {
    DivBounds(vaddr, 4096);
    DivIs(vaddr + i * 4096, 4096, vaddr / 4096 + i);
  }

  lemma {:induction false} ImageJobPages(image: Image, segments: seq<Segment>, k: nat, va: nat)
    requires AllOk(image, segments) && k <= |segments|
    requires forall m :: k <= m < |segments| ==> SegmentFits(segments[m])
    ensures HasVa(ImageJobs(image, segments, k), va) <==> exists m :: k <= m < |segments| && SegmentHas(segments[m], va)
    decreases |segments| - k
  {
    hide SegmentHas, SegmentJobs, HasVa, SegmentFits;
    if k == |segments| {
      NoneHas(va);
    } else {
      ImageJobPages(image, segments, k + 1, va);
      FitsAligned(segments[k]);
      SegmentJobPages(image, segments[k], 0, va);
      FromStart(segments[k], va);
      ConcatHas(SegmentJobs(image, segments[k], 0), ImageJobs(image, segments, k + 1), va);
    }
  }

  lemma FitsAligned(s: Segment)
    requires SegmentFits(s)
    ensures s.vaddr % 4096 == 0
  {
  }

  lemma FromStart(s: Segment, va: nat)
    ensures SegmentHas(s, va) ==> s.vaddr + 0 * 4096 <= va
  {
  }

  /** A loaded program has exactly the pages of its segments, its stack page and its four heap pages. */
  lemma LoadedPages(count: nat, next: nat, ram: map<nat, Page>, entry: nat, segments: seq<Segment>, image: Image, va: nat)
    requires AllOk(image, segments) && LoadElf(count, next, ram, entry, segments, image).Done?
    ensures va in LoadElf(count, next, ram, entry, segments, image).b.pages <==> SomeHas(segments, va) || StackOrHeap(va)
  {
    hide LoadElf, AllOk, CheckLoad, ImageJobs, HeapJobs, SegmentHas, Whole, BuildOk, SegmentFits;
    LoadedShape(count, next, ram, entry, segments, image);
    PassedChecks(count, next, ram, entry, segments, image);
    ChecksIff(entry, segments);
    ImageJobPages(image, segments, 0, va);
    HeapPages();
    var jobs := AllJobs(image, segments);
    HeapVas(va);
    assert forall j :: j in jobs <==> j in ImageJobs(image, segments, 0) || j == StackJob() || j in HeapJobs(0);
  }

  lemma PassedChecks(count: nat, next: nat, ram: map<nat, Page>, entry: nat, segments: seq<Segment>, image: Image)
    requires AllOk(image, segments) && LoadElf(count, next, ram, entry, segments, image).Done?
    ensures CheckLoad(entry, segments).None?
  {
    hide CheckLoad, AllOk, AllJobs, RunJobs;
  }

  lemma HeapVas(va: nat)
    ensures (va == USER_STACK || HasVa(HeapJobs(0), va)) <==> StackOrHeap(va)
  {
    HeapPages();
    assert HeapJobs(0)[0].va == HEAP_START && HeapJobs(0)[1].va == HEAP_START + 4096;
    assert HeapJobs(0)[2].va == HEAP_START + 8192 && HeapJobs(0)[3].va == HEAP_START + 12288;
    if StackOrHeap(va) && va != USER_STACK {
      HeapPage(va);
    }
  }

  lemma HeapPage(va: nat)
    requires 0x5555_7000_0000 <= va < 0x5555_7000_4000 && va % 4096 == 0
    ensures va == HEAP_START || va == HEAP_START + 4096 || va == HEAP_START + 8192 || va == HEAP_START + 12288
  {
    var y := va / 4096;
    assert va == 4096 * y;
  }

  /** Every page of a loaded program lies in the process's own PML4 slot. */
  lemma LoadedInSlot(count: nat, next: nat, ram: map<nat, Page>, entry: nat, segments: seq<Segment>, image: Image, va: nat)
    requires AllOk(image, segments) && LoadElf(count, next, ram, entry, segments, image).Done?
    requires va in LoadElf(count, next, ram, entry, segments, image).b.pages
    ensures (va / 0x80_0000_0000) % 512 == 170 && va % 4096 == 0
  {
    hide LoadElf, AllOk, CheckLoad, TotalPages;
    LoadedPages(count, next, ram, entry, segments, image, va);
    PassedChecks(count, next, ram, entry, segments, image);
    ChecksIff(entry, segments);
    if SomeHas(segments, va) {
      var k :| 0 <= k < |segments| && SegmentHas(segments[k], va);
      assert SegmentFits(segments[k]);
    }
    SlotIs(va);
  }

  // ---- Which programs load ----

  /** Where a segment's last page ends. */
  function PagesEnd(s: Segment): nat {
    s.vaddr + (s.memSize + 4095) / 4096 * 4096
  }

  predicate Apart(start: nat, end: nat, start2: nat, end2: nat) {
    end <= start2 || end2 <= start
  }

  /** No page belongs to two segments, and none to a segment and the stack or heap. */
  predicate PagesApart(segments: seq<Segment>, k: nat) {
    forall i, m :: k <= i < m < |segments| ==> Apart(segments[i].vaddr, PagesEnd(segments[i]), segments[m].vaddr, PagesEnd(segments[m]))
  }

  predicate ClearOfStackAndHeap(segments: seq<Segment>) {
    forall k :: 0 <= k < |segments| ==>
      && Apart(segments[k].vaddr, PagesEnd(segments[k]), 0x5555_6000_0000, 0x5555_6000_1000)
      && Apart(segments[k].vaddr, PagesEnd(segments[k]), 0x5555_7000_0000, 0x5555_7000_4000)
  }

  lemma HasMeans(s: Segment, va: nat)
    requires SegmentFits(s)
    ensures SegmentHas(s, va) <==> s.vaddr <= va < PagesEnd(s) && va % 4096 == 0
    ensures PagesEnd(s) % 4096 == 0 && s.vaddr % 4096 == 0 && s.vaddr < PagesEnd(s)
  {
    var x, n := s.vaddr / 4096, (s.memSize + 4095) / 4096;
    DivBounds(s.memSize + 4095, 4096);
    assert s.vaddr == 4096 * x && PagesEnd(s) == 4096 * (x + n);
    PageMultiple(s.vaddr, n);
    if va % 4096 == 0 {
      var y := va / 4096;
      assert va == 4096 * y;
    }
  }

  /** The later of the two starts is a page of both, if they overlap. */
  lemma SharedPage(s: Segment, t: Segment) returns (va: nat)
    requires SegmentFits(s) && SegmentFits(t)
    requires !Apart(s.vaddr, PagesEnd(s), t.vaddr, PagesEnd(t))
    ensures SegmentHas(s, va) && SegmentHas(t, va)
  {
    hide SegmentHas, PagesEnd;
    va := if s.vaddr <= t.vaddr then t.vaddr else s.vaddr;
    HasMeans(s, va);
    HasMeans(t, va);
  }

  lemma DistinctConcat(a: seq<Job>, b: seq<Job>)
    ensures DistinctPages(a + b) <==> DistinctPages(a) && DistinctPages(b) && forall x, y :: x in a && y in b ==> x.va != y.va
  {
    var c := a + b;
    assert forall i :: 0 <= i < |a| ==> c[i] == a[i];
    assert forall j :: 0 <= j < |b| ==> c[|a| + j] == b[j];
    if DistinctPages(c) {
      forall x, y | x in a && y in b ensures x.va != y.va {
        var i :| 0 <= i < |a| && a[i] == x;
        var j :| 0 <= j < |b| && b[j] == y;
        assert c[i].va != c[|a| + j].va;
      }
      forall i, j | 0 <= i < j < |b| ensures b[i].va != b[j].va {
        assert c[|a| + i].va != c[|a| + j].va;
      }
      forall i, j | 0 <= i < j < |a| ensures a[i].va != a[j].va {
        assert c[i].va != c[j].va;
      }
    }
    if DistinctPages(a) && DistinctPages(b) && forall x, y :: x in a && y in b ==> x.va != y.va {
      forall i, j | 0 <= i < j < |c| ensures c[i].va != c[j].va {
        if i < |a| <= j {
          assert a[i] in a && b[j - |a|] in b;
        } else if |a| <= i {
          assert b[i - |a|].va != b[j - |a|].va;
        }
      }
    }
  }

  lemma {:induction false} SegmentDistinct(image: Image, s: Segment, i: nat)
    requires SegmentOk(image, s) && i <= PagesOf(s) && s.vaddr % 4096 == 0
    ensures DistinctPages(SegmentJobs(image, s, i))
    decreases PagesOf(s) - i
  {
    hide SegmentPage, PagesOf, SegmentHas;
    if i < PagesOf(s) {
      SegmentDistinct(image, s, i + 1);
      var first, rest := Job(s.vaddr + i * PAGE_SIZE, Some(SegmentPage(image, s, i))), SegmentJobs(image, s, i + 1);
      assert SegmentJobs(image, s, i) == [first] + rest;
      forall y | y in rest ensures y.va != first.va {
        SegmentJobPages(image, s, i + 1, y.va);
      }
      DistinctConcat([first], rest);
    }
  }

  lemma {:induction false} ImageDistinctIff(image: Image, segments: seq<Segment>, k: nat)
    requires AllOk(image, segments) && k <= |segments|
    requires forall m :: 0 <= m < |segments| ==> SegmentFits(segments[m])
    ensures DistinctPages(ImageJobs(image, segments, k)) <==> PagesApart(segments, k)
    decreases |segments| - k
  {
    hide SegmentHas, SegmentJobs, PagesEnd, SegmentFits, Apart, DistinctPages;
    if k < |segments| {
      var s := segments[k];
      FitsAligned(s);
      ImageDistinctIff(image, segments, k + 1);
      SegmentDistinct(image, s, 0);
      DistinctConcat(SegmentJobs(image, s, 0), ImageJobs(image, segments, k + 1));
      OneAgainstRest(image, segments, k);
    } else {
      NoneDistinct();
    }
  }

  lemma NoneDistinct()
    ensures DistinctPages([])
  {
  }

  /** Segment `k` shares a page with no later one exactly when their page ranges are apart. */
  lemma OneAgainstRest(image: Image, segments: seq<Segment>, k: nat)
    requires AllOk(image, segments) && k < |segments|
    requires forall m :: 0 <= m < |segments| ==> SegmentFits(segments[m])
    ensures (forall x, y :: x in SegmentJobs(image, segments[k], 0) && y in ImageJobs(image, segments, k + 1) ==> x.va != y.va)
            <==> forall m :: k < m < |segments| ==> Apart(segments[k].vaddr, PagesEnd(segments[k]), segments[m].vaddr, PagesEnd(segments[m]))
  {
    hide SegmentHas, SegmentJobs, ImageJobs, PagesEnd, SegmentFits, Apart;
    var s := segments[k];
    FitsAligned(s);
    var a, b := SegmentJobs(image, s, 0), ImageJobs(image, segments, k + 1);
    if x, y :| x in a && y in b && x.va == y.va {
      SegmentJobPages(image, s, 0, x.va);
      ImageJobPages(image, segments, k + 1, x.va);
      var m :| k + 1 <= m < |segments| && SegmentHas(segments[m], x.va);
      SharedMeansMeet(s, segments[m], x.va);
    }
    if m :| k < m < |segments| && !Apart(s.vaddr, PagesEnd(s), segments[m].vaddr, PagesEnd(segments[m])) {
      var va := SharedPage(s, segments[m]);
      FromStart(s, va);
      SegmentJobPages(image, s, 0, va);
      ImageJobPages(image, segments, k + 1, va);
    }
  }

  lemma SharedMeansMeet(s: Segment, t: Segment, va: nat)
    requires SegmentFits(s) && SegmentFits(t) && SegmentHas(s, va) && SegmentHas(t, va)
    ensures !Apart(s.vaddr, PagesEnd(s), t.vaddr, PagesEnd(t))
  {
    HasMeans(s, va);
    HasMeans(t, va);
  }

  lemma StackHeapShared(s: Segment)
    requires SegmentFits(s)
    ensures (exists va: nat :: SegmentHas(s, va) && StackOrHeap(va))
            <==> !(Apart(s.vaddr, PagesEnd(s), 0x5555_6000_0000, 0x5555_6000_1000)
                   && Apart(s.vaddr, PagesEnd(s), 0x5555_7000_0000, 0x5555_7000_4000))
  {
    hide SegmentHas, PagesEnd;
    if va: nat :| SegmentHas(s, va) && StackOrHeap(va) {
      HasMeans(s, va);
    }
    if !Apart(s.vaddr, PagesEnd(s), 0x5555_6000_0000, 0x5555_6000_1000) {
      HasMeans(s, 0x5555_6000_0000);
      InOnePage(s, 0x5555_6000_0000);
      assert StackOrHeap(0x5555_6000_0000);
    } else if !Apart(s.vaddr, PagesEnd(s), 0x5555_7000_0000, 0x5555_7000_4000) {
      var va: nat := if s.vaddr <= 0x5555_7000_0000 then 0x5555_7000_0000 else s.vaddr;
      HasMeans(s, va);
      assert StackOrHeap(va);
    }
  }

  /** A segment that reaches into a page from both sides has it. */
  lemma InOnePage(s: Segment, page: nat)
    requires SegmentFits(s) && page % 4096 == 0 && s.vaddr < page + 4096 && page < PagesEnd(s)
    ensures s.vaddr <= page
  {
    var x, y := s.vaddr / 4096, page / 4096;
    assert s.vaddr == 4096 * x && page == 4096 * y;
  }

  lemma TailDistinct()
    ensures DistinctPages([StackJob()] + HeapJobs(0))
    ensures forall j :: j in [StackJob()] + HeapJobs(0) ==> StackOrHeap(j.va)
  {
    HeapPages();
  }

  lemma AllDistinctIff(image: Image, segments: seq<Segment>)
    requires AllOk(image, segments) && forall m :: 0 <= m < |segments| ==> SegmentFits(segments[m])
    ensures DistinctPages(AllJobs(image, segments)) <==> PagesApart(segments, 0) && ClearOfStackAndHeap(segments)
  {
    hide SegmentHas, ImageJobs, HeapJobs, PagesEnd, SegmentFits, Apart, DistinctPages, StackOrHeap, PagesApart;
    var a, b := ImageJobs(image, segments, 0), [StackJob()] + HeapJobs(0);
    assert AllJobs(image, segments) == a + b;
    ImageDistinctIff(image, segments, 0);
    DistinctConcat(a, b);
    TailDistinct();
    if x, y :| x in a && y in b && x.va == y.va {
      ImageJobPages(image, segments, 0, x.va);
      var m :| 0 <= m < |segments| && SegmentHas(segments[m], x.va);
      StackHeapShared(segments[m]);
    }
    if !ClearOfStackAndHeap(segments) {
      var k :| 0 <= k < |segments| && !(Apart(segments[k].vaddr, PagesEnd(segments[k]), 0x5555_6000_0000, 0x5555_6000_1000)
                                       && Apart(segments[k].vaddr, PagesEnd(segments[k]), 0x5555_7000_0000, 0x5555_7000_4000));
      StackHeapShared(segments[k]);
      var va: nat :| SegmentHas(segments[k], va) && StackOrHeap(va);
      ImageJobPages(image, segments, 0, va);
      HeapVas(va);
      var x :| x in a && x.va == va;
      if va == USER_STACK {
        assert StackJob() in b && x.va == StackJob().va;
      } else {
        var y :| y in HeapJobs(0) && y.va == va;
        assert y in b;
      }
    }
  }

  // ---- How many frames ----

  /** The page tables the pages of these jobs need. */
  function TablesOf(jobs: seq<Job>): set<TableKey> {
    if jobs == [] then {} else TablesFor(jobs[0].va) + TablesOf(jobs[1..])
  }

  lemma {:induction false} DemandIs(tables: set<TableKey>, jobs: seq<Job>)
    ensures Demand(tables, jobs) == |jobs| + |TablesOf(jobs) - tables|
    decreases |jobs|
  {
    hide TablesFor;
    if jobs != [] {
      var mine, rest := TablesFor(jobs[0].va), TablesOf(jobs[1..]);
      DemandIs(tables + mine, jobs[1..]);
      assert (mine + rest) - tables == (mine - tables) + (rest - (tables + mine));
      SplitSize(mine - tables, rest - (tables + mine));
    }
  }

  lemma SplitSize(a: set<TableKey>, b: set<TableKey>)
    requires a !! b
    ensures |a + b| == |a| + |b|
  {
  }

  lemma JobCount(image: Image, segments: seq<Segment>)
    requires AllOk(image, segments)
    ensures |AllJobs(image, segments)| == PageTotal(segments, |segments|) + 5
  {
    hide ImageJobs, PageTotal, TotalPages, AllOk;
    CountedPages(image, segments);
    TotalIs(segments, |segments|);
    HeapPages();
  }

  /** Exactly which programs load: the checks on addresses and sizes, no page twice, and a frame for each page,
      for each page table they need, and for the PML4. */
  lemma ProgramLoadsIff(count: nat, next: nat, ram: map<nat, Page>, entry: nat, segments: seq<Segment>, image: Image)
    requires AllOk(image, segments)
    ensures LoadElf(count, next, ram, entry, segments, image).Done?
            <==> && Loadable(entry, segments)
                 && PagesApart(segments, 0) && ClearOfStackAndHeap(segments)
                 && next + 1 + PageTotal(segments, |segments|) + 5 + |TablesOf(AllJobs(image, segments))| <= count
  {
    hide LoadElf, AllOk, CheckLoad, AllJobs, TablesOf, DistinctPages, PagesApart, ClearOfStackAndHeap, SegmentFits, PageTotal, Demand;
    LoadsIff(count, next, ram, entry, segments, image);
    ChecksIff(entry, segments);
    if Loadable(entry, segments) {
      AllDistinctIff(image, segments);
      var jobs := AllJobs(image, segments);
      DemandIs({}, jobs);
      JobCount(image, segments);
      assert TablesOf(jobs) - {} == TablesOf(jobs);
    }
  }

  // ---- One-page programs ----

  /** A one-page program loads exactly when its image fits a page and twelve frames are left: PML4, code, stack,
      four heap pages and five page tables. */
  lemma FlatLoadsIff(count: nat, next: nat, ram: map<nat, Page>, image: seq<Byte>)
    ensures LoadFlat(count, next, ram, image).Done? <==> |image| <= 4096 && next + 12 <= count
    ensures LoadFlat(count, next, ram, image).Done? ==> LoadFlat(count, next, ram, image).b.next == next + 12
  {
    hide RunJobs, TablesFor, Padded, Demand, HeapJobs, FreshPages;
    var b0 := Build(next + 3, map[], {}, ram);
    CodeTables();
    if |image| <= PAGE_SIZE && next + 3 <= count && MapFrame(count, b0, USER_CODE, next + 1).Done? {
      var b1 := MapFrame(count, b0, USER_CODE, next + 1).b;
      assert b1.tables == TablesFor(USER_CODE);
      if MapFrame(count, b1, USER_STACK, next + 2).Done? {
        var b2 := MapFrame(count, b1, USER_STACK, next + 2).b;
        HeapFresh(b2.pages);
        JobsSucceedIff(count, b2, HeapJobs(0));
        DemandIs(b2.tables, HeapJobs(0));
        HeapTables();
        HeapPages();
      }
    }
  }

  lemma CodeTables()
    ensures MissingTables({}, USER_CODE) == 3
    ensures MissingTables(TablesFor(USER_CODE), USER_STACK) == 1
  {
    var a, b, c := TableKey(3, 170), TableKey(2, 0x15555), TableKey(1, 0x2AAAA80);
    var d := TableKey(1, 0x2AAAB00);
    assert TablesFor(USER_CODE) == {a, b, c} && TablesFor(USER_STACK) == {a, b, d};
    assert TablesFor(USER_CODE) - {} == {a, b, c};
    assert TablesFor(USER_STACK) - TablesFor(USER_CODE) == {d};
  }

  lemma HeapKeys()
    ensures var t := {TableKey(3, 170), TableKey(2, 0x15555), TableKey(1, 0x2AAAB80)};
            TablesFor(HEAP_START) == t && TablesFor(HEAP_START + 4096) == t && TablesFor(HEAP_START + 8192) == t
            && TablesFor(HEAP_START + 12288) == t
  {
  }

  lemma {:induction false} SameTables(jobs: seq<Job>, t: set<TableKey>)
    requires jobs != [] && forall i :: 0 <= i < |jobs| ==> TablesFor(jobs[i].va) == t
    ensures TablesOf(jobs) == t
    decreases |jobs|
  {
    hide TablesFor;
    if |jobs| > 1 {
      SameTables(jobs[1..], t);
    } else {
      assert jobs[1..] == [];
    }
  }

  lemma HeapTables()
    ensures |TablesOf(HeapJobs(0)) - (TablesFor(USER_CODE) + TablesFor(USER_STACK))| == 1
  {
    hide HeapJobs, TablesOf;
    HeapPages();
    HeapKeys();
    var t := {TableKey(3, 170), TableKey(2, 0x15555), TableKey(1, 0x2AAAB80)};
    SameTables(HeapJobs(0), t);
    assert t - (TablesFor(USER_CODE) + TablesFor(USER_STACK)) == {TableKey(1, 0x2AAAB80)};
  }

  // ---- Refusals ----

  /** The reason given for a refusal is one the program gives. */
  predicate ReasonHolds(entry: nat, segments: seq<Segment>, e: LoadError) {
    match e
    case EntryNotFixed => entry != 0x5555_5000_0000
    case NoSegmentsToMap => segments == []
    case TooManyToMap => |segments| > 8
    case EntryOutside => forall k :: 0 <= k < |segments| ==> !Holds(segments[k], entry)
    case Unaligned => exists k :: 0 <= k < |segments| && segments[k].vaddr % 4096 != 0
    case EmptySegment => exists k :: 0 <= k < |segments| && segments[k].memSize == 0
    case SegmentTooLarge => exists k :: 0 <= k < |segments| && segments[k].memSize > 4 * 4096
    case OutsideSlot => exists k :: 0 <= k < |segments| && PagesLeaveSlot(segments[k])
    case NonCanonical => exists k :: 0 <= k < |segments| && PagesLeaveSlot(segments[k])
    case TotalTooLarge => PageTotal(segments, |segments|) > 16
    case _ => false
  }

  /** Some page of the segment starts outside the slot. */
  predicate PagesLeaveSlot(s: Segment) {
    exists j :: 0 <= j < PagesOf(s) && !PageInSlot(s, j)
  }

  lemma {:induction false} PageReason(s: Segment, i: nat)
    requires i <= PagesOf(s) <= 4
    ensures PageError(s, i).Some? ==> PageError(s, i).value in {OutsideSlot, NonCanonical} && PagesLeaveSlot(s)
    decreases PagesOf(s) - i
  {
    hide PagesOf, Canonical, SlotOf, PageInSlot;
    if i < PagesOf(s) {
      OnePageChecked(s, i);
      PageReason(s, i + 1);
    }
  }

  lemma {:induction false} SegmentReason(segments: seq<Segment>, k: nat)
    requires k <= |segments|
    ensures CheckFrom(segments, k).Some? ==>
              match CheckFrom(segments, k).value
              case Unaligned => exists m :: 0 <= m < |segments| && segments[m].vaddr % 4096 != 0
              case EmptySegment => exists m :: 0 <= m < |segments| && segments[m].memSize == 0
              case SegmentTooLarge => exists m :: 0 <= m < |segments| && segments[m].memSize > 4 * 4096
              case OutsideSlot => exists m :: 0 <= m < |segments| && PagesLeaveSlot(segments[m])
              case NonCanonical => exists m :: 0 <= m < |segments| && PagesLeaveSlot(segments[m])
              case _ => false
    decreases |segments| - k
  {
    hide PagesOf, PageError, PagesLeaveSlot;
    if k < |segments| {
      SegmentReason(segments, k + 1);
      PagesAre(segments[k]);
      if PagesOf(segments[k]) <= 4 {
        PageReason(segments[k], 0);
      }
    }
  }

  /** Every refusal before mapping gives a reason the program gives. */
  lemma RefusalIsTrue(entry: nat, segments: seq<Segment>)
    ensures CheckLoad(entry, segments).Some? ==> ReasonHolds(entry, segments, CheckLoad(entry, segments).value)
  {
    hide CheckFrom, SomeCovers, Holds, TotalPages, PageTotal, PagesLeaveSlot;
    SegmentReason(segments, 0);
    TotalIs(segments, |segments|);
    EntryHeld(segments);
  }
}
