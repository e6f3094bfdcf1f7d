/** Building a process's private address space page by page: flat images and ELF files
    (kernel/src/process.rs). A frame is named by its position in the allocator's sequence. */
module AddressSpaces {
  import opened Common
  import opened Elf

  const PAGE_SIZE := 4096
  const USER_CODE := 0x5555_5000_0000
  const USER_STACK := 0x5555_6000_0000
  const HEAP_START := 0x5555_7000_0000
  const HEAP_PAGES := 4
  const HEAP_SIZE := 16384
  const USER_SLOT := 170
  const MAX_PAGES_PER_SEGMENT := 4
  const MAX_TOTAL_PAGES := 16

  type Page = s: seq<Byte> | |s| == 4096 witness Zeros(4096)

  const ZERO_PAGE: Page := Zeros(4096)

  /** A page table below the PML4: its level, and the part of the address space it covers. */
  datatype TableKey = TableKey(level: nat, index: nat)

  function TablesFor(va: nat): set<TableKey> {
    {TableKey(3, va / 0x80_0000_0000), TableKey(2, va / 0x4000_0000), TableKey(1, va / 0x20_0000)}
  }

  function MissingTables(tables: set<TableKey>, va: nat): nat {
    |TablesFor(va) - tables|
  }

  /** An address space under construction: next free frame, mapped pages, page tables, memory contents. */
  datatype Build = Build(next: nat, pages: map<nat, nat>, tables: set<TableKey>, ram: map<nat, Page>)

  datatype LoadError =
    | ImageTooLarge | EntryNotFixed | NoSegmentsToMap | TooManyToMap | EntryOutside | Unaligned | EmptySegment
    | SegmentTooLarge | OutsideSlot | NonCanonical | TotalTooLarge | OutOfFrames | MapFailed

  datatype Built = Done(b: Build) | Failed(next: nat, error: LoadError)

  /** map_to: an already mapped page fails, as does running out of frames for page tables. */
  function MapFrame(count: nat, b: Build, va: nat, frame: nat): Built {
    if va in b.pages then Failed(b.next, MapFailed)
    else if b.next + MissingTables(b.tables, va) > count then Failed(Exhausted(count, b.next), MapFailed)
    else Done(b.(next := b.next + MissingTables(b.tables, va), pages := b.pages[va := frame], tables := b.tables + TablesFor(va)))
  }

  /** Allocator position after asking until nothing is left. */
  function Exhausted(count: nat, next: nat): nat {
    if next < count then count + 1 else next + 1
  }

  /** One page to map, and what to put in it; `None` leaves the frame as it was. */
  datatype Job = Job(va: nat, fill: Option<Page>)

  function RunJob(count: nat, b: Build, job: Job): Built {
    if b.next >= count then Failed(b.next + 1, OutOfFrames)
    else
      match MapFrame(count, b.(next := b.next + 1), job.va, b.next)
      case Failed(next, e) => Failed(next, e)
      case Done(b1) => Done(if job.fill.Some? then b1.(ram := b1.ram[b.next := job.fill.value]) else b1)
  }

  function RunJobs(count: nat, b: Build, jobs: seq<Job>): Built
    decreases |jobs|
  {
    if jobs == [] then Done(b)
    else
      match RunJob(count, b, jobs[0])
      case Failed(next, e) => Failed(next, e)
      case Done(b1) => RunJobs(count, b1, jobs[1..])
  }

  // ---- What runs of jobs leave ----

  /** Mapped frames were all taken at or after `lo`, and no two pages share one. */
  ghost predicate BuildOk(b: Build, lo: nat) {
    && (forall va :: va in b.pages ==> lo <= b.pages[va] < b.next)
    && (forall u, v :: u in b.pages && v in b.pages && u != v ==> b.pages[u] != b.pages[v])
  }

  /** `b'` only adds to `b`: pages and frames of `b` are as they were. */
  ghost predicate Extends(b: Build, b': Build) {
    && b.next <= b'.next
    && (forall va :: va in b.pages ==> va in b'.pages && b'.pages[va] == b.pages[va])
    && (forall va :: va in b'.pages && va !in b.pages ==> b'.pages[va] >= b.next)
    && (forall f :: f < b.next ==> (f in b'.ram <==> f in b.ram) && (f in b.ram ==> b'.ram[f] == b.ram[f]))
  }

  /** Job `j` was carried out. */
  ghost predicate Carried(b: Build, job: Job) {
    job.va in b.pages && (job.fill.Some? ==> b.pages[job.va] in b.ram && b.ram[b.pages[job.va]] == job.fill.value)
  }

  lemma JobDone(count: nat, b: Build, job: Job)
    requires RunJob(count, b, job).Done?
    ensures var b1 := RunJob(count, b, job).b;
            && job.va !in b.pages && b1.pages == b.pages[job.va := b.next] && b.next < b1.next <= count
            && b1.ram == if job.fill.Some? then b.ram[b.next := job.fill.value] else b.ram
  {
    hide TablesFor;
  }

  lemma OneJob(count: nat, b: Build, job: Job, lo: nat)
    requires BuildOk(b, lo) && lo <= b.next && RunJob(count, b, job).Done?
    ensures var b1 := RunJob(count, b, job).b;
            && BuildOk(b1, lo) && Extends(b, b1) && Carried(b1, job) && b.next < b1.next <= count
            && job.va !in b.pages && b1.pages.Keys == b.pages.Keys + {job.va}
  {
    hide RunJob;
    JobDone(count, b, job);
  }

  lemma ExtendsTrans(a: Build, b: Build, c: Build)
    requires Extends(a, b) && Extends(b, c)
    ensures Extends(a, c)
  {
  }

  lemma CarriedOn(b: Build, b': Build, job: Job, lo: nat)
    requires Carried(b, job) && Extends(b, b') && BuildOk(b, lo)
    ensures Carried(b', job)
  {
  }

  function JobPages(jobs: seq<Job>): set<nat> {
    set j | j in jobs :: j.va
  }

  predicate DistinctPages(jobs: seq<Job>) {
    forall i, j :: 0 <= i < j < |jobs| ==> jobs[i].va != jobs[j].va
  }

  /** What a completed run of jobs gives. */
  ghost predicate Finished(b: Build, b': Build, jobs: seq<Job>, lo: nat) {
    && BuildOk(b', lo) && Extends(b, b')
    && b'.pages.Keys == b.pages.Keys + JobPages(jobs)
    && (forall i :: 0 <= i < |jobs| ==> Carried(b', jobs[i]))
  }

  lemma FinishedCons(b: Build, b1: Build, b2: Build, jobs: seq<Job>, lo: nat)
    requires jobs != [] && BuildOk(b1, lo) && Extends(b, b1) && Carried(b1, jobs[0])
    requires b1.pages.Keys == b.pages.Keys + {jobs[0].va} && Finished(b1, b2, jobs[1..], lo)
    ensures Finished(b, b2, jobs, lo)
  {
    hide BuildOk, Extends, Carried;
    ExtendsTrans(b, b1, b2);
    CarriedOn(b1, b2, jobs[0], lo);
    forall i | 0 <= i < |jobs| ensures Carried(b2, jobs[i]) {
      assert i > 0 ==> jobs[1..][i - 1] == jobs[i];
    }
    assert JobPages(jobs) == {jobs[0].va} + JobPages(jobs[1..]) by { JobPagesCons(jobs); }
  }

  lemma JobPagesCons(jobs: seq<Job>)
    requires jobs != []
    ensures JobPages(jobs) == {jobs[0].va} + JobPages(jobs[1..])
  {
    assert jobs == [jobs[0]] + jobs[1..];
  }

  lemma {:induction false} JobsFinish(count: nat, b: Build, jobs: seq<Job>, lo: nat)
    requires BuildOk(b, lo) && lo <= b.next && RunJobs(count, b, jobs).Done?
    ensures Finished(b, RunJobs(count, b, jobs).b, jobs, lo)
    decreases |jobs|
  {
    hide BuildOk, Extends, Carried, RunJob, JobPages;
    if jobs == [] {
      ExtendsSelf(b);
    } else {
      OneJob(count, b, jobs[0], lo);
      var b1 := RunJob(count, b, jobs[0]).b;
      JobsFinish(count, b1, jobs[1..], lo);
      FinishedCons(b, b1, RunJobs(count, b1, jobs[1..]).b, jobs, lo);
    }
  }

  lemma ExtendsSelf(b: Build)
    ensures Extends(b, b) && JobPages([]) == {}
  {
  }

  /** Frames a list of jobs takes: one each, and the page tables not yet there. */
  function Demand(tables: set<TableKey>, jobs: seq<Job>): nat
    decreases |jobs|
  {
    if jobs == [] then 0
    else 1 + MissingTables(tables, jobs[0].va) + Demand(tables + TablesFor(jobs[0].va), jobs[1..])
  }

  predicate FreshPages(pages: map<nat, nat>, jobs: seq<Job>) {
    DistinctPages(jobs) && forall i :: 0 <= i < |jobs| ==> jobs[i].va !in pages
  }

  lemma FreshCons(pages: map<nat, nat>, jobs: seq<Job>, f: nat)
    requires jobs != []
    ensures FreshPages(pages, jobs) <==> jobs[0].va !in pages && FreshPages(pages[jobs[0].va := f], jobs[1..])
  {
    var rest, pages1 := jobs[1..], pages[jobs[0].va := f];
    if FreshPages(pages, jobs) {
      forall i | 0 <= i < |rest| ensures rest[i].va !in pages1 {
        assert rest[i] == jobs[i + 1] && jobs[0].va != jobs[i + 1].va;
      }
      forall i, j | 0 <= i < j < |rest| ensures rest[i].va != rest[j].va {
        assert rest[i] == jobs[i + 1] && rest[j] == jobs[j + 1];
      }
    }
    if jobs[0].va !in pages && FreshPages(pages1, rest) {
      forall i | 0 <= i < |jobs| ensures jobs[i].va !in pages {
        assert i > 0 ==> jobs[i] == rest[i - 1];
      }
      forall i, j | 0 <= i < j < |jobs| ensures jobs[i].va != jobs[j].va {
        assert jobs[j] == rest[j - 1] && (i > 0 ==> jobs[i] == rest[i - 1]);
      }
    }
  }

  /** Jobs succeed exactly when no page is mapped twice and enough frames are left. */
  lemma {:induction false} JobsSucceedIff(count: nat, b: Build, jobs: seq<Job>)
    requires b.next <= count
    ensures RunJobs(count, b, jobs).Done? <==> FreshPages(b.pages, jobs) && b.next + Demand(b.tables, jobs) <= count
    ensures RunJobs(count, b, jobs).Done? ==> RunJobs(count, b, jobs).b.next == b.next + Demand(b.tables, jobs)
    decreases |jobs|
  {
    hide TablesFor, FreshPages, MissingTables;
    if jobs == [] {
      NoJobs(b.pages);
    } else {
      FreshCons(b.pages, jobs, b.next);
      if RunJob(count, b, jobs[0]).Done? {
        JobsSucceedIff(count, RunJob(count, b, jobs[0]).b, jobs[1..]);
      }
    }
  }

  lemma NoJobs(pages: map<nat, nat>)
    ensures FreshPages(pages, [])
  {
  }

  // ---- The jobs of an ELF file ----

  function PagesOf(s: Segment): nat {
    (s.memSize + (PAGE_SIZE - 1)) / PAGE_SIZE
  }

  /** Contents of page `i` of a segment: file bytes below fileSize, zeros from there on. */
  function SegmentPage(image: Image, s: Segment, i: nat): Page
    requires SegmentOk(image, s)
  {
    seq(4096, k requires 0 <= k =>
      if i * 4096 + k < s.fileSize then image[s.offset + i * 4096 + k] else 0)
  }

  function SegmentJobs(image: Image, s: Segment, i: nat): seq<Job>
    requires SegmentOk(image, s) && i <= PagesOf(s)
    decreases PagesOf(s) - i
  {
    if i == PagesOf(s) then []
    else [Job(s.vaddr + i * PAGE_SIZE, Some(SegmentPage(image, s, i)))] + SegmentJobs(image, s, i + 1)
  }

  function ImageJobs(image: Image, segments: seq<Segment>, k: nat): seq<Job>
    requires AllOk(image, segments) && k <= |segments|
    decreases |segments| - k
  {
    if k == |segments| then [] else SegmentJobs(image, segments[k], 0) + ImageJobs(image, segments, k + 1)
  }

  function HeapJobs(i: nat): seq<Job>
    requires i <= HEAP_PAGES
    decreases HEAP_PAGES - i
  {
    if i == HEAP_PAGES then [] else [Job(HEAP_START + i * PAGE_SIZE, Some(ZERO_PAGE))] + HeapJobs(i + 1)
  }

  function StackJob(): Job {
    Job(USER_STACK, None)
  }

  function AllJobs(image: Image, segments: seq<Segment>): seq<Job>
    requires AllOk(image, segments)
  {
    ImageJobs(image, segments, 0) + [StackJob()] + HeapJobs(0)
  }

  // ---- Checks before anything is mapped ----

  predicate Canonical(va: nat) {
    va < 0x8000_0000_0000 || va >= TWO_64 - 0x8000_0000_0000
  }

  function SlotOf(va: nat): nat {
    va / 0x80_0000_0000 % 512
  }

  /** The first page at or after `i` outside the process's slot; a non-canonical address stops the kernel. */
  function PageError(s: Segment, i: nat): Option<LoadError>
    requires i <= PagesOf(s)
    decreases PagesOf(s) - i
  {
    if i == PagesOf(s) then None
    else if !Canonical(s.vaddr + i * PAGE_SIZE) then Some(NonCanonical)
    else if SlotOf(s.vaddr + i * PAGE_SIZE) != USER_SLOT then Some(OutsideSlot)
    else PageError(s, i + 1)
  }

  function CheckSegment(s: Segment): Option<LoadError> {
    if s.vaddr % PAGE_SIZE != 0 then Some(Unaligned)
    else if s.memSize == 0 then Some(EmptySegment)
    else if PagesOf(s) > MAX_PAGES_PER_SEGMENT then Some(SegmentTooLarge)
    else PageError(s, 0)
  }

  function CheckFrom(segments: seq<Segment>, k: nat): Option<LoadError>
    requires k <= |segments|
    decreases |segments| - k
  {
    if k == |segments| then None
    else if CheckSegment(segments[k]).Some? then CheckSegment(segments[k])
    else CheckFrom(segments, k + 1)
  }

  function TotalPages(segments: seq<Segment>, k: nat): nat
    requires k <= |segments|
  {
    if k == 0 then 0 else TotalPages(segments, k - 1) + PagesOf(segments[k - 1])
  }

  predicate Covers(s: Segment, entry: nat) {
    s.vaddr <= entry < (if s.vaddr + s.memSize < TWO_64 then s.vaddr + s.memSize else TWO_64 - 1)
  }

  predicate SomeCovers(segments: seq<Segment>, entry: nat) {
    exists k :: 0 <= k < |segments| && Covers(segments[k], entry)
  }

  function CheckLoad(entry: nat, segments: seq<Segment>): Option<LoadError> {
    if entry != USER_CODE then Some(EntryNotFixed)
    else if segments == [] then Some(NoSegmentsToMap)
    else if |segments| > MAX_LOAD_SEGMENTS then Some(TooManyToMap)
    else if !SomeCovers(segments, entry) then Some(EntryOutside)
    else if CheckFrom(segments, 0).Some? then CheckFrom(segments, 0)
    else if TotalPages(segments, |segments|) > MAX_TOTAL_PAGES then Some(TotalTooLarge)
    else None
  }

  /** Builds the address space of an ELF image from allocator position `next`; the PML4 comes first. */
  function LoadElf(count: nat, next: nat, ram: map<nat, Page>, entry: nat, segments: seq<Segment>, image: Image): Built
    requires AllOk(image, segments)
  {
    var e := CheckLoad(entry, segments);
    if e.Some? then Failed(next, e.value)
    else if next >= count then Failed(next + 1, OutOfFrames)
    else RunJobs(count, Build(next + 1, map[], {}, ram), AllJobs(image, segments))
  }

  // ---- Flat images ----

  function Padded(image: seq<Byte>): Page
    requires |image| <= PAGE_SIZE
  {
    image + Zeros(PAGE_SIZE - |image|)
  }

  /** Builds a one-page program: code, stack, heap. */
  function LoadFlat(count: nat, next: nat, ram: map<nat, Page>, image: seq<Byte>): Built {
    if |image| > PAGE_SIZE then Failed(next, ImageTooLarge)
    else if next + 3 > count then Failed(Exhausted(count, next), OutOfFrames)
    else
      match MapFrame(count, Build(next + 3, map[], {}, ram), USER_CODE, next + 1)
      case Failed(n, e) => Failed(n, e)
      case Done(b1) =>
        match MapFrame(count, b1, USER_STACK, next + 2)
        case Failed(n, e) => Failed(n, e)
        case Done(b2) =>
          match RunJobs(count, b2, HeapJobs(0))
          case Failed(n, e) => Failed(n, e)
          case Done(b3) => Done(b3.(ram := b3.ram[next + 1 := Padded(image)]))
  }

  // ---- User memory ----

  function PageOf(ram: map<nat, Page>, frame: nat): Page {
    if frame in ram then ram[frame] else ZERO_PAGE
  }

  function Base(va: nat): nat {
    va - va % PAGE_SIZE
  }

  /** The byte a process sees at `va`, if that page is mapped. */
  function ByteAt(ram: map<nat, Page>, pages: map<nat, nat>, va: nat): Option<Byte> {
    if Base(va) in pages then Some(PageOf(ram, pages[Base(va)])[va % PAGE_SIZE]) else None
  }

  lemma HeapPages()
    ensures HeapJobs(0) == [Job(HEAP_START, Some(ZERO_PAGE)), Job(HEAP_START + 4096, Some(ZERO_PAGE)),
                            Job(HEAP_START + 8192, Some(ZERO_PAGE)), Job(HEAP_START + 12288, Some(ZERO_PAGE))]
  {
    assert HeapJobs(3) == [Job(HEAP_START + 12288, Some(ZERO_PAGE))] + HeapJobs(4);
    assert HeapJobs(2) == [Job(HEAP_START + 8192, Some(ZERO_PAGE))] + HeapJobs(3);
    assert HeapJobs(1) == [Job(HEAP_START + 4096, Some(ZERO_PAGE))] + HeapJobs(2);
  }

  // ---- The flat specification of a loaded file ----

  /** Byte `o` of a segment in memory: from the file below fileSize, else zero. */
  function SegmentByte(image: Image, s: Segment, o: nat): Byte
    requires SegmentOk(image, s)
  {
    if o < s.fileSize then image[s.offset + o] else 0
  }

  lemma {:induction false} SegmentJobAt(image: Image, s: Segment, i: nat, p: nat)
    requires SegmentOk(image, s) && i <= p < PagesOf(s)
    ensures Job(s.vaddr + p * PAGE_SIZE, Some(SegmentPage(image, s, p))) in SegmentJobs(image, s, i)
    decreases p - i
  {
    hide SegmentPage;
    if i < p {
      SegmentJobAt(image, s, i + 1, p);
    }
  }

  lemma {:induction false} ImageJobAt(image: Image, segments: seq<Segment>, k: nat, m: nat, p: nat)
    requires AllOk(image, segments) && k <= m < |segments| && p < PagesOf(segments[m])
    ensures Job(segments[m].vaddr + p * PAGE_SIZE, Some(SegmentPage(image, segments[m], p))) in ImageJobs(image, segments, k)
    decreases m - k
  {
    hide SegmentPage;
    if k < m {
      ImageJobAt(image, segments, k + 1, m, p);
    } else {
      SegmentJobAt(image, segments[m], 0, p);
    }
  }

  lemma CarriedMember(b: Build, jobs: seq<Job>, job: Job)
    requires forall i :: 0 <= i < |jobs| ==> Carried(b, jobs[i])
    requires job in jobs
    ensures Carried(b, job)
  {
  }

  /** A segment's page `p`, offset `k` in it, as an offset in the segment. */
  lemma PageOffset(vaddr: nat, o: nat)
    requires vaddr % PAGE_SIZE == 0
    ensures Base(vaddr + o) == vaddr + (o / PAGE_SIZE) * PAGE_SIZE && (vaddr + o) % PAGE_SIZE == o % PAGE_SIZE
  {
  }

  lemma PageCount(s: Segment, o: nat)
    requires o < PagesOf(s) * PAGE_SIZE
    ensures o / PAGE_SIZE < PagesOf(s)
  {
  }

  lemma {:induction false} CheckedAt(segments: seq<Segment>, k: nat, m: nat)
    requires k <= m < |segments| && CheckFrom(segments, k).None?
    ensures CheckSegment(segments[m]).None?
    decreases m - k
  {
    if k < m {
      CheckedAt(segments, k + 1, m);
    }
  }

  lemma EmptyBuild(next: nat, ram: map<nat, Page>)
    ensures BuildOk(Build(next + 1, map[], {}, ram), next + 1)
  {
  }

  /** A loaded file's memory is the flat specification: for every segment, from its first byte to the end
      of its last page, each address holds the file's byte below fileSize and zero after it. */
  lemma LoadedImage(count: nat, next: nat, ram: map<nat, Page>, entry: nat, segments: seq<Segment>, image: Image, m: nat, o: nat)
    requires AllOk(image, segments) && LoadElf(count, next, ram, entry, segments, image).Done?
    requires m < |segments| && o < PagesOf(segments[m]) * PAGE_SIZE
    ensures var b := LoadElf(count, next, ram, entry, segments, image).b;
            ByteAt(b.ram, b.pages, segments[m].vaddr + o) == Some(SegmentByte(image, segments[m], o))
  {
    hide RunJobs, BuildOk, Extends, AllOk, PagesOf, ImageJobs, CheckFrom, TotalPages, HeapJobs, JobPages, SegmentPage, Base;
    var s := segments[m];
    var b := LoadElf(count, next, ram, entry, segments, image).b;
    var b0 := Build(next + 1, map[], {}, ram);
    var p := o / PAGE_SIZE;
    AlignedSegment(segments, m);
    EmptyBuild(next, ram);
    JobsFinish(count, b0, AllJobs(image, segments), next + 1);
    PageCount(s, o);
    SegmentIsOk(image, segments, m);
    ImageJobAt(image, segments, 0, m, p);
    CarriedMember(b, AllJobs(image, segments), Job(s.vaddr + p * PAGE_SIZE, Some(SegmentPage(image, s, p))));
    PageOffset(s.vaddr, o);
    SegmentPageByte(image, s, o);
  }

  lemma SegmentIsOk(image: Image, segments: seq<Segment>, m: nat)
    requires AllOk(image, segments) && m < |segments|
    ensures SegmentOk(image, segments[m])
  {
  }

  lemma AlignedSegment(segments: seq<Segment>, m: nat)
    requires m < |segments| && CheckFrom(segments, 0).None?
    ensures segments[m].vaddr % PAGE_SIZE == 0
  {
    CheckedAt(segments, 0, m);
  }

  lemma SegmentPageByte(image: Image, s: Segment, o: nat)
    requires SegmentOk(image, s)
    ensures SegmentPage(image, s, o / PAGE_SIZE)[o % PAGE_SIZE] == SegmentByte(image, s, o)
  {
    assert o / PAGE_SIZE * 4096 + o % PAGE_SIZE == o;
  }

  lemma {:induction false} SegmentJobCount(image: Image, s: Segment, i: nat)
    requires SegmentOk(image, s) && i <= PagesOf(s)
    ensures |SegmentJobs(image, s, i)| == PagesOf(s) - i
    decreases PagesOf(s) - i
  {
    hide SegmentPage;
    if i < PagesOf(s) {
      SegmentJobCount(image, s, i + 1);
    }
  }

  lemma {:induction false} ImageJobCount(image: Image, segments: seq<Segment>, k: nat)
    requires AllOk(image, segments) && k <= |segments|
    ensures |ImageJobs(image, segments, k)| == TotalPages(segments, |segments|) - TotalPages(segments, k)
    decreases |segments| - k
  {
    if k < |segments| {
      SegmentJobCount(image, segments[k], 0);
      ImageJobCount(image, segments, k + 1);
    }
  }

  function BasePages(): set<nat> {
    {USER_CODE, USER_STACK, HEAP_START, HEAP_START + 4096, HEAP_START + 8192, HEAP_START + 12288}
  }

  lemma HeapPageSet()
    ensures JobPages(HeapJobs(0)) == {HEAP_START, HEAP_START + 4096, HEAP_START + 8192, HEAP_START + 12288}
    ensures forall i :: 0 <= i < |HeapJobs(0)| ==> HeapJobs(0)[i].fill == Some(ZERO_PAGE)
  {
    HeapPages();
  }

  /** Code, stack and heap are mapped, and every mapped address starts a page. */
  predicate Whole(pages: map<nat, nat>) {
    BasePages() <= pages.Keys && forall va :: va in pages ==> va % PAGE_SIZE == 0
  }

  predicate AlignedJobs(jobs: seq<Job>) {
    forall i :: 0 <= i < |jobs| ==> jobs[i].va % PAGE_SIZE == 0
  }

  lemma {:induction false} SegmentJobsAligned(image: Image, s: Segment, i: nat)
    requires SegmentOk(image, s) && i <= PagesOf(s) && s.vaddr % PAGE_SIZE == 0
    ensures AlignedJobs(SegmentJobs(image, s, i))
    decreases PagesOf(s) - i
  {
    hide SegmentPage, PagesOf;
    if i < PagesOf(s) {
      SegmentJobsAligned(image, s, i + 1);
    }
  }

  lemma {:induction false} ImageJobsAligned(image: Image, segments: seq<Segment>, k: nat)
    requires AllOk(image, segments) && k <= |segments| && CheckFrom(segments, 0).None?
    ensures AlignedJobs(ImageJobs(image, segments, k))
    decreases |segments| - k
  {
    hide CheckFrom, SegmentJobs, PagesOf;
    if k < |segments| {
      AlignedSegment(segments, k);
      SegmentJobsAligned(image, segments[k], 0);
      ImageJobsAligned(image, segments, k + 1);
    }
  }

  lemma WholeJobs(image: Image, segments: seq<Segment>, pages: map<nat, nat>)
    requires AllOk(image, segments) && SomeCovers(segments, USER_CODE) && CheckFrom(segments, 0).None?
    requires pages.Keys == JobPages(AllJobs(image, segments))
    ensures Whole(pages)
  {
    hide CheckFrom, ImageJobs, HeapJobs, SomeCovers;
    StackAndEntry(image, segments);
    ImageJobsAligned(image, segments, 0);
    HeapPages();
    var jobs := AllJobs(image, segments);
    assert forall j :: j in HeapJobs(0) ==> j in jobs;
    assert forall j :: j in jobs ==> j.va % PAGE_SIZE == 0;
    assert HeapJobs(0)[0] in jobs && HeapJobs(0)[1] in jobs && HeapJobs(0)[2] in jobs && HeapJobs(0)[3] in jobs;
  }

  /** At most sixteen segment pages are mapped, each address once, each in a frame of its own taken after
      `next`; the entry page, the stack and the heap are there; no earlier frame is touched. */
  lemma LoadedShape(count: nat, next: nat, ram: map<nat, Page>, entry: nat, segments: seq<Segment>, image: Image)
    requires AllOk(image, segments) && LoadElf(count, next, ram, entry, segments, image).Done?
    ensures |ImageJobs(image, segments, 0)| <= MAX_TOTAL_PAGES
    ensures DistinctPages(AllJobs(image, segments))
    ensures var b := LoadElf(count, next, ram, entry, segments, image).b;
            && BuildOk(b, next + 1)
            && b.pages.Keys == JobPages(AllJobs(image, segments))
            && Whole(b.pages)
            && next < b.next <= count
            && (forall f: nat :: f <= next ==> PageOf(b.ram, f) == PageOf(ram, f))
  {
    hide RunJobs, AllOk, PagesOf, ImageJobs, CheckFrom, TotalPages, HeapJobs, JobPages, SegmentPage, Base, AllJobs, Whole;
    var b0 := Build(next + 1, map[], {}, ram);
    EmptyBuild(next, ram);
    JobsFinish(count, b0, AllJobs(image, segments), next + 1);
    JobsSucceedIff(count, b0, AllJobs(image, segments));
    CountedPages(image, segments);
    WholeJobs(image, segments, RunJobs(count, b0, AllJobs(image, segments)).b.pages);
  }

  lemma CountedPages(image: Image, segments: seq<Segment>)
    requires AllOk(image, segments)
    ensures |ImageJobs(image, segments, 0)| == TotalPages(segments, |segments|)
  {
    ImageJobCount(image, segments, 0);
  }

  /** The check that finds the entry inside a segment makes sure its page is mapped. */
  lemma StackAndEntry(image: Image, segments: seq<Segment>)
    requires AllOk(image, segments) && SomeCovers(segments, USER_CODE) && CheckFrom(segments, 0).None?
    ensures USER_CODE in JobPages(AllJobs(image, segments)) && USER_STACK in JobPages(AllJobs(image, segments))
  {
    hide CheckFrom, SegmentPage, ImageJobs, HeapJobs;
    var k :| 0 <= k < |segments| && Covers(segments[k], USER_CODE);
    AlignedSegment(segments, k);
    var p := (USER_CODE - segments[k].vaddr) / PAGE_SIZE;
    EntryPage(segments[k]);
    ImageJobAt(image, segments, 0, k, p);
    assert StackJob() in AllJobs(image, segments);
  }

  lemma EntryPage(s: Segment)
    requires Covers(s, USER_CODE) && s.vaddr % PAGE_SIZE == 0
    ensures var p := (USER_CODE - s.vaddr) / PAGE_SIZE; p < PagesOf(s) && s.vaddr + p * PAGE_SIZE == USER_CODE
  {
  }

  /** A file loads exactly when the checks pass, no two of its pages, the stack and the heap coincide,
      and enough frames are left. */
  lemma LoadsIff(count: nat, next: nat, ram: map<nat, Page>, entry: nat, segments: seq<Segment>, image: Image)
    requires AllOk(image, segments)
    ensures LoadElf(count, next, ram, entry, segments, image).Done? <==>
              && CheckLoad(entry, segments).None?
              && DistinctPages(AllJobs(image, segments))
              && next + 1 + Demand({}, AllJobs(image, segments)) <= count
  {
    hide RunJobs, AllOk, AllJobs, CheckLoad, Demand, DistinctPages;
    if CheckLoad(entry, segments).None? && next < count {
      var b0 := Build(next + 1, map[], {}, ram);
      JobsSucceedIff(count, b0, AllJobs(image, segments));
      FreshFromEmpty(AllJobs(image, segments));
    }
  }

  lemma FreshFromEmpty(jobs: seq<Job>)
    ensures FreshPages(map[], jobs) <==> DistinctPages(jobs)
  {
  }

  // ---- The flat loader's memory ----

  /** The address space of a one-page program built from position `next`: code, stack and heap frames of
      its own; the image at the code page; zeros in the heap; older frames and the stack frame untouched. */
  ghost predicate FlatLaid(b: Build, next: nat, ram: map<nat, Page>, image: seq<Byte>)
    requires |image| <= PAGE_SIZE
  {
    && BuildOk(b, next + 1) && b.pages.Keys == BasePages()
    && b.pages[USER_CODE] == next + 1 && b.pages[USER_STACK] == next + 2 && next + 3 <= b.next
    && PageOf(b.ram, next + 1) == Padded(image)
    && (forall va :: va in b.pages && va != USER_CODE && va != USER_STACK ==>
          b.pages[va] >= next + 3 && PageOf(b.ram, b.pages[va]) == ZERO_PAGE)
    && (forall f: nat :: f <= next || f == next + 2 ==> PageOf(b.ram, f) == PageOf(ram, f))
  }

  lemma FlatMapped(count: nat, next: nat, ram: map<nat, Page>)
    requires var m1 := MapFrame(count, Build(next + 3, map[], {}, ram), USER_CODE, next + 1);
             m1.Done? && MapFrame(count, m1.b, USER_STACK, next + 2).Done?
    ensures var b2 := MapFrame(count, MapFrame(count, Build(next + 3, map[], {}, ram), USER_CODE, next + 1).b, USER_STACK, next + 2).b;
            && b2.pages == map[USER_CODE := next + 1, USER_STACK := next + 2]
            && b2.ram == ram && b2.next >= next + 3 && BuildOk(b2, next + 1)
  {
    hide TablesFor;
  }

  lemma HeapCarried(b: Build, va: nat)
    requires forall i :: 0 <= i < |HeapJobs(0)| ==> Carried(b, HeapJobs(0)[i])
    requires va in JobPages(HeapJobs(0))
    ensures va in b.pages && PageOf(b.ram, b.pages[va]) == ZERO_PAGE
  {
    hide HeapJobs;
    HeapPageSet();
    var j :| j in HeapJobs(0) && j.va == va;
    var i :| 0 <= i < |HeapJobs(0)| && HeapJobs(0)[i] == j;
    assert Carried(b, HeapJobs(0)[i]);
  }

  /** After the heap pages: code and stack as mapped before, heap frames new and zero, older frames kept. */
  ghost predicate HeapLaid(b: Build, next: nat, ram: map<nat, Page>) {
    && BuildOk(b, next + 1) && b.pages.Keys == BasePages()
    && b.pages[USER_CODE] == next + 1 && b.pages[USER_STACK] == next + 2 && next + 3 <= b.next
    && (forall va :: va in b.pages && va != USER_CODE && va != USER_STACK ==>
          b.pages[va] >= next + 3 && PageOf(b.ram, b.pages[va]) == ZERO_PAGE)
    && (forall f: nat :: f <= next + 2 ==> PageOf(b.ram, f) == PageOf(ram, f))
  }

  lemma HeapDone(b2: Build, b3: Build, next: nat, ram: map<nat, Page>)
    requires b2.pages == map[USER_CODE := next + 1, USER_STACK := next + 2] && b2.ram == ram && b2.next >= next + 3
    requires Finished(b2, b3, HeapJobs(0), next + 1)
    ensures HeapLaid(b3, next, ram)
  {
    hide HeapJobs, JobPages, Carried, BuildOk, BasePages;
    HeapPageSet();
    BaseSplit();
    forall va | va in b3.pages && va != USER_CODE && va != USER_STACK
      ensures b3.pages[va] >= next + 3 && PageOf(b3.ram, b3.pages[va]) == ZERO_PAGE
    {
      assert va in b2.pages.Keys + JobPages(HeapJobs(0));
      HeapCarried(b3, va);
    }
  }

  lemma FlatHeap(b3: Build, next: nat, ram: map<nat, Page>, image: seq<Byte>)
    requires |image| <= PAGE_SIZE && HeapLaid(b3, next, ram)
    ensures FlatLaid(b3.(ram := b3.ram[next + 1 := Padded(image)]), next, ram, image)
  {
    hide Padded, BuildOk, BasePages;
    BuildOkRam(b3, b3.(ram := b3.ram[next + 1 := Padded(image)]), next + 1);
  }

  lemma BaseSplit()
    ensures BasePages() == {USER_CODE, USER_STACK} + JobPages(HeapJobs(0))
  {
    hide HeapJobs, JobPages;
    HeapPageSet();
  }

  lemma BuildOkRam(b: Build, b': Build, lo: nat)
    requires BuildOk(b, lo) && b'.next == b.next && b'.pages == b.pages
    ensures BuildOk(b', lo)
  {
  }

  /** A one-page program sees its image, zero-padded, at its code page, and zeros in its heap. */
  lemma FlatShape(count: nat, next: nat, ram: map<nat, Page>, image: seq<Byte>)
    requires LoadFlat(count, next, ram, image).Done?
    ensures |image| <= PAGE_SIZE && FlatLaid(LoadFlat(count, next, ram, image).b, next, ram, image)
  {
    hide RunJobs, MapFrame, HeapJobs, FlatLaid, HeapLaid, Finished, BuildOk, Padded;
    FlatMapped(count, next, ram);
    var b1 := MapFrame(count, Build(next + 3, map[], {}, ram), USER_CODE, next + 1).b;
    var b2 := MapFrame(count, b1, USER_STACK, next + 2).b;
    JobsFinish(count, b2, HeapJobs(0), next + 1);
    HeapDone(b2, RunJobs(count, b2, HeapJobs(0)).b, next, ram);
    FlatHeap(RunJobs(count, b2, HeapJobs(0)).b, next, ram, image);
  }

  /** A finished build took no position past the last frame. */
  lemma FlatWithin(count: nat, next: nat, ram: map<nat, Page>, image: seq<Byte>)
    requires LoadFlat(count, next, ram, image).Done?
    ensures LoadFlat(count, next, ram, image).b.next <= count
  {
    hide RunJobs, HeapJobs, Padded, TablesFor;
    var b1 := MapFrame(count, Build(next + 3, map[], {}, ram), USER_CODE, next + 1).b;
    var b2 := MapFrame(count, b1, USER_STACK, next + 2).b;
    JobsSucceedIff(count, b2, HeapJobs(0));
  }

  // ---- Enough frames ----

  /** A page costs at most its own frame and three page tables. */
  lemma {:induction false} DemandBound(tables: set<TableKey>, jobs: seq<Job>)
    ensures Demand(tables, jobs) <= 4 * |jobs|
    decreases |jobs|
  {
    hide TablesFor, MissingTables;
    if jobs != [] {
      FewTables(tables, jobs[0].va);
      DemandBound(tables + TablesFor(jobs[0].va), jobs[1..]);
    }
  }

  lemma FewTables(tables: set<TableKey>, va: nat)
    ensures MissingTables(tables, va) <= 3
  {
    var a, b, c := TableKey(3, va / 0x80_0000_0000), TableKey(2, va / 0x4000_0000), TableKey(1, va / 0x20_0000);
    assert |{a, b, c}| <= 3;
    Subset(TablesFor(va) - tables, {a, b, c});
  }

  lemma {:induction false} Subset(a: set<TableKey>, b: set<TableKey>)
    requires a <= b
    ensures |a| <= |b|
    decreases |a|
  {
    if x :| x in a {
      Subset(a - {x}, b - {x});
    }
  }

  lemma HeapFresh(pages: map<nat, nat>)
    requires pages.Keys == {USER_CODE, USER_STACK}
    ensures FreshPages(pages, HeapJobs(0))
  {
    HeapPages();
  }

  // ---- A two-page program ----

  const TWO_PAGES := Segment(USER_CODE, 0, 8192, 8192, 5)

  lemma TwoPageJobs(file: Image)
    requires |file| >= 8192
    ensures AllOk(file, [TWO_PAGES])
    ensures var jobs := AllJobs(file, [TWO_PAGES]);
            && |jobs| == 7
            && jobs[0].va == USER_CODE && jobs[1].va == USER_CODE + 4096 && jobs[2].va == USER_STACK
            && jobs[3].va == HEAP_START && jobs[4].va == HEAP_START + 4096 && jobs[5].va == HEAP_START + 8192
            && jobs[6].va == HEAP_START + 12288
  {
    hide SegmentPage;
    assert PagesOf(TWO_PAGES) == 2;
    assert SegmentJobs(file, TWO_PAGES, 2) == [];
    assert SegmentJobs(file, TWO_PAGES, 1) == [Job(USER_CODE + 4096, Some(SegmentPage(file, TWO_PAGES, 1)))];
    assert SegmentJobs(file, TWO_PAGES, 0)
           == [Job(USER_CODE, Some(SegmentPage(file, TWO_PAGES, 0))), Job(USER_CODE + 4096, Some(SegmentPage(file, TWO_PAGES, 1)))];
    assert ImageJobs(file, [TWO_PAGES], 1) == [];
    HeapPages();
  }

  lemma TwoPagesPass()
    ensures CheckLoad(USER_CODE, [TWO_PAGES]).None?
  {
    assert PagesOf(TWO_PAGES) == 2;
    assert PageError(TWO_PAGES, 2).None? && PageError(TWO_PAGES, 1).None? && PageError(TWO_PAGES, 0).None?;
    assert CheckFrom([TWO_PAGES], 1).None?;
    assert Covers([TWO_PAGES][0], USER_CODE);
    assert TotalPages([TWO_PAGES], 1) == TotalPages([TWO_PAGES], 0) + 2;
  }

  /** It loads when 29 frames are left, and takes at most those. */
  lemma TwoPagesLoad(count: nat, next: nat, ram: map<nat, Page>, file: Image)
    requires |file| >= 8192 && next + 29 <= count
    ensures AllOk(file, [TWO_PAGES])
    ensures var built := LoadElf(count, next, ram, USER_CODE, [TWO_PAGES], file);
            built.Done? && built.b.next <= next + 29
  {
    hide RunJobs, AllJobs, CheckLoad, Demand, DistinctPages, AllOk;
    TwoPageJobs(file);
    TwoPagesPass();
    var jobs := AllJobs(file, [TWO_PAGES]);
    DemandBound({}, jobs);
    SevenApart(jobs);
    LoadsIff(count, next, ram, USER_CODE, [TWO_PAGES], file);
    JobsSucceedIff(count, Build(next + 1, map[], {}, ram), jobs);
  }

  lemma SevenApart(jobs: seq<Job>)
    requires |jobs| == 7 && jobs[0].va == USER_CODE && jobs[1].va == USER_CODE + 4096 && jobs[2].va == USER_STACK
    requires jobs[3].va == HEAP_START && jobs[4].va == HEAP_START + 4096 && jobs[5].va == HEAP_START + 8192
    requires jobs[6].va == HEAP_START + 12288
    ensures DistinctPages(jobs)
  {
  }
}
