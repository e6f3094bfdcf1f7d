/** The process loaders as they run: frames taken one by one, pages mapped, zeroed and filled
    (kernel/src/process.rs, create_process_from_elf and create_process_from_image). */
module Loader {
  import opened Common
  import opened Elf
  import opened AddressSpaces

  /** A new address space's mappings and the page tables behind them. */
  datatype Mapper = Mapper(pages: map<nat, nat>, tables: set<TableKey>)

  class Memory {
    const count: nat
    var next: nat
    var ram: map<nat, Page>

    constructor (count: nat, ram: map<nat, Page>)
      ensures this.count == count && next == 0 && this.ram == ram
    {
      this.count, next, this.ram := count, 0, ram;
    }

    function At(m: Mapper): Build
      reads this
    {
      Build(next, m.pages, m.tables, ram)
    }

    method AllocateFrame() returns (frame: Option<nat>)
      modifies this`next
      ensures next == old(next) + 1
      ensures frame == if old(next) < count then Some(old(next)) else None
    {
      frame := if next < count then Some(next) else None;
      next := next + 1;
    }

    method MapTo(m: Mapper, va: nat, frame: nat) returns (r: Result<Mapper, LoadError>)
      modifies this`next
      ensures match MapFrame(count, old(At(m)), va, frame)
              case Failed(n, e) => r == Err(e) && next == n
              case Done(b) => r.Ok? && At(r.value) == b
    {
      hide TablesFor;
      if va in m.pages {
        return Err(MapFailed);
      }
      var missing := MissingTables(m.tables, va);
      if next + missing > count {
        next := if next < count then count + 1 else next + 1;
        return Err(MapFailed);
      }
      next := next + missing;
      r := Ok(Mapper(m.pages[va := frame], m.tables + TablesFor(va)));
    }

    /** Takes a frame, maps it at `va`, and fills it if asked to. */
    method PlacePage(m: Mapper, va: nat, fill: Option<Page>) returns (r: Result<Mapper, LoadError>)
      modifies this
      ensures match RunJob(count, old(At(m)), Job(va, fill))
              case Failed(n, e) => r == Err(e) && next == n
              case Done(b) => r.Ok? && At(r.value) == b
    {
      hide MapFrame;
      var frame := AllocateFrame();
      if frame.None? {
        return Err(OutOfFrames);
      }
      r := MapTo(m, va, frame.value);
      if r.Ok? && fill.Some? {
        ram := ram[frame.value := fill.value];
      }
    }

    /** Page `i` of a segment: zeroed, then the file bytes that fall into it copied over. */
    static method PageImage(image: Image, s: Segment, i: nat) returns (page: Page)
      requires SegmentOk(image, s)
      ensures page == SegmentPage(image, s, i)
    {
      var buf := new Byte[4096](_ => 0);
      var off := i * PAGE_SIZE;
      if off < s.fileSize {
        var copyLen := Min(PAGE_SIZE, s.fileSize - off);
        var src := s.offset + off;
        forall k | 0 <= k < copyLen {
          buf[k] := image[src + k];
        }
      }
      page := buf[..];
      assert page == SegmentPage(image, s, i);
    }

    /** First page of the segment that cannot be mapped where it asks to be. */
    static method ValidatePages(s: Segment) returns (e: Option<LoadError>)
      ensures e == PageError(s, 0)
    {
      var i := 0;
      while i < PagesOf(s)
        invariant 0 <= i <= PagesOf(s)
        invariant PageError(s, i) == PageError(s, 0)
      {
        var va := s.vaddr + i * PAGE_SIZE;
        if !Canonical(va) {
          return Some(NonCanonical);
        }
        if SlotOf(va) != USER_SLOT {
          return Some(OutsideSlot);
        }
        i := i + 1;
      }
      e := None;
    }

    static method Validate(entry: nat, segments: seq<Segment>) returns (e: Option<LoadError>)
      ensures e == CheckLoad(entry, segments)
    {
      hide PageError, PagesOf, SomeCovers;
      if entry != USER_CODE {
        return Some(EntryNotFixed);
      }
      if segments == [] {
        return Some(NoSegmentsToMap);
      }
      if |segments| > MAX_LOAD_SEGMENTS {
        return Some(TooManyToMap);
      }
      if !SomeCovers(segments, entry) {
        return Some(EntryOutside);
      }
      var total := 0;
      var k := 0;
      while k < |segments|
        invariant 0 <= k <= |segments|
        invariant total == TotalPages(segments, k)
        invariant CheckFrom(segments, k) == CheckFrom(segments, 0)
      {
        var s := segments[k];
        if s.vaddr % PAGE_SIZE != 0 {
          return Some(Unaligned);
        }
        if s.memSize == 0 {
          return Some(EmptySegment);
        }
        if PagesOf(s) > MAX_PAGES_PER_SEGMENT {
          return Some(SegmentTooLarge);
        }
        var bad := ValidatePages(s);
        if bad.Some? {
          return bad;
        }
        total := total + PagesOf(s);
        k := k + 1;
      }
      e := if total > MAX_TOTAL_PAGES then Some(TotalTooLarge) else None;
    }

    static lemma JobsStep(count: nat, b: Build, job: Job, rest: seq<Job>)
      ensures RunJobs(count, b, [job] + rest)
              == if RunJob(count, b, job).Done? then RunJobs(count, RunJob(count, b, job).b, rest) else RunJob(count, b, job)
    {
      assert ([job] + rest)[1..] == rest;
    }

    /** Maps the pages of one segment; `rest` is what is still to be mapped after them. */
    method LoadSegment(m: Mapper, image: Image, s: Segment, ghost rest: seq<Job>) returns (r: Result<Mapper, LoadError>)
      requires SegmentOk(image, s)
      modifies this
      ensures match r
              case Ok(m1) => RunJobs(count, At(m1), rest) == RunJobs(count, old(At(m)), SegmentJobs(image, s, 0) + rest)
              case Err(e) => RunJobs(count, old(At(m)), SegmentJobs(image, s, 0) + rest) == Failed(next, e)
    {
      hide RunJob, RunJobs, SegmentPage, PagesOf;
      var cur := m;
      var i := 0;
      while i < PagesOf(s)
        invariant 0 <= i <= PagesOf(s)
        invariant RunJobs(count, At(cur), SegmentJobs(image, s, i) + rest)
               == RunJobs(count, old(At(m)), SegmentJobs(image, s, 0) + rest)
      {
        var page := PageImage(image, s, i);
        var job := Job(s.vaddr + i * PAGE_SIZE, Some(page));
        assert SegmentJobs(image, s, i) + rest == [job] + (SegmentJobs(image, s, i + 1) + rest);
        JobsStep(count, At(cur), job, SegmentJobs(image, s, i + 1) + rest);
        r := PlacePage(cur, s.vaddr + i * PAGE_SIZE, Some(page));
        if r.Err? {
          return;
        }
        cur := r.value;
        i := i + 1;
      }
      assert SegmentJobs(image, s, i) + rest == rest;
      r := Ok(cur);
    }

    method LoadHeap(m: Mapper) returns (r: Result<Mapper, LoadError>)
      modifies this
      ensures match RunJobs(count, old(At(m)), HeapJobs(0))
              case Done(b) => r.Ok? && At(r.value) == b
              case Failed(n, e) => r == Err(e) && next == n
    {
      hide RunJob, RunJobs;
      var cur := m;
      var i := 0;
      while i < HEAP_PAGES
        invariant 0 <= i <= HEAP_PAGES
        invariant RunJobs(count, At(cur), HeapJobs(i)) == RunJobs(count, old(At(m)), HeapJobs(0))
      {
        JobsStep(count, At(cur), Job(HEAP_START + i * PAGE_SIZE, Some(ZERO_PAGE)), HeapJobs(i + 1));
        r := PlacePage(cur, HEAP_START + i * PAGE_SIZE, Some(ZERO_PAGE));
        if r.Err? {
          return;
        }
        cur := r.value;
        i := i + 1;
      }
      NoJobsLeft(count, At(cur));
      r := Ok(cur);
    }

    static lemma NoJobsLeft(count: nat, b: Build)
      ensures RunJobs(count, b, []) == Done(b)
    {
    }

    /** Loads a parsed ELF file: the new mappings, or the first error; the entry page is always found. */
    method CreateProcessFromElf(entry: nat, segments: seq<Segment>, image: Image) returns (r: Result<Mapper, LoadError>)
      requires AllOk(image, segments)
      modifies this
      ensures match LoadElf(count, old(next), old(ram), entry, segments, image)
              case Done(b) => r.Ok? && At(r.value) == b && USER_CODE in r.value.pages
              case Failed(n, e) => r == Err(e) && next == n
    {
      hide RunJob, RunJobs, CheckLoad, HeapJobs, SegmentJobs, AllOk;
      var bad := Validate(entry, segments);
      if bad.Some? {
        return Err(bad.value);
      }
      var pml4 := AllocateFrame();
      if pml4.None? {
        return Err(OutOfFrames);
      }
      var cur := Mapper(map[], {});
      ghost var b0 := At(cur);
      ghost var tail := [StackJob()] + HeapJobs(0);
      ghost var all := AllJobs(image, segments);
      assert all == ImageJobs(image, segments, 0) + tail;
      var k := 0;
      while k < |segments|
        invariant 0 <= k <= |segments|
        invariant RunJobs(count, At(cur), ImageJobs(image, segments, k) + tail) == RunJobs(count, b0, all)
      {
        SegmentIsOk(image, segments, k);
        assert ImageJobs(image, segments, k) + tail
            == SegmentJobs(image, segments[k], 0) + (ImageJobs(image, segments, k + 1) + tail);
        r := LoadSegment(cur, image, segments[k], ImageJobs(image, segments, k + 1) + tail);
        if r.Err? {
          return;
        }
        cur := r.value;
        k := k + 1;
      }
      assert ImageJobs(image, segments, k) + tail == tail;
      JobsStep(count, At(cur), StackJob(), HeapJobs(0));
      r := PlacePage(cur, USER_STACK, None);
      if r.Err? {
        return;
      }
      r := LoadHeap(r.value);
      if r.Ok? {
        LoadedShape(count, old(next), old(ram), entry, segments, image);
      }
    }

    /** Loads a one-page image. */
    method CreateProcessFromImage(image: seq<Byte>) returns (r: Result<Mapper, LoadError>)
      modifies this
      ensures match LoadFlat(count, old(next), old(ram), image)
              case Done(b) => r.Ok? && At(r.value) == b
              case Failed(n, e) => r == Err(e) && next == n
    {
      hide RunJob, RunJobs, MapFrame, HeapJobs;
      if |image| > PAGE_SIZE {
        return Err(ImageTooLarge);
      }
      if next + 3 > count {
        next := if next < count then count + 1 else next + 1;
        return Err(OutOfFrames);
      }
      var pml4 := AllocateFrame();
      var code := AllocateFrame();
      var stack := AllocateFrame();
      r := MapTo(Mapper(map[], {}), USER_CODE, code.value);
      if r.Err? {
        return;
      }
      r := MapTo(r.value, USER_STACK, stack.value);
      if r.Err? {
        return;
      }
      r := LoadHeap(r.value);
      if r.Err? {
        return;
      }
      ram := ram[code.value := Padded(image)];
    }
  }
}
