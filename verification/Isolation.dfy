/** Every process in its own frames: create, fork, exec, sbrk and user stores over all processes
    (kernel/src/process.rs). */
module Isolation {
  import opened Common
  import opened Elf
  import opened AddressSpaces
  import Frames
  import LoadLaws

  /** One process: its page map, the allocator range its frames came from, and its heap mark. */
  datatype Space = Space(pages: map<nat, nat>, lo: nat, hi: nat, heapUsed: nat)

  /** `count` usable frames, the allocator's position, memory contents, live processes. */
  datatype System = System(count: nat, next: nat, ram: map<nat, Page>, spaces: map<nat, Space>)

  datatype Op =
    | CreateFlat(id: nat, image: seq<Byte>)
    | CreateElf(id: nat, entry: nat, segments: seq<Segment>, file: Image)
    | Fork(parent: nat, id: nat)
    | Exec(id: nat, image: seq<Byte>)
    | Sbrk(id: nat, size: nat)
    | Store(id: nat, va: nat, value: Byte)
    | Drop(id: nat)

  function Installed(s: System, id: nat, built: Built): System {
    match built
    case Failed(next, _) => s.(next := next)
    case Done(b) => System(s.count, b.next, b.ram, s.spaces[id := Space(b.pages, s.next, b.next, 0)])
  }

  function CodeFrame(p: Space): nat
    requires USER_CODE in p.pages
  {
    p.pages[USER_CODE]
  }

  /** The parent's page contents copied into the child's page of the same address, for each of `vas`. */
  function CopyPages(ram: map<nat, Page>, parent: map<nat, nat>, child: map<nat, nat>, vas: seq<nat>): map<nat, Page>
    decreases |vas|
  {
    if vas == [] then ram
    else
      var va := vas[0];
      var ram1 := if va in parent && va in child then ram[child[va] := PageOf(ram, parent[va])] else ram;
      CopyPages(ram1, parent, child, vas[1..])
  }

  /** Stack, then heap pages, in the order they are copied. */
  function CopiedPages(): seq<nat> {
    [USER_STACK, HEAP_START, HEAP_START + 4096, HEAP_START + 8192, HEAP_START + 12288]
  }

  /** A child built from the parent's code page, then given its stack and heap contents. */
  function ForkInto(s: System, parent: nat, id: nat): System
    requires parent in s.spaces && USER_CODE in s.spaces[parent].pages
  {
    var p := s.spaces[parent];
    match LoadFlat(s.count, s.next, s.ram, PageOf(s.ram, CodeFrame(p)))
    case Failed(next, _) => s.(next := next)
    case Done(b) =>
      System(s.count, b.next, CopyPages(b.ram, p.pages, b.pages, CopiedPages()),
             s.spaces[id := Space(b.pages, s.next, b.next, p.heapUsed)])
  }

  function ExecIn(s: System, id: nat, image: seq<Byte>): System
    requires id in s.spaces && USER_CODE in s.spaces[id].pages
  {
    if |image| > PAGE_SIZE then s
    else s.(ram := s.ram[CodeFrame(s.spaces[id]) := Padded(image)],
            spaces := s.spaces[id := s.spaces[id].(heapUsed := 0)])
  }

  /** A store through the process's own page map; elsewhere it faults and changes no memory. */
  function StoreIn(s: System, id: nat, va: nat, value: Byte): System
    requires id in s.spaces
  {
    var p := s.spaces[id];
    if Base(va) !in p.pages then s
    else
      var f := p.pages[Base(va)];
      s.(ram := s.ram[f := PageOf(s.ram, f)[va % PAGE_SIZE := value]])
  }

  function Target(op: Op): nat {
    op.id
  }

  function Apply(s: System, op: Op): System {
    match op
    case CreateFlat(id, image) => Installed(s, id, LoadFlat(s.count, s.next, s.ram, image))
    case CreateElf(id, entry, segments, file) =>
      if AllOk(file, segments) then Installed(s, id, LoadElf(s.count, s.next, s.ram, entry, segments, file)) else s
    case Fork(parent, id) =>
      if parent in s.spaces && id !in s.spaces && USER_CODE in s.spaces[parent].pages then ForkInto(s, parent, id) else s
    case Exec(id, image) =>
      if id in s.spaces && USER_CODE in s.spaces[id].pages then ExecIn(s, id, image) else s
    case Sbrk(id, size) =>
      if id in s.spaces && s.spaces[id].heapUsed + size <= HEAP_SIZE
      then s.(spaces := s.spaces[id := s.spaces[id].(heapUsed := s.spaces[id].heapUsed + size)]) else s
    case Store(id, va, value) => if id in s.spaces then StoreIn(s, id, va, value) else s
    case Drop(id) => s.(spaces := s.spaces - {id})
  }

  /** The byte process `id` sees at `va`. */
  function Sees(s: System, id: nat, va: nat): Option<Byte>
    requires id in s.spaces
  {
    ByteAt(s.ram, s.spaces[id].pages, va)
  }

  // ---- The invariant ----

  /** A process's code, stack and heap are mapped, and its frames lie in its own allocator range, one per page. */
  ghost predicate SpaceOk(p: Space, next: nat) {
    && Whole(p.pages)
    && p.lo <= p.hi <= next
    && (forall va :: va in p.pages ==> p.lo <= p.pages[va] < p.hi)
    && (forall u, v :: u in p.pages && v in p.pages && u != v ==> p.pages[u] != p.pages[v])
  }

  predicate RangesApart(p: Space, q: Space) {
    p.hi <= q.lo || q.hi <= p.lo
  }

  ghost predicate Inv(s: System) {
    && (forall id :: id in s.spaces ==> SpaceOk(s.spaces[id], s.next) && s.spaces[id].hi <= s.count)
    && (forall i, j :: i in s.spaces && j in s.spaces && i != j ==> RangesApart(s.spaces[i], s.spaces[j]))
  }

  /** No frame backs pages of two processes. */
  lemma FramesDisjoint(s: System, i: nat, j: nat, u: nat, v: nat)
    requires Inv(s) && i in s.spaces && j in s.spaces && i != j
    requires u in s.spaces[i].pages && v in s.spaces[j].pages
    ensures s.spaces[i].pages[u] != s.spaces[j].pages[v]
  {
    hide Whole;
    assert RangesApart(s.spaces[i], s.spaces[j]);
  }

  /** In physical memory: when no two usable regions step through a common page, no physical frame backs two
      pages, of one process or of two. */
  lemma PhysicallyDisjoint(s: System, regions: seq<Frames.Region>, i: nat, j: nat, u: nat, v: nat)
    requires Inv(s) && s.count == |Frames.UsableFrames(regions)| && Frames.AllApart(regions)
    requires i in s.spaces && j in s.spaces && u in s.spaces[i].pages && v in s.spaces[j].pages && (i != j || u != v)
    ensures s.spaces[i].pages[u] < s.count && s.spaces[j].pages[v] < s.count
    ensures Frames.UsableFrames(regions)[s.spaces[i].pages[u]] != Frames.UsableFrames(regions)[s.spaces[j].pages[v]]
  {
    hide Whole, Frames.UsableFrames, Frames.AllApart;
    Frames.UsableDistinctIff(regions);
    assert i != j ==> RangesApart(s.spaces[i], s.spaces[j]);
    var f, g := s.spaces[i].pages[u], s.spaces[j].pages[v];
    assert f < g || g < f;
  }

  // ---- What building leaves alone ----

  lemma BuiltSpace(count: nat, next: nat, ram: map<nat, Page>, built: Built, b: Build)
    requires built == Done(b) && BuildOk(b, next + 1) && next <= b.next && Whole(b.pages)
    ensures SpaceOk(Space(b.pages, next, b.next, 0), b.next)
  {
    hide Whole;
  }

  /** A finished build: frames in its range, older memory untouched. */
  ghost predicate Fresh(s: System, b: Build) {
    && BuildOk(b, s.next + 1) && s.next < b.next <= s.count && Whole(b.pages)
    && (forall f: nat :: f < s.next ==> PageOf(b.ram, f) == PageOf(s.ram, f))
  }

  lemma ElfFresh(s: System, op: Op)
    requires op.CreateElf? && AllOk(op.file, op.segments)
    requires LoadElf(s.count, s.next, s.ram, op.entry, op.segments, op.file).Done?
    ensures Fresh(s, LoadElf(s.count, s.next, s.ram, op.entry, op.segments, op.file).b)
  {
    hide LoadElf, AllOk, BuildOk, AllJobs, ImageJobs, Whole;
    LoadedShape(s.count, s.next, s.ram, op.entry, op.segments, op.file);
  }

  lemma FlatFresh(s: System, image: seq<Byte>)
    requires LoadFlat(s.count, s.next, s.ram, image).Done?
    ensures Fresh(s, LoadFlat(s.count, s.next, s.ram, image).b)
  {
    hide LoadFlat, BuildOk, BasePages, Whole;
    FlatShape(s.count, s.next, s.ram, image);
    FlatWithin(s.count, s.next, s.ram, image);
    BaseIsWhole(LoadFlat(s.count, s.next, s.ram, image).b.pages);
  }

  lemma BaseIsWhole(pages: map<nat, nat>)
    requires pages.Keys == BasePages()
    ensures Whole(pages)
  {
    assert forall va :: va in pages ==> va in BasePages();
  }

  lemma FailedNext(s: System, op: Op)
    ensures op.CreateFlat? && LoadFlat(s.count, s.next, s.ram, op.image).Failed? ==>
              LoadFlat(s.count, s.next, s.ram, op.image).next >= s.next
    ensures op.CreateElf? && AllOk(op.file, op.segments)
            && LoadElf(s.count, s.next, s.ram, op.entry, op.segments, op.file).Failed? ==>
              LoadElf(s.count, s.next, s.ram, op.entry, op.segments, op.file).next >= s.next
  {
    hide RunJobs, AllJobs, HeapJobs, TablesFor, CheckLoad, AllOk;
    if op.CreateElf? && AllOk(op.file, op.segments) {
      FailedJobs(s.count, Build(s.next + 1, map[], {}, s.ram), AllJobs(op.file, op.segments));
    }
    if op.CreateFlat? && LoadFlat(s.count, s.next, s.ram, op.image).Failed? {
      FlatFailedNext(s.count, s.next, s.ram, op.image);
    }
  }

  lemma FlatFailedNext(count: nat, next: nat, ram: map<nat, Page>, image: seq<Byte>)
    requires LoadFlat(count, next, ram, image).Failed?
    ensures LoadFlat(count, next, ram, image).next >= next
  {
    hide RunJobs, HeapJobs, TablesFor;
    if |image| <= PAGE_SIZE && next + 3 <= count {
      var m1 := MapFrame(count, Build(next + 3, map[], {}, ram), USER_CODE, next + 1);
      if m1.Done? {
        var m2 := MapFrame(count, m1.b, USER_STACK, next + 2);
        if m2.Done? {
          FailedJobs(count, m2.b, HeapJobs(0));
        }
      }
    }
  }

  lemma {:induction false} FailedJobs(count: nat, b: Build, jobs: seq<Job>)
    ensures RunJobs(count, b, jobs).Failed? ==> RunJobs(count, b, jobs).next >= b.next
    ensures RunJobs(count, b, jobs).Done? ==> RunJobs(count, b, jobs).b.next >= b.next
    decreases |jobs|
  {
    hide TablesFor;
    if jobs != [] && RunJob(count, b, jobs[0]).Done? {
      FailedJobs(count, RunJob(count, b, jobs[0]).b, jobs[1..]);
    }
  }

  // ---- Copying pages in fork ----

  ghost predicate Injective(pages: map<nat, nat>) {
    forall u, v :: u in pages && v in pages && u != v ==> pages[u] != pages[v]
  }

  ghost predicate NoSharing(parent: map<nat, nat>, child: map<nat, nat>) {
    forall u, v :: u in parent && v in child ==> parent[u] != child[v]
  }

  /** Frame `f` backs none of the child's pages at `vas`. */
  ghost predicate Spared(child: map<nat, nat>, vas: seq<nat>, f: nat) {
    forall i :: 0 <= i < |vas| && vas[i] in child ==> child[vas[i]] != f
  }

  lemma SparedTail(child: map<nat, nat>, vas: seq<nat>, f: nat)
    requires Spared(child, vas, f) && vas != []
    ensures Spared(child, vas[1..], f) && (vas[0] in child ==> child[vas[0]] != f)
  {
    forall i | 0 <= i < |vas[1..]| && vas[1..][i] in child ensures child[vas[1..][i]] != f {
      assert vas[1..][i] == vas[i + 1];
    }
  }

  /** `r` differs from `ram` only in the child's pages at `vas`, which hold the parent's contents. */
  ghost predicate Copied(ram: map<nat, Page>, r: map<nat, Page>, parent: map<nat, nat>, child: map<nat, nat>, vas: seq<nat>) {
    && (forall f: nat :: Spared(child, vas, f) ==> PageOf(r, f) == PageOf(ram, f))
    && (forall i :: 0 <= i < |vas| && vas[i] in parent && vas[i] in child ==>
          PageOf(r, child[vas[i]]) == PageOf(ram, parent[vas[i]]))
  }

  /** Copying changes only frames of the child's copied pages, and gives those the parent's contents. */
  lemma {:induction false} CopyEffect(ram: map<nat, Page>, parent: map<nat, nat>, child: map<nat, nat>, vas: seq<nat>)
    requires Injective(child) && NoSharing(parent, child)
    ensures Copied(ram, CopyPages(ram, parent, child, vas), parent, child, vas)
    decreases |vas|
  {
    if vas != [] {
      var va := vas[0];
      var ram1 := if va in parent && va in child then ram[child[va] := PageOf(ram, parent[va])] else ram;
      var r := CopyPages(ram1, parent, child, vas[1..]);
      CopyEffect(ram1, parent, child, vas[1..]);
      forall f: nat | Spared(child, vas, f) ensures PageOf(r, f) == PageOf(ram, f) {
        SparedTail(child, vas, f);
      }
      forall i | 0 <= i < |vas| && vas[i] in parent && vas[i] in child
        ensures PageOf(r, child[vas[i]]) == PageOf(ram, parent[vas[i]])
      {
        CopiedAt(ram, ram1, r, parent, child, vas, i);
      }
    }
  }

  lemma CopiedAt(ram: map<nat, Page>, ram1: map<nat, Page>, r: map<nat, Page>, parent: map<nat, nat>, child: map<nat, nat>,
                 vas: seq<nat>, i: nat)
    requires i < |vas| && vas[i] in parent && vas[i] in child && Injective(child) && NoSharing(parent, child)
    requires ram1 == if vas[0] in parent && vas[0] in child then ram[child[vas[0]] := PageOf(ram, parent[vas[0]])] else ram
    requires forall f: nat :: Spared(child, vas[1..], f) ==> PageOf(r, f) == PageOf(ram1, f)
    requires forall j :: 0 <= j < |vas[1..]| && vas[1..][j] in parent && vas[1..][j] in child ==>
               PageOf(r, child[vas[1..][j]]) == PageOf(ram1, parent[vas[1..][j]])
    ensures PageOf(r, child[vas[i]]) == PageOf(ram, parent[vas[i]])
  {
    assert i > 0 ==> vas[1..][i - 1] == vas[i];
    if exists j :: 0 <= j < |vas[1..]| && vas[1..][j] == vas[i] {
      var j :| 0 <= j < |vas[1..]| && vas[1..][j] == vas[i];
      assert PageOf(r, child[vas[1..][j]]) == PageOf(ram1, parent[vas[1..][j]]);
    }
  }

  // ---- Isolation ----

  /** Process `id` is still there and sees exactly what it saw. */
  ghost predicate Undisturbed(s: System, s': System, id: nat) {
    && id in s.spaces && id in s'.spaces && s'.spaces[id] == s.spaces[id]
    && forall va :: va in s.spaces[id].pages ==> PageOf(s'.ram, s.spaces[id].pages[va]) == PageOf(s.ram, s.spaces[id].pages[va])
  }

  lemma SeesSame(s: System, s': System, id: nat, va: nat)
    requires Undisturbed(s, s', id)
    ensures Sees(s', id, va) == Sees(s, id, va)
  {
  }

  lemma AddSpace(s: System, s': System, id: nat, p: Space)
    requires Inv(s) && s'.spaces == s.spaces[id := p] && SpaceOk(p, s'.next) && p.lo == s.next && s.next <= s'.next
    requires s'.count == s.count && p.hi <= s.count
    ensures Inv(s')
  {
    hide Whole;
    forall i, j | i in s'.spaces && j in s'.spaces && i != j ensures RangesApart(s'.spaces[i], s'.spaces[j]) {
      assert i != id ==> SpaceOk(s.spaces[i], s.next);
      assert j != id ==> SpaceOk(s.spaces[j], s.next);
    }
    forall i | i in s'.spaces ensures SpaceOk(s'.spaces[i], s'.next) {
      assert i != id ==> SpaceOk(s.spaces[i], s.next);
    }
  }

  lemma OlderKept(s: System, s': System, id: nat, other: nat)
    requires Inv(s) && other in s.spaces && other in s'.spaces && s'.spaces[other] == s.spaces[other]
    requires forall f: nat :: f < s.next ==> PageOf(s'.ram, f) == PageOf(s.ram, f)
    ensures Undisturbed(s, s', other)
  {
    hide Whole;
    assert SpaceOk(s.spaces[other], s.next);
  }

  lemma InstallKeeps(s: System, id: nat, built: Built, other: nat)
    requires Inv(s)
    requires if built.Done? then Fresh(s, built.b) else built.next >= s.next
    ensures Inv(Installed(s, id, built))
    ensures other in s.spaces && other != id ==> Undisturbed(s, Installed(s, id, built), other)
  {
    hide Whole;
    var s' := Installed(s, id, built);
    if built.Done? {
      BuiltSpace(s.count, s.next, s.ram, built, built.b);
      AddSpace(s, s', id, Space(built.b.pages, s.next, built.b.next, 0));
      if other in s.spaces && other != id {
        OlderKept(s, s', id, other);
      }
    } else {
      SameSpaces(s, s');
    }
  }

  lemma SameSpaces(s: System, s': System)
    requires Inv(s) && s'.spaces == s.spaces && s'.next >= s.next && s'.count == s.count
    ensures Inv(s')
  {
    hide Whole;
    forall i | i in s'.spaces ensures SpaceOk(s'.spaces[i], s'.next) {
      assert SpaceOk(s.spaces[i], s.next);
    }
  }

  lemma FlatPages(s: System, image: seq<Byte>)
    requires LoadFlat(s.count, s.next, s.ram, image).Done?
    ensures var b := LoadFlat(s.count, s.next, s.ram, image).b;
            Injective(b.pages) && forall va :: va in b.pages ==> b.pages[va] > s.next
  {
    hide LoadFlat, BasePages;
    FlatShape(s.count, s.next, s.ram, image);
  }

  lemma ForkKeeps(s: System, parent: nat, id: nat, other: nat)
    requires Inv(s) && parent in s.spaces && id !in s.spaces && USER_CODE in s.spaces[parent].pages
    ensures Inv(ForkInto(s, parent, id))
    ensures other in s.spaces ==> Undisturbed(s, ForkInto(s, parent, id), other)
  {
    hide LoadFlat, CopyPages, BuildOk, PageOf, Whole;
    var p := s.spaces[parent];
    var image := PageOf(s.ram, CodeFrame(p));
    var built := LoadFlat(s.count, s.next, s.ram, image);
    var s' := ForkInto(s, parent, id);
    if built.Failed? {
      FailedNext(s, CreateFlat(id, image));
      SameSpaces(s, s');
    } else {
      FlatFresh(s, image);
      FlatPages(s, image);
      BuiltSpace(s.count, s.next, s.ram, built, built.b);
      SpaceMark(Space(built.b.pages, s.next, built.b.next, 0), p.heapUsed, built.b.next);
      AddSpace(s, s', id, Space(built.b.pages, s.next, built.b.next, p.heapUsed));
      assert SpaceOk(p, s.next);
      CopyEffect(built.b.ram, p.pages, built.b.pages, CopiedPages());
      if other in s.spaces {
        OlderKept(s, s', id, other);
      }
    }
  }

  lemma SpaceMark(p: Space, mark: nat, next: nat)
    requires SpaceOk(p, next)
    ensures SpaceOk(p.(heapUsed := mark), next)
  {
    hide Whole;
  }

  /** Changing one heap mark keeps the invariant. */
  lemma MarksOnly(s: System, s': System, id: nat)
    requires Inv(s) && id in s.spaces && s'.next == s.next && s'.count == s.count && s'.spaces.Keys == s.spaces.Keys
    requires forall i :: i in s.spaces ==> s'.spaces[i] == if i == id then s.spaces[i].(heapUsed := s'.spaces[i].heapUsed) else s.spaces[i]
    ensures Inv(s')
  {
    hide SpaceOk;
    forall i | i in s'.spaces ensures SpaceOk(s'.spaces[i], s'.next) {
      SpaceMark(s.spaces[i], s'.spaces[i].heapUsed, s.next);
    }
    forall i, j | i in s'.spaces && j in s'.spaces && i != j ensures RangesApart(s'.spaces[i], s'.spaces[j]) {
      assert RangesApart(s.spaces[i], s.spaces[j]);
    }
  }

  lemma WriteKeeps(s: System, s': System, id: nat, frame: nat, va: nat, other: nat)
    requires Inv(s) && id in s.spaces && va in s.spaces[id].pages && s.spaces[id].pages[va] == frame
    requires s'.next == s.next && s'.count == s.count && s'.spaces.Keys == s.spaces.Keys
    requires forall i :: i in s.spaces ==> s'.spaces[i] == if i == id then s.spaces[i].(heapUsed := s'.spaces[i].heapUsed) else s.spaces[i]
    requires forall f: nat :: f != frame ==> PageOf(s'.ram, f) == PageOf(s.ram, f)
    ensures Inv(s')
    ensures other in s.spaces && other != id ==> Undisturbed(s, s', other)
  {
    hide Inv, SpaceOk, PageOf, Whole;
    MarksOnly(s, s', id);
    if other in s.spaces && other != id {
      forall u | u in s.spaces[other].pages ensures s.spaces[other].pages[u] != frame {
        FramesDisjoint(s, other, id, u, va);
      }
    }
  }

  /** Isolation, one operation: whatever is created, forked, executed, grown, stored or dropped for one
      process, no other process's memory, page map or heap mark changes, and frames stay disjoint. */
  lemma Isolated(s: System, op: Op, other: nat)
    requires Inv(s)
    ensures Inv(Apply(s, op))
    ensures other in s.spaces && other != Target(op) ==> Undisturbed(s, Apply(s, op), other)
  {
    hide LoadFlat, LoadElf, AllOk, ForkInto, Fresh, Base, Whole;
    match op {
      case CreateFlat(id, image) =>
        FailedNext(s, op);
        if LoadFlat(s.count, s.next, s.ram, image).Done? { FlatFresh(s, image); }
        InstallKeeps(s, id, LoadFlat(s.count, s.next, s.ram, image), other);
      case CreateElf(id, entry, segments, file) =>
        FailedNext(s, op);
        if AllOk(file, segments) {
          if LoadElf(s.count, s.next, s.ram, entry, segments, file).Done? { ElfFresh(s, op); }
          InstallKeeps(s, id, LoadElf(s.count, s.next, s.ram, entry, segments, file), other);
        }
      case Fork(parent, id) =>
        if parent in s.spaces && id !in s.spaces && USER_CODE in s.spaces[parent].pages { ForkKeeps(s, parent, id, other); }
      case Exec(id, image) =>
        if id in s.spaces && USER_CODE in s.spaces[id].pages { WriteKeeps(s, Apply(s, op), id, CodeFrame(s.spaces[id]), USER_CODE, other); }
      case Sbrk(id, size) => SbrkKeeps(s, op, other);
      case Store(id, va, value) =>
        if id in s.spaces && Base(va) in s.spaces[id].pages {
          WriteKeeps(s, Apply(s, op), id, s.spaces[id].pages[Base(va)], Base(va), other);
        }
      case Drop(id) => DropKeeps(s, id);
    }
  }

  lemma SbrkKeeps(s: System, op: Op, other: nat)
    requires Inv(s) && op.Sbrk?
    ensures Inv(Apply(s, op))
    ensures other in s.spaces && other != op.id ==> Undisturbed(s, Apply(s, op), other)
  {
    hide Whole;
    if op.id in s.spaces {
      MarksOnly(s, Apply(s, op), op.id);
    }
  }

  lemma DropKeeps(s: System, id: nat)
    requires Inv(s)
    ensures Inv(s.(spaces := s.spaces - {id}))
  {
    hide Whole;
  }

  function Run(s: System, ops: seq<Op>): System
    decreases |ops|
  {
    if ops == [] then s else Run(Apply(s, ops[0]), ops[1..])
  }

  predicate SparesProcess(ops: seq<Op>, id: nat) {
    forall i :: 0 <= i < |ops| ==> Target(ops[i]) != id
  }

  lemma SparesTail(ops: seq<Op>, id: nat)
    requires SparesProcess(ops, id) && ops != []
    ensures Target(ops[0]) != id && SparesProcess(ops[1..], id)
  {
    forall i | 0 <= i < |ops[1..]| ensures Target(ops[1..][i]) != id {
      assert ops[1..][i] == ops[i + 1];
    }
  }

  lemma UndisturbedTrans(a: System, b: System, c: System, id: nat)
    requires Undisturbed(a, b, id) && Undisturbed(b, c, id)
    ensures Undisturbed(a, c, id)
  {
  }

  /** Over any run of operations on other processes, a process sees its memory unchanged. */
  lemma {:induction false} RunIsolated(s: System, ops: seq<Op>, id: nat)
    requires Inv(s) && id in s.spaces && SparesProcess(ops, id)
    ensures Inv(Run(s, ops)) && Undisturbed(s, Run(s, ops), id)
    decreases |ops|
  {
    hide Apply, Inv, Undisturbed, SparesProcess, Target;
    if ops == [] {
      UndisturbedSelf(s, id);
    } else {
      SparesTail(ops, id);
      Isolated(s, ops[0], id);
      UndisturbedIn(s, Apply(s, ops[0]), id);
      RunIsolated(Apply(s, ops[0]), ops[1..], id);
      UndisturbedTrans(s, Apply(s, ops[0]), Run(s, ops), id);
    }
  }

  lemma UndisturbedSelf(s: System, id: nat)
    requires id in s.spaces
    ensures Undisturbed(s, s, id)
  {
  }

  lemma UndisturbedIn(s: System, s': System, id: nat)
    requires Undisturbed(s, s', id)
    ensures id in s'.spaces
  {
  }

  // ---- Fork copies ----

  /** The child's pages are the six base pages; each holds what the parent's page of that address held. */
  lemma ForkedPages(s: System, parent: nat, id: nat)
    requires Inv(s) && parent in s.spaces && id !in s.spaces && USER_CODE in s.spaces[parent].pages
    requires LoadFlat(s.count, s.next, s.ram, PageOf(s.ram, CodeFrame(s.spaces[parent]))).Done?
    ensures var s' := ForkInto(s, parent, id);
            && id in s'.spaces && s'.spaces[id].pages.Keys == BasePages()
            && s'.spaces[id].heapUsed == s.spaces[parent].heapUsed
            && forall va :: va in s'.spaces[id].pages && va in s.spaces[parent].pages ==>
                 PageOf(s'.ram, s'.spaces[id].pages[va]) == PageOf(s.ram, s.spaces[parent].pages[va])
  {
    hide LoadFlat, CopyPages, BuildOk, BasePages, Copied, PageOf, CopiedPages, Whole;
    var p := s.spaces[parent];
    var image := PageOf(s.ram, CodeFrame(p));
    var b := LoadFlat(s.count, s.next, s.ram, image).b;
    var s' := ForkInto(s, parent, id);
    assert SpaceOk(p, s.next);
    FlatShape(s.count, s.next, s.ram, image);
    FlatPages(s, image);
    CopyEffect(b.ram, p.pages, b.pages, CopiedPages());
    FullPage(image);
    forall va | va in b.pages && va in p.pages
      ensures PageOf(s'.ram, b.pages[va]) == PageOf(s.ram, p.pages[va])
    {
      ForkedPage(s, b, s'.ram, p.pages, va);
    }
  }

  lemma ForkedPage(s: System, b: Build, r: map<nat, Page>, parent: map<nat, nat>, va: nat)
    requires b.pages.Keys == BasePages() && Injective(b.pages) && va in b.pages && va in parent
    requires Copied(b.ram, r, parent, b.pages, CopiedPages())
    requires PageOf(b.ram, parent[va]) == PageOf(s.ram, parent[va])
    requires USER_CODE in parent && PageOf(b.ram, b.pages[USER_CODE]) == PageOf(s.ram, parent[USER_CODE])
    ensures PageOf(r, b.pages[va]) == PageOf(s.ram, parent[va])
  {
    hide PageOf, BasePages, CopiedPages, Spared, Injective;
    if va == USER_CODE {
      CodeNotCopied(b, va);
    } else {
      var i := CopiedIndex(va);
      assert PageOf(r, b.pages[CopiedPages()[i]]) == PageOf(b.ram, parent[CopiedPages()[i]]);
    }
  }

  lemma CopiedIndex(va: nat) returns (i: nat)
    requires va in BasePages() && va != USER_CODE
    ensures i < |CopiedPages()| && CopiedPages()[i] == va
  {
    i := if va == USER_STACK then 0 else if va == HEAP_START then 1 else if va == HEAP_START + 4096 then 2
         else if va == HEAP_START + 8192 then 3 else 4;
  }

  lemma FullPage(image: Page)
    ensures Padded(image) == image
  {
  }

  lemma CodeNotCopied(b: Build, va: nat)
    requires Injective(b.pages) && va == USER_CODE && va in b.pages
    ensures Spared(b.pages, CopiedPages(), b.pages[va])
  {
  }

  /** A forked child sees exactly its parent's memory, at every address, if and only if the parent has no
      pages beyond code, stack and heap (the extra pages of an ELF program are not copied). */
  lemma ForkCopiesIff(s: System, parent: nat, id: nat)
    requires Inv(s) && parent in s.spaces && id !in s.spaces && USER_CODE in s.spaces[parent].pages
    requires LoadFlat(s.count, s.next, s.ram, PageOf(s.ram, CodeFrame(s.spaces[parent]))).Done?
    ensures var s' := ForkInto(s, parent, id);
            && id in s'.spaces
            && ((forall va: nat :: Sees(s', id, va) == Sees(s, parent, va)) <==> s.spaces[parent].pages.Keys == BasePages())
  {
    hide LoadFlat, ForkInto, BasePages;
    ForkedPages(s, parent, id);
    assert SpaceOk(s.spaces[parent], s.next);
    var s' := ForkInto(s, parent, id);
    var p, c := s.spaces[parent].pages, s'.spaces[id].pages;
    if p.Keys != BasePages() {
      var va :| va in p.Keys && va !in BasePages();
      PageStart(va);
      assert Sees(s', id, va) != Sees(s, parent, va);
    } else {
      forall va: nat ensures Sees(s', id, va) == Sees(s, parent, va) {
        assert Base(va) in c.Keys <==> Base(va) in p.Keys;
        assert Base(va) in c ==> PageOf(s'.ram, c[Base(va)]) == PageOf(s.ram, p[Base(va)]);
      }
    }
  }

  /** Fork does lose pages: any two-page program, forked, keeps its second page and its child has none there.
      Here the program is the first process of a booted system. */
  lemma ForkLosesSecondPage(count: nat, ram: map<nat, Page>, file: Image, id: nat, child: nat, o: nat)
    requires |file| >= 8192 && count >= 54 && id != child && o < 4096
    ensures var s1 := Apply(System(count, 0, ram, map[]), CreateElf(id, USER_CODE, [TWO_PAGES], file));
            var s2 := Apply(s1, Fork(id, child));
            && id in s2.spaces && child in s2.spaces
            && Sees(s2, id, USER_CODE + 4096 + o) == Some(file[4096 + o])
            && Sees(s2, child, USER_CODE + 4096 + o).None?
  {
    hide LoadElf, LoadFlat, AllOk, ForkInto, BasePages, SpaceOk, Undisturbed, ByteAt;
    var s0 := System(count, 0, ram, map[]);
    var made := CreateElf(id, USER_CODE, [TWO_PAGES], file);
    TwoPagesLoad(count, 0, ram, file);
    var b := LoadElf(count, 0, ram, USER_CODE, [TWO_PAGES], file).b;
    Isolated(s0, made, 0);
    var s1 := Apply(s0, made);
    assert s1 == System(count, b.next, b.ram, map[id := Space(b.pages, 0, b.next, 0)]);
    LoadedImage(count, 0, ram, USER_CODE, [TWO_PAGES], file, 0, 4096 + o);
    TwoPageByte(file, o);
    CodeMapped(s1, id);
    var code := PageOf(s1.ram, CodeFrame(s1.spaces[id]));
    LoadLaws.FlatLoadsIff(count, b.next, b.ram, code);
    ForkKeeps(s1, id, child, id);
    var s2 := Apply(s1, Fork(id, child));
    assert s2 == ForkInto(s1, id, child);
    UndisturbedIn(s1, s2, id);
    SeesSame(s1, s2, id, USER_CODE + 4096 + o);
    assert Sees(s1, id, USER_CODE + 4096 + o) == Some(file[4096 + o]);
    ForkedPages(s1, id, child);
    SecondPage(s2, child, o);
  }

  lemma TwoPageByte(file: Image, o: nat)
    requires |file| >= 8192 && o < 4096
    ensures SegmentOk(file, TWO_PAGES) && SegmentByte(file, TWO_PAGES, 4096 + o) == file[4096 + o]
    ensures TWO_PAGES.vaddr + (4096 + o) == USER_CODE + 4096 + o && 4096 + o < PagesOf(TWO_PAGES) * PAGE_SIZE
  {
  }

  lemma CodeMapped(s: System, id: nat)
    requires Inv(s) && id in s.spaces
    ensures USER_CODE in s.spaces[id].pages
  {
    assert SpaceOk(s.spaces[id], s.next);
    assert USER_CODE in BasePages();
  }

  lemma SecondPage(s: System, id: nat, o: nat)
    requires id in s.spaces && s.spaces[id].pages.Keys == BasePages() && o < 4096
    ensures Sees(s, id, USER_CODE + 4096 + o).None?
  {
    assert Base(USER_CODE + 4096 + o) == USER_CODE + 4096;
  }

  lemma PageStart(va: nat)
    requires va % PAGE_SIZE == 0
    ensures Base(va) == va
  {
  }

  /** After a fork, nothing the child's side does afterwards shows in the parent, nor the other way round. */
  lemma ForkThenApart(s: System, parent: nat, id: nat, ops: seq<Op>, va: nat)
    requires Inv(s) && parent in s.spaces && id !in s.spaces && USER_CODE in s.spaces[parent].pages
    requires LoadFlat(s.count, s.next, s.ram, PageOf(s.ram, CodeFrame(s.spaces[parent]))).Done?
    ensures var s1 := ForkInto(s, parent, id);
            && (SparesProcess(ops, parent) ==>
                  parent in Run(s1, ops).spaces && Sees(Run(s1, ops), parent, va) == Sees(s, parent, va))
            && id in s1.spaces
            && (SparesProcess(ops, id) ==> id in Run(s1, ops).spaces && Sees(Run(s1, ops), id, va) == Sees(s1, id, va))
  {
    hide LoadFlat, Inv, Undisturbed, SparesProcess, Run, Sees, ForkInto, BasePages;
    var s1 := ForkInto(s, parent, id);
    ForkKeeps(s, parent, id, parent);
    ForkedPages(s, parent, id);
    UndisturbedIn(s, s1, parent);
    SeesSame(s, s1, parent, va);
    if SparesProcess(ops, parent) {
      RunIsolated(s1, ops, parent);
      UndisturbedIn(s1, Run(s1, ops), parent);
      SeesSame(s1, Run(s1, ops), parent, va);
    }
    if SparesProcess(ops, id) {
      RunIsolated(s1, ops, id);
      UndisturbedIn(s1, Run(s1, ops), id);
      SeesSame(s1, Run(s1, ops), id, va);
    }
  }

  // ---- A process sees its own operations ----

  /** sbrk moves the mark by exactly what was asked, if that stays within the 16384 mapped bytes, and otherwise
      refuses; no memory, page or other mark changes. What it hands out starts at the old mark, so it is mapped and
      apart from everything handed out before. */
  lemma SbrkAnswers(s: System, id: nat, size: nat)
    requires Inv(s) && id in s.spaces
    ensures var s', used := Apply(s, Sbrk(id, size)), s.spaces[id].heapUsed;
            && s'.ram == s.ram && s'.next == s.next && s'.spaces.Keys == s.spaces.Keys
            && (forall i :: i in s.spaces ==> s'.spaces[i].pages == s.spaces[i].pages)
            && (forall i :: i in s.spaces && i != id ==> s'.spaces[i] == s.spaces[i])
            && s'.spaces[id].heapUsed == (if used + size <= 16384 then used + size else used)
            && forall va: nat :: HEAP_START + used <= va < HEAP_START + s'.spaces[id].heapUsed ==> Sees(s', id, va).Some?
  {
    hide Whole;
    assert SpaceOk(s.spaces[id], s.next);
    forall va: nat | HEAP_START + s.spaces[id].heapUsed <= va < HEAP_START + Apply(s, Sbrk(id, size)).spaces[id].heapUsed
      ensures Sees(Apply(s, Sbrk(id, size)), id, va).Some?
    {
      HeapMapped(s.spaces[id].pages, va);
    }
  }

  lemma HeapMapped(pages: map<nat, nat>, va: nat)
    requires Whole(pages) && HEAP_START <= va < HEAP_START + 16384
    ensures Base(va) in pages
  {
    var k := (va - HEAP_START) / 4096;
    DivBounds(va - HEAP_START, 4096);
    HeapBase(va, k);
    assert Base(va) in BasePages();
  }

  lemma HeapBase(va: nat, k: nat)
    requires HEAP_START + 4096 * k <= va < HEAP_START + 4096 * k + 4096 && k < 4
    ensures Base(va) == HEAP_START + 4096 * k
  {
  }

  /** Every heap mark is within the mapped heap. */
  predicate MarksOk(s: System) {
    forall id :: id in s.spaces ==> s.spaces[id].heapUsed <= 16384
  }

  lemma MarksKept(s: System, op: Op)
    requires MarksOk(s)
    ensures MarksOk(Apply(s, op))
  {
    hide LoadFlat, LoadElf, AllOk, CopyPages, Base, PageOf;
  }

  /** Over every run no process is ever handed heap that is not mapped. */
  lemma {:induction false} MarksStayOk(s: System, ops: seq<Op>)
    requires MarksOk(s)
    ensures MarksOk(Run(s, ops))
    decreases |ops|
  {
    hide Apply, MarksOk;
    if ops != [] {
      MarksKept(s, ops[0]);
      MarksStayOk(Apply(s, ops[0]), ops[1..]);
    }
  }

  /** An exec of an image larger than a page, a fork of or into nothing, and any operation on a process that is not
      there but its creation change nothing; dropping a process drops only its entry. */
  lemma RefusedOrDropped(s: System, op: Op)
    ensures op.Exec? && (op.id !in s.spaces || |op.image| > 4096) ==> Apply(s, op) == s
    ensures op.Fork? && (op.parent !in s.spaces || op.id in s.spaces) ==> Apply(s, op) == s
    ensures (op.Sbrk? || op.Store?) && op.id !in s.spaces ==> Apply(s, op) == s
    ensures op.Store? && op.id in s.spaces && Base(op.va) !in s.spaces[op.id].pages ==> Apply(s, op) == s
    ensures op.Drop? ==> Apply(s, op).ram == s.ram && Apply(s, op).next == s.next && Apply(s, op).spaces == s.spaces - {op.id}
  {
    hide LoadFlat, LoadElf, AllOk, CopyPages, Base, PageOf;
  }

  /** A one-page program just created sees its image, zero-padded, at its code page, zeros in its heap, its stack,
      and nothing else; its mark is zero. */
  lemma CreatedSees(s: System, id: nat, image: seq<Byte>, va: nat)
    requires LoadFlat(s.count, s.next, s.ram, image).Done?
    ensures |image| <= 4096
    ensures var s' := Apply(s, CreateFlat(id, image));
            && id in s'.spaces && s'.spaces[id].heapUsed == 0
            && (Sees(s', id, va).Some? <==> Base(va) in BasePages())
            && (Base(va) == USER_CODE ==> Sees(s', id, va) == Some(if va % 4096 < |image| then image[va % 4096] else 0))
            && (Base(va) in BasePages() && Base(va) != USER_CODE && Base(va) != USER_STACK ==> Sees(s', id, va) == Some(0))
  {
    hide LoadFlat, BuildOk, BasePages, Base;
    FlatShape(s.count, s.next, s.ram, image);
    BasesDiffer();
  }

  lemma BasesDiffer()
    ensures USER_CODE in BasePages() && USER_STACK in BasePages()
  {
  }

  /** After exec the process sees the new image, zero-padded, at its code page; its stack and heap pages
      keep their contents and its heap mark is back at zero. */
  lemma ExecSees(s: System, id: nat, image: seq<Byte>, va: nat)
    requires Inv(s) && id in s.spaces && USER_CODE in s.spaces[id].pages && |image| <= PAGE_SIZE
    ensures var s' := ExecIn(s, id, image);
            && id in s'.spaces && s'.spaces[id].heapUsed == 0
            && Sees(s', id, va) == if Base(va) == USER_CODE then Some(if va % PAGE_SIZE < |image| then image[va % PAGE_SIZE] else 0)
                                   else Sees(s, id, va)
  {
    hide Whole, Base;
    assert SpaceOk(s.spaces[id], s.next);
  }

  /** After a store the process sees the new byte at that address and its old bytes everywhere else; a store
      to an unmapped address changes nothing. */
  lemma StoreSees(s: System, id: nat, va: nat, value: Byte, other: nat)
    requires Inv(s) && id in s.spaces
    ensures var s' := StoreIn(s, id, va, value);
            && id in s'.spaces
            && Sees(s', id, other) == if other == va && Base(va) in s.spaces[id].pages then Some(value) else Sees(s, id, other)
  {
    hide Whole;
    assert SpaceOk(s.spaces[id], s.next);
    BaseSplit(va);
    BaseSplit(other);
  }

  lemma BaseSplit(va: nat)
    ensures va == Base(va) + va % PAGE_SIZE
  {
  }
}
