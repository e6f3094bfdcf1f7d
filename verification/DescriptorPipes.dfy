/** Pipes over whole runs: the reference invariant, leaks, and first-in first-out delivery. */
module DescriptorPipes {
  import opened Common
  import opened Descriptors
  import opened DescriptorRefs
  import Fs = FsSpec

  // ---- The ring buffer ----

  lemma ModDistinct(w: nat, a: nat, b: nat)
    requires a < b < a + PIPE_CAPACITY
    ensures (w + a) % PIPE_CAPACITY != (w + b) % PIPE_CAPACITY
  {
  }

  lemma {:induction false} FillAt(buffer: seq<Byte>, w: nat, data: seq<Byte>, i: nat, m: nat)
    requires |buffer| == PIPE_CAPACITY && i <= |data| <= PIPE_CAPACITY && i <= m < w + i + PIPE_CAPACITY
    requires m < i + PIPE_CAPACITY
    ensures Fill(buffer, w, data, i)[(w + m) % PIPE_CAPACITY]
            == if m < |data| then data[m] else buffer[(w + m) % PIPE_CAPACITY]
    decreases |data| - i
  {
    if i < |data| {
      var b1 := buffer[(w + i) % PIPE_CAPACITY := data[i]];
      if m > i {
        ModDistinct(w, i, m);
        FillAt(b1, w, data, i + 1, m);
      } else {
        FillKeeps(b1, w, data, i + 1, i);
      }
    }
  }

  /** A position already filled stays as it is: at most 512 bytes are stored. */
  lemma {:induction false} FillKeeps(buffer: seq<Byte>, w: nat, data: seq<Byte>, i: nat, m: nat)
    requires |buffer| == PIPE_CAPACITY && m < i <= |data| <= m + PIPE_CAPACITY
    ensures Fill(buffer, w, data, i)[(w + m) % PIPE_CAPACITY] == buffer[(w + m) % PIPE_CAPACITY]
    decreases |data| - i
  {
    if i < |data| {
      ModDistinct(w, m, i);
      FillKeeps(buffer[(w + i) % PIPE_CAPACITY := data[i]], w, data, i + 1, m);
    }
  }

  lemma ModShift(r: nat, n: nat, i: nat)
    ensures ((r + n) % PIPE_CAPACITY + i) % PIPE_CAPACITY == (r + n + i) % PIPE_CAPACITY
  {
  }

  /** Taking `n` bytes takes the oldest `n` and leaves the rest in order. */
  lemma TakeFront(p: Pipe, n: nat)
    requires RingOk(p) && n <= p.len
    ensures RingOk(Taken(p, n))
    ensures Contents(p) == Contents(p)[..n] + Contents(Taken(p, n))
  {
    ModShift(p.readPos, n, p.len - n);
    forall i: nat | i < p.len - n ensures Contents(Taken(p, n))[i] == Contents(p)[n + i] {
      ModShift(p.readPos, n, i);
    }
  }

  /** Storing bytes that fit appends them after everything buffered. */
  lemma StoreBack(p: Pipe, data: seq<Byte>)
    requires RingOk(p) && p.len + |data| <= PIPE_CAPACITY
    ensures RingOk(Stored(p, data))
    ensures Contents(Stored(p, data)) == Contents(p) + data
  {
    hide Fill;
    var q := Stored(p, data);
    ModShift(p.readPos, p.len, |data|);
    forall i: nat | i < p.len + |data| ensures Contents(q)[i] == (Contents(p) + data)[i] {
      StoredAt(p, data, i);
    }
  }

  lemma StoredAt(p: Pipe, data: seq<Byte>, i: nat)
    requires RingOk(p) && p.len + |data| <= PIPE_CAPACITY && i < p.len + |data|
    ensures Fill(p.buffer, p.writePos, data, 0)[(p.readPos + i) % PIPE_CAPACITY]
            == if i < p.len then p.buffer[(p.readPos + i) % PIPE_CAPACITY] else data[i - p.len]
  {
    hide Fill;
    var m := if i < p.len then PIPE_CAPACITY - p.len + i else i - p.len;
    ModShift(p.readPos, p.len, m);
    assert (p.readPos + p.len + m) % PIPE_CAPACITY == (p.readPos + i) % PIPE_CAPACITY;
    FillAt(p.buffer, p.writePos, data, 0, m);
  }

  // ---- The invariant over every call ----

  lemma RefKeeps(t: PipeTable, x: FdEntry)
    requires RingsOk(t) && SlotsHeld(t)
    ensures RingsOk(AddRef(t, x)) && SlotsHeld(AddRef(t, x))
    ensures RingsOk(DropRef(t, x)) && SlotsHeld(DropRef(t, x))
  {
  }

  lemma {:induction false} RefsKeep(t: PipeTable, fds: FdTable, i: nat)
    requires RingsOk(t) && SlotsHeld(t) && i <= 4
    ensures RingsOk(AddRefs(t, fds, i)) && SlotsHeld(AddRefs(t, fds, i))
    decreases 4 - i
  {
    hide RingsOk, SlotsHeld, AddRef;
    if i < 4 {
      if fds[i].Some? {
        RefKeeps(t, fds[i].value);
        RefsKeep(AddRef(t, fds[i].value), fds, i + 1);
      } else {
        RefsKeep(t, fds, i + 1);
      }
    }
  }

  lemma NewRingOk(t: PipeTable, j: nat)
    requires RingsOk(t) && SlotsHeld(t) && j < 4
    ensures RingsOk(t[j := Some(NewPipe())]) && SlotsHeld(t[j := Some(NewPipe())])
    ensures Contents(NewPipe()) == []
  {
  }

  lemma TransferKeeps(t: PipeTable, p: nat, data: seq<Byte>, n: nat)
    requires RingsOk(t) && SlotsHeld(t) && p < 4 && t[p].Some?
    ensures var q := t[p].value;
            && (n <= q.len ==> RingsOk(t[p := Some(Taken(q, n))]) && SlotsHeld(t[p := Some(Taken(q, n))]))
            && RingsOk(t[p := Some(Stored(q, Accepted(q, data)))]) && SlotsHeld(t[p := Some(Stored(q, Accepted(q, data)))])
  {
    var q := t[p].value;
    if n <= q.len {
      TakeFront(q, n);
    }
    StoreBack(q, Accepted(q, data));
  }

  lemma PipesKept(k: Kernel, c: Call)
    requires RingsOk(k.pipes) && SlotsHeld(k.pipes)
    ensures RingsOk(Do(k, c).k.pipes) && SlotsHeld(Do(k, c).k.pipes)
  {
    hide RingsOk, SlotsHeld, AddRef, DropRef, AddRefs, Taken, Stored, Accepted, NewPipe, FreeFd, FreePid, Fs.WriteFile, Fs.ReadFile;
    match c {
      case PipeNew(id) =>
        if FreePipe(k.pipes, 0) < 4 {
          NewRingOk(k.pipes, FreePipe(k.pipes, 0));
        }
      case Read(id, fd, len) =>
        match FdAt(k, id, fd) {
          case Some(PipeRead(p)) => if p < 4 && k.pipes[p].Some? { TransferKeeps(k.pipes, p, [], Min(len, k.pipes[p].value.len)); }
          case _ =>
        }
      case Write(id, fd, data) =>
        match FdAt(k, id, fd) {
          case Some(PipeWrite(p)) => if p < 4 && k.pipes[p].Some? { TransferKeeps(k.pipes, p, data, 0); }
          case _ =>
        }
      case Close(id, fd) =>
        if FdAt(k, id, fd).Some? { RefKeeps(k.pipes, FdAt(k, id, fd).value); }
      case Dup(id, fd) =>
        if FdAt(k, id, fd).Some? { RefKeeps(k.pipes, FdAt(k, id, fd).value); }
      case Dup2(id, fd, newFd) =>
        if FdAt(k, id, fd).Some? {
          RefKeeps(k.pipes, FdAt(k, id, fd).value);
          if FdAt(k, id, newFd).Some? {
            RefKeeps(k.pipes, FdAt(k, id, newFd).value);
            RefKeeps(CloseAt(k, id, newFd).k.pipes, FdAt(k, id, fd).value);
          }
        }
      case Fork(id, allowed) =>
        if id in k.procs { RefsKeep(k.pipes, k.procs[id].fds, 0); }
      case _ =>
    }
  }

  lemma PidsKept(k: Kernel, c: Call)
    requires Pids(k.procs) && RingsOk(k.pipes)
    ensures Pids(Do(k, c).k.procs)
  {
    hide RingsOk, AddRef, DropRef, AddRefs, Taken, Stored, Accepted, NewPipe, FreeFd, Fs.WriteFile, Fs.ReadFile, Contents;
  }

  /** Every call, by any process, keeps the reference invariant. */
  lemma InvKept(k: Kernel, c: Call)
    requires Inv(k)
    ensures Inv(Do(k, c).k)
  {
    hide RingsOk, SlotsHeld, Pids, RefsBelow, OpenCount, Leak;
    var k' := Do(k, c).k;
    PipesKept(k, c);
    PidsKept(k, c);
    forall e: FdEntry | IsEnd(e) ensures Refs(k', e) <= OpenCount(k'.pipes, e) {
      assert Refs(k, e) <= OpenCount(k.pipes, e);
      Conservation(k, c, e);
      RefsBounded(k'.procs, e, PID_LIMIT);
    }
  }

  // ---- Runs ----

  /** The kernel after a sequence of calls, by any processes in any order. */
  function Run(k: Kernel, cs: seq<Call>): Kernel
    decreases |cs|
  {
    if cs == [] || !RingsOk(k.pipes) then k else Run(Do(k, cs[0]).k, cs[1..])
  }

  /** No process holds a descriptor and no pipe exists. */
  predicate Booted(k: Kernel) {
    k.procs == map[] && k.pipes == [None, None, None, None]
  }

  lemma {:induction false} NoRefs(e: FdEntry, n: nat)
    ensures RefsBelow(map[], e, n) == 0
  {
    if n > 0 {
      NoRefs(e, n - 1);
    }
  }

  lemma BootedInv(k: Kernel)
    requires Booted(k)
    ensures Inv(k)
    ensures forall e: FdEntry :: IsEnd(e) ==> Excess(k, e) == 0
  {
    forall e: FdEntry | IsEnd(e) ensures Refs(k, e) == 0 {
      NoRefs(e, PID_LIMIT);
    }
  }

  lemma {:induction false} RunInv(k: Kernel, cs: seq<Call>)
    requires Inv(k)
    ensures Inv(Run(k, cs))
    decreases |cs|
  {
    hide Inv, Do;
    InvRings(k);
    if cs != [] {
      InvKept(k, cs[0]);
      RunInv(Do(k, cs[0]).k, cs[1..]);
    }
  }

  /** Over every run from boot: an fd naming an end of a pipe names a live pipe, whose count for that
      end is at least the number of fds, in all processes, that name it. */
  lemma NeverDangling(k: Kernel, cs: seq<Call>, id: nat, fd: nat)
    requires Booted(k)
    requires var x := FdAt(Run(k, cs), id, fd); x.Some? && IsEnd(x.value)
    ensures var k' := Run(k, cs);
            var e := FdAt(k', id, fd).value;
            Live(k'.pipes, e) && OpenCount(k'.pipes, e) >= Refs(k', e) >= 1
  {
    hide Inv, Run, RefsBelow, OpenCount, Booted;
    BootedInv(k);
    RunInv(k, cs);
    HeldEnd(Run(k, cs), id, fd);
  }

  /** Leaked counts of end `e` over a run. */
  function Leaked(k: Kernel, cs: seq<Call>, e: FdEntry): nat
    decreases |cs|
  {
    if cs == [] || !RingsOk(k.pipes) then 0
    else Leak(k, cs[0], e) + Leaked(Do(k, cs[0]).k, cs[1..], e)
  }

  /** As long as no count has reached its ceiling, the excess of an end is exactly what leaked. */
  ghost predicate BelowCeiling(k: Kernel, cs: seq<Call>, e: FdEntry)
    requires IsEnd(e)
    decreases |cs|
  {
    if cs == [] || !RingsOk(k.pipes) then OpenCount(k.pipes, e) < MAX_COUNT
    else OpenCount(k.pipes, e) < MAX_COUNT && BelowCeiling(Do(k, cs[0]).k, cs[1..], e)
  }

  lemma {:induction false} ExcessIsLeaked(k: Kernel, cs: seq<Call>, e: FdEntry)
    requires Inv(k) && IsEnd(e) && BelowCeiling(k, cs, e)
    ensures Excess(Run(k, cs), e) == Excess(k, e) + Leaked(k, cs, e)
    decreases |cs|
  {
    hide Inv, Do, Leak, OpenCount, RefsBelow;
    InvRings(k);
    if cs != [] {
      InvKept(k, cs[0]);
      Conservation(k, cs[0], e);
      CeilingHead(Do(k, cs[0]).k, cs[1..], e);
      ExcessIsLeaked(Do(k, cs[0]).k, cs[1..], e);
    }
  }

  lemma CeilingHead(k: Kernel, cs: seq<Call>, e: FdEntry)
    requires IsEnd(e) && BelowCeiling(k, cs, e)
    ensures OpenCount(k.pipes, e) < MAX_COUNT
  {
  }

  ghost predicate Exact(k: Kernel) {
    forall e: FdEntry :: IsEnd(e) ==> Excess(k, e) == 0
  }

  /** One call from exact counts: they are exact again if and only if the call leaks nothing. */
  lemma ExactIff(k: Kernel, c: Call)
    requires Inv(k) && Exact(k)
    ensures Exact(Do(k, c).k) <==> forall e: FdEntry :: IsEnd(e) ==> Leak(k, c, e) == 0
  {
    hide Inv, Do, Leak, OpenCount, RefsBelow;
    InvRings(k);
    forall e: FdEntry | IsEnd(e) ensures Excess(Do(k, c).k, e) == Leak(k, c, e) {
      assert Excess(k, e) == 0;
      Conservation(k, c, e);
      RefsBounded(k.procs, e, PID_LIMIT);
    }
  }

  /** No call of the run fails after counting, and no process is dropped holding an end. */
  ghost predicate LeakFree(k: Kernel, cs: seq<Call>)
    decreases |cs|
  {
    cs == [] || !RingsOk(k.pipes)
    || ((forall e: FdEntry :: IsEnd(e) ==> Leak(k, cs[0], e) == 0) && LeakFree(Do(k, cs[0]).k, cs[1..]))
  }

  /** Over every leak-free run from boot the counts are exactly the live references. */
  lemma {:induction false} LeakFreeExact(k: Kernel, cs: seq<Call>)
    requires Inv(k) && Exact(k) && LeakFree(k, cs)
    ensures Exact(Run(k, cs))
    decreases |cs|
  {
    hide Inv, Do, Leak, OpenCount, RefsBelow, Exact;
    InvRings(k);
    if cs != [] {
      InvKept(k, cs[0]);
      ExactIff(k, cs[0]);
      LeakFreeExact(Do(k, cs[0]).k, cs[1..]);
    }
  }

  /** A count that is too high stays too high, whatever is called afterwards: the slot is never freed. */
  lemma {:induction false} LeakedForever(k: Kernel, cs: seq<Call>, e: FdEntry)
    requires Inv(k) && IsEnd(e) && Excess(k, e) > 0
    ensures Excess(Run(k, cs), e) > 0
    ensures Live(Run(k, cs).pipes, e)
    decreases |cs|
  {
    hide Inv, Do, Leak, OpenCount, RefsBelow, Live;
    InvRings(k);
    CountBounded(k.pipes, e);
    if cs != [] {
      InvKept(k, cs[0]);
      Conservation(k, cs[0], e);
      RefsBounded(Do(k, cs[0]).k.procs, e, PID_LIMIT);
      LeakedForever(Do(k, cs[0]).k, cs[1..], e);
    }
  }

  /** Any call that leaks a reference to an end keeps that pipe's slot taken for good. */
  lemma LeakNeverReclaimed(k: Kernel, c: Call, e: FdEntry, cs: seq<Call>)
    requires Inv(k) && IsEnd(e) && Leak(k, c, e) > 0
    ensures Live(Run(Do(k, c).k, cs).pipes, e)
  {
    hide Inv, Do, Leak, OpenCount, RefsBelow, Live, Run;
    InvRings(k);
    InvKept(k, c);
    Conservation(k, c, e);
    RefsBounded(Do(k, c).k.procs, e, PID_LIMIT);
    NotNegative(k, e);
    LeakedForever(Do(k, c).k, cs, e);
  }

  lemma NotNegative(k: Kernel, e: FdEntry)
    requires Inv(k) && IsEnd(e)
    ensures Excess(k, e) >= 0
  {
    hide RefsBelow, OpenCount;
    assert Refs(k, e) <= OpenCount(k.pipes, e);
  }

  // ---- A run that leaks ----

  /** Process 1 installed, then two pipes made: its four descriptors are the four ends. */
  function FullTableRun(): seq<Call> {
    [Install(1), PipeNew(1), PipeNew(1)]
  }

  function FourEnds(): FdTable {
    [Some(PipeRead(0)), Some(PipeWrite(0)), Some(PipeRead(1)), Some(PipeWrite(1))]
  }

  lemma OneInstalled(k: Kernel)
    requires Booted(k)
    ensures Do(k, Install(1)).k == Kernel(k.disk, map[1 := Proc(NO_FDS, None)], k.pipes)
    ensures RingsOk(k.pipes)
    ensures forall e :: Leak(k, Install(1), e) == 0
  {
  }

  lemma NewPipeState(k: Kernel, p: nat, r: nat, w: nat)
    requires k.procs.Keys == {1} && p < 4 && r < 4 && w < 4
    requires FreePipe(k.pipes, 0) == p && FreeFd(k.procs[1].fds, 0) == r && FreeFd(k.procs[1].fds, r + 1) == w
    ensures CreatePipe(k, 1).k
            == Kernel(k.disk, map[1 := k.procs[1].(fds := k.procs[1].fds[r := Some(PipeRead(p))][w := Some(PipeWrite(p))])],
                      k.pipes[p := Some(NewPipe())])
  {
    hide NewPipe, FreePipe, FreeFd;
    assert CreatePipe(k, 1).k.procs
           == map[1 := k.procs[1].(fds := k.procs[1].fds[r := Some(PipeRead(p))][w := Some(PipeWrite(p))])];
  }

  lemma FirstPipe(k: Kernel)
    requires k.procs == map[1 := Proc(NO_FDS, None)] && k.pipes == [None, None, None, None]
    ensures CreatePipe(k, 1).k == Kernel(k.disk, map[1 := Proc([Some(PipeRead(0)), Some(PipeWrite(0)), None, None], None)],
                                         [Some(NewPipe()), None, None, None])
    ensures forall e :: Leak(k, PipeNew(1), e) == 0
  {
    hide NewPipe;
    assert FreePipe(k.pipes, 0) == 0 && FreeFd(NO_FDS, 0) == 0 && FreeFd(NO_FDS, 1) == 1;
    NewPipeState(k, 0, 0, 1);
    assert NO_FDS[0 := Some(PipeRead(0))][1 := Some(PipeWrite(0))] == [Some(PipeRead(0)), Some(PipeWrite(0)), None, None];
    assert k.pipes[0 := Some(NewPipe())] == [Some(NewPipe()), None, None, None];
  }

  lemma SecondPipe(k: Kernel)
    requires k.procs == map[1 := Proc([Some(PipeRead(0)), Some(PipeWrite(0)), None, None], None)]
    requires k.pipes == [Some(NewPipe()), None, None, None]
    ensures CreatePipe(k, 1).k == Kernel(k.disk, map[1 := Proc(FourEnds(), None)], [Some(NewPipe()), Some(NewPipe()), None, None])
    ensures forall e :: Leak(k, PipeNew(1), e) == 0
  {
    hide NewPipe;
    var fds := k.procs[1].fds;
    assert FreePipe(k.pipes, 0) == 1;
    assert FreeFd(fds, 0) == 2 && FreeFd(fds, 3) == 3;
    NewPipeState(k, 1, 2, 3);
    assert fds[2 := Some(PipeRead(1))][3 := Some(PipeWrite(1))] == FourEnds();
    assert k.pipes[1 := Some(NewPipe())] == [Some(NewPipe()), Some(NewPipe()), None, None];
  }

  lemma ThreeCalls(k: Kernel, a: Call, b: Call, c: Call)
    requires Inv(k)
    ensures var k1 := Do(k, a).k;
            Inv(k1) && Inv(Do(k1, b).k) && Run(k, [a, b, c]) == Do(Do(k1, b).k, c).k
    ensures var k1 := Do(k, a).k;
            var k2 := Do(k1, b).k;
            (forall e :: Leak(k, a, e) == 0 && Leak(k1, b, e) == 0 && Leak(k2, c, e) == 0) ==> LeakFree(k, [a, b, c])
  {
    hide Inv, Do, Leak;
    InvRings(k);
    InvKept(k, a);
    var k1 := Do(k, a).k;
    InvRings(k1);
    InvKept(k1, b);
    var k2 := Do(k1, b).k;
    InvRings(k2);
    var cs := [a, b, c];
    assert cs[1..] == [b, c] && [b, c][1..] == [c] && [c][1..] == [];
    var k3 := Do(k2, c).k;
    assert Run(k3, []) == k3 && Run(k2, [c]) == k3 && Run(k1, [b, c]) == k3;
    if forall e :: Leak(k, a, e) == 0 && Leak(k1, b, e) == 0 && Leak(k2, c, e) == 0 {
      assert LeakFree(k3, []) && LeakFree(k2, [c]) && LeakFree(k1, [b, c]);
    }
  }

  lemma FullTableReached(k: Kernel)
    requires Booted(k)
    ensures Run(k, FullTableRun()) == Kernel(k.disk, map[1 := Proc(FourEnds(), None)], [Some(NewPipe()), Some(NewPipe()), None, None])
    ensures LeakFree(k, FullTableRun())
  {
    hide Inv, Leak, CreatePipe, LeakFree, NewPipe, Run;
    BootedInv(k);
    ThreeCalls(k, Install(1), PipeNew(1), PipeNew(1));
    OneInstalled(k);
    var k1 := Do(k, Install(1)).k;
    InvRings(k1);
    FirstPipe(k1);
    var k2 := Do(k1, PipeNew(1)).k;
    InvRings(k2);
    SecondPipe(k2);
  }

  lemma FailedDup(k: Kernel)
    requires k.procs == map[1 := Proc(FourEnds(), None)] && RingsOk(k.pipes)
    ensures Do(k, Dup(1, 0)).reply == Fail && Leak(k, Dup(1, 0), PipeRead(0)) == 1
  {
    assert FreeFd(FourEnds(), 0) == 4;
  }

  /** The counts do go wrong: from boot, a process makes two pipes, so its descriptor table is full; the counts
      are exact. A dup of its first descriptor then fails, but has counted: the read end of pipe 0 is counted
      once more than it is named, and whatever is called afterwards that pipe's slot stays taken. */
  lemma FailedDupLeaks(k: Kernel, later: seq<Call>)
    requires Booted(k)
    ensures var k1 := Run(k, FullTableRun());
            && Inv(k1) && Exact(k1)
            && Do(k1, Dup(1, 0)).reply == Fail
            && Excess(Do(k1, Dup(1, 0)).k, PipeRead(0)) == 1
            && Live(Run(Do(k1, Dup(1, 0)).k, later).pipes, PipeRead(0))
  {
    hide Inv, Leak, LeakFree, Run, Do, RefsBelow, OpenCount, Live, NewPipe, FourEnds, FullTableRun;
    var e := PipeRead(0);
    var k1 := Run(k, FullTableRun());
    BootedInv(k);
    RunInv(k, FullTableRun());
    FullTableReached(k);
    LeakFreeExact(k, FullTableRun());
    InvRings(k1);
    FailedDup(k1);
    assert Excess(k1, e) == 0;
    Conservation(k1, Dup(1, 0), e);
    RefsBounded(k1.procs, e, PID_LIMIT);
    LeakNeverReclaimed(k1, Dup(1, 0), e, later);
  }

  /** A new pipe takes a slot no descriptor names, so an old descriptor never reaches it. */
  lemma NewPipeUnnamed(k: Kernel, id: nat, m: nat, fd: nat)
    requires Inv(k) && CreatePipe(k, id).reply.FdPair? && FdAt(k, m, fd).Some?
    ensures IsEnd(FdAt(k, m, fd).value) ==> FdAt(k, m, fd).value.pipe != FreePipe(k.pipes, 0)
  {
    hide RefsBelow, Inv, FreePipe, FreeFd;
    FreePipeRange(k.pipes);
    if IsEnd(FdAt(k, m, fd).value) {
      NoDangling(k, m, fd);
    }
  }

  // ---- First in, first out ----

  /** Bytes this call puts into pipe `p`. */
  function Put(k: Kernel, c: Call, p: nat): seq<Byte>
    requires RingsOk(k.pipes)
  {
    if c.Write? && p < 4 && k.pipes[p].Some? && FdAt(k, c.id, c.fd) == Some(PipeWrite(p))
    then c.data[..Do(k, c).reply.count]
    else []
  }

  /** Bytes this call returns from pipe `p`. */
  function Got(k: Kernel, c: Call, p: nat): seq<Byte>
    requires RingsOk(k.pipes)
  {
    if c.Read? && p < 4 && k.pipes[p].Some? && FdAt(k, c.id, c.fd) == Some(PipeRead(p))
    then Do(k, c).reply.bytes
    else []
  }

  function Buffered(k: Kernel, p: nat): seq<Byte>
    requires RingsOk(k.pipes) && p < 4 && k.pipes[p].Some?
  {
    Contents(k.pipes[p].value)
  }

  lemma RefSameBytes(t: PipeTable, x: FdEntry, p: nat)
    requires RingsOk(t) && p < 4 && t[p].Some?
    ensures RingsOk(AddRef(t, x)) && AddRef(t, x)[p].Some? && Contents(AddRef(t, x)[p].value) == Contents(t[p].value)
    ensures RingsOk(DropRef(t, x)) && (DropRef(t, x)[p].Some? ==> Contents(DropRef(t, x)[p].value) == Contents(t[p].value))
  {
  }

  lemma {:induction false} RefsSameBytes(t: PipeTable, fds: FdTable, i: nat, p: nat)
    requires RingsOk(t) && p < 4 && t[p].Some? && i <= 4
    ensures RingsOk(AddRefs(t, fds, i)) && AddRefs(t, fds, i)[p].Some?
    ensures Contents(AddRefs(t, fds, i)[p].value) == Contents(t[p].value)
    decreases 4 - i
  {
    hide AddRef, Contents;
    if i < 4 {
      if fds[i].Some? {
        RefSameBytes(t, fds[i].value, p);
        RefsSameBytes(AddRef(t, fds[i].value), fds, i + 1, p);
      } else {
        RefsSameBytes(t, fds, i + 1, p);
      }
    }
  }

  /** Calls that are neither a read nor a write leave the bytes of a pipe that stays alone. */
  lemma OthersKeepBytes(k: Kernel, c: Call, p: nat)
    requires RingsOk(k.pipes) && SlotsHeld(k.pipes) && p < 4 && k.pipes[p].Some?
    requires !c.Read? && !c.Write?
    ensures RingsOk(Do(k, c).k.pipes)
    ensures Do(k, c).k.pipes[p].Some? ==> Buffered(Do(k, c).k, p) == Buffered(k, p)
  {
    hide AddRef, DropRef, AddRefs, NewPipe, FreeFd, FreePid, Fs.WriteFile, Fs.ReadFile, Contents, RingsOk, SlotsHeld;
    PipesKept(k, c);
    match c {
      case PipeNew(id) => FreePipeRange(k.pipes);
      case Close(id, fd) =>
        if FdAt(k, id, fd).Some? { RefSameBytes(k.pipes, FdAt(k, id, fd).value, p); }
      case Dup(id, fd) =>
        if FdAt(k, id, fd).Some? { RefSameBytes(k.pipes, FdAt(k, id, fd).value, p); }
      case Dup2(id, fd, newFd) =>
        if FdAt(k, id, fd).Some? {
          RefSameBytes(k.pipes, FdAt(k, id, fd).value, p);
          if FdAt(k, id, newFd).Some? {
            RefSameBytes(k.pipes, FdAt(k, id, newFd).value, p);
            var k1 := CloseAt(k, id, newFd).k;
            if k1.pipes[p].Some? {
              RefSameBytes(k1.pipes, FdAt(k, id, fd).value, p);
            } else {
              AddRefDead(k1.pipes, FdAt(k, id, fd).value, p);
            }
          }
        }
      case Fork(id, allowed) =>
        if id in k.procs { RefsSameBytes(k.pipes, k.procs[id].fds, 0, p); }
      case _ =>
    }
  }

  lemma AddRefDead(t: PipeTable, x: FdEntry, p: nat)
    requires p < 4 && t[p].None?
    ensures AddRef(t, x)[p].None?
  {
  }

  /** One call: what a pipe held plus what went in is what came out plus what it holds now. */
  lemma FifoStep(k: Kernel, c: Call, p: nat)
    requires Inv(k) && p < 4 && k.pipes[p].Some? && Do(k, c).k.pipes[p].Some?
    ensures RingsOk(Do(k, c).k.pipes)
    ensures Got(k, c, p) + Buffered(Do(k, c).k, p) == Buffered(k, p) + Put(k, c, p)
  {
    hide Contents, Taken, Stored, Pids, RefsBelow, OpenCount;
    PipesKept(k, c);
    if c.Read? {
      match FdAt(k, c.id, c.fd) {
        case Some(PipeRead(q)) => if q < 4 && k.pipes[q].Some? { TakeFront(k.pipes[q].value, Min(c.len, k.pipes[q].value.len)); }
        case _ =>
      }
    } else if c.Write? {
      match FdAt(k, c.id, c.fd) {
        case Some(PipeWrite(q)) => if q < 4 && k.pipes[q].Some? { StoreBack(k.pipes[q].value, Accepted(k.pipes[q].value, c.data)); }
        case _ =>
      }
    } else {
      OthersKeepBytes(k, c, p);
    }
  }

  /** Pipe `p` exists before every call of the run and after the last. */
  predicate Lives(k: Kernel, cs: seq<Call>, p: nat)
    decreases |cs|
  {
    p < 4 && k.pipes[p].Some? && RingsOk(k.pipes) && (cs == [] || Lives(Do(k, cs[0]).k, cs[1..], p))
  }

  function AllPut(k: Kernel, cs: seq<Call>, p: nat): seq<Byte>
    decreases |cs|
  {
    if cs == [] || !RingsOk(k.pipes) then [] else Put(k, cs[0], p) + AllPut(Do(k, cs[0]).k, cs[1..], p)
  }

  function AllGot(k: Kernel, cs: seq<Call>, p: nat): seq<Byte>
    decreases |cs|
  {
    if cs == [] || !RingsOk(k.pipes) then [] else Got(k, cs[0], p) + AllGot(Do(k, cs[0]).k, cs[1..], p)
  }

  lemma LivesEnd(k: Kernel, cs: seq<Call>, p: nat)
    requires Inv(k) && Lives(k, cs, p)
    ensures p < 4 && Run(k, cs).pipes[p].Some? && RingsOk(Run(k, cs).pipes)
    decreases |cs|
  {
    hide Inv, Do;
    InvRings(k);
    if cs != [] {
      InvKept(k, cs[0]);
      LivesEnd(Do(k, cs[0]).k, cs[1..], p);
    }
  }

  lemma LivesTail(k: Kernel, cs: seq<Call>, p: nat)
    requires Lives(k, cs, p)
    ensures p < 4 && k.pipes[p].Some? && RingsOk(k.pipes)
    ensures cs != [] ==> Lives(Do(k, cs[0]).k, cs[1..], p) && Do(k, cs[0]).k.pipes[p].Some?
  {
    hide Do;
  }

  lemma SplitChain(g: seq<Byte>, g2: seq<Byte>, b1: seq<Byte>, b2: seq<Byte>, b3: seq<Byte>, w: seq<Byte>, w2: seq<Byte>)
    requires g + b2 == b1 + w && g2 + b3 == b2 + w2
    ensures (g + g2) + b3 == b1 + (w + w2)
  {
    calc {
      (g + g2) + b3;
    == g + (g2 + b3);
    == g + (b2 + w2);
    == (g + b2) + w2;
    == (b1 + w) + w2;
    == b1 + (w + w2);
    }
  }

  /** FIFO over any stretch of a pipe's life: the bytes read by all holders, then the bytes still
      buffered, are the bytes buffered before, then everything accepted from all writers, in order. */
  lemma {:induction false} Fifo(k: Kernel, cs: seq<Call>, p: nat)
    requires Inv(k) && Lives(k, cs, p)
    ensures p < 4 && k.pipes[p].Some? && RingsOk(k.pipes)
    ensures Run(k, cs).pipes[p].Some? && RingsOk(Run(k, cs).pipes)
    ensures AllGot(k, cs, p) + Buffered(Run(k, cs), p) == Buffered(k, p) + AllPut(k, cs, p)
    decreases |cs|
  {
    hide Inv, Do, Put, Got, Buffered, RingsOk, Lives;
    InvRings(k);
    LivesTail(k, cs, p);
    LivesEnd(k, cs, p);
    if cs == [] {
      assert [] + Buffered(k, p) == Buffered(k, p) + [];
    } else {
      var k1 := Do(k, cs[0]).k;
      InvKept(k, cs[0]);
      InvRings(k1);
      FifoStep(k, cs[0], p);
      Fifo(k1, cs[1..], p);
      SplitChain(Got(k, cs[0], p), AllGot(k1, cs[1..], p), Buffered(k, p), Buffered(k1, p), Buffered(Run(k, cs), p),
                 Put(k, cs[0], p), AllPut(k1, cs[1..], p));
    }
  }

  /** From the call that creates a pipe: everything read so far, then everything buffered, is
      everything written so far; at most 512 bytes are in between. */
  lemma FifoFromCreation(k: Kernel, id: nat, cs: seq<Call>)
    requires Inv(k) && CreatePipe(k, id).reply.FdPair?
    requires Lives(CreatePipe(k, id).k, cs, FreePipe(k.pipes, 0))
    ensures var k1, p := CreatePipe(k, id).k, FreePipe(k.pipes, 0);
            && p < 4 && Run(k1, cs).pipes[p].Some? && RingsOk(Run(k1, cs).pipes)
            && AllGot(k1, cs, p) + Buffered(Run(k1, cs), p) == AllPut(k1, cs, p)
            && |Buffered(Run(k1, cs), p)| <= PIPE_CAPACITY
  {
    hide Inv, Do, AllPut, AllGot, Run, Lives, FreePipe, FreeFd;
    var k1, p := CreatePipe(k, id).k, FreePipe(k.pipes, 0);
    FreePipeRange(k.pipes);
    CreatedInv(k, id);
    Fifo(k1, cs, p);
    assert Buffered(k1, p) == [];
    assert [] + AllPut(k1, cs, p) == AllPut(k1, cs, p);
  }

  lemma CreatedInv(k: Kernel, id: nat)
    requires Inv(k)
    ensures Inv(CreatePipe(k, id).k)
  {
    hide Inv, CreatePipe;
    InvRings(k);
    InvKept(k, PipeNew(id));
  }

  // ---- Which descriptors a call makes ----

  /** Every descriptor but `fd` of `id` names what it named. */
  ghost predicate OthersSame(k: Kernel, k': Kernel, id: nat, fd: nat) {
    forall i: nat, f: nat :: i != id || f != fd ==> FdAt(k', i, f) == FdAt(k, i, f)
  }

  /** A new pipe's two ends take the process's two lowest free descriptors, read end first. */
  lemma NewPipeEnds(k: Kernel, id: nat)
    requires CreatePipe(k, id).reply.FdPair?
    ensures var k', r, w, p := CreatePipe(k, id).k, CreatePipe(k, id).reply.readFd, CreatePipe(k, id).reply.writeFd, FreePipe(k.pipes, 0);
            && FdAt(k', id, r) == Some(PipeRead(p)) && FdAt(k', id, w) == Some(PipeWrite(p))
            && FdAt(k, id, r).None? && FdAt(k, id, w).None? && r < w < 4
            && (forall f: nat :: f < w && f != r ==> FdAt(k, id, f).Some?)
            && (forall i: nat, f: nat :: i != id || (f != r && f != w) ==> FdAt(k', i, f) == FdAt(k, i, f))
            && k.pipes[p].None? && k'.pipes[p] == Some(NewPipe())
  {
    hide FreePipe, NewPipe;
    FreePipeRange(k.pipes);
  }

  /** dup names the same end or file from the lowest free descriptor, and disturbs no other. */
  lemma DupShares(k: Kernel, id: nat, fd: nat)
    requires DupAt(k, id, fd).reply.Fd?
    ensures var k', i := DupAt(k, id, fd).k, DupAt(k, id, fd).reply.fd;
            && FdAt(k, id, fd).Some? && FdAt(k', id, i) == FdAt(k, id, fd)
            && FdAt(k, id, i).None? && (forall f: nat :: f < i ==> FdAt(k, id, f).Some?)
            && OthersSame(k, k', id, i)
  {
    hide AddRef;
  }

  /** dup2 makes exactly the chosen descriptor name the same end or file. */
  lemma Dup2Shares(k: Kernel, id: nat, fd: nat, newFd: nat)
    requires Dup2At(k, id, fd, newFd).reply == Flag(true)
    ensures var k' := Dup2At(k, id, fd, newFd).k;
            FdAt(k, id, fd).Some? && FdAt(k', id, newFd) == FdAt(k, id, fd) && OthersSame(k, k', id, newFd)
  {
    hide AddRef, DropRef, Fs.WriteFile;
  }

  /** A forked child's descriptors name what its parent's do; every other process keeps its own. */
  lemma ForkShares(k: Kernel, id: nat, allowed: bool)
    requires ForkAt(k, id, allowed).reply.Fd?
    ensures var k', pid := ForkAt(k, id, allowed).k, ForkAt(k, id, allowed).reply.fd;
            && PID_TABLE_BASE <= pid < PID_LIMIT && pid !in k.procs && pid in k'.procs && k'.procs[pid].parent == Some(id)
            && (forall f: nat :: FdAt(k', pid, f) == FdAt(k, id, f))
            && (forall i: nat, f: nat :: i != pid ==> FdAt(k', i, f) == FdAt(k, i, f))
  {
    hide AddRefs, FreePid;
    FreePidRange(k.procs);
  }
}
