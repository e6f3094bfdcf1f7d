/** Reference counts of pipe ends: never too low, and exactly how far too high. */
module DescriptorRefs {
  import opened Common
  import opened Descriptors

  // ---- Counting references ----

  function One(x: Option<FdEntry>, e: FdEntry): nat {
    if x == Some(e) then 1 else 0
  }

  /** Slots of one fd table that name `e`. */
  function CountFds(fds: FdTable, e: FdEntry): nat {
    One(fds[0], e) + One(fds[1], e) + One(fds[2], e) + One(fds[3], e)
  }

  /** Slots of processes with ids below `n` that name `e`. */
  function RefsBelow(procs: map<nat, Proc>, e: FdEntry, n: nat): nat {
    if n == 0 then 0
    else RefsBelow(procs, e, n - 1) + (if n - 1 in procs then CountFds(procs[n - 1].fds, e) else 0)
  }

  /** Live references: fd slots, in any process, that name `e`. */
  function Refs(k: Kernel, e: FdEntry): nat {
    RefsBelow(k.procs, e, PID_LIMIT)
  }

  /** The count the kernel keeps for end `e`; 0 for a freed slot. */
  function OpenCount(t: PipeTable, e: FdEntry): nat
    requires IsEnd(e)
  {
    if !Live(t, e) then 0
    else if e.PipeRead? then t[e.pipe].value.readOpen
    else t[e.pipe].value.writeOpen
  }

  /** How far the kernel's count is above the live references. */
  function Excess(k: Kernel, e: FdEntry): int
    requires IsEnd(e)
  {
    OpenCount(k.pipes, e) - Refs(k, e)
  }

  function Share(procs: map<nat, Proc>, id: nat, e: FdEntry): nat {
    if id in procs then CountFds(procs[id].fds, e) else 0
  }

  lemma {:induction false} RefsChange(a: map<nat, Proc>, b: map<nat, Proc>, id: nat, e: FdEntry, n: nat)
    requires forall m :: m != id ==> (m in a <==> m in b) && (m in a ==> a[m] == b[m])
    ensures RefsBelow(b, e, n) == RefsBelow(a, e, n) + (if id < n then Share(b, id, e) - Share(a, id, e) else 0)
  {
    if n > 0 {
      RefsChange(a, b, id, e, n - 1);
      hide RefsBelow, CountFds;
      assert n - 1 != id ==> Share(a, n - 1, e) == Share(b, n - 1, e);
      RefsUnfold(a, e, n);
      RefsUnfold(b, e, n);
    }
  }

  lemma RefsUnfold(a: map<nat, Proc>, e: FdEntry, n: nat)
    requires n > 0
    ensures RefsBelow(a, e, n) == RefsBelow(a, e, n - 1) + Share(a, n - 1, e)
  {
  }

  lemma {:induction false} RefsBounded(a: map<nat, Proc>, e: FdEntry, n: nat)
    ensures RefsBelow(a, e, n) <= 4 * n
  {
    if n > 0 {
      RefsBounded(a, e, n - 1);
    }
  }

  lemma {:induction false} RefsInclude(a: map<nat, Proc>, e: FdEntry, id: nat, n: nat)
    requires id in a && id < n
    ensures RefsBelow(a, e, n) >= CountFds(a[id].fds, e)
  {
    if n - 1 != id {
      RefsInclude(a, e, id, n - 1);
    }
  }

  lemma CountPut(fds: FdTable, i: nat, x: Option<FdEntry>, e: FdEntry)
    requires i < 4
    ensures CountFds(fds[i := x], e) == CountFds(fds, e) - One(fds[i], e) + One(x, e)
  {
  }

  /** Setting one fd slot changes the references of `e` by what goes out and what comes in. */
  lemma RefsPut(procs: map<nat, Proc>, id: nat, fd: nat, x: Option<FdEntry>, e: FdEntry)
    requires id in procs && fd < 4 && id < PID_LIMIT
    ensures RefsBelow(PutFd(procs, id, fd, x), e, PID_LIMIT)
            == RefsBelow(procs, e, PID_LIMIT) - One(procs[id].fds[fd], e) + One(x, e)
  {
    hide RefsBelow, CountFds, One;
    RefsChange(procs, PutFd(procs, id, fd, x), id, e, PID_LIMIT);
    CountPut(procs[id].fds, fd, x, e);
  }

  // ---- The kernel's counts ----

  function Capped(n: nat): nat {
    if n > MAX_COUNT then MAX_COUNT else n
  }

  lemma CountAfterAdd(t: PipeTable, x: FdEntry, e: FdEntry)
    requires IsEnd(e)
    ensures OpenCount(AddRef(t, x), e) == if Live(t, e) then Capped(OpenCount(t, e) + One(Some(x), e)) else 0
    ensures Live(AddRef(t, x), e) <==> Live(t, e)
  {
  }

  lemma CountAfterDrop(t: PipeTable, x: FdEntry, e: FdEntry)
    requires IsEnd(e)
    ensures OpenCount(DropRef(t, x), e)
            == if x == e && OpenCount(t, e) > 0 then OpenCount(t, e) - 1 else OpenCount(t, e)
  {
  }

  lemma {:induction false} CountAfterAdds(t: PipeTable, fds: FdTable, i: nat, e: FdEntry)
    requires IsEnd(e) && i <= 4
    ensures OpenCount(AddRefs(t, fds, i), e) == if Live(t, e) then Capped(OpenCount(t, e) + CountFrom(fds, i, e)) else 0
    ensures Live(AddRefs(t, fds, i), e) <==> Live(t, e)
    decreases 4 - i
  {
    hide AddRef, OpenCount, Live;
    if i < 4 {
      var t1 := if fds[i].Some? then AddRef(t, fds[i].value) else t;
      if fds[i].Some? {
        CountAfterAdd(t, fds[i].value, e);
      }
      CountAfterAdds(t1, fds, i + 1, e);
      CountBounded(t, e);
    } else {
      CountBounded(t, e);
    }
  }

  lemma CountBounded(t: PipeTable, e: FdEntry)
    requires IsEnd(e)
    ensures OpenCount(t, e) <= MAX_COUNT
    ensures !Live(t, e) ==> OpenCount(t, e) == 0
  {
  }

  function CountFrom(fds: FdTable, i: nat, e: FdEntry): nat
    requires i <= 4
    decreases 4 - i
  {
    if i == 4 then 0 else One(fds[i], e) + CountFrom(fds, i + 1, e)
  }

  lemma CountFromAll(fds: FdTable, e: FdEntry)
    ensures CountFrom(fds, 0, e) == CountFds(fds, e) <= 4
  {
    assert CountFrom(fds, 3, e) == One(fds[3], e) + CountFrom(fds, 4, e);
    assert CountFrom(fds, 2, e) == One(fds[2], e) + CountFrom(fds, 3, e);
    assert CountFrom(fds, 1, e) == One(fds[1], e) + CountFrom(fds, 2, e);
  }

  // ---- The invariant ----

  predicate Pids(procs: map<nat, Proc>) {
    forall id :: id in procs ==> IsPid(id)
  }

  /** Every end that some open fd names is counted at least as often as it is named; a live slot
      has a holder counted. An end of a freed slot counts 0, so no fd names it. */
  ghost predicate CountsCover(k: Kernel) {
    forall e: FdEntry :: IsEnd(e) ==> Refs(k, e) <= OpenCount(k.pipes, e)
  }

  predicate SlotsHeld(t: PipeTable) {
    forall p :: 0 <= p < 4 && t[p].Some? ==> t[p].value.readOpen + t[p].value.writeOpen > 0
  }

  ghost predicate Inv(k: Kernel) {
    Pids(k.procs) && CountsCover(k) && SlotsHeld(k.pipes) && RingsOk(k.pipes)
  }

  /** No descriptor names a freed pipe slot. */
  lemma NoDangling(k: Kernel, id: nat, fd: nat)
    requires Inv(k) && FdAt(k, id, fd).Some? && IsEnd(FdAt(k, id, fd).value)
    ensures Live(k.pipes, FdAt(k, id, fd).value)
  {
    hide RefsBelow;
    var e := FdAt(k, id, fd).value;
    RefsInclude(k.procs, e, id, PID_LIMIT);
    assert One(k.procs[id].fds[fd], e) == 1;
    assert Refs(k, e) <= OpenCount(k.pipes, e);
  }

  // ---- What each call does to the balance ----

  /** References to `e` that this call takes out of every fd table without taking them off the
      count, or counts without putting them in one. */
  function Leak(k: Kernel, c: Call, e: FdEntry): nat {
    match c
    case PipeNew(id) =>
      if id !in k.procs && IsEnd(e) && FreePipe(k.pipes, 0) < 4 && e.pipe == FreePipe(k.pipes, 0) then 1 else 0
    case Dup(id, fd) =>
      if FdAt(k, id, fd) == Some(e) && FreeFd(k.procs[id].fds, 0) == 4 then 1 else 0
    case Fork(id, allowed) =>
      if allowed && id in k.procs && FreePid(k.procs, PID_TABLE_BASE) == PID_LIMIT then CountFds(k.procs[id].fds, e) else 0
    case Kill(id, target) =>
      if KillAt(k, id, target).reply == Flag(true) then Share(k.procs, target, e) else 0
    case Reap(pid) =>
      if PID_TABLE_BASE <= pid < PID_LIMIT then Share(k.procs, pid, e) else 0
    case Install(id) =>
      if 1 <= id <= 7 then Share(k.procs, id, e) else 0
    case _ => 0
  }

  /** The excess of `e` moved by exactly `leak`, unless the count stands at its ceiling. */
  predicate Balanced(k: Kernel, k': Kernel, e: FdEntry, leak: nat)
    requires IsEnd(e)
  {
    && OpenCount(k'.pipes, e) <= OpenCount(k.pipes, e) + 4
    && (OpenCount(k'.pipes, e) == MAX_COUNT || Excess(k', e) == Excess(k, e) + leak)
  }

  lemma CreateBalance(k: Kernel, id: nat, e: FdEntry)
    requires Inv(k) && IsEnd(e)
    ensures Balanced(k, CreatePipe(k, id).k, e, Leak(k, PipeNew(id), e))
  {
    hide RefsBelow, RingsOk, FreeFd, FreePipe, CountFds;
    var j := FreePipe(k.pipes, 0);
    FreePipeRange(k.pipes);
    if j < 4 && id in k.procs {
      FreeFdRange(k.procs[id].fds, 0);
      var r := FreeFd(k.procs[id].fds, 0);
      if r < 4 {
        FreeFdRange(k.procs[id].fds, r + 1);
        var w := FreeFd(k.procs[id].fds, r + 1);
        if w < 4 {
          RefsPut(k.procs, id, r, Some(PipeRead(j)), e);
          RefsPut(PutFd(k.procs, id, r, Some(PipeRead(j))), id, w, Some(PipeWrite(j)), e);
        }
      }
    }
  }

  lemma FreePipeRange(t: PipeTable)
    ensures FreePipe(t, 0) <= 4 && (FreePipe(t, 0) < 4 ==> t[FreePipe(t, 0)].None?)
  {
  }

  lemma FreeFdRange(fds: FdTable, i: nat)
    requires i <= 4
    ensures i <= FreeFd(fds, i) <= 4 && (FreeFd(fds, i) < 4 ==> fds[FreeFd(fds, i)].None?)
  {
  }

  lemma FileBalance(k: Kernel, c: Call, e: FdEntry)
    requires Inv(k) && IsEnd(e) && (c.Open? || c.Read? || c.Write?)
    ensures Balanced(k, Do(k, c).k, e, 0)
  {
    hide RefsBelow, CountFds, AfterRead, AfterWrite, ReadOpenFile, FileRoom, Contents, Fill;
    hide Fs.ReadFile, FreeFd;
    match c {
      case Open(id, path) =>
        if id in k.procs {
          FreeFdRange(k.procs[id].fds, 0);
          var data := Fs.ReadFile(k.disk, path);
          var i := FreeFd(k.procs[id].fds, 0);
          if i < 4 {
            RefsPut(k.procs, id, i, Some(File(OpenFile(path, if data.Ok? then data.value else [], 0, false))), e);
          }
        }
      case Read(id, fd, len) =>
        match FdAt(k, id, fd) {
          case Some(File(f)) => RefsPut(k.procs, id, fd, Some(File(AfterRead(f, len))), e);
          case _ =>
        }
      case Write(id, fd, data) =>
        match FdAt(k, id, fd) {
          case Some(File(f)) => RefsPut(k.procs, id, fd, Some(File(AfterWrite(f, data))), e);
          case _ =>
        }
    }
  }

  lemma CloseBalance(k: Kernel, id: nat, fd: nat, e: FdEntry)
    requires Inv(k) && IsEnd(e)
    ensures Balanced(k, CloseAt(k, id, fd).k, e, 0)
    ensures Excess(CloseAt(k, id, fd).k, e) == Excess(k, e)
    ensures OpenCount(CloseAt(k, id, fd).k.pipes, e) <= OpenCount(k.pipes, e)
  {
    hide RefsBelow, CountFds, Fs.WriteFile, DropRef, OpenCount;
    if FdAt(k, id, fd).Some? {
      var x := FdAt(k, id, fd).value;
      RefsPut(k.procs, id, fd, None, e);
      CountAfterDrop(k.pipes, x, e);
      HeldEnd(k, id, fd);
    }
  }

  lemma HeldEnd(k: Kernel, id: nat, fd: nat)
    requires Inv(k) && FdAt(k, id, fd).Some?
    ensures var e := FdAt(k, id, fd).value; IsEnd(e) ==> OpenCount(k.pipes, e) >= Refs(k, e) >= 1 && Live(k.pipes, e)
  {
    hide RefsBelow;
    var e := FdAt(k, id, fd).value;
    if IsEnd(e) {
      RefsInclude(k.procs, e, id, PID_LIMIT);
      assert One(k.procs[id].fds[fd], e) == 1;
      NoDangling(k, id, fd);
      assert Refs(k, e) <= OpenCount(k.pipes, e);
    }
  }

  lemma DupBalance(k: Kernel, id: nat, fd: nat, e: FdEntry)
    requires Inv(k) && IsEnd(e)
    ensures Balanced(k, DupAt(k, id, fd).k, e, Leak(k, Dup(id, fd), e))
  {
    hide RefsBelow, CountFds, AddRef, OpenCount, FreeFd, Live;
    if FdAt(k, id, fd).Some? {
      var x := FdAt(k, id, fd).value;
      HeldEnd(k, id, fd);
      CountAfterAdd(k.pipes, x, e);
      CountBounded(k.pipes, e);
      FreeFdRange(k.procs[id].fds, 0);
      var i := FreeFd(k.procs[id].fds, 0);
      if i < 4 {
        RefsPut(k.procs, id, i, Some(x), e);
      }
    }
  }

  lemma CloseInv(k: Kernel, id: nat, fd: nat)
    requires Inv(k)
    ensures Inv(CloseAt(k, id, fd).k)
    ensures CloseAt(k, id, fd).k.procs.Keys == k.procs.Keys
    ensures forall m :: m != fd ==> FdAt(CloseAt(k, id, fd).k, id, m) == FdAt(k, id, m)
    ensures FdAt(CloseAt(k, id, fd).k, id, fd).None?
  {
    hide RefsBelow, CountFds, Fs.WriteFile, OpenCount;
    var k1 := CloseAt(k, id, fd).k;
    forall e: FdEntry | IsEnd(e) ensures Refs(k1, e) <= OpenCount(k1.pipes, e) {
      CloseBalance(k, id, fd, e);
      assert Refs(k, e) <= OpenCount(k.pipes, e);
    }
  }

  lemma Dup2Balance(k: Kernel, id: nat, fd: nat, newFd: nat, e: FdEntry)
    requires Inv(k) && IsEnd(e)
    ensures Balanced(k, Dup2At(k, id, fd, newFd).k, e, 0)
  {
    hide RefsBelow, CountFds, AddRef, OpenCount, Live, CloseAt, Inv;
    if fd != newFd && newFd < 4 && FdAt(k, id, fd).Some? {
      var x := FdAt(k, id, fd).value;
      CloseInv(k, id, newFd);
      CloseBalance(k, id, newFd, e);
      if FdAt(k, id, newFd).None? {
        ClosedNothing(k, id, newFd);
      }
      var k1 := CloseAt(k, id, newFd).k;
      HeldEnd(k1, id, fd);
      CountAfterAdd(k1.pipes, x, e);
      CountBounded(k1.pipes, e);
      InvPid(k, id);
      RefsPut(k1.procs, id, newFd, Some(x), e);
    }
  }

  lemma InvPid(k: Kernel, id: nat)
    requires Inv(k) && id in k.procs
    ensures id < PID_LIMIT
  {
  }

  lemma ClosedNothing(k: Kernel, id: nat, fd: nat)
    requires FdAt(k, id, fd).None?
    ensures CloseAt(k, id, fd).k == k
  {
  }

  lemma ForkBalance(k: Kernel, id: nat, allowed: bool, e: FdEntry)
    requires Inv(k) && IsEnd(e)
    ensures Balanced(k, ForkAt(k, id, allowed).k, e, Leak(k, Fork(id, allowed), e))
  {
    hide RefsBelow, CountFds, AddRefs, OpenCount, FreePid, Live;
    if allowed && id in k.procs {
      var fds := k.procs[id].fds;
      CountAfterAdds(k.pipes, fds, 0, e);
      CountFromAll(fds, e);
      CountBounded(k.pipes, e);
      HeldShare(k, id, e);
      FreePidRange(k.procs);
      var pid := FreePid(k.procs, PID_TABLE_BASE);
      if pid < PID_LIMIT {
        RefsChange(k.procs, k.procs[pid := Proc(fds, Some(id))], pid, e, PID_LIMIT);
      }
    }
  }

  lemma HeldShare(k: Kernel, id: nat, e: FdEntry)
    requires Inv(k) && id in k.procs && IsEnd(e)
    ensures CountFds(k.procs[id].fds, e) > 0 ==> Live(k.pipes, e)
  {
    hide RefsBelow, CountFds;
    RefsInclude(k.procs, e, id, PID_LIMIT);
    assert Refs(k, e) <= OpenCount(k.pipes, e);
  }

  lemma RemoveBalance(k: Kernel, k': Kernel, id: nat, p: Proc, e: FdEntry)
    requires IsEnd(e) && id < PID_LIMIT && k'.pipes == k.pipes && CountFds(p.fds, e) == 0
    requires k'.procs == k.procs - {id} || k'.procs == k.procs[id := p]
    ensures Balanced(k, k', e, Share(k.procs, id, e))
  {
    hide RefsBelow, CountFds, OpenCount;
    RefsChange(k.procs, k'.procs, id, e, PID_LIMIT);
  }

  lemma EmptyFds(e: FdEntry)
    ensures CountFds(NO_FDS, e) == 0
  {
  }

  /** Conservation, one call: each end's excess grows by exactly what the call leaks. */
  lemma Conservation(k: Kernel, c: Call, e: FdEntry)
    requires Inv(k) && IsEnd(e)
    ensures Balanced(k, Do(k, c).k, e, Leak(k, c, e))
  {
    hide RefsBelow, CountFds, OpenCount, Inv, AddRefs, AddRef, FreePid, FreeFd, FreePipe, CloseAt, CreatePipe, OpenAt, ReadAt, WriteAt, DupAt, Dup2At, ForkAt;
    InvRings(k);
    EmptyFds(e);
    match c {
      case PipeNew(id) => CreateBalance(k, id, e);
      case Open(_, _) => FileBalance(k, c, e);
      case Read(_, _, _) => FileBalance(k, c, e);
      case Write(_, _, _) => FileBalance(k, c, e);
      case Close(id, fd) => CloseBalance(k, id, fd, e);
      case Dup(id, fd) => DupBalance(k, id, fd, e);
      case Dup2(id, fd, newFd) => Dup2Balance(k, id, fd, newFd, e);
      case Fork(id, allowed) => ForkBalance(k, id, allowed, e);
      case Kill(id, target) =>
        if KillAt(k, id, target).reply == Flag(true) {
          RemoveBalance(k, KillAt(k, id, target).k, target, Proc(NO_FDS, None), e);
        }
      case Reap(pid) =>
        if PID_TABLE_BASE <= pid < PID_LIMIT {
          RemoveBalance(k, ReapAt(k, pid).k, pid, Proc(NO_FDS, None), e);
        }
      case Install(id) =>
        if 1 <= id <= 7 {
          RemoveBalance(k, InstallAt(k, id).k, id, Proc(NO_FDS, None), e);
        }
    }
  }

  lemma InvRings(k: Kernel)
    requires Inv(k)
    ensures RingsOk(k.pipes)
  {
  }
}
