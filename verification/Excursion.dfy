/** Ring-3 excursions and the fork, wait, exec and kill calls made from them: address space register,
    active process, kernel resume anchors and syscall stack (kernel/src/process.rs, kernel/src/usertest.rs). */
module Excursion {
  import opened Common

  const KERNEL_CR3 := 0
  const USER_CODE := 0x5555_5000_0000
  const USER_STACK_TOP := 0x5555_6000_1000

  /** The ring-0 stack the CPU switches to on the next syscall. */
  datatype SyscallStack = MainStack | ChildStack

  datatype ResumePoint = ResumePoint(rip: nat, rsp: nat)

  datatype Proc = Proc(pml4: nat, parent: Option<nat>, pending: Option<ResumePoint>)

  /** Kernel frames below ring 3: the one that entered a top-level excursion, and the wait in flight. */
  datatype Frame =
    | RunFrame(anchor: nat)
    | WaitFrame(parent: nat, child: nat, parentPml4: nat, savedStack: SyscallStack, anchor: nat, resume: ResumePoint)

  /** Where ring 3 continues, and the result register: what the interrupt frame of a system call holds. */
  datatype User = User(rip: nat, rsp: nat, rax: int)

  datatype Machine = Machine(
    procs: map<nat, Proc>,
    frames: seq<Frame>,
    cr3: nat,
    active: nat,
    inChild: bool,
    kernelRsp: nat,
    childRsp: nat,
    syscallStack: SyscallStack,
    user: User,
    stuck: bool)

  const FAILED := 0xFFFF_FFFF_FFFF_FFFF

  datatype Event =
    | Install(id: nat, pml4: nat)
    | RunProcess(id: nat, anchor: nat)
    | RunBare(anchor: nat)
    | Compute(user: User)
    | Fork(built: Option<nat>)
    | Wait(pid: nat, anchor: nat)
    | Exec(loaded: bool)
    | Kill(target: nat)
    | Exit
    | Fault

  /** In the kernel, before anything has run. */
  function Booted(procs: map<nat, Proc>): Machine {
    Machine(procs, [], KERNEL_CR3, 0, false, 0, 0, MainStack, User(0, 0, 0), false)
  }

  predicate StaticId(id: nat) {
    1 <= id <= 7
  }

  predicate TableId(id: nat) {
    PID_TABLE_BASE <= id < PID_LIMIT
  }

  function Return(m: Machine, rax: int): Machine {
    m.(user := m.user.(rax := rax))
  }

  /** Fork from ring 3; `built` is the child's new address space, if one could be built. */
  function DoFork(m: Machine, built: Option<nat>): Machine {
    if m.active == 0 || m.inChild || m.active !in m.procs || built.None? then Return(m, FAILED)
    else
      var pid := FreePid(m.procs, PID_TABLE_BASE);
      if pid == PID_LIMIT then Return(m, FAILED)
      else Return(m.(procs := m.procs[pid := Proc(built.value, Some(m.active), Some(ResumePoint(m.user.rip, m.user.rsp)))]), pid)
  }

  predicate OwnChild(m: Machine, pid: nat) {
    TableId(pid) && pid in m.procs && m.procs[pid].parent == Some(m.active)
  }

  /** Wait from ring 3: checks, then the switch into the child at its fork point with rax 0. */
  function DoWait(m: Machine, pid: nat, anchor: nat): Machine {
    if m.active == 0 || m.inChild || !OwnChild(m, pid) || m.active !in m.procs then Return(m, FAILED)
    else
      var child := m.procs[pid];
      var parentPml4 := m.procs[m.active].pml4;
      if child.pending.None? then Return(m.(cr3 := parentPml4), FAILED)
      else
        m.(procs := m.procs[pid := child.(pending := None)],
           frames := m.frames + [WaitFrame(m.active, pid, parentPml4, m.syscallStack, anchor,
                                          ResumePoint(m.user.rip, m.user.rsp))],
           cr3 := child.pml4,
           active := pid,
           inChild := true,
           childRsp := anchor,
           syscallStack := ChildStack,
           user := User(child.pending.value.rip, child.pending.value.rsp, 0))
  }

  function DoExec(m: Machine, loaded: bool): Machine {
    if m.active == 0 || !loaded || m.active !in m.procs then Return(m, FAILED)
    else m.(user := User(USER_CODE, USER_STACK_TOP, m.user.rax))
  }

  function DoKill(m: Machine, target: nat): Machine {
    if m.active == 0 || !OwnChild(m, target) then Return(m, 0) else Return(m.(procs := m.procs - {target}), 1)
  }

  /** Back into the kernel frame whose anchor is `saved`; stuck if that is not the innermost one. */
  function Resume(m: Machine, saved: nat): Machine {
    if m.frames == [] || m.frames[|m.frames| - 1].anchor != saved then m.(stuck := true)
    else
      var rest := m.frames[..|m.frames| - 1];
      match m.frames[|m.frames| - 1]
      case RunFrame(_) => m.(frames := rest)
      case WaitFrame(parent, child, parentPml4, savedStack, _, resume) =>
        m.(procs := m.procs - {child}, frames := rest, cr3 := parentPml4, active := parent,
           inChild := false, syscallStack := savedStack, user := User(resume.rip, resume.rsp, child))
  }

  /** The exit call, and the end of a faulted process. */
  function Leave(m: Machine): Machine {
    var m1 := if m.active != 0 then m.(cr3 := KERNEL_CR3, active := 0) else m;
    Resume(m1, if m.inChild then m.childRsp else m.kernelRsp)
  }

  /** One event. Install and Run happen in the kernel, the others in ring 3; elsewhere nothing happens.
      Compute is ring-3 code running up to its next system call or fault.
      A fault with no active process is not a process fault and is left out. */
  function Step(m: Machine, e: Event): Machine {
    if m.stuck then m
    else
      match e
      case Install(id, pml4) =>
        if m.frames == [] && StaticId(id) then m.(procs := m.procs[id := Proc(pml4, None, None)]) else m
      case RunProcess(id, anchor) =>
        if m.frames == [] && StaticId(id) && id in m.procs then
          m.(frames := [RunFrame(anchor)], cr3 := m.procs[id].pml4, active := id, kernelRsp := anchor,
             user := User(USER_CODE, USER_STACK_TOP, 0))
        else m
      case RunBare(anchor) =>
        if m.frames == [] then
          m.(frames := [RunFrame(anchor)], kernelRsp := anchor, user := User(USER_CODE, USER_STACK_TOP, 0))
        else m
      case Compute(user) => if m.frames == [] then m else m.(user := user)
      case Fork(built) => if m.frames == [] then m else DoFork(m, built)
      case Wait(pid, anchor) => if m.frames == [] then m else DoWait(m, pid, anchor)
      case Exec(loaded) => if m.frames == [] then m else DoExec(m, loaded)
      case Kill(target) => if m.frames == [] then m else DoKill(m, target)
      case Exit => if m.frames == [] then m else Leave(m)
      case Fault => if m.frames == [] || m.active == 0 then m else Leave(m)
  }

  function Run(m: Machine, es: seq<Event>): Machine
    decreases |es|
  {
    if es == [] then m else Run(Step(m, es[0]), es[1..])
  }

  // ---- The invariant ----

  /** Who may be in the process map, and with which parent and resume point; `running` is the child
      whose excursion is in flight. */
  predicate ProcsOk(procs: map<nat, Proc>, running: Option<nat>) {
    forall id :: id in procs ==>
      if TableId(id) then
        && procs[id].parent.Some? && StaticId(procs[id].parent.value)
        && (running != Some(id) ==> procs[id].pending.Some?)
      else StaticId(id)
  }

  predicate AtKernel(m: Machine) {
    m.frames == [] && m.cr3 == KERNEL_CR3 && m.active == 0 && !m.inChild && m.syscallStack == MainStack
    && ProcsOk(m.procs, None)
  }

  predicate AtTop(m: Machine) {
    && |m.frames| == 1 && m.frames[0] == RunFrame(m.kernelRsp)
    && !m.inChild && m.syscallStack == MainStack
    && ProcsOk(m.procs, None)
    && (if m.active == 0 then m.cr3 == KERNEL_CR3
        else StaticId(m.active) && m.active in m.procs && m.cr3 == m.procs[m.active].pml4)
  }

  predicate AtChild(m: Machine) {
    && |m.frames| == 2 && m.frames[0] == RunFrame(m.kernelRsp)
    && m.frames[1].WaitFrame?
    && var w := m.frames[1];
       && w.anchor == m.childRsp && w.savedStack == MainStack
       && StaticId(w.parent) && w.parent in m.procs && w.parentPml4 == m.procs[w.parent].pml4
       && TableId(w.child) && w.child in m.procs && m.active == w.child && m.cr3 == m.procs[w.child].pml4
       && m.procs[w.child].pending.None? && m.procs[w.child].parent == Some(w.parent)
       && m.inChild && m.syscallStack == ChildStack
       && ProcsOk(m.procs, Some(w.child))
  }

  predicate Inv(m: Machine) {
    !m.stuck && (AtKernel(m) || AtTop(m) || AtChild(m))
  }

  lemma LeaveInv(m: Machine)
    requires Inv(m) && m.frames != []
    ensures Inv(Leave(m))
    ensures AtTop(m) ==> AtKernel(Leave(m))
    ensures AtChild(m) ==> AtTop(Leave(m))
  {
    hide FreePid;
    if AtChild(m) {
      assert m.frames[..1] == [m.frames[0]];
    }
  }

  lemma ForkInv(m: Machine, built: Option<nat>)
    requires Inv(m) && m.frames != []
    ensures Inv(DoFork(m, built))
  {
    hide FreePid;
    FreePidRange(m.procs);
  }

  lemma WaitInv(m: Machine, pid: nat, anchor: nat)
    requires Inv(m) && m.frames != []
    ensures Inv(DoWait(m, pid, anchor))
  {
    hide FreePid;
  }

  lemma KillInv(m: Machine, target: nat)
    requires Inv(m) && m.frames != []
    ensures Inv(DoKill(m, target))
  {
    hide FreePid;
  }

  /** Every event keeps the invariant; in particular the kernel is always resumed at its innermost frame. */
  lemma StepInv(m: Machine, e: Event)
    requires Inv(m)
    ensures Inv(Step(m, e))
  {
    hide AtTop, AtChild, AtKernel, DoFork, DoWait, DoKill, Leave, ProcsOk;
    match e {
      case Install(id, pml4) => InstallInv(m, e);
      case RunProcess(id, anchor) => InstallInv(m, e);
      case RunBare(anchor) => InstallInv(m, e);
      case Compute(user) => ComputeInv(m, user);
      case Fork(built) => if m.frames != [] { ForkInv(m, built); }
      case Wait(pid, anchor) => if m.frames != [] { WaitInv(m, pid, anchor); }
      case Exec(loaded) => ExecInv(m, loaded);
      case Kill(target) => if m.frames != [] { KillInv(m, target); }
      case Exit => if m.frames != [] { LeaveInv(m); }
      case Fault => if m.frames != [] { LeaveInv(m); }
    }
  }

  lemma InstallInv(m: Machine, e: Event)
    requires Inv(m) && (e.Install? || e.RunProcess? || e.RunBare?)
    ensures Inv(Step(m, e))
  {
    hide FreePid, DoFork, DoWait, DoKill, Leave;
  }

  lemma ComputeInv(m: Machine, user: User)
    requires Inv(m)
    ensures Inv(m.(user := user))
  {
    hide ProcsOk;
  }

  lemma ExecInv(m: Machine, loaded: bool)
    requires Inv(m)
    ensures Inv(DoExec(m, loaded))
  {
    hide ProcsOk;
  }

  lemma {:induction false} RunInv(m: Machine, es: seq<Event>)
    requires Inv(m)
    ensures Inv(Run(m, es))
    decreases |es|
  {
    hide Inv, Step;
    if es != [] {
      StepInv(m, es[0]);
      RunInv(Step(m, es[0]), es[1..]);
    }
  }

  /** Over every run from boot, in every ring-3 state with an active process: CR3 is that process's own
      address space; a child's excursion is in flight exactly when the active id is a table id; every
      table entry's parent is a static process; and every table entry but the running child can still be
      resumed. */
  lemma RingThreeState(procs: map<nat, Proc>, es: seq<Event>)
    requires ProcsOk(procs, None)
    ensures var m := Run(Booted(procs), es);
            && !m.stuck
            && (m.frames != [] && m.active != 0 ==>
                  && m.active in m.procs && m.cr3 == m.procs[m.active].pml4
                  && (m.inChild <==> m.active >= PID_TABLE_BASE))
            && (forall id :: id in m.procs && TableId(id) ==>
                  && m.procs[id].parent.Some? && m.procs[id].parent.value < PID_TABLE_BASE
                  && (id != m.active ==> m.procs[id].pending.Some?))
            && (m.frames == [] ==> m.cr3 == KERNEL_CR3 && m.active == 0)
  {
    hide Run;
    RunInv(Booted(procs), es);
  }

  // ---- Wait puts everything back ----

  /** While the child runs, nothing of its parent's context or of the other processes changes. */
  ghost predicate ChildOf(m0: Machine, m: Machine) {
    && AtChild(m) && !m.stuck
    && m.frames[0] == RunFrame(m0.kernelRsp) && m.kernelRsp == m0.kernelRsp
    && m.frames[1].parent == m0.active && m.frames[1].parentPml4 == m0.cr3
    && m.frames[1].resume == ResumePoint(m0.user.rip, m0.user.rsp)
    && m.frames[1].child in m0.procs
    && m.procs == m0.procs[m.frames[1].child := m0.procs[m.frames[1].child].(pending := None)]
  }

  predicate SamePlace(m0: Machine, m: Machine) {
    && m.cr3 == m0.cr3 && m.active == m0.active && m.syscallStack == m0.syscallStack
    && m.kernelRsp == m0.kernelRsp && m.inChild == m0.inChild && m.frames == m0.frames
    && m.user.rip == m0.user.rip && m.user.rsp == m0.user.rsp
  }

  lemma ChildStep(m0: Machine, m: Machine, e: Event)
    requires Inv(m0) && AtTop(m0) && m0.active != 0 && ChildOf(m0, m)
    ensures var m' := Step(m, e);
            var child := m.frames[1].child;
            || (ChildOf(m0, m') && m'.frames[1] == m.frames[1])
            || ((e.Exit? || e.Fault?) && SamePlace(m0, m') && m'.procs == m0.procs - {child} && m'.user.rax == child)
  {
    hide FreePid;
    assert m.frames[..1] == [m.frames[0]];
    assert m0.frames == [m0.frames[0]];
  }

  /** A run in which the child is still going before the last event. */
  ghost predicate ChildRuns(m: Machine, es: seq<Event>)
    decreases |es|
  {
    |m.frames| == 2 && (es == [] || |es| == 1 || ChildRuns(Step(m, es[0]), es[1..]))
  }

  lemma {:induction false} ChildRun(m0: Machine, m: Machine, es: seq<Event>)
    requires Inv(m0) && AtTop(m0) && m0.active != 0 && ChildOf(m0, m) && es != []
    requires ChildRuns(m, es) && |Run(m, es).frames| == 1
    ensures SamePlace(m0, Run(m, es))
    ensures Run(m, es).procs == m0.procs - {m.frames[1].child} && Run(m, es).user.rax == m.frames[1].child
    decreases |es|
  {
    hide Step, Inv;
    ChildStep(m0, m, es[0]);
    if |es| == 1 {
      assert es[1..] == [];
    } else {
      ChildRun(m0, Step(m, es[0]), es[1..]);
    }
  }

  lemma WaitEnters(m: Machine, pid: nat, anchor: nat)
    requires Inv(m) && AtTop(m) && m.active != 0 && |DoWait(m, pid, anchor).frames| == 2
    ensures ChildOf(m, DoWait(m, pid, anchor)) && DoWait(m, pid, anchor).frames[1].child == pid
    ensures DoWait(m, pid, anchor).user == User(m.procs[pid].pending.value.rip, m.procs[pid].pending.value.rsp, 0)
  {
    hide FreePid;
    assert m.frames == [m.frames[0]];
  }

  /** Wait always comes back as it left: whatever the child does, when it has exited or faulted, address
      space, active process, syscall stack, resume anchor and frames are as before the call, and ring 3
      continues at the instruction and stack pointer it waited at, whatever the child executed; every other
      process is untouched, the child is reaped and its pid returned. */
  lemma WaitRestores(m: Machine, pid: nat, anchor: nat, es: seq<Event>)
    requires Inv(m) && AtTop(m) && m.active != 0 && es != []
    requires var m1 := DoWait(m, pid, anchor);
             |m1.frames| == 2 && ChildRuns(m1, es) && |Run(m1, es).frames| == 1
    ensures var m2 := Run(DoWait(m, pid, anchor), es);
            SamePlace(m, m2) && m2.procs == m.procs - {pid} && m2.user.rax == pid
  {
    hide Run, Inv, AtTop, DoWait, ChildRuns;
    WaitEnters(m, pid, anchor);
    ChildRun(m, DoWait(m, pid, anchor), es);
  }

  /** A wait that is refused changes nothing but the result register. */
  lemma RefusedWaitKeeps(m: Machine, pid: nat, anchor: nat)
    requires Inv(m) && m.frames != [] && |DoWait(m, pid, anchor).frames| == |m.frames|
    ensures DoWait(m, pid, anchor) == Return(m, FAILED)
  {
    hide FreePid;
  }

  /** A wait is accepted exactly when a static process waits for its own child: any such child can be run. */
  lemma WaitAcceptedIff(m: Machine, pid: nat, anchor: nat)
    requires Inv(m) && m.frames != []
    ensures |DoWait(m, pid, anchor).frames| == 2 && !m.inChild <==> StaticId(m.active) && OwnChild(m, pid)
  {
    hide FreePid;
  }

  /** Fork, then wait for that child: it starts right after the fork, in its own address space, with 0. */
  lemma ForkThenWait(m: Machine, pml4: nat, anchor: nat)
    requires Inv(m) && AtTop(m) && m.active != 0
    requires DoFork(m, Some(pml4)).user.rax != FAILED
    ensures var m1 := DoFork(m, Some(pml4));
            var pid := m1.user.rax;
            && pid >= PID_TABLE_BASE && pid !in m.procs
            && var m2 := DoWait(m1, pid, anchor);
               m2.user == User(m.user.rip, m.user.rsp, 0) && m2.cr3 == pml4 && m2.active == pid
  {
    hide FreePid;
    FreePidRange(m.procs);
  }

  /** Exec changes where ring 3 continues and nothing else: whichever excursion was in flight, the new
      program leaves it through the same frame, to the same kernel state. */
  lemma ExecKeepsExcursion(m: Machine, loaded: bool)
    requires Inv(m) && m.frames != []
    ensures DoExec(m, loaded).(user := m.user) == m
    ensures Leave(DoExec(m, loaded)).(user := m.user) == Leave(m).(user := m.user)
    ensures m.inChild ==> Leave(DoExec(m, loaded)) == Leave(m)
    ensures loaded && m.active != 0 ==> DoExec(m, loaded).user.rip == USER_CODE && DoExec(m, loaded).user.rsp == USER_STACK_TOP
  {
    hide ProcsOk;
  }

  /** A kill that succeeds frees a slot: the next fork of the same process succeeds. */
  lemma KillThenFork(m: Machine, target: nat, pml4: nat)
    requires Inv(m) && AtTop(m) && m.active != 0
    ensures DoKill(m, target).user.rax == 1 <==> OwnChild(m, target)
    ensures var m1 := DoKill(m, target);
            m1.user.rax == 1 ==>
              && target !in m1.procs && (forall id :: id != target ==> (id in m1.procs <==> id in m.procs))
              && DoFork(m1, Some(pml4)).user.rax != FAILED
  {
    hide FreePid;
    FreeWhenOneIs(DoKill(m, target).procs, PID_TABLE_BASE, target);
  }

  lemma {:induction false} FreeWhenOneIs(procs: map<nat, Proc>, id: nat, free: nat)
    requires id <= PID_LIMIT
    ensures id <= free < PID_LIMIT && free !in procs ==> FreePid(procs, id) < PID_LIMIT
    decreases PID_LIMIT - id
  {
    if id < PID_LIMIT {
      FreeWhenOneIs(procs, id + 1, free);
    }
  }

  // ---- What the calls answer ----

  /** Nothing but the user registers differs. */
  predicate OnlyUser(m: Machine, m': Machine) {
    m'.(user := m.user) == m
  }

  /** Fork is refused exactly without a process, inside a child, without a new address space, or with all four table
      slots taken; it then answers the failure value and changes nothing. Otherwise it answers the lowest free pid,
      whose entry has the new address space, the caller as parent, and the caller's own place to resume at. */
  lemma ForkAnswers(m: Machine, built: Option<nat>)
    requires Inv(m) && m.frames != []
    ensures var m', full := DoFork(m, built), forall pid :: 10 <= pid < 14 ==> pid in m.procs;
            if m.active == 0 || m.inChild || built.None? || full
            then OnlyUser(m, m') && m'.user == m.user.(rax := 0xFFFF_FFFF_FFFF_FFFF)
            else
              && 10 <= m'.user.rax < 14
              && var pid: nat := m'.user.rax;
                 && pid !in m.procs && (forall q :: 10 <= q < pid ==> q in m.procs)
                 && m'.procs == m.procs[pid := Proc(built.value, Some(m.active), Some(ResumePoint(m.user.rip, m.user.rsp)))]
                 && m'.(procs := m.procs, user := m.user) == m && m'.user == m.user.(rax := pid)
  {
    hide ProcsOk;
  }

  /** A run from the kernel enters the program's fixed start with a cleared result register, in its own address
      space, and nothing else in the kernel changes; an id that is no static process is refused. */
  lemma RunEnters(m: Machine, id: nat, anchor: nat)
    requires Inv(m) && m.frames == []
    ensures var m' := Step(m, RunProcess(id, anchor));
            if 1 <= id <= 7 && id in m.procs
            then m' == m.(frames := [RunFrame(anchor)], cr3 := m.procs[id].pml4, active := id, kernelRsp := anchor,
                          user := User(0x5555_5000_0000, 0x5555_6000_1000, 0))
            else m' == m
  {
    hide ProcsOk;
  }

  /** A run without a process enters the same start in the kernel's address space; an install replaces exactly one
      static process. Neither does anything while a program runs. */
  lemma BareAndInstall(m: Machine, anchor: nat, id: nat, pml4: nat)
    requires Inv(m)
    ensures Step(m, RunBare(anchor))
            == if m.frames != [] then m
               else m.(frames := [RunFrame(anchor)], kernelRsp := anchor, user := User(0x5555_5000_0000, 0x5555_6000_1000, 0))
    ensures Step(m, Install(id, pml4))
            == if m.frames == [] && 1 <= id <= 7 then m.(procs := m.procs[id := Proc(pml4, None, None)]) else m
  {
    hide ProcsOk;
  }

  /** A top-level exit or fault goes back to the kernel that ran the program: kernel address space, no active
      process; every process, un-waited children included, and everything else stays. */
  lemma TopLeaves(m: Machine)
    requires Inv(m) && AtTop(m)
    ensures Leave(m) == m.(frames := [], cr3 := KERNEL_CR3, active := 0)
  {
    hide ProcsOk;
    assert m.frames[..0] == [];
  }

  /** A run program that never calls anything: it is entered and left, and the machine is as before but for the
      user registers and the last anchor. */
  lemma RunThenExit(m: Machine, id: nat, anchor: nat, u: User)
    requires Inv(m) && m.frames == [] && StaticId(id) && id in m.procs
    ensures Step(Step(Step(m, RunProcess(id, anchor)), Compute(u)), Exit) == m.(kernelRsp := anchor, user := u)
  {
    hide ProcsOk;
    assert [RunFrame(anchor)][..0] == [];
  }

  /** Exec is refused exactly without a process or when the file cannot be loaded; it then answers the failure value.
      Otherwise ring 3 goes on at the fixed start. Nothing else changes either way. */
  lemma ExecAnswers(m: Machine, loaded: bool)
    requires Inv(m) && m.frames != []
    ensures var m' := DoExec(m, loaded);
            && OnlyUser(m, m')
            && (if m.active != 0 && loaded then m'.user.rip == 0x5555_5000_0000 && m'.user.rsp == 0x5555_6000_1000
                else m'.user == m.user.(rax := 0xFFFF_FFFF_FFFF_FFFF))
  {
    hide ProcsOk;
  }

  /** Kill answers 1 and removes the target exactly for an own child, and otherwise answers 0; nothing else changes. */
  lemma KillAnswers(m: Machine, target: nat)
    requires Inv(m) && m.frames != []
    ensures var m', own := DoKill(m, target), m.active != 0 && 10 <= target < 14 && target in m.procs && m.procs[target].parent == Some(m.active);
            && m'.user == m.user.(rax := if own then 1 else 0)
            && m'.(procs := m.procs, user := m.user) == m
            && m'.procs == if own then m.procs - {target} else m.procs
  {
    hide ProcsOk;
  }

  // ---- The statics, updated in place ----

  class Cpu {
    var procs: map<nat, Proc>
    var frames: seq<Frame>
    var cr3: nat
    var active: nat
    var inChild: bool
    var kernelRsp: nat
    var childRsp: nat
    var syscallStack: SyscallStack
    var user: User

    constructor (procs: map<nat, Proc>)
      ensures State() == Booted(procs)
    {
      this.procs, frames, cr3, active, inChild := procs, [], KERNEL_CR3, 0, false;
      kernelRsp, childRsp, syscallStack, user := 0, 0, MainStack, User(0, 0, 0);
    }

    function State(): Machine
      reads this
    {
      Machine(procs, frames, cr3, active, inChild, kernelRsp, childRsp, syscallStack, user, false)
    }

    method EnterProcess(id: nat, anchor: nat) returns (ok: bool)
      requires Inv(State()) && frames == []
      modifies this
      ensures State() == Step(old(State()), RunProcess(id, anchor)) && Inv(State())
      ensures ok <==> StaticId(id) && id in old(procs)
    {
      InstallInv(State(), RunProcess(id, anchor));
      if !StaticId(id) || id !in procs {
        return false;
      }
      active := id;
      cr3 := procs[id].pml4;
      kernelRsp := anchor;
      frames := [RunFrame(anchor)];
      user := User(USER_CODE, USER_STACK_TOP, 0);
      ok := true;
    }

    method SyscallFork(built: Option<nat>)
      requires Inv(State()) && frames != []
      modifies this
      ensures State() == DoFork(old(State()), built) && Inv(State())
    {
      hide ProcsOk;
      ForkInv(State(), built);
      if active == 0 || inChild || active !in procs || built.None? {
        user := user.(rax := FAILED);
        return;
      }
      var pid := PID_TABLE_BASE;
      while pid < PID_LIMIT && pid in procs
        invariant PID_TABLE_BASE <= pid <= PID_LIMIT
        invariant FreePid(procs, pid) == FreePid(procs, PID_TABLE_BASE)
        decreases PID_LIMIT - pid
      {
        pid := pid + 1;
      }
      if pid == PID_LIMIT {
        user := user.(rax := FAILED);
        return;
      }
      procs := procs[pid := Proc(built.value, Some(active), Some(ResumePoint(user.rip, user.rsp)))];
      user := user.(rax := pid);
    }

    method SyscallWait(pid: nat, anchor: nat)
      requires Inv(State()) && frames != []
      modifies this
      ensures State() == DoWait(old(State()), pid, anchor) && Inv(State())
    {
      WaitInv(State(), pid, anchor);
      if active == 0 || inChild || !OwnChild(State(), pid) || active !in procs {
        user := user.(rax := FAILED);
        return;
      }
      var parent, parentPml4 := active, procs[active].pml4;
      var child := procs[pid];
      procs := procs[pid := child.(pending := None)];
      assert child.pending.Some?;
      active := pid;
      cr3 := child.pml4;
      var saved := syscallStack;
      syscallStack := ChildStack;
      inChild := true;
      childRsp := anchor;
      frames := frames + [WaitFrame(parent, pid, parentPml4, saved, anchor, ResumePoint(user.rip, user.rsp))];
      user := User(child.pending.value.rip, child.pending.value.rsp, 0);
    }

    /** Exit, or the end of a faulted process: through the child's anchor if a child is running. */
    method LeaveRing3()
      requires Inv(State()) && frames != []
      modifies this
      ensures State() == Leave(old(State())) && Inv(State())
    {
      LeaveInv(State());
      if active != 0 {
        cr3 := KERNEL_CR3;
        active := 0;
      }
      var saved := if inChild then childRsp else kernelRsp;
      var top := frames[|frames| - 1];
      assert top.anchor == saved;
      frames := frames[..|frames| - 1];
      if top.WaitFrame? {
        inChild := false;
        syscallStack := top.savedStack;
        cr3 := top.parentPml4;
        active := top.parent;
        procs := procs - {top.child};
        user := User(top.resume.rip, top.resume.rsp, top.child);
      }
    }

    method SyscallKill(target: nat)
      requires Inv(State()) && frames != []
      modifies this
      ensures State() == DoKill(old(State()), target) && Inv(State())
    {
      KillInv(State(), target);
      if active == 0 || !OwnChild(State(), target) {
        user := user.(rax := 0);
      } else {
        procs := procs - {target};
        user := user.(rax := 1);
      }
    }
  }
}
