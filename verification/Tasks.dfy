/** Task lifecycle under the timer: spawn, kill, deferred reaping and switching (kernel/src/tasks.rs).
    Stacks are tokens; `cpu` is the stack execution is on. */
module Tasks {
  import opened Common
  import opened Scheduler

  const N_TASKS := 3
  const MAX_TASKS := 8
  const MAX_TICKS := 60
  const DEMO_G: real := 0.6
  const KERNEL_STACK := 0

  datatype State = State(
    tasks: seq<Option<nat>>,
    zombies: seq<nat>,
    current: Option<nat>,
    sched: Option<Bank>,
    demo: bool,
    ticks: nat,
    background: bool,
    cpu: nat,
    nextStack: nat)

  /** Nothing spawned yet; the kernel's own stack is token 0. */
  function Initial(): State {
    State([], [], None, None, false, 0, false, KERNEL_STACK, 1)
  }

  /** The three worker tasks, switched into the first. */
  function DemoStarted(s: State): State {
    State([Some(s.nextStack), Some(s.nextStack + 1), Some(s.nextStack + 2)], [], Some(0),
          Some(FreshBank(N_TASKS, DEMO_G)), true, 0, s.background, s.nextStack, s.nextStack + 3)
  }

  datatype Spawned = Spawned(state: State, id: Option<nat>)

  /** First slot without a task at or after `i`, or the length. */
  function FreeTask(tasks: seq<Option<nat>>, i: nat): (j: nat)
    requires i <= |tasks|
    decreases |tasks| - i
    ensures i <= j <= |tasks|
    ensures j < |tasks| ==> tasks[j].None?
    ensures forall m :: i <= m < j ==> tasks[m].Some?
  {
    if i == |tasks| || tasks[i].None? then i else FreeTask(tasks, i + 1)
  }

  function Spawn(s: State): Spawned {
    if s.sched.None? then Spawned(s, None)
    else
      var id := FreeTask(s.tasks, 0);
      if id < |s.tasks| then
        Spawned(s.(tasks := s.tasks[id := Some(s.nextStack)], sched := Some(Revived(s.sched.value, id)),
                   nextStack := s.nextStack + 1), Some(id))
      else if |s.tasks| >= MAX_TASKS then Spawned(s, None)
      else
        Spawned(s.(tasks := s.tasks + [Some(s.nextStack)], sched := Some(Grown(s.sched.value)),
                   nextStack := s.nextStack + 1), Some(id))
  }

  datatype Killing = Killing(state: State, done: bool)

  function Kill(s: State, id: nat): Killing {
    if s.sched.None? || !Alive(s.sched.value, id) then Killing(s, false)
    else
      var s1 := s.(sched := Some(Killed(s.sched.value, id)));
      if s.current == Some(id) then Killing(s1.(zombies := s1.zombies + [id]), true)
      else if id < |s.tasks| then Killing(s1.(tasks := s1.tasks[id := None]), true)
      else Killing(s1, true)
  }

  /** The task table with every zombie but `keep` freed. */
  function Freed(tasks: seq<Option<nat>>, zombies: seq<nat>, keep: Option<nat>): (r: seq<Option<nat>>)
    ensures |r| == |tasks|
    decreases |zombies|
  {
    if zombies == [] then tasks
    else
      var z := zombies[0];
      Freed(if keep == Some(z) || z >= |tasks| then tasks else tasks[z := None], zombies[1..], keep)
  }

  function Kept(zombies: seq<nat>, keep: Option<nat>): seq<nat> {
    if zombies == [] then []
    else (if keep == Some(zombies[0]) then [zombies[0]] else []) + Kept(zombies[1..], keep)
  }

  function Reap(s: State): State {
    s.(tasks := Freed(s.tasks, s.zombies, s.current), zombies := Kept(s.zombies, s.current))
  }

  /** Execution moves to task `id`'s stack. */
  function SwitchTo(s: State, id: nat): State
    requires id < |s.tasks| && s.tasks[id].Some?
  {
    s.(current := Some(id), cpu := s.tasks[id].value)
  }

  /** The timer tick after reaping. */
  function Dispatch(s: State): State {
    if s.demo && s.ticks + 1 >= MAX_TICKS then
      s.(demo := false, ticks := s.ticks + 1, current := None, cpu := KERNEL_STACK)
    else if !s.demo && !s.background then s
    else
      var s1 := if s.demo then s.(ticks := s.ticks + 1) else s;
      if s.sched.None? || !BankOk(s.sched.value) then s1
      else
        var step := Step(s.sched.value);
        var s2 := s1.(sched := Some(step.bank));
        if step.winner.None? || s2.current == step.winner then s2
        else if step.winner.value < |s2.tasks| && s2.tasks[step.winner.value].Some? then SwitchTo(s2, step.winner.value)
        else s2
  }

  function Tick(s: State): State {
    Dispatch(Reap(s))
  }

  // ---- The invariant ----

  predicate AliveAt(s: State, i: nat) {
    s.sched.Some? && Alive(s.sched.value, i)
  }

  predicate NoRepeats(zs: seq<nat>) {
    forall i, j :: 0 <= i < j < |zs| ==> zs[i] != zs[j]
  }

  /** A dead slot that still holds a task. */
  predicate Undead(s: State, i: nat) {
    i < |s.tasks| && s.tasks[i].Some? && !AliveAt(s, i)
  }

  predicate SizesAgree(s: State) {
    if s.sched.None? then s.tasks == []
    else BankOk(s.sched.value) && |s.tasks| == |s.sched.value.slots| && |s.tasks| <= MAX_TASKS
  }

  /** Stacks in use are below the next token, none is the kernel's, no two tasks share one. */
  predicate StacksApart(s: State) {
    && (forall i :: 0 <= i < |s.tasks| && s.tasks[i].Some? ==> KERNEL_STACK < s.tasks[i].value < s.nextStack)
    && (forall i, j :: 0 <= i < j < |s.tasks| && s.tasks[i].Some? && s.tasks[j].Some? ==> s.tasks[i] != s.tasks[j])
    && KERNEL_STACK < s.nextStack
  }

  /** Execution is on the current task's own stack, which is still allocated. */
  predicate OnOwnStack(s: State) {
    match s.current
    case None => s.cpu == KERNEL_STACK
    case Some(c) => c < |s.tasks| && s.tasks[c] == Some(s.cpu)
  }

  ghost predicate Inv(s: State) {
    && SizesAgree(s)
    && (forall i: nat :: AliveAt(s, i) ==> i < |s.tasks| && s.tasks[i].Some?)
    && NoRepeats(s.zombies)
    && (forall i: nat :: i in s.zombies <==> Undead(s, i))
    && StacksApart(s)
    && OnOwnStack(s)
    && (s.demo ==> s.sched.Some?)
  }

  // ---- Reaping ----

  lemma {:induction false} FreedAt(tasks: seq<Option<nat>>, zombies: seq<nat>, keep: Option<nat>, i: nat)
    requires i < |tasks|
    ensures Freed(tasks, zombies, keep)[i] == if i in zombies && keep != Some(i) then None else tasks[i]
    decreases |zombies|
  {
    if zombies != [] {
      var z := zombies[0];
      FreedAt(if keep == Some(z) || z >= |tasks| then tasks else tasks[z := None], zombies[1..], keep, i);
    }
  }

  lemma {:induction false} KeptIs(zombies: seq<nat>, keep: Option<nat>)
    ensures forall i :: i in Kept(zombies, keep) <==> i in zombies && keep == Some(i)
    ensures NoRepeats(zombies) ==> NoRepeats(Kept(zombies, keep))
  {
    if zombies != [] {
      KeptIs(zombies[1..], keep);
      var rest := Kept(zombies[1..], keep);
      assert NoRepeats(zombies) ==> NoRepeats(zombies[1..]);
      HeadFresh(zombies);
    }
  }

  lemma HeadFresh(zs: seq<nat>)
    requires zs != []
    ensures NoRepeats(zs) ==> zs[0] !in zs[1..]
  {
    assert forall j :: 0 <= j < |zs| - 1 ==> zs[1..][j] == zs[j + 1];
  }

  /** Reaping frees exactly the dead tasks that are not running. */
  lemma ReapFrees(s: State, i: nat)
    requires Inv(s) && i < |s.tasks|
    ensures Reap(s).tasks[i] == if Undead(s, i) && s.current != Some(i) then None else s.tasks[i]
  {
    FreedAt(s.tasks, s.zombies, s.current, i);
  }

  lemma ReapSizes(s: State)
    ensures |Reap(s).tasks| == |s.tasks| && Reap(s).sched == s.sched && Reap(s).current == s.current && Reap(s).cpu == s.cpu
    ensures forall i: nat :: AliveAt(Reap(s), i) <==> AliveAt(s, i)
  {
  }

  lemma ReapInv(s: State)
    requires Inv(s)
    ensures Inv(Reap(s))
  {
    hide Freed, Kept, Alive;
    var s' := Reap(s);
    ReapSizes(s);
    KeptIs(s.zombies, s.current);
    forall i: nat | i < |s.tasks|
      ensures s'.tasks[i] == if Undead(s, i) && s.current != Some(i) then None else s.tasks[i]
    {
      ReapFrees(s, i);
    }
  }

  // ---- Every operation keeps the invariant ----

  lemma StartInv(s: State)
    requires s == Initial() || s == Initial().(background := s.background)
    ensures Inv(DemoStarted(s))
  {
  }

  lemma SpawnInv(s: State)
    requires Inv(s)
    ensures Inv(Spawn(s).state)
  {
    hide FreeTask, SshBonds, StacksApart, NoRepeats, Spawn, Alive;
    SpawnStacks(s);
    SpawnSlots(s);
    var s' := Spawn(s).state;
    forall i: nat ensures i in s'.zombies <==> Undead(s', i) {
      assert i in s.zombies <==> Undead(s, i);
    }
  }

  lemma SpawnStacks(s: State)
    requires StacksApart(s)
    ensures StacksApart(Spawn(s).state)
  {
    hide FreeTask, Revived, Grown;
    FreeTaskRange(s.tasks);
  }

  /** What a spawn does to the slots: at most one becomes alive, and it was free and gets a task. */
  lemma SpawnSlots(s: State)
    requires SizesAgree(s)
    ensures var s', id := Spawn(s).state, Spawn(s).id;
            && SizesAgree(s') && s'.zombies == s.zombies && s'.current == s.current && s'.cpu == s.cpu
            && s'.demo == s.demo && s'.sched.Some? == s.sched.Some?
            && |s.tasks| <= |s'.tasks|
            && (forall i: nat :: AliveAt(s', i) <==> AliveAt(s, i) || id == Some(i))
            && (forall i: nat :: i < |s'.tasks| && id != Some(i) ==> i < |s.tasks| && s'.tasks[i] == s.tasks[i])
            && (id.Some? ==> id.value < |s'.tasks| && s'.tasks[id.value].Some?
                             && (id.value < |s.tasks| ==> s.tasks[id.value].None?))
  {
    hide FreeTask, SshBonds;
    FreeTaskRange(s.tasks);
  }

  lemma FreeTaskRange(tasks: seq<Option<nat>>)
    ensures FreeTask(tasks, 0) <= |tasks|
    ensures FreeTask(tasks, 0) < |tasks| ==> tasks[FreeTask(tasks, 0)].None?
    ensures FreeTask(tasks, 0) == |tasks| ==> forall i :: 0 <= i < |tasks| ==> tasks[i].Some?
  {
  }

  lemma KillInv(s: State, id: nat)
    requires Inv(s)
    ensures Inv(Kill(s, id).state)
  {
    hide SshBonds, StacksApart, Kill;
    KillSlots(s, id);
    KillStacks(s, id);
    var s' := Kill(s, id).state;
    assert id in s.zombies <==> Undead(s, id);
    forall i: nat ensures i in s'.zombies <==> Undead(s', i) {
      assert i in s.zombies <==> Undead(s, i);
    }
  }

  lemma KillStacks(s: State, id: nat)
    requires StacksApart(s)
    ensures StacksApart(Kill(s, id).state)
  {
    hide Killed, Alive;
  }

  /** What a kill does: the slot dies; its task is freed, unless it is running, when it becomes a zombie. */
  lemma KillSlots(s: State, id: nat)
    requires SizesAgree(s)
    ensures var s', done := Kill(s, id).state, Kill(s, id).done;
            && SizesAgree(s') && s'.current == s.current && s'.cpu == s.cpu && s'.demo == s.demo
            && s'.sched.Some? == s.sched.Some?
            && (done <==> AliveAt(s, id))
            && (forall i: nat :: AliveAt(s', i) <==> AliveAt(s, i) && !(done && i == id))
            && s'.zombies == (if done && s.current == Some(id) then s.zombies + [id] else s.zombies)
            && s'.tasks == (if done && s.current != Some(id) && id < |s.tasks| then s.tasks[id := None] else s.tasks)
  {
    hide SshBonds;
  }

  lemma DispatchInv(s: State)
    requires Inv(s)
    ensures Inv(Dispatch(s))
  {
    hide BankOk, NoRepeats, StacksApart, Dispatch, Alive;
    DispatchSlots(s);
    DispatchStack(s);
    var s' := Dispatch(s);
    StacksSame(s, s');
    forall i: nat ensures i in s'.zombies <==> Undead(s', i) {
      assert i in s.zombies <==> Undead(s, i);
    }
  }

  lemma StacksSame(s: State, s': State)
    requires StacksApart(s) && s'.tasks == s.tasks && s'.nextStack == s.nextStack
    ensures StacksApart(s')
  {
  }

  /** Dispatching changes no task, zombie or liveness. */
  lemma DispatchSlots(s: State)
    requires SizesAgree(s)
    ensures var s' := Dispatch(s);
            && s'.tasks == s.tasks && s'.zombies == s.zombies && s'.nextStack == s.nextStack
            && SizesAgree(s') && s'.sched.Some? == s.sched.Some? && (s'.demo ==> s.demo)
            && (forall i: nat :: AliveAt(s', i) <==> AliveAt(s, i))
  {
    hide Step, BankOk;
    if s.sched.Some? {
      var b := s.sched.value;
      StepShape(b);
      forall i: nat ensures Alive(Step(b).bank, i) <==> Alive(b, i) {
        AliveStep(b, i);
      }
    }
  }

  lemma DispatchStack(s: State)
    requires OnOwnStack(s)
    ensures OnOwnStack(Dispatch(s))
  {
    hide Step, BankOk;
  }

  /** A timer tick keeps the invariant; the task it switches to is there (neither lookup can fail). */
  lemma TickInv(s: State)
    requires Inv(s)
    ensures Inv(Tick(s))
    ensures s.sched.Some? && Step(s.sched.value).winner.Some? ==>
              var w := Step(s.sched.value).winner.value;
              w < |Reap(s).tasks| && Reap(s).tasks[w].Some?
  {
    hide Step, Dispatch, BankOk;
    ReapInv(s);
    DispatchInv(Reap(s));
    ReapSizes(s);
    if s.sched.Some? {
      StepSelects(s.sched.value);
      if Step(s.sched.value).winner.Some? {
        assert AliveAt(Reap(s), Step(s.sched.value).winner.value);
      }
    }
  }

  // ---- What each operation answers ----

  /** A tick, after the dead tasks that are not running are freed. Outside the demo and the background it does nothing
      more. The demo's sixtieth tick ends it, back in the kernel. Any other tick steps the scheduler once and moves
      execution to the selected task's stack, or leaves it where it is when none is selected. */
  lemma TickAnswers(s: State)
    requires Inv(s) && s.sched.Some?
    ensures BankOk(s.sched.value)
    ensures var s', w, demo := Tick(s), Step(s.sched.value).winner, s.demo;
            && s'.tasks == Reap(s).tasks && s'.zombies == Reap(s).zombies && s'.nextStack == s.nextStack && s'.background == s.background
            && s'.ticks == (if demo then s.ticks + 1 else s.ticks)
            && (if demo && s.ticks + 1 >= 60 then !s'.demo && s'.current == None && s'.cpu == KERNEL_STACK && s'.sched == s.sched
                else s'.demo == demo
                     && if !demo && !s.background then s'.sched == s.sched && s'.current == s.current && s'.cpu == s.cpu
                        else s'.sched == Some(Step(s.sched.value).bank)
                             && (w.None? ==> s'.current == s.current && s'.cpu == s.cpu)
                             && (w.Some? ==> s'.current == w && w.value < |s'.tasks| && s'.tasks[w.value] == Some(s'.cpu)))
  {
    hide Step, Freed, Kept, BankOk;
    TickInv(s);
    ReapSizes(s);
    InvBank(s);
    ReapInv(s);
    DispatchStack(Reap(s));
  }

  /** The demo starts with three tasks on fresh stacks of their own, the first running, all alive and equal, coupled
      by bonds 0.4 and 1.6. */
  lemma DemoStarts(s: State)
    ensures var s', k := DemoStarted(s), s.nextStack;
            && s'.tasks == [Some(k), Some(k + 1), Some(k + 2)] && s'.nextStack == k + 3
            && s'.current == Some(0) && s'.cpu == k && s'.demo && s'.ticks == 0 && s'.zombies == []
            && s'.sched.Some? && s'.sched.value.slots == [Slot(true, 0.0, 0), Slot(true, 0.0, 0), Slot(true, 0.0, 0)]
            && s'.sched.value.bonds == [0.4, 1.6]
  {
  }

  /** A spawn is refused exactly before the demo or with eight tasks; otherwise it takes the first slot without a task,
      gives it a stack no task ever had, makes that slot alive and fresh, and changes nothing else. */
  lemma SpawnAnswers(s: State)
    requires Inv(s)
    ensures var s', id := Spawn(s).state, Spawn(s).id;
            && (id.None? <==> s.sched.None? || (|s.tasks| == 8 && forall i :: 0 <= i < |s.tasks| ==> s.tasks[i].Some?))
            && (id.None? ==> s' == s)
            && (id.Some? ==>
                  && id.value <= |s.tasks| && (id.value < |s.tasks| ==> s.tasks[id.value].None?)
                  && (forall i :: 0 <= i < id.value ==> s.tasks[i].Some?)
                  && s'.tasks == (if id.value < |s.tasks| then s.tasks[id.value := Some(s.nextStack)] else s.tasks + [Some(s.nextStack)])
                  && s'.nextStack == s.nextStack + 1
                  && s'.sched.Some? && |s'.sched.value.slots| == |s'.tasks| && s'.sched.value.slots[id.value] == Slot(true, 0.0, 0)
                  && (forall i :: 0 <= i < |s.tasks| && i != id.value ==> s'.sched.value.slots[i] == s.sched.value.slots[i])
                  && s'.(tasks := s.tasks, sched := s.sched, nextStack := s.nextStack) == s)
  {
    hide SshBonds, StacksApart, FreeTask;
    FreeTaskFirst(s.tasks);
  }

  lemma FreeTaskFirst(tasks: seq<Option<nat>>)
    ensures var j := FreeTask(tasks, 0);
            && j <= |tasks| && (j < |tasks| ==> tasks[j].None?) && forall i :: 0 <= i < j ==> tasks[i].Some?
  {
  }

  /** A kill answers yes exactly for an alive slot, which is then dead and empty; its task goes at once, unless it is
      the running one, which becomes a zombie. Otherwise nothing changes. */
  lemma KillAnswers(s: State, id: nat)
    requires Inv(s)
    ensures var s', done := Kill(s, id).state, Kill(s, id).done;
            && (done <==> AliveAt(s, id))
            && (!done ==> s' == s)
            && (done ==>
                  && s'.sched.Some? && id < |s.tasks| && |s'.sched.value.slots| == |s.tasks|
                  && (forall i :: 0 <= i < |s.tasks| ==>
                        s'.sched.value.slots[i] == if i == id then s.sched.value.slots[i].(alive := false, potential := 0.0) else s.sched.value.slots[i])
                  && (if s.current == Some(id) then s'.tasks == s.tasks && s'.zombies == s.zombies + [id]
                      else s'.tasks == s.tasks[id := None] && s'.zombies == s.zombies)
                  && s'.(tasks := s.tasks, sched := s.sched, zombies := s.zombies) == s)
  {
    hide SshBonds, StacksApart;
  }

  // ---- Runs ----

  datatype Event = SpawnTask | KillTask(id: nat) | TimerTick | EnableBackground

  function After(s: State, e: Event): State {
    match e
    case SpawnTask => Spawn(s).state
    case KillTask(id) => Kill(s, id).state
    case TimerTick => Tick(s)
    case EnableBackground => s.(background := true)
  }

  function Run(s: State, es: seq<Event>): State
    decreases |es|
  {
    if es == [] then s else Run(After(s, es[0]), es[1..])
  }

  lemma InitialInv()
    ensures Inv(Initial())
  {
  }

  lemma AfterInv(s: State, e: Event)
    requires Inv(s)
    ensures Inv(After(s, e))
  {
    hide Inv, Spawn, Kill, Tick;
    match e {
      case SpawnTask => SpawnInv(s);
      case KillTask(id) => KillInv(s, id);
      case TimerTick => TickInv(s);
      case EnableBackground => BackgroundInv(s);
    }
  }

  lemma BackgroundInv(s: State)
    requires Inv(s)
    ensures Inv(s.(background := true))
  {
  }

  lemma {:induction false} RunInv(s: State, es: seq<Event>)
    requires Inv(s)
    ensures Inv(Run(s, es))
    decreases |es|
  {
    hide Inv, After;
    if es != [] {
      AfterInv(s, es[0]);
      RunInv(After(s, es[0]), es[1..]);
    }
  }

  /** Until the demo starts there is no scheduler: spawns and kills are refused, ticks do nothing. */
  lemma {:induction false} BeforeDemo(s: State, es: seq<Event>)
    requires s == Initial().(background := s.background)
    ensures Run(s, es) == Initial().(background := Run(s, es).background)
    decreases |es|
  {
    if es != [] {
      NothingYet(s, es[0]);
      hide After;
      BeforeDemo(After(s, es[0]), es[1..]);
    }
  }

  lemma NothingYet(s: State, e: Event)
    requires s == Initial().(background := s.background)
    ensures After(s, e) == Initial().(background := After(s, e).background)
  {
  }

  /** The kernel after any events before the demo starts, the start of the demo, and any events after. */
  function Reached(before: seq<Event>, es: seq<Event>): State {
    Run(DemoStarted(Run(Initial(), before)), es)
  }

  lemma ReachedInv(before: seq<Event>, es: seq<Event>)
    ensures Inv(Run(Initial(), before)) && Inv(Reached(before, es)) && Reached(before, es).sched.Some?
    ensures Ranged(Reached(before, es))
  {
    hide Run, Inv, Ranged;
    InitialInv();
    RunInv(Initial(), before);
    BeforeDemo(Initial(), before);
    var s := Run(Initial(), before);
    StartInv(s);
    StartRanged(s);
    RunInv(DemoStarted(s), es);
    RunRanged(DemoStarted(s), es);
    SchedStays(DemoStarted(s), es);
  }

  lemma StartRanged(s: State)
    ensures Ranged(DemoStarted(s))
  {
  }

  /** Over any spawns, kills and ticks from boot: the CPU is always on the kernel's stack or on the stack
      of the current task, which is allocated; and once the demo has started, tasks and scheduler slots stay
      in step. */
  lemma NeverOnFreedStack(before: seq<Event>, es: seq<Event>)
    ensures OnOwnStack(Run(Initial(), before))
    ensures var s := Reached(before, es);
            && OnOwnStack(s)
            && s.sched.Some? && |s.tasks| == |s.sched.value.slots| <= MAX_TASKS
            && (forall i: nat :: i in s.zombies <==> Undead(s, i))
  {
    hide Run;
    ReachedInv(before, es);
  }

  lemma {:induction false} SchedStays(s: State, es: seq<Event>)
    requires s.sched.Some?
    ensures Run(s, es).sched.Some?
    decreases |es|
  {
    if es != [] {
      SchedAfter(s, es[0]);
      hide After;
      SchedStays(After(s, es[0]), es[1..]);
    }
  }

  lemma SchedAfter(s: State, e: Event)
    requires s.sched.Some?
    ensures After(s, e).sched.Some?
  {
    hide Step, FreeTask, Freed, Kept;
  }

  // ---- A killed current task is freed ----

  /** Background mode, with a scheduler whose potentials are in the range the kernel keeps them in. */
  ghost predicate Running(s: State) {
    Inv(s) && s.background && !s.demo && s.sched.Some? && Bounded(s.sched.value.g) && AtLeast(s.sched.value, 0.0)
  }

  function Ticks(s: State, n: nat): State
    decreases n
  {
    if n == 0 then s else Ticks(Tick(s), n - 1)
  }

  lemma TickBank(s: State)
    requires Running(s)
    ensures Tick(s).sched == Some(Step(s.sched.value).bank)
    ensures Tick(s).background && !Tick(s).demo
    ensures Step(s.sched.value).winner.None? ==> Tick(s).current == s.current
    ensures Step(s.sched.value).winner.Some? ==> Tick(s).current == Step(s.sched.value).winner
    ensures |Tick(s).tasks| == |s.tasks| && Tick(s).tasks == Reap(s).tasks
  {
    hide Step, Freed, Kept, BankOk;
    TickInv(s);
    ReapSizes(s);
  }

  lemma TickRunning(s: State)
    requires Running(s)
    ensures Running(Tick(s))
  {
    hide Step, Tick, Inv, BankOk, AtLeast;
    TickInv(s);
    TickBank(s);
    InvBank(s);
    StepShape(s.sched.value);
    StepRaises(s.sched.value, 0.0);
  }

  lemma InvBank(s: State)
    requires Inv(s) && s.sched.Some?
    ensures BankOk(s.sched.value)
  {
  }

  /** A freed slot stays freed while nothing is spawned. */
  lemma {:induction false} StaysFreed(s: State, c: nat, n: nat)
    requires Running(s) && c < |s.tasks| && s.tasks[c].None?
    ensures c < |Ticks(s, n).tasks| && Ticks(s, n).tasks[c].None?
    decreases n
  {
    hide Tick, Running, Reap;
    if n > 0 {
      TickRunning(s);
      TickFreed(s, c);
      StaysFreed(Tick(s), c, n - 1);
    }
  }

  lemma TickFreed(s: State, c: nat)
    requires Running(s) && c < |s.tasks|
    ensures c < |Tick(s).tasks|
    ensures s.tasks[c].None? ==> Tick(s).tasks[c].None?
    ensures Undead(s, c) && s.current != Some(c) ==> Tick(s).tasks[c].None?
  {
    hide Tick, Reap;
    TickBank(s);
    ReapFrees(s, c);
  }

  lemma DeadStaysDead(s: State, c: nat)
    requires Running(s)
    ensures AliveAt(Tick(s), c) <==> AliveAt(s, c)
  {
    hide Tick, Step, Inv, BankOk;
    TickBank(s);
    InvBank(s);
    AliveStep(s.sched.value, c);
  }

  lemma NotSelectedDead(s: State, c: nat)
    requires Running(s) && !AliveAt(s, c)
    ensures Step(s.sched.value).winner != Some(c)
  {
    hide Step, RaisedSlots;
    StepSelects(s.sched.value);
  }

  lemma {:induction false} FreedIn(s: State, c: nat, i: nat, v: real, n: nat)
    requires Running(s) && s.current == Some(c) && Undead(s, c) && AliveAt(s, i)
    requires AtLeast(s.sched.value, v) && v >= 0.0 && n > 0 && v + BIAS * (n as real) >= THRESHOLD
    ensures c < |Ticks(s, n + 1).tasks| && Ticks(s, n + 1).tasks[c].None?
    decreases n
  {
    hide Tick, Step, Inv, BankOk, AtLeast, Reap;
    var s' := Tick(s);
    TickRunning(s);
    TickBank(s);
    InvBank(s);
    NotSelectedDead(s, c);
    DeadStaysDead(s, c);
    DeadStaysDead(s, i);
    CurrentKept(s, c);
    if Step(s.sched.value).winner.Some? {
      assert s'.current != Some(c);
      TickFreed(s', c);
      TickRunning(s');
      StaysFreed(Tick(s'), c, n - 1);
      TwoTicks(s, n + 1);
    } else {
      StepRaises(s.sched.value, v);
      if n == 1 {
        SelectsWhenHigh(s.sched.value, v, i);
      } else {
        assert BIAS * (n as real) == BIAS + BIAS * ((n - 1) as real);
        FreedIn(s', c, i, v + BIAS, n - 1);
      }
    }
  }

  lemma TwoTicks(s: State, n: nat)
    requires n >= 2
    ensures Ticks(s, n) == Ticks(Tick(Tick(s)), n - 2)
  {
    hide Tick;
  }

  lemma CurrentKept(s: State, c: nat)
    requires Running(s) && s.current == Some(c) && Undead(s, c)
    ensures c < |Tick(s).tasks| && Tick(s).tasks[c].Some?
  {
    hide Tick, Reap;
    TickBank(s);
    ReapFrees(s, c);
  }

  /** A current task that killed itself, with another task alive and nothing spawned or killed since,
      has been switched away from and its stack freed after eight background ticks. */
  lemma SelfKilledFreedWithinEight(s: State, c: nat, i: nat)
    requires Running(s) && s.current == Some(c) && AliveAt(s, i) && i != c
    ensures var s' := Kill(s, c).state;
            AliveAt(s, c) ==> c < |Ticks(s', 8).tasks| && Ticks(s', 8).tasks[c].None?
  {
    hide Ticks, SshBonds;
    if AliveAt(s, c) {
      var s' := Kill(s, c).state;
      KillInv(s, c);
      assert AliveAt(s', i) && Undead(s', c);
      assert AtLeast(s'.sched.value, 0.0);
      FreedIn(s', c, i, 0.0, 7);
    }
  }

  /** Without another task alive it is never switched away from, and its stack is never freed. */
  lemma {:induction false} AloneNeverFreed(s: State, c: nat, n: nat)
    requires Running(s) && s.current == Some(c) && Undead(s, c)
    requires forall i: nat :: !AliveAt(s, i)
    ensures c < |Ticks(s, n).tasks| && Ticks(s, n).tasks[c].Some? && Ticks(s, n).current == Some(c)
    decreases n
  {
    hide Tick, Step, Inv, BankOk, AtLeast, Reap, RaisedSlots;
    if n > 0 {
      var s' := Tick(s);
      InvBank(s);
      StepSelects(s.sched.value);
      TickRunning(s);
      TickBank(s);
      CurrentKept(s, c);
      forall i: nat ensures !AliveAt(s', i) {
        DeadStaysDead(s, i);
      }
      assert Step(s.sched.value).winner.Some? ==> AliveAt(s, Step(s.sched.value).winner.value);
      AloneNeverFreed(s', c, n - 1);
    }
  }

  /** Every run from the demo's start keeps the potentials in range. */
  predicate Ranged(s: State) {
    s.sched.Some? ==> BankOk(s.sched.value) && Bounded(s.sched.value.g) && AtLeast(s.sched.value, 0.0)
  }

  lemma AfterRanged(s: State, e: Event)
    requires Inv(s) && Ranged(s)
    ensures Ranged(After(s, e))
  {
    match e {
      case SpawnTask => SpawnRanged(s);
      case KillTask(id) => KillRanged(s, id);
      case TimerTick => TickRanged(s);
      case EnableBackground =>
    }
  }

  lemma SpawnRanged(s: State)
    requires Inv(s) && Ranged(s)
    ensures Ranged(Spawn(s).state)
  {
    hide FreeTask, SshBonds;
    FreeTaskRange(s.tasks);
  }

  lemma KillRanged(s: State, id: nat)
    requires Ranged(s)
    ensures Ranged(Kill(s, id).state)
  {
    hide SshBonds;
  }

  lemma TickRanged(s: State)
    requires Ranged(s)
    ensures Ranged(Tick(s))
  {
    hide Step, Freed, Kept, BankOk, AtLeast;
    if s.sched.Some? {
      StepRaises(s.sched.value, 0.0);
      StepShape(s.sched.value);
    }
  }

  lemma {:induction false} RunRanged(s: State, es: seq<Event>)
    requires Inv(s) && Ranged(s)
    ensures Ranged(Run(s, es))
    decreases |es|
  {
    hide Inv, Ranged, After;
    if es != [] {
      AfterInv(s, es[0]);
      AfterRanged(s, es[0]);
      RunRanged(After(s, es[0]), es[1..]);
    }
  }

  /** So on every run from boot: a current task that kills itself in background mode, with another task
      alive, has its stack freed after eight ticks without spawn or kill. */
  lemma SelfKilledOnAnyRun(before: seq<Event>, es: seq<Event>, c: nat, i: nat)
    requires var s := Reached(before, es);
             s.background && !s.demo && s.current == Some(c) && AliveAt(s, c) && AliveAt(s, i) && i != c
    ensures var s' := Ticks(Kill(Reached(before, es), c).state, 8);
            c < |s'.tasks| && s'.tasks[c].None?
  {
    hide Run, Reached, Kill, Ticks;
    ReachedInv(before, es);
    SelfKilledFreedWithinEight(Reached(before, es), c, i);
  }

  // ---- The bounded demo ----

  /** The demo window: at most 60 ticks, after which execution is back in the kernel. */
  lemma {:induction false} DemoReturns(s: State, n: nat)
    requires s.demo && s.ticks < MAX_TICKS && n == MAX_TICKS - s.ticks
    ensures var s' := Ticks(s, n); !s'.demo && s'.current == None && s'.cpu == KERNEL_STACK
    ensures n > 1 ==> Ticks(s, n - 1).demo
    decreases n
  {
    hide Tick;
    DemoTick(s);
    if n == 1 {
      assert Ticks(Tick(s), 0) == Tick(s);
    } else {
      DemoReturns(Tick(s), n - 1);
    }
  }

  lemma DemoTick(s: State)
    requires s.demo
    ensures s.ticks + 1 < MAX_TICKS ==> Tick(s).demo && Tick(s).ticks == s.ticks + 1
    ensures s.ticks + 1 >= MAX_TICKS ==> !Tick(s).demo && Tick(s).current == None && Tick(s).cpu == KERNEL_STACK
  {
    hide Step, Freed, Kept, BankOk;
  }
}
