/** The task statics as the kernel updates them (kernel/src/tasks.rs). The lookups that the code
    unwraps are proved to be there. */
module TaskTable {
  import opened Common
  import opened Scheduler
  import T = Tasks

  class Table {
    var tasks: seq<Option<nat>>
    var zombies: seq<nat>
    var current: Option<nat>
    var sched: Option<Bank>
    var demo: bool
    var ticks: nat
    var background: bool
    var cpu: nat
    var nextStack: nat

    constructor ()
      ensures State() == T.Initial() && T.Inv(State())
    {
      tasks, zombies, current, sched := [], [], None, None;
      demo, ticks, background := false, 0, false;
      cpu, nextStack := T.KERNEL_STACK, 1;
    }

    function State(): T.State
      reads this
    {
      T.State(tasks, zombies, current, sched, demo, ticks, background, cpu, nextStack)
    }

    /** Boots the three workers and switches into the first. */
    method RunPreemptionDemo()
      requires State() == T.Initial().(background := background)
      modifies this
      ensures State() == T.DemoStarted(old(State())) && T.Inv(State())
    {
      T.StartInv(State());
      var i := 0;
      while i < T.N_TASKS
        invariant 0 <= i <= T.N_TASKS
        invariant |tasks| == i
        invariant nextStack == old(nextStack) + i
        invariant forall k :: 0 <= k < i ==> tasks[k] == Some(old(nextStack) + k)
        invariant zombies == [] && background == old(background) && cpu == old(cpu)
      {
        tasks := tasks + [Some(nextStack)];
        nextStack := nextStack + 1;
        i := i + 1;
      }
      sched := Some(FreshBank(T.N_TASKS, T.DEMO_G));
      ticks := 0;
      current := Some(0);
      demo := true;
      cpu := tasks[0].value;
    }

    method Spawn() returns (id: Option<nat>)
      requires T.Inv(State())
      modifies this
      ensures T.Spawned(State(), id) == T.Spawn(old(State())) && T.Inv(State())
    {
      T.SpawnInv(State());
      if sched.None? {
        return None;
      }
      var slot := 0;
      while slot < |tasks| && tasks[slot].Some?
        invariant 0 <= slot <= |tasks|
        invariant T.FreeTask(tasks, slot) == T.FreeTask(tasks, 0)
        decreases |tasks| - slot
      {
        slot := slot + 1;
      }
      var stack := nextStack;
      if slot < |tasks| {
        sched := Some(Revived(sched.value, slot));
      } else {
        if |tasks| >= T.MAX_TASKS {
          return None;
        }
        tasks := tasks + [None];
        sched := Some(Grown(sched.value));
        assert |sched.value.slots| - 1 == slot;
      }
      nextStack := nextStack + 1;
      tasks := tasks[slot := Some(stack)];
      id := Some(slot);
    }

    method Kill(id: nat) returns (done: bool)
      requires T.Inv(State())
      modifies this
      ensures T.Killing(State(), done) == T.Kill(old(State()), id) && T.Inv(State())
    {
      T.KillInv(State(), id);
      if sched.None? || !Alive(sched.value, id) {
        return false;
      }
      sched := Some(Killed(sched.value, id));
      if current == Some(id) {
        zombies := zombies + [id];
      } else {
        tasks := tasks[id := None];
      }
      done := true;
    }

    method ReapZombies()
      requires T.Inv(State())
      modifies this
      ensures State() == T.Reap(old(State())) && T.Inv(State())
    {
      hide T.Inv, T.Freed, T.Kept;
      T.ReapInv(State());
      ZombiesInRange(State());
      var kept: seq<nat> := [];
      var i := 0;
      assert zombies[0..] == zombies;
      while i < |zombies|
        invariant 0 <= i <= |zombies| && |tasks| == |old(tasks)|
        invariant State() == old(State()).(tasks := tasks)
        invariant T.Freed(tasks, zombies[i..], current) == T.Freed(old(tasks), zombies, current)
        invariant kept + T.Kept(zombies[i..], current) == T.Kept(zombies, current)
      {
        var z := zombies[i];
        ReapStep(tasks, zombies, i, current, kept);
        if current == Some(z) {
          kept := kept + [z];
        } else {
          tasks := tasks[z := None];
        }
        i := i + 1;
      }
      assert zombies[i..] == [];
      ReapEnd(tasks, current);
      assert kept + [] == kept;
      zombies := kept;
    }

    static lemma ZombiesInRange(s: T.State)
      requires T.Inv(s)
      ensures forall i :: 0 <= i < |s.zombies| ==> s.zombies[i] < |s.tasks|
    {
      forall i | 0 <= i < |s.zombies| ensures s.zombies[i] < |s.tasks| {
        assert s.zombies[i] in s.zombies;
        assert T.Undead(s, s.zombies[i]);
      }
    }

    static lemma ReapStep(tasks: seq<Option<nat>>, zombies: seq<nat>, i: nat, keep: Option<nat>, kept: seq<nat>)
      requires i < |zombies| && zombies[i] < |tasks|
      ensures var z := zombies[i];
              && T.Freed(if keep == Some(z) then tasks else tasks[z := None], zombies[i + 1..], keep)
                 == T.Freed(tasks, zombies[i..], keep)
              && (if keep == Some(z) then kept + [z] else kept) + T.Kept(zombies[i + 1..], keep)
                 == kept + T.Kept(zombies[i..], keep)
    {
      assert zombies[i..][0] == zombies[i] && zombies[i..][1..] == zombies[i + 1..];
    }

    static lemma ReapEnd(tasks: seq<Option<nat>>, keep: Option<nat>)
      ensures T.Freed(tasks, [], keep) == tasks && T.Kept([], keep) == []
    {
    }

    /** The stack that `id` is running on; the code's `expect` cannot fail. */
    method CurrentStack(id: Option<nat>) returns (stack: nat)
      requires T.Inv(State()) && id == current
      ensures stack == cpu
    {
      if id.None? {
        stack := T.KERNEL_STACK;
      } else {
        assert id.value < |tasks| && tasks[id.value].Some?;
        stack := tasks[id.value].value;
      }
    }

    method TimerTickSwitch()
      requires T.Inv(State())
      modifies this
      ensures State() == T.Tick(old(State())) && T.Inv(State())
    {
      hide BankOk, T.Freed, T.Kept, BestBelow, RaisedSlots;
      T.TickInv(State());
      ReapZombies();
      if demo {
        ticks := ticks + 1;
        if ticks >= T.MAX_TICKS {
          demo := false;
          current := None;
          cpu := T.KERNEL_STACK;
          return;
        }
      } else if !background {
        return;
      }
      if sched.None? {
        return;
      }
      T.InvBank(T.Reap(old(State())));
      var step := Step(sched.value);
      sched := Some(step.bank);
      if step.winner.Some? && current != step.winner {
        var next := step.winner.value;
        assert next < |tasks| && tasks[next].Some?;
        current := Some(next);
        cpu := tasks[next].value;
      }
    }
  }
}
