/** The coupled-potential scheduler that picks which task runs next (kernel/src/scheduler.rs). */
module Scheduler {
  import opened Common

  const THRESHOLD: real := 1.0
  const BIAS: real := 0.15
  const COUPLING: real := 0.05

  datatype Slot = Slot(alive: bool, potential: real, fires: nat)

  datatype Bank = Bank(slots: seq<Slot>, bonds: seq<real>, g: real)

  /** Alternating bonds 1-g, 1+g between adjacent slots. */
  function SshBonds(n: nat, g: real): (b: seq<real>)
    ensures |b| == if n == 0 then 0 else n - 1
  {
    seq(if n == 0 then 0 else n - 1, i requires 0 <= i => if i % 2 == 0 then 1.0 - g else 1.0 + g)
  }

  function FreshBank(n: nat, g: real): Bank {
    Bank(seq(n, _ => Slot(true, 0.0, 0)), SshBonds(n, g), g)
  }

  predicate BankOk(b: Bank) {
    b.bonds == SshBonds(|b.slots|, b.g)
  }

  function Killed(b: Bank, id: nat): Bank {
    if id < |b.slots| then b.(slots := b.slots[id := b.slots[id].(alive := false, potential := 0.0)]) else b
  }

  function Revived(b: Bank, id: nat): Bank {
    if id < |b.slots| then b.(slots := b.slots[id := Slot(true, 0.0, 0)]) else b
  }

  function Grown(b: Bank): Bank {
    Bank(b.slots + [Slot(true, 0.0, 0)], SshBonds(|b.slots| + 1, b.g), b.g)
  }

  predicate Alive(b: Bank, i: nat) {
    i < |b.slots| && b.slots[i].alive
  }

  /** Input to slot `i` from its alive neighbours' potentials at the start of the step. */
  function Lateral(b: Bank, i: nat): real
    requires BankOk(b) && i < |b.slots|
  {
    (if i > 0 && b.slots[i - 1].alive then b.bonds[i - 1] * b.slots[i - 1].potential else 0.0)
    + (if i + 1 < |b.slots| && b.slots[i + 1].alive then b.bonds[i] * b.slots[i + 1].potential else 0.0)
  }

  function Raised(b: Bank, i: nat): Slot
    requires BankOk(b) && i < |b.slots|
  {
    var s := b.slots[i];
    if s.alive then s.(potential := s.potential + BIAS + COUPLING * Lateral(b, i)) else s
  }

  function RaisedSlots(b: Bank): (r: seq<Slot>)
    requires BankOk(b)
    ensures |r| == |b.slots|
  {
    seq(|b.slots|, i requires 0 <= i < |b.slots| => Raised(b, i))
  }

  predicate Ready(s: Slot) {
    s.alive && s.potential >= THRESHOLD
  }

  /** The ready slot of highest potential among the first `n`, the last one on ties. */
  function BestBelow(slots: seq<Slot>, n: nat): (w: Option<nat>)
    requires n <= |slots|
    ensures w.Some? ==> w.value < n && Ready(slots[w.value])
  {
    if n == 0 then None
    else
      var w := BestBelow(slots, n - 1);
      if Ready(slots[n - 1]) && (w.None? || slots[n - 1].potential >= slots[w.value].potential) then Some(n - 1) else w
  }

  datatype Stepped = Stepped(bank: Bank, winner: Option<nat>)

  function Step(b: Bank): Stepped
    requires BankOk(b)
  {
    var slots := RaisedSlots(b);
    var w := BestBelow(slots, |slots|);
    if w.None? then Stepped(b.(slots := slots), None)
    else Stepped(b.(slots := slots[w.value := slots[w.value].(potential := 0.0, fires := slots[w.value].fires + 1)]), w)
  }

  // ---- Coupling ----

  /** The strength of the bond between two slots: none unless they are adjacent. */
  function Bond(b: Bank, i: nat, j: nat): real
    requires BankOk(b) && i < |b.slots| && j < |b.slots|
  {
    if j == i + 1 then b.bonds[i] else if i == j + 1 then b.bonds[j] else 0.0
  }

  /** What the alive slots below `n` send to slot `i` through their bonds. */
  function Coupled(b: Bank, i: nat, n: nat): real
    requires BankOk(b) && i < |b.slots| && n <= |b.slots|
  {
    if n == 0 then 0.0
    else Coupled(b, i, n - 1) + (if b.slots[n - 1].alive then Bond(b, i, n - 1) * b.slots[n - 1].potential else 0.0)
  }

  lemma {:induction false} CoupledSum(b: Bank, i: nat, n: nat)
    requires BankOk(b) && i < |b.slots| && n <= |b.slots|
    ensures Coupled(b, i, n)
            == (if i > 0 && i - 1 < n && b.slots[i - 1].alive then b.bonds[i - 1] * b.slots[i - 1].potential else 0.0)
               + (if i + 1 < n && b.slots[i + 1].alive then b.bonds[i] * b.slots[i + 1].potential else 0.0)
  {
    hide SshBonds;
    if n > 0 {
      CoupledSum(b, i, n - 1);
    }
  }

  /** The lateral input of a slot is the sum over all alive slots, each through its bond; so a dead slot sends nothing. */
  lemma LateralIsCoupled(b: Bank, i: nat)
    requires BankOk(b) && i < |b.slots|
    ensures Lateral(b, i) == Coupled(b, i, |b.slots|)
  {
    hide SshBonds, Coupled;
    CoupledSum(b, i, |b.slots|);
  }

  /** A dead slot receives nothing either: no step changes it. */
  lemma StepDead(b: Bank, i: nat)
    requires BankOk(b) && i < |b.slots| && !b.slots[i].alive
    ensures Step(b).bank.slots[i] == b.slots[i]
  {
    hide Lateral, SshBonds;
    StepSelects(b);
    StepShape(b);
  }

  /** Bonds alternate around 1, and growing the bank keeps every bond it had. */
  lemma BondsAlternate(b: Bank, i: nat)
    requires BankOk(b) && i < |b.bonds|
    ensures i + 1 < |b.bonds| ==> b.bonds[i] + b.bonds[i + 1] == 2.0
    ensures b.bonds[0] == 1.0 - b.g
    ensures BankOk(Grown(b)) && i < |Grown(b).bonds| && Grown(b).bonds[i] == b.bonds[i]
  {
  }

  // ---- Selection ----

  lemma {:induction false} BestIsMax(slots: seq<Slot>, n: nat)
    requires n <= |slots|
    ensures var w := BestBelow(slots, n);
            forall j :: 0 <= j < n && Ready(slots[j]) ==>
              w.Some? && slots[j].potential <= slots[w.value].potential
              && (slots[j].potential == slots[w.value].potential ==> j <= w.value)
  {
    if n > 0 {
      BestIsMax(slots, n - 1);
    }
  }

  /** A step selects the ready slot of highest potential, the last on ties; it selects none exactly
      when no alive slot has reached the threshold. A dead slot is never selected. */
  lemma StepSelects(b: Bank)
    requires BankOk(b)
    ensures var slots, w := RaisedSlots(b), Step(b).winner;
            && (w.Some? ==> w.value < |b.slots| && b.slots[w.value].alive && Ready(slots[w.value]))
            && (forall j :: 0 <= j < |slots| && Ready(slots[j]) ==>
                  w.Some? && slots[j].potential <= slots[w.value].potential
                  && (slots[j].potential == slots[w.value].potential ==> j <= w.value))
  {
    BestIsMax(RaisedSlots(b), |b.slots|);
  }

  lemma StepShape(b: Bank)
    requires BankOk(b)
    ensures var b' := Step(b).bank;
            BankOk(b') && b'.g == b.g && |b'.slots| == |b.slots|
            && forall i :: 0 <= i < |b.slots| ==> b'.slots[i].alive == b.slots[i].alive
  {
  }

  // ---- What a step leaves ----

  /** The potential an alive slot reaches before the selection: its bias and its input through all its bonds. */
  function Charge(b: Bank, i: nat): real
    requires BankOk(b) && i < |b.slots|
  {
    b.slots[i].potential + 0.15 + 0.05 * Coupled(b, i, |b.slots|)
  }

  lemma RaisedIsCharge(b: Bank, i: nat)
    requires BankOk(b) && i < |b.slots|
    ensures RaisedSlots(b)[i] == if b.slots[i].alive then b.slots[i].(potential := Charge(b, i)) else b.slots[i]
  {
    hide SshBonds, Coupled, Lateral;
    LateralIsCoupled(b, i);
  }

  /** A step selects nothing exactly when no alive slot's charge has reached 1, and otherwise the alive slot of
      highest charge, the last on ties. */
  lemma StepWinner(b: Bank)
    requires BankOk(b)
    ensures var w := Step(b).winner;
            && (w.None? <==> forall i: nat :: i < |b.slots| && b.slots[i].alive ==> Charge(b, i) < 1.0)
            && (w.Some? ==> w.value < |b.slots| && b.slots[w.value].alive && Charge(b, w.value) >= 1.0
                            && forall i: nat :: i < |b.slots| && b.slots[i].alive ==>
                                 Charge(b, i) < Charge(b, w.value) || (Charge(b, i) == Charge(b, w.value) && i <= w.value))
  {
    hide Charge, Step, RaisedSlots, SshBonds;
    StepSelects(b);
    forall i: nat | i < |b.slots| ensures RaisedSlots(b)[i] == if b.slots[i].alive then b.slots[i].(potential := Charge(b, i)) else b.slots[i] {
      RaisedIsCharge(b, i);
    }
    forall i: nat | i < |b.slots| && b.slots[i].alive ensures Ready(RaisedSlots(b)[i]) <==> Charge(b, i) >= 1.0 {
    }
  }

  /** Every slot after a step: the selected one is reset and counts one more firing, every other alive one keeps
      its charge, dead ones are as they were. */
  lemma StepSlot(b: Bank, i: nat)
    requires BankOk(b) && i < |b.slots|
    ensures i < |Step(b).bank.slots|
    ensures var s, s' := b.slots[i], Step(b).bank.slots[i];
            s' == if !s.alive then s
                  else if Step(b).winner == Some(i) then Slot(true, 0.0, s.fires + 1)
                  else Slot(true, Charge(b, i), s.fires)
  {
    hide Charge, RaisedSlots, SshBonds, BestBelow;
    StepSelects(b);
    RaisedIsCharge(b, i);
  }

  function Fires(slots: seq<Slot>): nat {
    if slots == [] then 0 else Fires(slots[..|slots| - 1]) + slots[|slots| - 1].fires
  }

  lemma {:induction false} FiresSum(a: seq<Slot>, b: seq<Slot>, w: Option<nat>)
    requires |a| == |b| && forall i :: 0 <= i < |a| ==> b[i].fires == a[i].fires + (if w == Some(i) then 1 else 0)
    ensures Fires(b) == Fires(a) + (if w.Some? && w.value < |a| then 1 else 0)
    decreases |a|
  {
    if a != [] {
      FiresSum(a[..|a| - 1], b[..|a| - 1], w);
    }
  }

  /** Exactly one firing is counted for each step that selects. */
  lemma FiresCounted(b: Bank)
    requires BankOk(b)
    ensures Fires(Step(b).bank.slots) == Fires(b.slots) + (if Step(b).winner.Some? then 1 else 0)
  {
    hide Step, Charge, SshBonds;
    StepShape(b);
    StepSelects(b);
    forall i: nat | i < |b.slots|
      ensures Step(b).bank.slots[i].fires == b.slots[i].fires + (if Step(b).winner == Some(i) then 1 else 0)
    {
      StepSlot(b, i);
    }
    FiresSum(b.slots, Step(b).bank.slots, Step(b).winner);
  }

  /** A killed slot is dead and empty, a revived one alive and fresh; no other slot changes. */
  lemma KilledRevived(b: Bank, id: nat, i: nat)
    requires i < |b.slots|
    ensures Killed(b, id).slots[i] == if i == id then Slot(false, 0.0, b.slots[i].fires) else b.slots[i]
    ensures Revived(Killed(b, id), id).slots[i] == if i == id then Slot(true, 0.0, 0) else b.slots[i]
    ensures !Alive(Killed(b, id), id) && (id < |b.slots| ==> Alive(Revived(Killed(b, id), id), id))
  {
    hide SshBonds;
  }

  // ---- Progress ----

  predicate Bounded(g: real) {
    -1.0 <= g <= 1.0
  }

  /** Every alive slot's potential is at least `v`. */
  predicate AtLeast(b: Bank, v: real) {
    forall i :: 0 <= i < |b.slots| && b.slots[i].alive ==> b.slots[i].potential >= v
  }

  lemma LateralNotNegative(b: Bank, i: nat)
    requires BankOk(b) && Bounded(b.g) && AtLeast(b, 0.0) && i < |b.slots|
    ensures Lateral(b, i) >= 0.0
  {
    if i > 0 && b.slots[i - 1].alive {
      NotNegative(b.bonds[i - 1], b.slots[i - 1].potential);
    }
    if i + 1 < |b.slots| && b.slots[i + 1].alive {
      NotNegative(b.bonds[i], b.slots[i + 1].potential);
    }
  }

  lemma NotNegative(x: real, y: real)
    requires x >= 0.0 && y >= 0.0
    ensures x * y >= 0.0
  {
  }

  /** A step keeps potentials non-negative; one that selects nothing raises every alive slot by at least the bias. */
  lemma StepRaises(b: Bank, v: real)
    requires BankOk(b) && Bounded(b.g) && AtLeast(b, v) && v >= 0.0
    ensures AtLeast(Step(b).bank, 0.0)
    ensures Step(b).winner.None? ==> AtLeast(Step(b).bank, v + BIAS)
  {
    hide Lateral, BestBelow;
    forall i: nat | i < |b.slots| && b.slots[i].alive ensures Raised(b, i).potential >= v + BIAS {
      LateralNotNegative(b, i);
    }
  }

  lemma SelectsWhenHigh(b: Bank, v: real, i: nat)
    requires BankOk(b) && Bounded(b.g) && AtLeast(b, v) && v >= 0.0 && v + BIAS >= THRESHOLD && Alive(b, i)
    ensures Step(b).winner.Some?
  {
    hide Lateral;
    LateralNotNegative(b, i);
    StepSelects(b);
    assert Ready(RaisedSlots(b)[i]);
  }

  /** Whether one of the next `n` steps selects a slot. */
  predicate SelectsWithin(b: Bank, n: nat)
    requires BankOk(b)
    decreases n
  {
    n > 0 && (Step(b).winner.Some? || (StepShape(b); SelectsWithin(Step(b).bank, n - 1)))
  }

  lemma {:induction false} SelectsIn(b: Bank, v: real, i: nat, n: nat)
    requires BankOk(b) && Bounded(b.g) && AtLeast(b, v) && v >= 0.0 && Alive(b, i)
    requires n > 0 && v + BIAS * (n as real) >= THRESHOLD
    ensures SelectsWithin(b, n)
    decreases n
  {
    hide AtLeast, Step, BankOk;
    StepShape(b);
    StepRaises(b, v);
    if n == 1 {
      SelectsWhenHigh(b, v, i);
    } else if Step(b).winner.None? {
      AliveStep(b, i);
      SelectsIn(Step(b).bank, v + BIAS, i, n - 1);
    }
  }

  lemma AliveStep(b: Bank, i: nat)
    requires BankOk(b)
    ensures Alive(Step(b).bank, i) <==> Alive(b, i)
  {
    StepShape(b);
  }

  /** With non-negative potentials, |g| <= 1 and one slot alive, one of the next seven steps selects a slot. */
  lemma SelectsWithinSeven(b: Bank, i: nat)
    requires BankOk(b) && Bounded(b.g) && AtLeast(b, 0.0) && Alive(b, i)
    ensures SelectsWithin(b, 7)
  {
    SelectsIn(b, 0.0, i, 7);
  }

  /** Seven is needed: a fresh one-slot bank selects nothing in its first six steps. */
  lemma SixIsNotEnough(g: real)
    ensures !SelectsWithin(FreshBank(1, g), 6)
  {
    var b := FreshBank(1, g);
    SingleSlot(b, 6);
  }

  lemma {:induction false} SingleSlot(b: Bank, n: nat)
    requires BankOk(b) && |b.slots| == 1 && b.slots[0].alive
    requires b.slots[0].potential + BIAS * (n as real) < THRESHOLD
    ensures !SelectsWithin(b, n)
    decreases n
  {
    if n > 0 {
      assert BIAS * (n as real) == BIAS + BIAS * ((n - 1) as real);
      assert RaisedSlots(b)[0].potential == b.slots[0].potential + BIAS;
      assert BestBelow(RaisedSlots(b), 0).None?;
      assert BestBelow(RaisedSlots(b), 1).None?;
      StepShape(b);
      SingleSlot(Step(b).bank, n - 1);
    }
  }

  // ---- The bank the kernel keeps ----

  class Bench {
    var slots: seq<Slot>
    var bonds: seq<real>
    const g: real

    constructor (n: nat, g: real)
      ensures State() == FreshBank(n, g)
    {
      this.g := g;
      slots := seq(n, _ => Slot(true, 0.0, 0));
      bonds := SshBonds(n, g);
    }

    function State(): Bank
      reads this
    {
      Bank(slots, bonds, g)
    }

    method Kill(id: nat)
      modifies this
      ensures State() == Killed(old(State()), id)
    {
      if id < |slots| {
        slots := slots[id := slots[id].(alive := false, potential := 0.0)];
      }
    }

    method Revive(id: nat)
      modifies this
      ensures State() == Revived(old(State()), id)
    {
      if id < |slots| {
        slots := slots[id := Slot(true, 0.0, 0)];
      }
    }

    method AddSlot() returns (id: nat)
      modifies this
      ensures State() == Grown(old(State())) && id == |old(slots)|
    {
      slots := slots + [Slot(true, 0.0, 0)];
      bonds := SshBonds(|slots|, g);
      id := |slots| - 1;
    }

    method Advance() returns (winner: Option<nat>)
      requires BankOk(State())
      modifies this
      ensures Stepped(State(), winner) == Step(old(State()))
    {
      hide Lateral, SshBonds, BestBelow;
      var n := |slots|;
      var snapshot := slots;
      ghost var was := State();
      var i := 0;
      while i < n
        invariant 0 <= i <= n == |slots|
        invariant bonds == old(bonds)
        invariant forall k :: 0 <= k < i ==> slots[k] == Raised(was, k)
        invariant forall k :: i <= k < n ==> slots[k] == was.slots[k]
      {
        if slots[i].alive {
          var coupling := Input(snapshot, bonds, i);
          InputIsLateral(was, i);
          slots := slots[i := slots[i].(potential := slots[i].potential + BIAS + COUPLING * coupling)];
        }
        i := i + 1;
      }
      assert slots == RaisedSlots(was);
      winner := Best();
      if winner.Some? {
        var w := winner.value;
        slots := slots[w := slots[w].(potential := 0.0, fires := slots[w].fires + 1)];
      }
    }

    /** Weighted sum of the alive neighbours' potentials in the snapshot. */
    static method Input(snapshot: seq<Slot>, bonds: seq<real>, i: nat) returns (coupling: real)
      requires i < |snapshot| && |bonds| + 1 == |snapshot|
      ensures coupling == InputOf(snapshot, bonds, i)
    {
      coupling := 0.0;
      if i > 0 && snapshot[i - 1].alive {
        coupling := coupling + bonds[i - 1] * snapshot[i - 1].potential;
      }
      if i + 1 < |snapshot| && snapshot[i + 1].alive {
        coupling := coupling + bonds[i] * snapshot[i + 1].potential;
      }
    }

    static function InputOf(slots: seq<Slot>, bonds: seq<real>, i: nat): real
      requires i < |slots| && |bonds| + 1 == |slots|
    {
      (if i > 0 && slots[i - 1].alive then bonds[i - 1] * slots[i - 1].potential else 0.0)
      + (if i + 1 < |slots| && slots[i + 1].alive then bonds[i] * slots[i + 1].potential else 0.0)
    }

    static lemma InputIsLateral(b: Bank, i: nat)
      requires BankOk(b) && i < |b.slots|
      ensures |b.bonds| + 1 == |b.slots| && InputOf(b.slots, b.bonds, i) == Lateral(b, i)
    {
    }

    method Best() returns (w: Option<nat>)
      ensures w == BestBelow(slots, |slots|)
    {
      w := None;
      var i := 0;
      while i < |slots|
        invariant 0 <= i <= |slots|
        invariant w == BestBelow(slots, i)
      {
        if Ready(slots[i]) && (w.None? || slots[i].potential >= slots[w.value].potential) {
          w := Some(i);
        }
        i := i + 1;
      }
    }
  }
}
