/** The two-timescale gated spiking network: one tick and the operations between ticks
    (kernel/src/network.rs). `decay` stands for exp(-|dt| / tau) by tick distance. */
module Network {
  import opened Common

  const SPIKE_GAIN: real := 50.0
  const STDP_RATE: real := 0.1
  const INITIAL_EVIDENCE: real := 1.0
  const CORRELATION_WINDOW_TICKS := 15
  const EVIDENCE_BETA: real := 0.8
  const GATE_ON_THRESHOLD: real := 0.5
  const GATE_OFF_THRESHOLD: real := 0.2
  const FAST_TAU_TICKS := 7
  const GATE_PERIOD := 18
  const PHI: real := 1.618034
  const BEEP_DURATION_TICKS := 40

  datatype Neuron = Neuron(
    name: string,
    v: real,
    threshold: real,
    leak: real,
    fires: nat,
    lastFire: Option<nat>,
    refractory: nat,
    remaining: nat)

  datatype Synapse = Synapse(from: nat, to: nat, weight: real, gate: bool, evidence: real, pending: Option<nat>)

  datatype Net = Net(neurons: seq<Neuron>, synapses: seq<Synapse>, stimulus: seq<real>, beep: nat, clock: nat)

  type Decay = nat -> real

  ghost predicate DecayOk(decay: Decay) {
    forall n: nat :: 0.0 < decay(n) <= 1.0
  }

  // ---- Neurons ----

  function MaxReal(a: real, b: real): real {
    if a >= b then a else b
  }

  predicate Fires(n: Neuron, stim: real) {
    n.remaining == 0 && MaxReal(n.v - n.leak, 0.0) + stim >= n.threshold
  }

  /** One neuron's tick: a refractory neuron drops its stimulus. */
  function Ticked(n: Neuron, stim: real, clock: nat): Neuron {
    if n.remaining > 0 then n.(remaining := n.remaining - 1)
    else if Fires(n, stim) then n.(v := 0.0, fires := n.fires + 1, lastFire := Some(clock), remaining := n.refractory)
    else n.(v := MaxReal(n.v - n.leak, 0.0) + stim)
  }

  /** Indices below `i` of the neurons that fire this tick, in order. */
  function FiredBelow(net: Net, i: nat): (f: seq<nat>)
    requires i <= |net.neurons| == |net.stimulus|
    ensures forall k: nat :: k in f <==> k < i && k < |net.neurons| && Fires(net.neurons[k], net.stimulus[k])
  {
    if i == 0 then []
    else FiredBelow(net, i - 1) + (if Fires(net.neurons[i - 1], net.stimulus[i - 1]) then [i - 1] else [])
  }

  function Fired(net: Net): seq<nat>
    requires |net.neurons| == |net.stimulus|
  {
    FiredBelow(net, |net.neurons|)
  }

  /** Who fires depends on neurons and stimulus alone. */
  lemma {:induction false} FiredSame(a: Net, b: Net, i: nat)
    requires a.neurons == b.neurons && a.stimulus == b.stimulus && i <= |a.neurons| == |a.stimulus|
    ensures FiredBelow(a, i) == FiredBelow(b, i)
  {
    if i > 0 {
      FiredSame(a, b, i - 1);
    }
  }

  // ---- Evidence ----

  function Blend(evidence: real, hit: bool): real {
    evidence * EVIDENCE_BETA + (if hit then 1.0 else 0.0) * (1.0 - EVIDENCE_BETA)
  }

  /** The verdict this tick gives on a synapse's open window, if any. */
  function Verdict(s: Synapse, fired: seq<nat>, clock: nat): Option<bool> {
    if s.pending.None? then None
    else if s.to in fired && clock - s.pending.value <= CORRELATION_WINDOW_TICKS then Some(true)
    else if clock - s.pending.value > CORRELATION_WINDOW_TICKS then Some(false)
    else None
  }

  function Sensed(s: Synapse, fired: seq<nat>, clock: nat): Synapse {
    var v := Verdict(s, fired, clock);
    var s1 := if v.Some? then s.(evidence := Blend(s.evidence, v.value), pending := None) else s;
    if s.from in fired then s1.(pending := Some(clock)) else s1
  }

  // ---- Plasticity ----

  function Stdp(weight: real, pre: Option<nat>, post: Option<nat>, decay: Decay): real {
    if pre.None? || post.None? || pre.value == post.value then weight
    else
      var delta := STDP_RATE * decay(Abs(post.value - pre.value));
      if post.value > pre.value then (if weight + delta <= 1.0 then weight + delta else 1.0)
      else (if weight - delta >= 0.0 then weight - delta else 0.0)
  }

  /** STDP on an open synapse one of whose neurons fired; a dormant one is frozen. */
  function Learned(s: Synapse, fired: seq<nat>, neurons: seq<Neuron>, decay: Decay): Synapse
    requires s.from < |neurons| && s.to < |neurons|
  {
    if s.gate && (s.from in fired || s.to in fired)
    then s.(weight := Stdp(s.weight, neurons[s.from].lastFire, neurons[s.to].lastFire, decay))
    else s
  }

  function Gated(s: Synapse): Synapse {
    if s.gate && s.evidence < GATE_OFF_THRESHOLD then s.(gate := false)
    else if !s.gate && s.evidence > GATE_ON_THRESHOLD then s.(gate := true)
    else s
  }

  // ---- Propagation ----

  /** What the synapses from `src` at indices below `i` add to the stimulus of neuron `j`. */
  function FromSource(synapses: seq<Synapse>, src: nat, j: nat, i: nat): real
    requires i <= |synapses|
  {
    if i == 0 then 0.0
    else
      var s := synapses[i - 1];
      FromSource(synapses, src, j, i - 1) + (if s.from == src && s.gate && s.to == j then s.weight * SPIKE_GAIN else 0.0)
  }

  /** What the first `m` fired neurons send to neuron `j`. */
  function Arriving(synapses: seq<Synapse>, fired: seq<nat>, j: nat, m: nat): real
    requires m <= |fired|
  {
    if m == 0 then 0.0
    else Arriving(synapses, fired, j, m - 1) + FromSource(synapses, fired[m - 1], j, |synapses|)
  }

  // ---- The tick ----

  /** Endpoints and stimulus slots in range, windows opened in the past. */
  predicate NetOk(net: Net) {
    && |net.stimulus| == |net.neurons|
    && (forall k :: 0 <= k < |net.synapses| ==>
          && net.synapses[k].from < |net.neurons|
          && net.synapses[k].to < |net.neurons|
          && (net.synapses[k].pending.Some? ==> net.synapses[k].pending.value < net.clock))
  }

  function TickedNeurons(net: Net): (ns: seq<Neuron>)
    requires NetOk(net)
    ensures |ns| == |net.neurons|
  {
    seq(|net.neurons|, i requires 0 <= i < |net.neurons| => Ticked(net.neurons[i], net.stimulus[i], net.clock))
  }

  function SensedSynapses(net: Net): (ss: seq<Synapse>)
    requires NetOk(net)
    ensures |ss| == |net.synapses|
  {
    seq(|net.synapses|, k requires 0 <= k < |net.synapses| => Sensed(net.synapses[k], Fired(net), net.clock))
  }

  predicate GateTick(clock: nat) {
    clock % GATE_PERIOD == 0
  }

  /** Synapse `k` after the tick: sensed, then trained, then gated on a gate tick. */
  function TickedSynapse(net: Net, k: nat, decay: Decay): Synapse
    requires NetOk(net) && k < |net.synapses|
  {
    var s := Learned(Sensed(net.synapses[k], Fired(net), net.clock), Fired(net), TickedNeurons(net), decay);
    if GateTick(net.clock) then Gated(s) else s
  }

  function Tick(net: Net, decay: Decay): Net
    requires NetOk(net)
  {
    var fired := Fired(net);
    Net(TickedNeurons(net),
        seq(|net.synapses|, k requires 0 <= k < |net.synapses| => TickedSynapse(net, k, decay)),
        seq(|net.neurons|, j requires 0 <= j => Arriving(SensedSynapses(net), fired, j, |fired|)),
        if fired != [] then BEEP_DURATION_TICKS else if net.beep > 0 then net.beep - 1 else 0,
        net.clock + 1)
  }

  // ---- Operations between ticks ----

  /** First neuron with this name at or after `i`, or the length. */
  function FindFrom(neurons: seq<Neuron>, name: string, i: nat): (k: nat)
    requires i <= |neurons|
    decreases |neurons| - i
    ensures i <= k <= |neurons|
    ensures k < |neurons| ==> neurons[k].name == name
    ensures forall j :: i <= j < k ==> neurons[j].name != name
  {
    if i == |neurons| || neurons[i].name == name then i else FindFrom(neurons, name, i + 1)
  }

  function Find(net: Net, name: string): nat {
    FindFrom(net.neurons, name, 0)
  }

  function FindSynapse(synapses: seq<Synapse>, from: nat, to: nat, i: nat): (k: nat)
    requires i <= |synapses|
    decreases |synapses| - i
    ensures i <= k <= |synapses|
    ensures k < |synapses| ==> synapses[k].from == from && synapses[k].to == to
  {
    if i == |synapses| || (synapses[i].from == from && synapses[i].to == to) then i
    else FindSynapse(synapses, from, to, i + 1)
  }

  datatype Action =
    | DoTick
    | AddNeuron(name: string, threshold: real, leak: real, refractory: nat)
    | AddSynapse(fromName: string, toName: string, weight: real)
    | Stimulate(name: string, amount: real)
    | Train(fromName: string, toName: string, gap: nat, preFirst: bool)

  function Marked(n: Neuron, t: nat): Neuron {
    n.(lastFire := Some(t), fires := n.fires + 1)
  }

  function Trained(net: Net, a: nat, b: nat, k: nat, gap: nat, preFirst: bool, decay: Decay): Net
    requires a < |net.neurons| && b < |net.neurons| && k < |net.synapses|
  {
    var t0, t1 := net.clock, net.clock + gap;
    var ns := if preFirst then net.neurons[a := Marked(net.neurons[a], t0)] else net.neurons[b := Marked(net.neurons[b], t0)];
    var ns' := if preFirst then ns[b := Marked(ns[b], t1)] else ns[a := Marked(ns[a], t1)];
    var s := net.synapses[k];
    net.(neurons := ns',
         synapses := net.synapses[k := s.(weight := Stdp(s.weight, ns'[a].lastFire, ns'[b].lastFire, decay))],
         clock := t1 + 1)
  }

  /** The network after an action; an action naming something that does not exist changes nothing. */
  function Act(net: Net, act: Action, decay: Decay): Net
    requires NetOk(net)
  {
    match act
    case DoTick => Tick(net, decay)
    case AddNeuron(name, threshold, leak, refractory) =>
      if Find(net, name) < |net.neurons| then net
      else net.(neurons := net.neurons + [Neuron(name, 0.0, threshold, leak, 0, None, refractory, 0)],
                stimulus := net.stimulus + [0.0])
    case AddSynapse(f, t, weight) =>
      var a, b := Find(net, f), Find(net, t);
      if a == |net.neurons| || b == |net.neurons| then net
      else net.(synapses := net.synapses + [Synapse(a, b, weight, true, INITIAL_EVIDENCE, None)])
    case Stimulate(name, amount) =>
      var i := Find(net, name);
      if i == |net.neurons| then net else net.(stimulus := net.stimulus[i := net.stimulus[i] + amount])
    case Train(f, t, gap, preFirst) =>
      var a, b := Find(net, f), Find(net, t);
      if a == |net.neurons| || b == |net.neurons| then net
      else
        var k := FindSynapse(net.synapses, a, b, 0);
        if k == |net.synapses| then net else Trained(net, a, b, k, gap, preFirst, decay)
  }

  // ---- Gate period ----

  function Gcd(a: nat, b: nat): nat
    decreases b
  {
    if b == 0 then a else Gcd(b, a % b)
  }

  /** The period the slow clock starts its search at: phi^2 times the fast period, rounded. */
  function GoldenStart(fast: nat): nat {
    var p := (PHI * PHI * (fast as real) + 0.5).Floor;
    if p < 2 then 2 else p
  }

  lemma NextToMultiple(q: nat, fast: nat)
    requires fast > 0
    ensures Gcd(fast * q + 1, fast) == 1
  {
    if fast > 1 {
      DivIs(fast * q + 1, fast, q);
      assert Gcd(fast, 1) == Gcd(1, fast % 1) == Gcd(1, 0) == 1;
    } else {
      assert Gcd(1, (q + 1) % 1) == 1;
      assert Gcd(fast * q + 1, 1) == Gcd(1, (fast * q + 1) % 1);
    }
  }

  lemma NextMultiple(p: nat, f: nat)
    requires f > 0
    ensures p <= f * (p / f + 1) <= p + f
  {
    DivBounds(p, f);
  }

  function AtLeastOne(fast: nat): nat {
    if fast >= 1 then fast else 1
  }

  /** The search for a period coprime to the fast one always ends, within one fast period, at the
      first coprime number from the start. */
  method GoldenPeriod(fast: nat) returns (p: nat)
    ensures Gcd(p, AtLeastOne(fast)) == 1
    ensures GoldenStart(fast) <= p <= GoldenStart(fast) + fast + 1
    ensures forall m :: GoldenStart(fast) <= m < p ==> Gcd(m, AtLeastOne(fast)) != 1
  {
    var f := AtLeastOne(fast);
    p := GoldenStart(fast);
    ghost var q := p / f + 1;
    NextToMultiple(q, f);
    NextMultiple(p, f);
    if fast == 0 {
      assert Gcd(p, 1) == Gcd(1, p % 1);
    }
    while Gcd(p, f) != 1
      invariant GoldenStart(fast) <= p <= f * q + 1
      invariant forall m :: GoldenStart(fast) <= m < p ==> Gcd(m, f) != 1
      decreases f * q + 1 - p
    {
      p := p + 1;
    }
  }

  /** The kernel's own gate period. */
  lemma GatePeriodIs18()
    ensures GoldenStart(FAST_TAU_TICKS) == GATE_PERIOD && Gcd(GATE_PERIOD, FAST_TAU_TICKS) == 1
  {
    assert PHI * PHI * 7.0 + 0.5 == 18.826238176092;
    assert Gcd(18, 7) == Gcd(7, 4) == Gcd(4, 3) == Gcd(3, 1) == Gcd(1, 0) == 1;
  }
}
