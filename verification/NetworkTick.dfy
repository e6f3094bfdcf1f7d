/** The network as the kernel updates it: neuron and synapse vectors changed in place, pass by pass
    (kernel/src/network.rs). */
module NetworkTick {
  import opened Common
  import opened Network

  class GenericNetwork {
    var neurons: seq<Neuron>
    var synapses: seq<Synapse>
    var stimulus: seq<real>
    var beep: nat
    var clock: nat
    const decay: Decay

    constructor (decay: Decay)
      ensures State() == Net([], [], [], 0, 0) && this.decay == decay
    {
      this.decay := decay;
      neurons, synapses, stimulus, beep, clock := [], [], [], 0, 0;
    }

    function State(): Net
      reads this
    {
      Net(neurons, synapses, stimulus, beep, clock)
    }

    /** First neuron of this name, or the number of neurons. */
    method FindNeuron(name: string) returns (k: nat)
      ensures k == Find(State(), name) && k <= |neurons|
    {
      k := 0;
      while k < |neurons| && neurons[k].name != name
        invariant 0 <= k <= |neurons|
        invariant FindFrom(neurons, name, k) == FindFrom(neurons, name, 0)
        decreases |neurons| - k
      {
        k := k + 1;
      }
    }

    method AddNeuronNamed(name: string, threshold: real, leak: real, refractory: nat) returns (ok: bool)
      requires NetOk(State())
      modifies this
      ensures State() == Act(old(State()), AddNeuron(name, threshold, leak, refractory), decay)
      ensures ok <==> Find(old(State()), name) == |old(neurons)|
    {
      var k := FindNeuron(name);
      if k < |neurons| {
        return false;
      }
      neurons := neurons + [Neuron(name, 0.0, threshold, leak, 0, None, refractory, 0)];
      stimulus := stimulus + [0.0];
      ok := true;
    }

    method AddSynapseBetween(fromName: string, toName: string, weight: real) returns (ok: bool)
      requires NetOk(State())
      modifies this
      ensures State() == Act(old(State()), AddSynapse(fromName, toName, weight), decay)
    {
      var a := FindNeuron(fromName);
      if a == |neurons| {
        return false;
      }
      var b := FindNeuron(toName);
      if b == |neurons| {
        return false;
      }
      synapses := synapses + [Synapse(a, b, weight, true, INITIAL_EVIDENCE, None)];
      ok := true;
    }

    method TrainSynapse(fromName: string, toName: string, gap: nat, preFirst: bool) returns (ok: bool)
      requires NetOk(State())
      modifies this
      ensures State() == Act(old(State()), Train(fromName, toName, gap, preFirst), decay)
    {
      hide Stdp, FindFrom, FindSynapse;
      var a := FindNeuron(fromName);
      if a == |neurons| {
        return false;
      }
      var b := FindNeuron(toName);
      if b == |neurons| {
        return false;
      }
      var k := Position(a, b);
      if k == |synapses| {
        return false;
      }
      var tA := clock;
      var tB := tA + gap;
      clock := tB + 1;
      if preFirst {
        neurons := neurons[a := Marked(neurons[a], tA)];
        neurons := neurons[b := Marked(neurons[b], tB)];
      } else {
        neurons := neurons[b := Marked(neurons[b], tA)];
        neurons := neurons[a := Marked(neurons[a], tB)];
      }
      synapses := synapses[k := synapses[k].(weight := Stdp(synapses[k].weight, neurons[a].lastFire, neurons[b].lastFire, decay))];
      ok := true;
    }

    method Position(from: nat, to: nat) returns (k: nat)
      ensures k == FindSynapse(synapses, from, to, 0) && k <= |synapses|
    {
      k := 0;
      while k < |synapses| && !(synapses[k].from == from && synapses[k].to == to)
        invariant 0 <= k <= |synapses|
        invariant FindSynapse(synapses, from, to, k) == FindSynapse(synapses, from, to, 0)
        decreases |synapses| - k
      {
        k := k + 1;
      }
    }

    // ---- One tick, pass by pass ----

    /** Leak, stimulus and threshold for every neuron. */
    method StepNeurons(tickN: nat) returns (fired: seq<nat>)
      requires |stimulus| == |neurons|
      modifies this`neurons
      ensures fired == Fired(old(State()))
      ensures |neurons| == |old(neurons)|
      ensures forall i :: 0 <= i < |neurons| ==> neurons[i] == Ticked(old(neurons)[i], stimulus[i], tickN)
    {
      hide Ticked, Fires, FiredBelow;
      NoneFired(State());
      fired := [];
      var i := 0;
      while i < |neurons|
        invariant 0 <= i <= |neurons| == |old(neurons)|
        invariant fired == FiredBelow(old(State()), i)
        invariant forall k :: 0 <= k < i ==> neurons[k] == Ticked(old(neurons)[k], stimulus[k], tickN)
        invariant forall k :: i <= k < |neurons| ==> neurons[k] == old(neurons)[k]
      {
        var n, fires := StepNeuron(neurons[i], stimulus[i], tickN);
        OneFired(old(State()), i);
        if fires {
          fired := fired + [i];
        }
        neurons := neurons[i := n];
        i := i + 1;
      }
    }

    static lemma NoneFired(net: Net)
      requires |net.stimulus| == |net.neurons|
      ensures FiredBelow(net, 0) == []
    {
    }

    static lemma OneFired(net: Net, i: nat)
      requires i < |net.neurons| == |net.stimulus|
      ensures FiredBelow(net, i + 1) == if Fires(net.neurons[i], net.stimulus[i]) then FiredBelow(net, i) + [i] else FiredBelow(net, i)
    {
      assert FiredBelow(net, i) + [] == FiredBelow(net, i);
    }

    static method StepNeuron(was: Neuron, stim: real, tickN: nat) returns (n: Neuron, fires: bool)
      ensures n == Ticked(was, stim, tickN) && fires == Fires(was, stim)
    {
      n, fires := was, false;
      if n.remaining > 0 {
        n := n.(remaining := n.remaining - 1);
      } else {
        n := n.(v := MaxReal(n.v - n.leak, 0.0));
        n := n.(v := n.v + stim);
        if n.v >= n.threshold {
          n := n.(v := 0.0, fires := n.fires + 1, lastFire := Some(tickN), remaining := n.refractory);
          fires := true;
        }
      }
    }

    /** Evidence for every synapse, open or dormant. */
    method SenseSynapses(fired: seq<nat>, tickN: nat)
      requires forall k :: 0 <= k < |synapses| && synapses[k].pending.Some? ==> synapses[k].pending.value < tickN
      modifies this`synapses
      ensures |synapses| == |old(synapses)|
      ensures forall k :: 0 <= k < |synapses| ==> synapses[k] == Sensed(old(synapses)[k], fired, tickN)
    {
      hide Blend;
      var i := 0;
      while i < |synapses|
        invariant 0 <= i <= |synapses| == |old(synapses)|
        invariant forall k :: 0 <= k < i ==> synapses[k] == Sensed(old(synapses)[k], fired, tickN)
        invariant forall k :: i <= k < |synapses| ==> synapses[k] == old(synapses)[k]
      {
        var s := synapses[i];
        if s.to in fired && s.pending.Some? && tickN - s.pending.value <= CORRELATION_WINDOW_TICKS {
          s := s.(evidence := Blend(s.evidence, true), pending := None);
        }
        if s.pending.Some? && tickN - s.pending.value > CORRELATION_WINDOW_TICKS {
          s := s.(evidence := Blend(s.evidence, false), pending := None);
        }
        if s.from in fired {
          s := s.(pending := Some(tickN));
        }
        synapses := synapses[i := s];
        i := i + 1;
      }
    }

    /** Every open synapse of every fired neuron adds to its target's next stimulus. */
    method Propagate(fired: seq<nat>)
      requires forall k :: 0 <= k < |synapses| ==> synapses[k].to < |stimulus|
      requires forall j :: 0 <= j < |stimulus| ==> stimulus[j] == 0.0
      modifies this`stimulus
      ensures |stimulus| == |old(stimulus)|
      ensures forall j :: 0 <= j < |stimulus| ==> stimulus[j] == Arriving(synapses, fired, j, |fired|)
    {
      var m := 0;
      while m < |fired|
        invariant 0 <= m <= |fired| && |stimulus| == |old(stimulus)|
        invariant forall j :: 0 <= j < |stimulus| ==> stimulus[j] == Arriving(synapses, fired, j, m)
      {
        ghost var before := stimulus;
        var i := 0;
        while i < |synapses|
          invariant 0 <= i <= |synapses| && |stimulus| == |before|
          invariant forall j :: 0 <= j < |stimulus| ==> stimulus[j] == before[j] + FromSource(synapses, fired[m], j, i)
        {
          var s := synapses[i];
          if s.from == fired[m] && s.gate {
            stimulus := stimulus[s.to := stimulus[s.to] + s.weight * SPIKE_GAIN];
          }
          i := i + 1;
        }
        m := m + 1;
      }
    }

    method Learn(fired: seq<nat>)
      requires forall k :: 0 <= k < |synapses| ==> synapses[k].from < |neurons| && synapses[k].to < |neurons|
      modifies this`synapses
      ensures |synapses| == |old(synapses)|
      ensures forall k :: 0 <= k < |synapses| ==> synapses[k] == Learned(old(synapses)[k], fired, neurons, decay)
    {
      hide Stdp;
      var i := 0;
      while i < |synapses|
        invariant 0 <= i <= |synapses| == |old(synapses)|
        invariant forall k :: 0 <= k < i ==> synapses[k] == Learned(old(synapses)[k], fired, neurons, decay)
        invariant forall k :: i <= k < |synapses| ==> synapses[k] == old(synapses)[k]
      {
        var s := synapses[i];
        if s.gate && (s.from in fired || s.to in fired) {
          synapses := synapses[i := s.(weight := Stdp(s.weight, neurons[s.from].lastFire, neurons[s.to].lastFire, decay))];
        }
        i := i + 1;
      }
    }

    method EvaluateGates()
      modifies this`synapses
      ensures |synapses| == |old(synapses)|
      ensures forall k :: 0 <= k < |synapses| ==> synapses[k] == Gated(old(synapses)[k])
    {
      var i := 0;
      while i < |synapses|
        invariant 0 <= i <= |synapses| == |old(synapses)|
        invariant forall k :: 0 <= k < i ==> synapses[k] == Gated(old(synapses)[k])
        invariant forall k :: i <= k < |synapses| ==> synapses[k] == old(synapses)[k]
      {
        var s := synapses[i];
        if s.gate && s.evidence < GATE_OFF_THRESHOLD {
          s := s.(gate := false);
        } else if !s.gate && s.evidence > GATE_ON_THRESHOLD {
          s := s.(gate := true);
        }
        synapses := synapses[i := s];
        i := i + 1;
      }
    }

    method TickAll()
      requires NetOk(State())
      modifies this
      ensures State() == Tick(old(State()), decay)
    {
      hide FiredBelow, Ticked, Sensed, Learned, Gated, Arriving;
      ghost var net := State();
      var tickN := clock;
      clock := clock + 1;
      var fired := StepNeurons(tickN);
      FiredSame(net, net.(clock := clock), |neurons|);
      assert neurons == TickedNeurons(net);
      stimulus := seq(|stimulus|, _ => 0.0);
      SenseSynapses(fired, tickN);
      assert synapses == SensedSynapses(net);
      EndsKept(net);
      Propagate(fired);
      Learn(fired);
      if tickN % GATE_PERIOD == 0 {
        EvaluateGates();
      }
      if fired != [] {
        beep := BEEP_DURATION_TICKS;
      } else if beep > 0 {
        beep := beep - 1;
      }
      assert synapses == Tick(net, decay).synapses;
      assert stimulus == Tick(net, decay).stimulus;
    }

    static lemma EndsKept(net: Net)
      requires NetOk(net)
      ensures forall k :: 0 <= k < |net.synapses| ==>
                SensedSynapses(net)[k].from == net.synapses[k].from && SensedSynapses(net)[k].to == net.synapses[k].to
    {
      hide FiredBelow, Blend;
    }
  }
}
