/** One tick, and each operation between ticks, entry by entry: what it leaves of every neuron and synapse. */
module NetworkLaws {
  import opened Common
  import opened Network
  import opened NetworkRuns

  // ---- Neurons ----

  /** The potential a neuron reaches before its threshold check. */
  function Charged(n: Neuron, stim: real): real {
    (if n.v >= n.leak then n.v - n.leak else 0.0) + stim
  }

  /** A neuron in its refractory period neither fires nor takes its stimulus. Any other leaks, adds its stimulus, and
      fires exactly when that reaches its threshold: it is then reset, marked and refractory. */
  lemma NeuronTick(net: Net, i: nat, decay: Decay)
    requires NetOk(net) && i < |net.neurons|
    ensures i < |Tick(net, decay).neurons|
    ensures var n, n', p := net.neurons[i], Tick(net, decay).neurons[i], Charged(net.neurons[i], net.stimulus[i]);
            && (i in Fired(net) <==> n.remaining == 0 && p >= n.threshold)
            && n' == if n.remaining > 0 then n.(remaining := n.remaining - 1)
                     else if i in Fired(net) then
                       n.(v := 0.0, fires := n.fires + 1, lastFire := Some(net.clock), remaining := n.refractory)
                     else n.(v := p)
  {
    hide Tick, TickedSynapse;
    TickShape(net, decay);
  }

  /** Neuron `i` gets no stimulus, is not refractory and does not fire at any of the next `n` ticks. */
  predicate Silent(net: Net, i: nat, n: nat, decay: Decay)
    requires NetOk(net) && i < |net.neurons|
    decreases n
  {
    n == 0
    || (net.stimulus[i] == 0.0 && net.neurons[i].remaining == 0 && i !in Fired(net)
        && (TickOk(net, decay);
            NeuronTick(net, i, decay);
            Silent(Tick(net, decay), i, n - 1, decay)))
  }

  function Ticks(net: Net, n: nat, decay: Decay): Net
    requires NetOk(net)
    decreases n
  {
    if n == 0 then net
    else
      TickOk(net, decay);
      Ticks(Tick(net, decay), n - 1, decay)
  }

  /** Left alone, a potential leaks away linearly and stops at zero. */
  lemma {:induction false} LeaksAway(net: Net, i: nat, n: nat, decay: Decay)
    requires NetOk(net) && i < |net.neurons| && Silent(net, i, n, decay)
    requires net.neurons[i].leak >= 0.0 && net.neurons[i].v >= 0.0
    ensures i < |Ticks(net, n, decay).neurons|
    ensures var v, fall := net.neurons[i].v, (n as real) * net.neurons[i].leak;
            Ticks(net, n, decay).neurons[i].v == if v >= fall then v - fall else 0.0
    decreases n
  {
    hide Tick, NetOk, FiredBelow;
    if n > 0 {
      TickOk(net, decay);
      NeuronTick(net, i, decay);
      LeaksAway(Tick(net, decay), i, n - 1, decay);
      assert (n as real) * net.neurons[i].leak == net.neurons[i].leak + ((n - 1) as real) * net.neurons[i].leak;
      NotNegative((n - 1) as real, net.neurons[i].leak);
    }
  }

  lemma NotNegative(x: real, y: real)
    requires x >= 0.0 && y >= 0.0
    ensures x * y >= 0.0
  {
  }

  // ---- Synapses ----

  /** A hit pulls evidence a fifth of the way to 1, a miss a fifth of the way to 0, and any other tick leaves it. A
      verdict closes the window; a firing of the source opens a new one. */
  lemma EvidenceTick(net: Net, k: nat, decay: Decay)
    requires NetOk(net) && k < |net.synapses|
    ensures k < |Tick(net, decay).synapses|
    ensures var s, s' := net.synapses[k], Tick(net, decay).synapses[k];
            var age := if s.pending.Some? then net.clock - s.pending.value else 0;
            && s'.evidence == (if s.pending.Some? && age <= 15 && s.to in Fired(net) then 0.8 * s.evidence + 0.2
                               else if s.pending.Some? && age > 15 then 0.8 * s.evidence
                               else s.evidence)
            && s'.pending == (if s.from in Fired(net) then Some(net.clock)
                              else if s.pending.Some? && (age > 15 || s.to in Fired(net)) then None
                              else s.pending)
            && s'.from == s.from && s'.to == s.to
  {
    hide FiredBelow, Stdp, Ticked, Arriving;
  }

  /** The gate is looked at on every eighteenth tick only: it closes below 0.2, opens above 0.5, and otherwise stays. */
  lemma GateCheck(net: Net, k: nat, decay: Decay)
    requires NetOk(net) && k < |net.synapses|
    ensures k < |Tick(net, decay).synapses|
    ensures var s, s' := net.synapses[k], Tick(net, decay).synapses[k];
            s'.gate == if net.clock % 18 != 0 then s.gate
                       else if s'.evidence < 0.2 then false
                       else if s'.evidence > 0.5 then true
                       else s.gate
  {
    hide FiredBelow, Stdp, Ticked, Arriving, Blend;
  }

  function Clamped(x: real): real {
    if x < 0.0 then 0.0 else if x > 1.0 then 1.0 else x
  }

  /** The weight after a pairing of the last firings of source and target. */
  function Paired(w: real, pre: Option<nat>, post: Option<nat>, decay: Decay): real {
    if pre.None? || post.None? || pre == post then w
    else if pre.value < post.value then Clamped(w + 0.1 * decay(post.value - pre.value))
    else Clamped(w - 0.1 * decay(pre.value - post.value))
  }

  lemma StdpIsPaired(w: real, pre: Option<nat>, post: Option<nat>, decay: Decay)
    requires InUnit(w) && DecayOk(decay)
    ensures Stdp(w, pre, post, decay) == Paired(w, pre, post, decay)
  {
    if pre.Some? && post.Some? && pre != post {
      assert 0.0 < decay(Abs(post.value - pre.value));
    }
  }

  /** Exactly the synapses that were open and one of whose neurons fired at this tick learn, from the two last
      firings, this tick's included. */
  lemma WeightTick(net: Net, k: nat, decay: Decay)
    requires NetOk(net) && k < |net.synapses| && DecayOk(decay) && InUnit(net.synapses[k].weight)
    ensures k < |Tick(net, decay).synapses| && |Tick(net, decay).neurons| == |net.neurons|
    ensures var s, net' := net.synapses[k], Tick(net, decay);
            net'.synapses[k].weight
            == if s.gate && (s.from in Fired(net) || s.to in Fired(net))
               then Paired(s.weight, net'.neurons[s.from].lastFire, net'.neurons[s.to].lastFire, decay)
               else s.weight
  {
    hide FiredBelow, Stdp, Ticked, Arriving, Blend, DecayOk, Paired;
    var s, ns := net.synapses[k], TickedNeurons(net);
    StdpIsPaired(s.weight, ns[s.from].lastFire, ns[s.to].lastFire, decay);
  }

  /** The clock moves by one; a tick with a firing starts the speaker's forty ticks, any other counts them down. */
  lemma ClockAndBeep(net: Net, decay: Decay)
    requires NetOk(net)
    ensures Tick(net, decay).clock == net.clock + 1
    ensures Tick(net, decay).beep == if Fired(net) != [] then 40 else if net.beep > 0 then net.beep - 1 else 0
  {
    hide FiredBelow, TickedSynapse, Ticked, Arriving;
  }

  // ---- Between ticks ----

  predicate Named(net: Net, name: string, i: nat) {
    i < |net.neurons| && net.neurons[i].name == name && forall j :: 0 <= j < i ==> net.neurons[j].name != name
  }

  predicate NoneNamed(net: Net, name: string) {
    forall j :: 0 <= j < |net.neurons| ==> net.neurons[j].name != name
  }

  lemma FindIs(net: Net, name: string, i: nat)
    ensures Find(net, name) <= |net.neurons|
    ensures Named(net, name, i) ==> Find(net, name) == i
    ensures NoneNamed(net, name) <==> Find(net, name) == |net.neurons|
  {
  }

  predicate NamesUnique(net: Net) {
    forall i, j :: 0 <= i < j < |net.neurons| ==> net.neurons[i].name != net.neurons[j].name
  }

  /** A neuron is added exactly under a name that is not taken: silent, unmarked, without stimulus, and last. */
  lemma NeuronAdded(net: Net, act: Action, decay: Decay)
    requires NetOk(net) && act.AddNeuron?
    ensures !NoneNamed(net, act.name) ==> Act(net, act, decay) == net
    ensures NoneNamed(net, act.name) ==>
              var n := |net.neurons|;
              var net' := Act(net, act, decay);
              && |net'.neurons| == |net'.stimulus| == n + 1 && net'.stimulus[n] == 0.0 && net'.stimulus[..n] == net.stimulus
              && net'.neurons[..n] == net.neurons && net'.synapses == net.synapses && net'.clock == net.clock
              && net'.neurons[n] == Neuron(act.name, 0.0, act.threshold, act.leak, 0, None, act.refractory, 0)
  {
    FindIs(net, act.name, 0);
    hide FindFrom;
  }

  lemma NamesKept(net: Net, act: Action, decay: Decay)
    requires NetOk(net) && NamesUnique(net)
    ensures NamesUnique(Act(net, act, decay))
  {
    hide Tick, TickedSynapse, Stdp, FindFrom, FindSynapse;
    match act {
      case DoTick =>
        TickShape(net, decay);
        forall i: nat | i < |net.neurons| ensures Tick(net, decay).neurons[i].name == net.neurons[i].name {
          NameKept(net.neurons[i], net.stimulus[i], net.clock);
        }
      case AddNeuron(name, threshold, leak, refractory) =>
        FindIs(net, name, 0);
      case Train(f, t, gap, preFirst) =>
        FindRange(net, f);
        FindRange(net, t);
        FindSynapseRange(net.synapses, Find(net, f), Find(net, t));
      case _ =>
    }
  }

  /** Over every run no two neurons ever share a name, so a name always means one neuron. */
  lemma {:induction false} NamesStayUnique(net: Net, acts: seq<Action>, decay: Decay)
    requires NetOk(net) && NamesUnique(net)
    ensures NamesUnique(Run(net, acts, decay))
    decreases |acts|
  {
    hide Act, NetOk, NamesUnique;
    if acts != [] {
      ActOk(net, acts[0], decay);
      NamesKept(net, acts[0], decay);
      NamesStayUnique(Act(net, acts[0], decay), acts[1..], decay);
    }
  }

  /** A synapse is added exactly between two names that exist: open, fully trusted, with no window, and last. */
  lemma SynapseAdded(net: Net, f: string, t: string, weight: real, a: nat, b: nat, decay: Decay)
    requires NetOk(net)
    ensures NoneNamed(net, f) || NoneNamed(net, t) ==> Act(net, AddSynapse(f, t, weight), decay) == net
    ensures Named(net, f, a) && Named(net, t, b) ==>
              Act(net, AddSynapse(f, t, weight), decay)
              == net.(synapses := net.synapses + [Synapse(a, b, weight, true, 1.0, None)])
  {
    FindIs(net, f, a);
    FindIs(net, t, b);
    hide FindFrom;
  }

  /** A stimulus is added to what the named neuron has waiting, and to nothing else. */
  lemma Stimulated(net: Net, name: string, amount: real, a: nat, decay: Decay)
    requires NetOk(net)
    ensures NoneNamed(net, name) ==> Act(net, Stimulate(name, amount), decay) == net
    ensures Named(net, name, a) ==>
              Act(net, Stimulate(name, amount), decay) == net.(stimulus := net.stimulus[a := net.stimulus[a] + amount])
  {
    FindIs(net, name, a);
    hide FindFrom;
  }

  /** Synapse `k` is the first from `a` to `b`. */
  predicate Joins(net: Net, a: nat, b: nat, k: nat) {
    k < |net.synapses| && net.synapses[k].from == a && net.synapses[k].to == b
    && forall j :: 0 <= j < k ==> net.synapses[j].from != a || net.synapses[j].to != b
  }

  lemma {:induction false} FindSynapseIs(ss: seq<Synapse>, a: nat, b: nat, i: nat, k: nat)
    requires i <= k < |ss| && ss[k].from == a && ss[k].to == b
    requires forall j :: i <= j < k ==> ss[j].from != a || ss[j].to != b
    ensures FindSynapse(ss, a, b, i) == k
    decreases k - i
  {
    if i < k {
      FindSynapseIs(ss, a, b, i + 1, k);
    }
  }

  /** A trial marks both neurons, `gap` ticks apart in the given order, applies one pairing to the first synapse
      between them whether it is open or not, and moves the clock past both; evidence, windows, gates and every
      other weight and neuron stay. */
  lemma TrialEffect(net: Net, f: string, t: string, gap: nat, preFirst: bool, a: nat, b: nat, k: nat, decay: Decay)
    requires NetOk(net) && DecayOk(decay) && Named(net, f, a) && Named(net, t, b) && a != b && Joins(net, a, b, k)
    requires InUnit(net.synapses[k].weight)
    ensures var net' := Act(net, Train(f, t, gap, preFirst), decay);
            var first, second := net.clock, net.clock + gap;
            && net'.clock == net.clock + gap + 1 && net'.stimulus == net.stimulus && net'.beep == net.beep
            && net'.neurons == net.neurons[a := net.neurons[a].(lastFire := Some(if preFirst then first else second), fires := net.neurons[a].fires + 1)]
                                          [b := net.neurons[b].(lastFire := Some(if preFirst then second else first), fires := net.neurons[b].fires + 1)]
            && net'.synapses == net.synapses[k := net.synapses[k].(weight :=
                 if gap == 0 then net.synapses[k].weight
                 else if preFirst then Clamped(net.synapses[k].weight + 0.1 * decay(gap))
                 else Clamped(net.synapses[k].weight - 0.1 * decay(gap)))]
  {
    FindIs(net, f, a);
    FindIs(net, t, b);
    FindSynapseIs(net.synapses, a, b, 0, k);
    hide FindFrom, FindSynapse, Stdp, DecayOk;
    var x, y := Some(if preFirst then net.clock else net.clock + gap), Some(if preFirst then net.clock + gap else net.clock);
    StdpIsPaired(net.synapses[k].weight, x, y, decay);
    var net' := Act(net, Train(f, t, gap, preFirst), decay);
    assert net'.neurons[a].lastFire == x && net'.neurons[b].lastFire == y;
  }

  /** A trial on names or a synapse that do not exist changes nothing. */
  lemma TrialRefused(net: Net, f: string, t: string, gap: nat, preFirst: bool, a: nat, b: nat, decay: Decay)
    requires NetOk(net)
    requires NoneNamed(net, f) || NoneNamed(net, t)
             || (Named(net, f, a) && Named(net, t, b)
                 && forall k :: 0 <= k < |net.synapses| ==> net.synapses[k].from != a || net.synapses[k].to != b)
    ensures Act(net, Train(f, t, gap, preFirst), decay) == net
  {
    FindIs(net, f, a);
    FindIs(net, t, b);
    FindSynapseRange(net.synapses, a, b);
    hide FindFrom, FindSynapse, Stdp;
  }
}
