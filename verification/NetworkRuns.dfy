/** What every run of the network keeps: ranges, evidence and gate dynamics, frozen weights and
    refractory spacing. */
module NetworkRuns {
  import opened Common
  import opened Network

  // ---- Ranges ----

  predicate InUnit(x: real) {
    0.0 <= x <= 1.0
  }

  predicate EvidenceOk(net: Net) {
    forall k :: 0 <= k < |net.synapses| ==> InUnit(net.synapses[k].evidence)
  }

  predicate WeightsOk(net: Net) {
    forall k :: 0 <= k < |net.synapses| ==> InUnit(net.synapses[k].weight)
  }

  lemma TickShape(net: Net, decay: Decay)
    requires NetOk(net)
    ensures var net' := Tick(net, decay);
            && |net'.neurons| == |net.neurons| && |net'.synapses| == |net.synapses| && net'.clock == net.clock + 1
            && (forall i :: 0 <= i < |net.neurons| ==> net'.neurons[i] == Ticked(net.neurons[i], net.stimulus[i], net.clock))
            && (forall k :: 0 <= k < |net.synapses| ==> net'.synapses[k] == TickedSynapse(net, k, decay))
  {
    hide TickedSynapse, Ticked, Arriving, FiredBelow;
  }

  lemma SynapseEnds(net: Net, k: nat, decay: Decay)
    requires NetOk(net) && k < |net.synapses|
    ensures var s, s' := net.synapses[k], TickedSynapse(net, k, decay);
            && s'.from == s.from && s'.to == s.to
            && (s'.pending.Some? ==> s'.pending.value < net.clock + 1)
  {
    hide FiredBelow, Stdp, Blend, Ticked;
  }

  lemma TickOk(net: Net, decay: Decay)
    requires NetOk(net)
    ensures NetOk(Tick(net, decay))
  {
    hide TickedSynapse, Ticked, Arriving, FiredBelow, Tick;
    TickShape(net, decay);
    TickStimulus(net, decay);
    var net' := Tick(net, decay);
    forall k | 0 <= k < |net'.synapses|
      ensures net'.synapses[k].from < |net'.neurons| && net'.synapses[k].to < |net'.neurons|
              && (net'.synapses[k].pending.Some? ==> net'.synapses[k].pending.value < net'.clock)
    {
      SynapseEnds(net, k, decay);
    }
  }

  lemma TickStimulus(net: Net, decay: Decay)
    requires NetOk(net)
    ensures |Tick(net, decay).stimulus| == |net.neurons|
  {
    hide TickedSynapse, Ticked, Arriving, FiredBelow;
  }

  /** Every action keeps endpoints, stimulus slots and open windows in range; so no tick difference underflows. */
  lemma ActOk(net: Net, act: Action, decay: Decay)
    requires NetOk(net)
    ensures NetOk(Act(net, act, decay))
    ensures Act(net, act, decay).clock >= net.clock
  {
    hide Tick, Stdp, FindFrom, FindSynapse, Find;
    if act.DoTick? {
      TickOk(net, decay);
      TickShape(net, decay);
    }
    FindRange(net, if act.AddSynapse? || act.Train? then act.fromName else if act.DoTick? then "" else act.name);
    if act.AddSynapse? || act.Train? {
      FindRange(net, act.toName);
      FindSynapseRange(net.synapses, Find(net, act.fromName), Find(net, act.toName));
    }
  }

  lemma FindRange(net: Net, name: string)
    ensures Find(net, name) <= |net.neurons|
  {
  }

  lemma FindSynapseRange(ss: seq<Synapse>, a: nat, b: nat)
    ensures FindSynapse(ss, a, b, 0) <= |ss|
    ensures FindSynapse(ss, a, b, 0) < |ss| ==> ss[FindSynapse(ss, a, b, 0)].from == a && ss[FindSynapse(ss, a, b, 0)].to == b
  {
  }

  function Run(net: Net, acts: seq<Action>, decay: Decay): Net
    requires NetOk(net)
    decreases |acts|
  {
    if acts == [] then net
    else
      ActOk(net, acts[0], decay);
      Run(Act(net, acts[0], decay), acts[1..], decay)
  }

  lemma {:induction false} RunOk(net: Net, acts: seq<Action>, decay: Decay)
    requires NetOk(net)
    ensures NetOk(Run(net, acts, decay))
    decreases |acts|
  {
    hide Act, NetOk;
    if acts != [] {
      ActOk(net, acts[0], decay);
      RunOk(Act(net, acts[0], decay), acts[1..], decay);
    }
  }

  lemma StdpInUnit(w: real, pre: Option<nat>, post: Option<nat>, decay: Decay)
    requires InUnit(w) && DecayOk(decay)
    ensures InUnit(Stdp(w, pre, post, decay))
  {
  }

  lemma SynapseInUnit(net: Net, k: nat, decay: Decay)
    requires NetOk(net) && k < |net.synapses| && DecayOk(decay)
    ensures InUnit(net.synapses[k].weight) ==> InUnit(TickedSynapse(net, k, decay).weight)
    ensures InUnit(net.synapses[k].evidence) ==> InUnit(TickedSynapse(net, k, decay).evidence)
  {
    hide FiredBelow, Stdp, Ticked, DecayOk;
    var s, ns := net.synapses[k], TickedNeurons(net);
    if InUnit(s.weight) {
      StdpInUnit(s.weight, ns[s.from].lastFire, ns[s.to].lastFire, decay);
    }
  }

  predicate WeightGiven(act: Action) {
    act.AddSynapse? ==> InUnit(act.weight)
  }

  /** Evidence stays in [0,1] through every action; weights do if every weight given is. */
  lemma ActInUnit(net: Net, act: Action, decay: Decay)
    requires NetOk(net) && DecayOk(decay)
    ensures EvidenceOk(net) ==> EvidenceOk(Act(net, act, decay))
    ensures WeightsOk(net) && WeightGiven(act) ==> WeightsOk(Act(net, act, decay))
  {
    hide Tick, TickedSynapse, Stdp, FindFrom, FindSynapse, Find, DecayOk;
    match act {
      case DoTick =>
        TickShape(net, decay);
        forall k: nat | k < |net.synapses|
          ensures InUnit(net.synapses[k].weight) ==> InUnit(TickedSynapse(net, k, decay).weight)
          ensures InUnit(net.synapses[k].evidence) ==> InUnit(TickedSynapse(net, k, decay).evidence)
        {
          SynapseInUnit(net, k, decay);
        }
      case Train(f, t, gap, preFirst) =>
        var a, b := Find(net, f), Find(net, t);
        FindRange(net, f);
        FindRange(net, t);
        if a < |net.neurons| && b < |net.neurons| {
          var k := FindSynapse(net.synapses, a, b, 0);
          FindSynapseRange(net.synapses, a, b);
          if k < |net.synapses| && InUnit(net.synapses[k].weight) {
            var ns := Trained(net, a, b, k, gap, preFirst, decay).neurons;
            StdpInUnit(net.synapses[k].weight, ns[a].lastFire, ns[b].lastFire, decay);
          }
        }
      case _ =>
    }
  }

  predicate WeightsGiven(acts: seq<Action>) {
    forall i :: 0 <= i < |acts| ==> WeightGiven(acts[i])
  }

  lemma WeightsGivenTail(acts: seq<Action>)
    requires WeightsGiven(acts) && acts != []
    ensures WeightGiven(acts[0]) && WeightsGiven(acts[1..])
  {
    hide WeightGiven;
    forall i | 0 <= i < |acts[1..]| ensures WeightGiven(acts[1..][i]) {
      assert acts[1..][i] == acts[i + 1];
    }
  }

  lemma {:induction false} RunInUnit(net: Net, acts: seq<Action>, decay: Decay)
    requires NetOk(net) && DecayOk(decay) && EvidenceOk(net)
    ensures EvidenceOk(Run(net, acts, decay))
    ensures WeightsOk(net) && WeightsGiven(acts) ==> WeightsOk(Run(net, acts, decay))
    decreases |acts|
  {
    hide Act, NetOk, DecayOk, EvidenceOk, WeightsOk, WeightsGiven, WeightGiven;
    if acts != [] {
      ActOk(net, acts[0], decay);
      ActInUnit(net, acts[0], decay);
      if WeightsGiven(acts) {
        WeightsGivenTail(acts);
      }
      RunInUnit(Act(net, acts[0], decay), acts[1..], decay);
    }
  }

  // ---- Dormant synapses ----

  lemma FromDormant(a: seq<Synapse>, b: seq<Synapse>, src: nat, j: nat, i: nat)
    requires i <= |a| == |b| && SameWhenOpen(a, b)
    ensures FromSource(a, src, j, i) == FromSource(b, src, j, i)
  {
    if i > 0 {
      FromDormant(a, b, src, j, i - 1);
    }
  }

  /** The same synapses, except possibly for the weights of dormant ones. */
  predicate SameWhenOpen(a: seq<Synapse>, b: seq<Synapse>) {
    |a| == |b| && forall k :: 0 <= k < |a| ==> b[k] == a[k].(weight := b[k].weight) && (a[k].gate ==> b[k].weight == a[k].weight)
  }

  lemma {:induction false} ArrivingDormant(a: seq<Synapse>, b: seq<Synapse>, fired: seq<nat>, j: nat, m: nat)
    requires m <= |fired| && SameWhenOpen(a, b)
    ensures Arriving(a, fired, j, m) == Arriving(b, fired, j, m)
  {
    if m > 0 {
      ArrivingDormant(a, b, fired, j, m - 1);
      FromDormant(a, b, fired[m - 1], j, |a|);
    }
  }

  lemma SensedSameOpen(net: Net, ss: seq<Synapse>)
    requires NetOk(net) && SameWhenOpen(net.synapses, ss)
    ensures NetOk(net.(synapses := ss))
    ensures Fired(net.(synapses := ss)) == Fired(net)
    ensures SameWhenOpen(SensedSynapses(net), SensedSynapses(net.(synapses := ss)))
  {
    hide Blend;
    FiredSame(net, net.(synapses := ss), |net.neurons|);
  }

  /** A synapse that is off at a tick keeps its weight and sends nothing: whatever its weight is, every
      neuron receives the same stimulus. */
  lemma DormantIsInert(net: Net, k: nat, w: real, decay: Decay)
    requires NetOk(net) && k < |net.synapses| && !net.synapses[k].gate
    ensures var other := net.(synapses := net.synapses[k := net.synapses[k].(weight := w)]);
            && TickedSynapse(net, k, decay).weight == net.synapses[k].weight
            && NetOk(other)
            && Tick(other, decay).stimulus == Tick(net, decay).stimulus
            && Tick(other, decay).neurons == Tick(net, decay).neurons
  {
    hide FiredBelow, Arriving, FromSource, Ticked, Blend, Stdp;
    var other := net.(synapses := net.synapses[k := net.synapses[k].(weight := w)]);
    SensedSameOpen(net, other.synapses);
    var fired := Fired(net);
    forall j: nat | j < |net.neurons|
      ensures Arriving(SensedSynapses(net), fired, j, |fired|) == Arriving(SensedSynapses(other), fired, j, |fired|)
    {
      ArrivingDormant(SensedSynapses(net), SensedSynapses(other), fired, j, |fired|);
    }
  }

  function WithWeight(net: Net, k: nat, w: real): Net
    requires k < |net.synapses|
  {
    net.(synapses := net.synapses[k := net.synapses[k].(weight := w)])
  }

  /** The action trains synapse `k` by hand. */
  predicate Trains(net: Net, act: Action, k: nat) {
    act.Train? && FindSynapse(net.synapses, Find(net, act.fromName), Find(net, act.toName), 0) == k
  }

  lemma DormantTicked(net: Net, k: nat, w: real, j: nat, decay: Decay)
    requires NetOk(net) && k < |net.synapses| && !net.synapses[k].gate && j < |net.synapses|
    ensures NetOk(WithWeight(net, k, w))
    ensures TickedSynapse(WithWeight(net, k, w), j, decay)
            == if j == k then TickedSynapse(net, k, decay).(weight := w) else TickedSynapse(net, j, decay)
  {
    hide FiredBelow, Stdp, Ticked, Blend;
    FiredSame(net, WithWeight(net, k, w), |net.neurons|);
  }

  lemma DormantTick(net: Net, k: nat, w: real, decay: Decay)
    requires NetOk(net) && k < |net.synapses| && !net.synapses[k].gate
    ensures NetOk(WithWeight(net, k, w)) && k < |Tick(net, decay).synapses|
    ensures Tick(net, decay).synapses[k].weight == net.synapses[k].weight
    ensures Tick(WithWeight(net, k, w), decay) == WithWeight(Tick(net, decay), k, w)
  {
    hide FiredBelow, Arriving, FromSource, Ticked, TickedSynapse;
    DormantIsInert(net, k, w, decay);
    var other := WithWeight(net, k, w);
    FiredSame(net, other, |net.neurons|);
    forall j: nat | j < |net.synapses|
      ensures TickedSynapse(other, j, decay) == if j == k then TickedSynapse(net, k, decay).(weight := w) else TickedSynapse(net, j, decay)
    {
      DormantTicked(net, k, w, j, decay);
    }
    assert Tick(other, decay).synapses == WithWeight(Tick(net, decay), k, w).synapses;
  }

  lemma {:induction false} FindSynapseSame(a: seq<Synapse>, b: seq<Synapse>, f: nat, t: nat, i: nat)
    requires |a| == |b| && i <= |a|
    requires forall k :: 0 <= k < |a| ==> a[k].from == b[k].from && a[k].to == b[k].to
    ensures FindSynapse(a, f, t, i) == FindSynapse(b, f, t, i)
    decreases |a| - i
  {
    if i < |a| {
      FindSynapseSame(a, b, f, t, i + 1);
    }
  }

  lemma DormantTrain(net: Net, act: Action, k: nat, w: real, decay: Decay)
    requires NetOk(net) && act.Train? && k < |net.synapses| && !Trains(net, act, k)
    ensures NetOk(WithWeight(net, k, w)) && k < |Act(net, act, decay).synapses|
    ensures Act(net, act, decay).synapses[k].weight == net.synapses[k].weight
    ensures Act(WithWeight(net, k, w), act, decay) == WithWeight(Act(net, act, decay), k, w)
  {
    hide Stdp, FindFrom, FindSynapse;
    FindRange(net, act.fromName);
    FindRange(net, act.toName);
    var a, b := Find(net, act.fromName), Find(net, act.toName);
    FindSynapseRange(net.synapses, a, b);
    FindSynapseSame(net.synapses, WithWeight(net, k, w).synapses, a, b, 0);
    var m := FindSynapse(net.synapses, a, b, 0);
    if a < |net.neurons| && b < |net.neurons| && m < |net.synapses| {
      assert net.synapses[m := net.synapses[m]] == net.synapses;
      assert Act(WithWeight(net, k, w), act, decay).synapses == WithWeight(Act(net, act, decay), k, w).synapses;
    }
  }

  lemma DormantStep(net: Net, act: Action, k: nat, w: real, decay: Decay)
    requires NetOk(net) && k < |net.synapses| && !net.synapses[k].gate && !Trains(net, act, k)
    ensures NetOk(WithWeight(net, k, w)) && k < |Act(net, act, decay).synapses|
    ensures Act(net, act, decay).synapses[k].weight == net.synapses[k].weight
    ensures Act(WithWeight(net, k, w), act, decay) == WithWeight(Act(net, act, decay), k, w)
  {
    hide Tick, Stdp, FindFrom, FindSynapse;
    match act {
      case DoTick => DormantTick(net, k, w, decay);
      case Train(f, t, gap, preFirst) => DormantTrain(net, act, k, w, decay);
      case AddSynapse(f, t, weight) =>
        assert Act(WithWeight(net, k, w), act, decay).synapses == WithWeight(Act(net, act, decay), k, w).synapses;
      case _ =>
    }
  }

  /** Synapse `k` is off before every action of the run, and none of them trains it by hand. */
  predicate StaysDormant(net: Net, acts: seq<Action>, k: nat, decay: Decay)
    requires NetOk(net) && k < |net.synapses|
    decreases |acts|
  {
    acts == []
    || (!net.synapses[k].gate && !Trains(net, acts[0], k)
        && (SynapseStays(net, acts[0], k, decay);
            StaysDormant(Act(net, acts[0], decay), acts[1..], k, decay)))
  }

  /** Over any run in which a synapse stays gated off, its weight is unchanged and nothing depends on it:
      started with any other weight there, the run goes the same way in every other respect. */
  lemma {:induction false} DormantRun(net: Net, acts: seq<Action>, k: nat, w: real, decay: Decay)
    requires NetOk(net) && k < |net.synapses| && StaysDormant(net, acts, k, decay)
    ensures NetOk(WithWeight(net, k, w)) && k < |Run(net, acts, decay).synapses|
    ensures Run(net, acts, decay).synapses[k].weight == net.synapses[k].weight
    ensures Run(WithWeight(net, k, w), acts, decay) == WithWeight(Run(net, acts, decay), k, w)
    decreases |acts|
  {
    hide Act, Trains;
    if acts != [] {
      DormantStep(net, acts[0], k, w, decay);
      SynapseStays(net, acts[0], k, decay);
      DormantRun(Act(net, acts[0], decay), acts[1..], k, w, decay);
    }
  }

  // ---- Evidence does not see weights ----

  /** What the evidence pass, the gates and lookups by name read: the clock, the neurons' names, and
      everything about the synapses but their weights. */
  predicate SameView(a: Net, b: Net) {
    && a.clock == b.clock
    && |a.neurons| == |b.neurons|
    && (forall i :: 0 <= i < |a.neurons| ==> a.neurons[i].name == b.neurons[i].name)
    && |a.synapses| == |b.synapses|
    && forall k :: 0 <= k < |a.synapses| ==> b.synapses[k] == a.synapses[k].(weight := b.synapses[k].weight)
  }

  lemma ViewStep(a: Net, b: Net, k: nat, decay: Decay)
    requires NetOk(a) && NetOk(b) && SameView(a, b) && Fired(a) == Fired(b) && k < |a.synapses|
    ensures var s, t := TickedSynapse(a, k, decay), TickedSynapse(b, k, decay); t == s.(weight := t.weight)
  {
    hide FiredBelow, Stdp, Ticked, Blend;
  }

  lemma NameKept(n: Neuron, stim: real, clock: nat)
    ensures Ticked(n, stim, clock).name == n.name
  {
  }

  lemma ViewTick(a: Net, b: Net, decay: Decay)
    requires NetOk(a) && NetOk(b) && SameView(a, b) && Fired(a) == Fired(b)
    ensures SameView(Tick(a, decay), Tick(b, decay))
  {
    hide Tick, TickedSynapse, FiredBelow;
    TickShape(a, decay);
    TickShape(b, decay);
    forall i: nat | i < |a.neurons| ensures Tick(a, decay).neurons[i].name == Tick(b, decay).neurons[i].name {
      NameKept(a.neurons[i], a.stimulus[i], a.clock);
      NameKept(b.neurons[i], b.stimulus[i], b.clock);
    }
    forall k: nat | k < |a.synapses|
      ensures TickedSynapse(b, k, decay) == TickedSynapse(a, k, decay).(weight := TickedSynapse(b, k, decay).weight)
    {
      ViewStep(a, b, k, decay);
    }
  }

  lemma {:induction false} FindSameNames(a: seq<Neuron>, b: seq<Neuron>, name: string, i: nat)
    requires |a| == |b| && i <= |a| && forall k :: 0 <= k < |a| ==> a[k].name == b[k].name
    ensures FindFrom(a, name, i) == FindFrom(b, name, i)
    decreases |a| - i
  {
    if i < |a| {
      FindSameNames(a, b, name, i + 1);
    }
  }

  /** The same kind of action on the same names; stimulus, weights and neuron parameters may differ. */
  predicate Alike(x: Action, y: Action) {
    match x
    case Stimulate(_, _) => y.Stimulate?
    case AddSynapse(f, t, _) => y.AddSynapse? && y.fromName == f && y.toName == t
    case AddNeuron(name, _, _, _) => y.AddNeuron? && y.name == name
    case _ => y == x
  }

  lemma ViewTrain(a: Net, b: Net, act: Action, decay: Decay)
    requires NetOk(a) && NetOk(b) && SameView(a, b) && act.Train?
    ensures SameView(Act(a, act, decay), Act(b, act, decay))
  {
    hide Stdp, FindFrom, FindSynapse;
    FindSameNames(a.neurons, b.neurons, act.fromName, 0);
    FindSameNames(a.neurons, b.neurons, act.toName, 0);
    FindRange(a, act.fromName);
    FindRange(a, act.toName);
    FindSynapseSame(a.synapses, b.synapses, Find(a, act.fromName), Find(a, act.toName), 0);
    FindSynapseRange(a.synapses, Find(a, act.fromName), Find(a, act.toName));
  }

  lemma ViewAct(a: Net, b: Net, x: Action, y: Action, decay: Decay)
    requires NetOk(a) && NetOk(b) && SameView(a, b) && Alike(x, y) && (x.DoTick? ==> Fired(a) == Fired(b))
    ensures SameView(Act(a, x, decay), Act(b, y, decay))
  {
    hide Tick, Stdp, FindFrom, FindSynapse, FiredBelow, Trained;
    match x {
      case DoTick => ViewTick(a, b, decay);
      case Train(f, t, gap, preFirst) => ViewTrain(a, b, x, decay);
      case AddNeuron(name, _, _, _) => FindSameNames(a.neurons, b.neurons, name, 0);
      case AddSynapse(f, t, _) =>
        FindSameNames(a.neurons, b.neurons, f, 0);
        FindSameNames(a.neurons, b.neurons, t, 0);
      case Stimulate(_, _) =>
    }
  }

  /** Who fires at each tick of the run, in order. */
  function FireLog(net: Net, acts: seq<Action>, decay: Decay): seq<seq<nat>>
    requires NetOk(net)
    decreases |acts|
  {
    if acts == [] then []
    else
      ActOk(net, acts[0], decay);
      (if acts[0].DoTick? then [Fired(net)] else []) + FireLog(Act(net, acts[0], decay), acts[1..], decay)
  }

  predicate AllAlike(xs: seq<Action>, ys: seq<Action>) {
    |xs| == |ys| && forall i :: 0 <= i < |xs| ==> Alike(xs[i], ys[i])
  }

  lemma AlikeTail(xs: seq<Action>, ys: seq<Action>)
    requires AllAlike(xs, ys) && xs != []
    ensures ys != [] && Alike(xs[0], ys[0]) && AllAlike(xs[1..], ys[1..])
    ensures xs[0].DoTick? <==> ys[0].DoTick?
  {
    hide Alike;
    forall i | 0 <= i < |xs[1..]| ensures Alike(xs[1..][i], ys[1..][i]) {
      assert xs[1..][i] == xs[i + 1] && ys[1..][i] == ys[i + 1];
    }
    TickAlike(xs[0], ys[0]);
  }

  lemma TickAlike(x: Action, y: Action)
    requires Alike(x, y)
    ensures x.DoTick? <==> y.DoTick?
  {
  }

  lemma LogHead(net: Net, acts: seq<Action>, decay: Decay)
    requires NetOk(net) && acts != []
    ensures NetOk(Act(net, acts[0], decay))
    ensures |net.neurons| == |net.stimulus|
    ensures var log, rest := FireLog(net, acts, decay), FireLog(Act(net, acts[0], decay), acts[1..], decay);
            acts[0].DoTick? ==> log != [] && log[0] == Fired(net) && log[1..] == rest
    ensures !acts[0].DoTick? ==> FireLog(net, acts, decay) == FireLog(Act(net, acts[0], decay), acts[1..], decay)
  {
    hide Act, Fired;
    ActOk(net, acts[0], decay);
  }

  /** Two runs of the same actions, with any stimuli and weights, in which the same neurons fire at the same
      ticks end with the same evidence, open windows and gates, whatever their weights and potentials were;
      training and adding neurons and synapses in between included. */
  lemma {:induction false} EvidenceIgnoresWeights(a: Net, b: Net, xs: seq<Action>, ys: seq<Action>, decay: Decay)
    requires NetOk(a) && NetOk(b) && SameView(a, b) && AllAlike(xs, ys)
    requires FireLog(a, xs, decay) == FireLog(b, ys, decay)
    ensures SameView(Run(a, xs, decay), Run(b, ys, decay))
    decreases |xs|
  {
    hide Act, Fired, NetOk, SameView, Alike, AllAlike, FireLog;
    if xs == [] {
      NoneAlike(ys);
    } else {
      AlikeTail(xs, ys);
      LogHead(a, xs, decay);
      LogHead(b, ys, decay);
      var a1, b1 := Act(a, xs[0], decay), Act(b, ys[0], decay);
      ViewAct(a, b, xs[0], ys[0], decay);
      EvidenceIgnoresWeights(a1, b1, xs[1..], ys[1..], decay);
    }
  }

  lemma NoneAlike(ys: seq<Action>)
    requires AllAlike([], ys)
    ensures ys == []
  {
  }

  // ---- Gate dynamics ----

  /** 0.8 to the power `n`. */
  function Beta(n: nat): (r: real)
    ensures 0.0 < r <= 1.0
  {
    if n == 0 then 1.0 else EVIDENCE_BETA * Beta(n - 1)
  }

  /** A window is open and the target fires at most fifteen ticks after the source did. */
  predicate Hit(net: Net, k: nat)
    requires NetOk(net) && k < |net.synapses|
  {
    var s := net.synapses[k];
    s.pending.Some? && s.to in Fired(net) && net.clock - s.pending.value <= 15
  }

  /** A window has been open for more than fifteen ticks. */
  predicate Missed(net: Net, k: nat)
    requires NetOk(net) && k < |net.synapses|
  {
    net.synapses[k].pending.Some? && net.clock - net.synapses[k].pending.value > 15
  }

  /** The verdict synapse `k` gets in this action, if any: a tick can be a hit or a miss for it. */
  function VerdictIn(net: Net, act: Action, k: nat): Option<bool>
    requires NetOk(net) && k < |net.synapses|
  {
    if act.DoTick? && Hit(net, k) then Some(true)
    else if act.DoTick? && Missed(net, k) then Some(false)
    else None
  }

  lemma VerdictIs(net: Net, k: nat)
    requires NetOk(net) && k < |net.synapses|
    ensures VerdictIn(net, DoTick, k) == Verdict(net.synapses[k], Fired(net), net.clock)
  {
    hide FiredBelow;
  }

  /** The number of verdicts synapse `k` gets over a run. */
  function Verdicts(net: Net, acts: seq<Action>, k: nat, decay: Decay): nat
    requires NetOk(net) && k < |net.synapses|
    decreases |acts|
  {
    if acts == [] then 0
    else
      ActOk(net, acts[0], decay);
      SynapseStays(net, acts[0], k, decay);
      (if VerdictIn(net, acts[0], k).Some? then 1 else 0) + Verdicts(Act(net, acts[0], decay), acts[1..], k, decay)
  }

  /** What an action does to the evidence and gate of synapse `k`. */
  ghost predicate GateStep(s: Synapse, s': Synapse, v: Option<bool>, check: bool) {
    && s'.from == s.from && s'.to == s.to
    && s'.evidence == (if v.Some? then Blend(s.evidence, v.value) else s.evidence)
    && s'.gate == (if check && s.gate && s'.evidence < GATE_OFF_THRESHOLD then false
                   else if check && !s.gate && s'.evidence > GATE_ON_THRESHOLD then true
                   else s.gate)
  }

  lemma TickGate(net: Net, k: nat, decay: Decay)
    requires NetOk(net) && k < |net.synapses|
    ensures GateStep(net.synapses[k], TickedSynapse(net, k, decay),
                     Verdict(net.synapses[k], Fired(net), net.clock), GateTick(net.clock))
  {
    hide FiredBelow, Stdp, Ticked, Blend;
  }

  lemma SynapseStays(net: Net, act: Action, k: nat, decay: Decay)
    requires NetOk(net) && k < |net.synapses|
    ensures NetOk(Act(net, act, decay))
    ensures k < |Act(net, act, decay).synapses|
    ensures GateStep(net.synapses[k], Act(net, act, decay).synapses[k], VerdictIn(net, act, k), act.DoTick? && GateTick(net.clock))
  {
    hide Tick, TickedSynapse, Stdp, FindFrom, FindSynapse, Find, Blend, Verdict, Hit, Missed;
    ActOk(net, act, decay);
    match act {
      case DoTick => TickShape(net, decay); TickGate(net, k, decay); VerdictIs(net, k);
      case Train(f, t, gap, preFirst) =>
        FindRange(net, f);
        FindRange(net, t);
        FindSynapseRange(net.synapses, Find(net, f), Find(net, t));
      case _ =>
    }
  }

  lemma {:induction false} SynapseStaysRun(net: Net, acts: seq<Action>, k: nat, decay: Decay)
    requires NetOk(net) && k < |net.synapses|
    ensures NetOk(Run(net, acts, decay)) && k < |Run(net, acts, decay).synapses|
    decreases |acts|
  {
    hide Act, NetOk, GateStep;
    if acts != [] {
      SynapseStays(net, acts[0], k, decay);
      SynapseStaysRun(Act(net, acts[0], decay), acts[1..], k, decay);
    }
  }

  lemma BlendFalls(e: real, hit: bool, c: nat)
    requires InUnit(e) && e >= GATE_ON_THRESHOLD * Beta(c)
    ensures Blend(e, hit) >= GATE_ON_THRESHOLD * Beta(c + 1)
  {
  }

  lemma BlendRises(e: real, hit: bool, c: nat)
    requires InUnit(e) && 1.0 - e >= Beta(c + 1)
    ensures 1.0 - Blend(e, hit) >= Beta(c + 2)
  {
  }

  lemma BetaValues()
    ensures Beta(1) == 0.8 && Beta(2) == 0.64 && Beta(3) == 0.512 && Beta(4) == 0.4096
    ensures Beta(8) < GATE_OFF_THRESHOLD
  {
    assert Beta(0) == 1.0;
    assert Beta(4) == 0.4096;
    assert Beta(5) == 0.32768;
    assert Beta(6) == 0.262144;
    assert Beta(7) == 0.2097152;
  }

  lemma {:induction false} BetaFalls(a: nat, b: nat)
    requires a <= b
    ensures Beta(a) >= Beta(b)
  {
    if a < b {
      BetaFalls(a, b - 1);
    }
  }

  lemma {:induction false} StaysOn(net: Net, acts: seq<Action>, k: nat, decay: Decay, c: nat)
    requires NetOk(net) && DecayOk(decay) && EvidenceOk(net) && k < |net.synapses|
    requires net.synapses[k].gate && net.synapses[k].evidence >= GATE_ON_THRESHOLD * Beta(c)
    requires c + Verdicts(net, acts, k, decay) <= 4
    ensures k < |Run(net, acts, decay).synapses| && Run(net, acts, decay).synapses[k].gate
    decreases |acts|
  {
    hide Act, NetOk, DecayOk, VerdictIn, Blend, Beta;
    if acts != [] {
      SynapseStays(net, acts[0], k, decay);
      ActInUnit(net, acts[0], decay);
      var v := VerdictIn(net, acts[0], k);
      assert InUnit(net.synapses[k].evidence);
      var c' := if v.Some? then c + 1 else c;
      if v.Some? {
        BlendFalls(net.synapses[k].evidence, v.value, c);
      }
      BetaFalls(c', 4);
      BetaValues();
      StaysOn(Act(net, acts[0], decay), acts[1..], k, decay, c');
    }
  }

  lemma {:induction false} StaysOff(net: Net, acts: seq<Action>, k: nat, decay: Decay, c: nat)
    requires NetOk(net) && DecayOk(decay) && EvidenceOk(net) && k < |net.synapses|
    requires !net.synapses[k].gate && 1.0 - net.synapses[k].evidence >= Beta(c + 1)
    requires c + Verdicts(net, acts, k, decay) <= 2
    ensures k < |Run(net, acts, decay).synapses| && !Run(net, acts, decay).synapses[k].gate
    decreases |acts|
  {
    hide Act, NetOk, DecayOk, VerdictIn, Blend, Beta;
    if acts != [] {
      SynapseStays(net, acts[0], k, decay);
      ActInUnit(net, acts[0], decay);
      var v := VerdictIn(net, acts[0], k);
      assert InUnit(net.synapses[k].evidence);
      var c' := if v.Some? then c + 1 else c;
      if v.Some? {
        BlendRises(net.synapses[k].evidence, v.value, c);
      }
      BetaFalls(c' + 1, 3);
      BetaValues();
      StaysOff(Act(net, acts[0], decay), acts[1..], k, decay, c');
    }
  }

  /** Hysteresis, off: after an action that switches a gate on, any run that leaves it off holds at
      least five verdicts on that synapse. */
  lemma OffNeedsFive(net: Net, act: Action, acts: seq<Action>, k: nat, decay: Decay)
    requires NetOk(net) && DecayOk(decay) && EvidenceOk(net) && k < |net.synapses| && !net.synapses[k].gate
    requires NetOk(Act(net, act, decay)) && k < |Act(net, act, decay).synapses| && Act(net, act, decay).synapses[k].gate
    requires k < |Run(Act(net, act, decay), acts, decay).synapses|
    requires !Run(Act(net, act, decay), acts, decay).synapses[k].gate
    ensures Verdicts(Act(net, act, decay), acts, k, decay) >= 5
  {
    hide Act, NetOk, DecayOk, VerdictIn, Blend, Run, Verdicts, EvidenceOk;
    SynapseStays(net, act, k, decay);
    ActInUnit(net, act, decay);
    if Verdicts(Act(net, act, decay), acts, k, decay) <= 4 {
      StaysOn(Act(net, act, decay), acts, k, decay, 0);
    }
  }

  /** Hysteresis, on: after an action that switches a gate off, any run that leaves it on holds at
      least three verdicts on that synapse. */
  lemma OnNeedsThree(net: Net, act: Action, acts: seq<Action>, k: nat, decay: Decay)
    requires NetOk(net) && DecayOk(decay) && EvidenceOk(net) && k < |net.synapses| && net.synapses[k].gate
    requires NetOk(Act(net, act, decay)) && k < |Act(net, act, decay).synapses| && !Act(net, act, decay).synapses[k].gate
    requires k < |Run(Act(net, act, decay), acts, decay).synapses|
    requires Run(Act(net, act, decay), acts, decay).synapses[k].gate
    ensures Verdicts(Act(net, act, decay), acts, k, decay) >= 3
  {
    hide Act, NetOk, DecayOk, VerdictIn, Blend, Run, Verdicts, EvidenceOk;
    SynapseStays(net, act, k, decay);
    ActInUnit(net, act, decay);
    BetaValues();
    if Verdicts(Act(net, act, decay), acts, k, decay) <= 2 {
      StaysOff(Act(net, act, decay), acts, k, decay, 0);
    }
  }

  // ---- No lockout ----

  /** The verdicts of a run on synapse `k`, oldest first. */
  function VerdictLog(net: Net, acts: seq<Action>, k: nat, decay: Decay): seq<bool>
    requires NetOk(net) && k < |net.synapses|
    decreases |acts|
  {
    if acts == [] then []
    else
      SynapseStays(net, acts[0], k, decay);
      var v := VerdictIn(net, acts[0], k);
      (if v.Some? then [v.value] else []) + VerdictLog(Act(net, acts[0], decay), acts[1..], k, decay)
  }

  /** Evidence after a sequence of verdicts. */
  function Blended(e: real, vs: seq<bool>): real
    decreases |vs|
  {
    if vs == [] then e else Blended(Blend(e, vs[0]), vs[1..])
  }

  /** Evidence depends on nothing but the verdicts. */
  lemma {:induction false} EvidenceIsBlended(net: Net, acts: seq<Action>, k: nat, decay: Decay)
    requires NetOk(net) && k < |net.synapses|
    ensures k < |Run(net, acts, decay).synapses|
    ensures Run(net, acts, decay).synapses[k].evidence == Blended(net.synapses[k].evidence, VerdictLog(net, acts, k, decay))
    decreases |acts|
  {
    hide Act, NetOk, VerdictIn, Blend;
    if acts != [] {
      SynapseStays(net, acts[0], k, decay);
      EvidenceIsBlended(Act(net, acts[0], decay), acts[1..], k, decay);
      var v := VerdictIn(net, acts[0], k);
      var rest := VerdictLog(Act(net, acts[0], decay), acts[1..], k, decay);
      if v.Some? {
        assert ([v.value] + rest)[1..] == rest;
      } else {
        assert [] + rest == rest;
      }
    }
  }

  lemma {:induction false} BlendedSplit(e: real, a: seq<bool>, b: seq<bool>)
    ensures Blended(e, a + b) == Blended(Blended(e, a), b)
    decreases |a|
  {
    hide Blend;
    if a == [] {
      assert a + b == b;
    } else {
      assert (a + b)[1..] == a[1..] + b;
      BlendedSplit(Blend(e, a[0]), a[1..], b);
    }
  }

  lemma {:induction false} BlendedInUnit(e: real, vs: seq<bool>)
    requires InUnit(e)
    ensures InUnit(Blended(e, vs))
    decreases |vs|
  {
    if vs != [] {
      BlendedInUnit(Blend(e, vs[0]), vs[1..]);
    }
  }

  predicate All(vs: seq<bool>, b: bool) {
    forall i :: 0 <= i < |vs| ==> vs[i] == b
  }

  lemma {:induction false} AllHits(e: real, vs: seq<bool>)
    requires InUnit(e) && All(vs, true)
    ensures 1.0 - Blended(e, vs) <= (1.0 - e) * Beta(|vs|)
    decreases |vs|
  {
    if vs != [] {
      AllHits(Blend(e, true), vs[1..]);
      assert 1.0 - Blend(e, true) == (1.0 - e) * EVIDENCE_BETA;
      assert (1.0 - e) * EVIDENCE_BETA * Beta(|vs| - 1) == (1.0 - e) * Beta(|vs|);
    }
  }

  lemma {:induction false} AllMisses(e: real, vs: seq<bool>)
    requires InUnit(e) && All(vs, false)
    ensures Blended(e, vs) <= e * Beta(|vs|)
    decreases |vs|
  {
    if vs != [] {
      AllMisses(Blend(e, false), vs[1..]);
      assert e * EVIDENCE_BETA * Beta(|vs| - 1) == e * Beta(|vs|);
    }
  }

  lemma ScaleDown(x: real, b: real)
    requires InUnit(x) && b >= 0.0
    ensures x * b <= b
  {
  }

  /** A gate tick whose synapse's last four verdicts are hits (the target fired within fifteen ticks of the source) leaves the gate on; one whose last eight
      are misses leaves it off. So no dormant synapse is locked out, and no useless one is kept. */
  lemma NoLockout(net: Net, acts: seq<Action>, k: nat, decay: Decay, older: seq<bool>, recent: seq<bool>)
    requires NetOk(net) && EvidenceOk(net) && k < |net.synapses|
    requires NetOk(Run(net, acts, decay)) && k < |Run(net, acts, decay).synapses|
    requires var n1 := Run(net, acts, decay);
             && GateTick(n1.clock)
             && VerdictLog(net, acts + [DoTick], k, decay) == older + recent
    ensures NetOk(Run(net, acts + [DoTick], decay)) && k < |Run(net, acts + [DoTick], decay).synapses|
    ensures |recent| >= 4 && All(recent, true) ==> Run(net, acts + [DoTick], decay).synapses[k].gate
    ensures |recent| >= 8 && All(recent, false) ==> !Run(net, acts + [DoTick], decay).synapses[k].gate
  {
    hide Act, NetOk, Blend, VerdictIn, VerdictLog, Run, All, Beta, Blended;
    SynapseStaysRun(net, acts + [DoTick], k, decay);
    EvidenceIsBlended(net, acts + [DoTick], k, decay);
    var e := net.synapses[k].evidence;
    assert InUnit(e);
    BlendedSplit(e, older, recent);
    BlendedInUnit(e, older);
    var mid := Blended(e, older);
    LastStep(net, acts, k, decay);
    if |recent| >= 4 && All(recent, true) {
      ManyHits(mid, recent);
    }
    if |recent| >= 8 && All(recent, false) {
      ManyMisses(mid, recent);
    }
  }

  lemma ManyHits(e: real, vs: seq<bool>)
    requires InUnit(e) && |vs| >= 4 && All(vs, true)
    ensures Blended(e, vs) > GATE_ON_THRESHOLD
  {
    hide Blended, All, Beta;
    AllHits(e, vs);
    BetaFalls(4, |vs|);
    BetaValues();
    ScaleDown(1.0 - e, Beta(|vs|));
  }

  lemma ManyMisses(e: real, vs: seq<bool>)
    requires InUnit(e) && |vs| >= 8 && All(vs, false)
    ensures Blended(e, vs) < GATE_OFF_THRESHOLD
  {
    hide Blended, All, Beta;
    AllMisses(e, vs);
    BetaFalls(8, |vs|);
    BetaValues();
    ScaleDown(e, Beta(|vs|));
    assert Beta(8) >= Beta(|vs|) && e * Beta(|vs|) <= Beta(|vs|);
  }

  lemma {:induction false} RunSnoc(net: Net, acts: seq<Action>, act: Action, decay: Decay)
    requires NetOk(net)
    ensures NetOk(Run(net, acts, decay))
    ensures Run(net, acts + [act], decay) == Act(Run(net, acts, decay), act, decay)
    decreases |acts|
  {
    hide Act, NetOk;
    RunOk(net, acts, decay);
    if acts == [] {
      assert [] + [act] == [act] && [act][1..] == [];
      ActOk(net, act, decay);
    } else {
      ActOk(net, acts[0], decay);
      RunSnoc(Act(net, acts[0], decay), acts[1..], act, decay);
      assert (acts + [act])[1..] == acts[1..] + [act];
    }
  }

  /** After a gate tick the gate agrees with the evidence outside the band. */
  lemma LastStep(net: Net, acts: seq<Action>, k: nat, decay: Decay)
    requires NetOk(net) && k < |net.synapses|
    requires NetOk(Run(net, acts, decay)) && k < |Run(net, acts, decay).synapses| && GateTick(Run(net, acts, decay).clock)
    requires k < |Run(net, acts + [DoTick], decay).synapses|
    ensures var s := Run(net, acts + [DoTick], decay).synapses[k];
            (s.evidence > GATE_ON_THRESHOLD ==> s.gate) && (s.evidence < GATE_OFF_THRESHOLD ==> !s.gate)
  {
    hide Act, NetOk, Blend, VerdictIn, Run;
    RunSnoc(net, acts, DoTick, decay);
    SynapseStays(Run(net, acts, decay), DoTick, k, decay);
  }

  // ---- Refractory spacing ----

  lemma CountdownStep(net: Net, act: Action, i: nat, decay: Decay)
    requires NetOk(net) && i < |net.neurons|
    ensures NetOk(Act(net, act, decay)) && i < |Act(net, act, decay).neurons|
    ensures Act(net, act, decay).neurons[i].remaining + Act(net, act, decay).clock
            >= net.neurons[i].remaining + net.clock
  {
    hide Tick, TickedSynapse, Stdp, FindFrom, FindSynapse, Find;
    ActOk(net, act, decay);
    match act {
      case DoTick => TickShape(net, decay);
      case Train(f, t, gap, preFirst) =>
        FindRange(net, f);
        FindRange(net, t);
        FindSynapseRange(net.synapses, Find(net, f), Find(net, t));
      case _ =>
    }
  }

  lemma {:induction false} Countdown(net: Net, acts: seq<Action>, i: nat, decay: Decay)
    requires NetOk(net) && i < |net.neurons|
    ensures NetOk(Run(net, acts, decay)) && i < |Run(net, acts, decay).neurons|
    ensures Run(net, acts, decay).neurons[i].remaining + Run(net, acts, decay).clock
            >= net.neurons[i].remaining + net.clock
    decreases |acts|
  {
    hide Act, NetOk;
    if acts != [] {
      CountdownStep(net, acts[0], i, decay);
      Countdown(Act(net, acts[0], decay), acts[1..], i, decay);
    }
  }

  /** Any two tick-driven firings of one neuron are at least its refractory period plus one tick apart,
      whatever happens in between. */
  lemma FiringsSpaced(net: Net, acts: seq<Action>, i: nat, decay: Decay)
    requires NetOk(net) && i < |net.neurons| && i in Fired(net)
    requires NetOk(Tick(net, decay)) && NetOk(Run(Tick(net, decay), acts, decay))
    requires i in Fired(Run(Tick(net, decay), acts, decay))
    ensures Run(Tick(net, decay), acts, decay).clock >= net.clock + net.neurons[i].refractory + 1
  {
    hide Tick, NetOk, Run;
    FiringStarts(net, i, decay);
    Countdown(Tick(net, decay), acts, i, decay);
    FiresOnlyReady(Run(Tick(net, decay), acts, decay), i);
  }

  lemma FiringStarts(net: Net, i: nat, decay: Decay)
    requires NetOk(net) && i < |net.neurons| && i in Fired(net)
    ensures i < |Tick(net, decay).neurons|
    ensures Tick(net, decay).neurons[i].remaining == net.neurons[i].refractory
    ensures Tick(net, decay).clock == net.clock + 1
  {
    hide Tick, TickedSynapse;
    TickShape(net, decay);
  }

  lemma FiresOnlyReady(net: Net, i: nat)
    requires NetOk(net) && i < |net.neurons| && i in Fired(net)
    ensures net.neurons[i].remaining == 0
  {
  }

  // ---- Plasticity and propagation ----

  /** A firing after the source strengthens the synapse up to 1, a firing before it weakens it down to 0,
      and only a tie or a missing firing leaves it. */
  lemma StdpDirection(w: real, pre: Option<nat>, post: Option<nat>, decay: Decay)
    requires InUnit(w) && DecayOk(decay)
    ensures var w' := Stdp(w, pre, post, decay);
            if pre.None? || post.None? || pre == post then w' == w
            else if post.value > pre.value then w' > w || w == w' == 1.0
            else w' < w || w == w' == 0.0
  {
    if pre.Some? && post.Some? && pre != post {
      assert 0.0 < decay(Abs(post.value - pre.value));
    }
  }

  /** The sum over open synapses, each once, whose source is among `fired` and whose target is `j`. */
  function Delivered(synapses: seq<Synapse>, fired: set<nat>, j: nat, i: nat): real
    requires i <= |synapses|
  {
    if i == 0 then 0.0
    else
      var s := synapses[i - 1];
      Delivered(synapses, fired, j, i - 1) + (if s.from in fired && s.gate && s.to == j then s.weight * 50.0 else 0.0)
  }

  lemma {:induction false} DeliveredOneMore(synapses: seq<Synapse>, fired: set<nat>, src: nat, j: nat, i: nat)
    requires i <= |synapses| && src !in fired
    ensures Delivered(synapses, fired + {src}, j, i) == Delivered(synapses, fired, j, i) + FromSource(synapses, src, j, i)
  {
    if i > 0 {
      DeliveredOneMore(synapses, fired, src, j, i - 1);
    }
  }

  predicate Increasing(fired: seq<nat>) {
    forall a, b :: 0 <= a < b < |fired| ==> fired[a] < fired[b]
  }

  function Before(fired: seq<nat>, m: nat): set<nat>
    requires m <= |fired|
  {
    set a | 0 <= a < m :: fired[a]
  }

  lemma {:induction false} ArrivingIs(synapses: seq<Synapse>, fired: seq<nat>, j: nat, m: nat)
    requires m <= |fired| && Increasing(fired)
    ensures Arriving(synapses, fired, j, m) == Delivered(synapses, Before(fired, m), j, |synapses|)
  {
    if m == 0 {
      NothingDelivered(synapses, j, |synapses|);
      assert Before(fired, 0) == {};
    } else {
      ArrivingIs(synapses, fired, j, m - 1);
      assert fired[m - 1] !in Before(fired, m - 1);
      assert Before(fired, m) == Before(fired, m - 1) + {fired[m - 1]};
      DeliveredOneMore(synapses, Before(fired, m - 1), fired[m - 1], j, |synapses|);
    }
  }

  lemma {:induction false} NothingDelivered(synapses: seq<Synapse>, j: nat, i: nat)
    requires i <= |synapses|
    ensures Delivered(synapses, {}, j, i) == 0.0
  {
    if i > 0 {
      NothingDelivered(synapses, j, i - 1);
    }
  }

  lemma {:induction false} FiredIncreasing(net: Net, i: nat)
    requires i <= |net.neurons| == |net.stimulus|
    ensures Increasing(FiredBelow(net, i))
  {
    if i > 0 {
      FiredIncreasing(net, i - 1);
      var f := FiredBelow(net, i - 1);
      assert forall a :: 0 <= a < |f| ==> f[a] in f;
    }
  }

  /** What a neuron receives for the next tick: exactly one contribution from every synapse that is open
      before this tick's gate check and whose source fired. */
  lemma NextStimulus(net: Net, j: nat, decay: Decay)
    requires NetOk(net) && j < |net.neurons|
    ensures j < |Tick(net, decay).stimulus|
    ensures Tick(net, decay).stimulus[j]
            == Delivered(SensedSynapses(net), Before(Fired(net), |Fired(net)|), j, |net.synapses|)
  {
    hide FiredBelow, Arriving, TickedSynapse, Ticked, Sensed, Delivered;
    FiredIncreasing(net, |net.neurons|);
    ArrivingIs(SensedSynapses(net), Fired(net), j, |Fired(net)|);
  }
}
