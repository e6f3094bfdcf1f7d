/** Changing one slot of one table, and what that does to everything above it. */
module FsUpdate {
  import opened Common
  import opened DirCodec
  import opened FsSpec
  import opened FsTree
  import opened FsWalk

  /** Sectors owned through the other slots of the table at `l`. */
  ghost function RestFoot(d: Disk, l: nat, r: nat, k: nat): set<nat>
    requires k < 8
  {
    Foot(d, l, r) - SlotFoot(d, TableAt(d, l)[k], r)
  }

  /** `d'` is `d` with slot `k` of the table at `l` changed to `e`, whose sectors are no one else's. */
  ghost predicate SlotChange(d: Disk, d': Disk, l: nat, r: nat, k: nat, e: DirEntry) {
    && k < 8
    && Wf(d, l, r)
    && l !in Foot(d, l, r)
    && TableAt(d', l) == TableAt(d, l)[k := e]
    && SameOn(d, d', RestFoot(d, l, r, k))
    && SlotOk(d', e, r)
    && (e.used ==> forall j :: 0 <= j < 8 && j != k && TableAt(d, l)[j].used ==> TableAt(d, l)[j].name != e.name)
    && SlotFoot(d', e, r) !! RestFoot(d, l, r, k) + {l}
  }

  lemma OtherSlotFoot(d: Disk, l: nat, r: nat, k: nat, j: nat)
    requires Wf(d, l, r) && j < 8 && k < 8 && j != k
    ensures SlotFoot(d, TableAt(d, l)[j], r) <= RestFoot(d, l, r, k)
  {
    var t := TableAt(d, l);
    SlotFootInFoot(d, l, r, j);
    assert Apart(d, t[if j < k then j else k], t[if j < k then k else j], r);
  }

  lemma OtherSlotSame(d: Disk, d': Disk, l: nat, r: nat, k: nat, e: DirEntry, j: nat)
    requires SlotChange(d, d', l, r, k, e) && j < 8 && j != k
    ensures SameSlot(d, d', TableAt(d, l)[j], r)
    ensures SlotFoot(d, TableAt(d, l)[j], r) <= RestFoot(d, l, r, k)
  {
    OtherSlotFoot(d, l, r, k, j);
    assert SlotOk(d, TableAt(d, l)[j], r);
    SlotFrame(d, d', TableAt(d, l)[j], r);
  }

  lemma ChangedFoot(d: Disk, d': Disk, l: nat, r: nat, k: nat, e: DirEntry)
    requires SlotChange(d, d', l, r, k, e)
    ensures Foot(d', l, r) == RestFoot(d, l, r, k) + SlotFoot(d', e, r)
  {
    var t, t' := TableAt(d, l), TableAt(d', l);
    forall j: nat | j < 8 && j != k ensures SlotFoot(d', t'[j], r) == SlotFoot(d, t[j], r) <= RestFoot(d, l, r, k) {
      OtherSlotSame(d, d', l, r, k, e, j);
    }
    assert t'[k] == e;
    forall s | s in RestFoot(d, l, r, k) ensures s in Foot(d', l, r) {
      var j: nat :| j < 8 && s in SlotFoot(d, t[j], r);
      assert j != k;
      assert s in SlotFoot(d', t'[j], r);
    }
    forall s | s in Foot(d', l, r) ensures s in RestFoot(d, l, r, k) + SlotFoot(d', e, r) {
      var j: nat :| j < 8 && s in SlotFoot(d', t'[j], r);
    }
    SlotFootInFoot(d', l, r, k);
  }

  lemma ChangedWf(d: Disk, d': Disk, l: nat, r: nat, k: nat, e: DirEntry)
    requires SlotChange(d, d', l, r, k, e)
    ensures Wf(d', l, r)
  {
    var t, t' := TableAt(d, l), TableAt(d', l);
    forall j: nat | j < 8
      ensures SlotOk(d', t'[j], r)
      ensures j != k ==> SameSlot(d, d', t[j], r) && SlotFoot(d, t[j], r) <= RestFoot(d, l, r, k)
    {
      if j != k {
        OtherSlotSame(d, d', l, r, k, e, j);
      }
    }
    forall i: nat, j: nat | i < j < 8 ensures Apart(d', t'[i], t'[j], r) {
      ChangedApart(d, d', l, r, k, e, i, j);
    }
  }

  lemma ChangedApart(d: Disk, d': Disk, l: nat, r: nat, k: nat, e: DirEntry, i: nat, j: nat)
    requires SlotChange(d, d', l, r, k, e) && i < j < 8
    ensures Apart(d', TableAt(d', l)[i], TableAt(d', l)[j], r)
  {
    var t := TableAt(d, l);
    assert Apart(d, t[i], t[j], r);
    hide Wf, Foot;
    if i != k {
      OtherSlotSame(d, d', l, r, k, e, i);
    }
    if j != k {
      OtherSlotSame(d, d', l, r, k, e, j);
    }
  }

  /** The children after the change: the old slot's name gone, the new slot's name bound. */
  ghost function ChangedKids(kids: Kids, was: DirEntry, now: DirEntry, node: Node): Kids {
    (kids - (if was.used then {was.name} else {})) + (if now.used then map[now.name := node] else map[])
  }

  lemma ChangedLookup(d: Disk, d': Disk, l: nat, r: nat, k: nat, e: DirEntry, n: Name)
    requires SlotChange(d, d', l, r, k, e)
    ensures var t, t' := TableAt(d, l), TableAt(d', l);
            if e.used && n == e.name then Find(t', n) == k
            else if t[k].used && n == t[k].name then Find(t', n) == 8
            else Find(t', n) == Find(t, n) != k
  {
    var t, t' := TableAt(d, l), TableAt(d', l);
    assert t[k].used ==> Find(t, t[k].name) == k by {
      if t[k].used {
        FindUnique(d, l, r, k);
      }
    }
    forall j: nat | j < 8 && j != k ensures t'[j] == t[j] && (t[j].used ==> Find(t, t[j].name) == j) {
      if t[j].used {
        FindUnique(d, l, r, j);
      }
    }
  }

  /** `kids` and `kids'` agree at `n`. */
  ghost predicate AgreeAt(kids: Kids, kids': Kids, n: Name) {
    (n in kids <==> n in kids') && (n in kids ==> kids[n] == kids'[n])
  }

  lemma UntouchedKid(d: Disk, d': Disk, l: nat, r: nat, k: nat, e: DirEntry, n: Name)
    requires SlotChange(d, d', l, r, k, e)
    requires !(e.used && n == e.name) && !(TableAt(d, l)[k].used && n == TableAt(d, l)[k].name)
    ensures AgreeAt(KidsAt(d', l, r), KidsAt(d, l, r), n)
  {
    var j := Find(TableAt(d, l), n);
    ChangedLookup(d, d', l, r, k, e, n);
    assert TableAt(d', l) == TableAt(d, l)[k := e];
    hide KidsAt, Wf, Foot, SlotFoot, SlotOk, NodeOf, Find, SlotChange, TableAt;
    KidsOfSlot(d, l, r, n);
    KidsOfSlot(d', l, r, n);
    if j < 8 {
      OtherSlotSame(d, d', l, r, k, e, j);
    }
  }

  lemma ChangedKidsLookup(kids: Kids, was: DirEntry, now: DirEntry, node: Node, n: Name)
    ensures var want := ChangedKids(kids, was, now, node);
            if now.used && n == now.name then n in want && want[n] == node
            else if was.used && n == was.name then n !in want
            else AgreeAt(kids, want, n)
  {
  }

  lemma ChangedKid(d: Disk, d': Disk, l: nat, r: nat, k: nat, e: DirEntry, n: Name)
    requires SlotChange(d, d', l, r, k, e)
    ensures AgreeAt(KidsAt(d', l, r),
                    ChangedKids(KidsAt(d, l, r), TableAt(d, l)[k], e, NodeOf(d', e, r)), n)
  {
    assert TableAt(d', l) == TableAt(d, l)[k := e];
    hide KidsAt, Wf, Foot, SlotFoot, SlotOk, NodeOf, Find, SlotChange, TableAt, ChangedKids;
    ChangedKidsLookup(KidsAt(d, l, r), TableAt(d, l)[k], e, NodeOf(d', e, r), n);
    if (e.used && n == e.name) || (TableAt(d, l)[k].used && n == TableAt(d, l)[k].name) {
      ChangedLookup(d, d', l, r, k, e, n);
      KidsOfSlot(d', l, r, n);
    } else {
      UntouchedKid(d, d', l, r, k, e, n);
    }
  }

  lemma AgreeEverywhere(kids: Kids, kids': Kids)
    requires forall n :: AgreeAt(kids, kids', n)
    ensures kids == kids'
  {
    assert forall n :: n in kids <==> n in kids' by {
      forall n ensures n in kids <==> n in kids' {
        assert AgreeAt(kids, kids', n);
      }
    }
    forall n | n in kids ensures kids[n] == kids'[n] {
      assert AgreeAt(kids, kids', n);
    }
  }

  lemma ChangedTree(d: Disk, d': Disk, l: nat, r: nat, k: nat, e: DirEntry)
    requires SlotChange(d, d', l, r, k, e)
    ensures Wf(d', l, r)
    ensures Foot(d', l, r) == RestFoot(d, l, r, k) + SlotFoot(d', e, r)
    ensures l !in Foot(d', l, r)
    ensures KidsAt(d', l, r) == ChangedKids(KidsAt(d, l, r), TableAt(d, l)[k], e, NodeOf(d', e, r))
  {
    assert k < 8 && l !in RestFoot(d, l, r, k) + SlotFoot(d', e, r);
    hide KidsAt, Wf, Foot, SlotFoot, SlotOk, NodeOf, SlotChange, ChangedKids, AgreeAt, TableAt;
    ChangedWf(d, d', l, r, k, e);
    ChangedFoot(d, d', l, r, k, e);
    var want := ChangedKids(KidsAt(d, l, r), TableAt(d, l)[k], e, NodeOf(d', e, r));
    forall n ensures AgreeAt(KidsAt(d', l, r), want, n) {
      ChangedKid(d, d', l, r, k, e, n);
    }
    AgreeEverywhere(KidsAt(d', l, r), want);
  }

  // ---- A change to one table, seen from any table above it ----

  ghost function Owned(d: Disk, l: nat, r: nat): set<nat> {
    {l} + Foot(d, l, r)
  }

  /** `d'` differs from `d`, among the sectors of the tree at `lba`, only inside the subtree at
      `l`, `m` levels down; that subtree is still well formed and took no one else's sectors. */
  ghost predicate SubtreeChange(d: Disk, d': Disk, lba: nat, r: nat, l: nat, m: nat) {
    && m <= r
    && Wf(d', l, r - m)
    && l !in Foot(d', l, r - m)
    && SameOn(d, d', Owned(d, lba, r) - Owned(d, l, r - m))
    && Foot(d', l, r - m) !! Owned(d, lba, r) - Owned(d, l, r - m)
  }

  /** What such a change does to the tree at `lba`. */
  ghost predicate SubtreeEffect(d: Disk, d': Disk, lba: nat, r: nat, ks: seq<Name>, l: nat, m: nat) {
    && m <= r
    && Wf(d', lba, r)
    && lba !in Foot(d', lba, r)
    && Owned(d', lba, r) == Owned(d, lba, r) - Owned(d, l, r - m) + Owned(d', l, r - m)
    && Descend(KidsAt(d, lba, r), ks).Some?
    && KidsAt(d', lba, r) == Replace(KidsAt(d, lba, r), ks, KidsAt(d', l, r - m))
  }

  lemma SubtreeSets(lba: nat, foot: set<nat>, child: set<nat>, sub: set<nat>, l: nat, sub': set<nat>)
    requires lba !in foot && child <= foot && sub <= child && l in sub
    requires sub' - {l} !! ({lba} + foot) - sub
    ensures child - sub + sub' !! (foot - child) + {lba}
    ensures foot - child <= ({lba} + foot) - sub
    ensures (foot - child) + (child - sub + sub') + {lba} == (({lba} + foot) - sub) + sub'
  {
    assert forall x :: x in sub' && x != l ==> x in sub' - {l} && x !in ({lba} + foot) - sub;
  }

  lemma OtherNames(d: Disk, lba: nat, r: nat, i: nat)
    requires Wf(d, lba, r) && i < 8 && TableAt(d, lba)[i].used
    ensures forall j :: 0 <= j < 8 && j != i && TableAt(d, lba)[j].used ==>
              TableAt(d, lba)[j].name != TableAt(d, lba)[i].name
  {
    FindUnique(d, lba, r, i);
    forall j: nat | j < 8 && j != i && TableAt(d, lba)[j].used
      ensures TableAt(d, lba)[j].name != TableAt(d, lba)[i].name
    {
      FindUnique(d, lba, r, j);
    }
  }

  lemma DirSlot(d': Disk, e: DirEntry, r: nat)
    requires e.used && e.isDir && r > 0 && e.sectorCount == 1 && InPool(e.startLba)
    requires Wf(d', e.startLba, r - 1) && e.startLba !in Foot(d', e.startLba, r - 1)
    ensures SlotOk(d', e, r)
    ensures SlotFoot(d', e, r) == Owned(d', e.startLba, r - 1)
    ensures NodeOf(d', e, r) == Dir(KidsAt(d', e.startLba, r - 1))
  {
    assert SpanSet(e.startLba, 1) == {e.startLba};
  }

  lemma SameSector(d: Disk, d': Disk, lba: nat)
    requires |d| == |d'| && (lba < |d| ==> d[lba] == d'[lba])
    ensures TableAt(d', lba) == TableAt(d, lba)
  {
  }

  /** Slot `i` of the table at `lba` is the directory whose subtree holds the changed table `l`. */
  ghost predicate OnThePath(d: Disk, d': Disk, lba: nat, r: nat, i: nat, ks: seq<Name>, l: nat, m: nat) {
    && Wf(d, lba, r)
    && lba !in Foot(d, lba, r)
    && i < 8 && TableAt(d, lba)[i].used && TableAt(d, lba)[i].isDir && r > 0
    && SubtreeChange(d, d', lba, r, l, m + 1)
    && SubtreeEffect(d, d', TableAt(d, lba)[i].startLba, r - 1, ks, l, m)
    && Owned(d, l, r - 1 - m) <= Owned(d, TableAt(d, lba)[i].startLba, r - 1)
  }

  lemma PathRest(d: Disk, d': Disk, lba: nat, r: nat, i: nat, ks: seq<Name>, l: nat, m: nat)
    requires OnThePath(d, d', lba, r, i, ks, l, m)
    ensures RestFoot(d, lba, r, i) == Foot(d, lba, r) - Owned(d, TableAt(d, lba)[i].startLba, r - 1)
    ensures Owned(d, TableAt(d, lba)[i].startLba, r - 1) <= Foot(d, lba, r)
    ensures SlotOk(d', TableAt(d, lba)[i], r)
    ensures SlotFoot(d', TableAt(d, lba)[i], r) == Owned(d', TableAt(d, lba)[i].startLba, r - 1)
    ensures NodeOf(d', TableAt(d, lba)[i], r) == Dir(KidsAt(d', TableAt(d, lba)[i].startLba, r - 1))
  {
    hide Wf, Foot, KidsAt, TableAt, SlotFoot, SlotOk, NodeOf, Replace, Descend, SpanSet;
    ChildDir(d, lba, r, i);
    DirSlot(d', TableAt(d, lba)[i], r);
  }

  lemma PathSets(d: Disk, d': Disk, lba: nat, r: nat, i: nat, ks: seq<Name>, l: nat, m: nat)
    requires OnThePath(d, d', lba, r, i, ks, l, m)
    ensures var c := TableAt(d, lba)[i].startLba;
            var changed := Owned(d, lba, r) - Owned(d, l, r - 1 - m);
            && Owned(d', c, r - 1) !! (Foot(d, lba, r) - Owned(d, c, r - 1)) + {lba}
            && Foot(d, lba, r) - Owned(d, c, r - 1) <= changed
            && lba in changed
            && (Foot(d, lba, r) - Owned(d, c, r - 1)) + Owned(d', c, r - 1) + {lba}
               == changed + Owned(d', l, r - 1 - m)
  {
    PathRest(d, d', lba, r, i, ks, l, m);
    hide Wf, Foot, KidsAt, TableAt, SlotFoot, SlotOk, NodeOf, Replace, Descend, SpanSet;
    assert r - 1 - m == r - (m + 1);
    SubtreeSets(lba, Foot(d, lba, r), Owned(d, TableAt(d, lba)[i].startLba, r - 1),
                Owned(d, l, r - 1 - m), l, Owned(d', l, r - 1 - m));
  }

  lemma PathUnchanged(d: Disk, d': Disk, lba: nat, r: nat, i: nat, ks: seq<Name>, l: nat, m: nat)
    requires OnThePath(d, d', lba, r, i, ks, l, m)
    ensures TableAt(d', lba) == TableAt(d, lba)
    ensures SameOn(d, d', RestFoot(d, lba, r, i))
  {
    hide Wf, Foot, KidsAt, TableAt, SubtreeEffect, Owned, RestFoot;
    PathRest(d, d', lba, r, i, ks, l, m);
    PathSets(d, d', lba, r, i, ks, l, m);
    assert r - 1 - m == r - (m + 1);
    SameSector(d, d', lba);
  }

  /** A directory entry whose subtree changed, as a change of its slot to itself. */
  lemma PathSlotChange(d: Disk, d': Disk, lba: nat, r: nat, i: nat, ks: seq<Name>, l: nat, m: nat)
    requires OnThePath(d, d', lba, r, i, ks, l, m)
    ensures SlotChange(d, d', lba, r, i, TableAt(d, lba)[i])
  {
    var t := TableAt(d, lba);
    hide Wf, Foot, TableAt, SlotFoot, SlotOk, NodeOf, SubtreeEffect, SubtreeChange, SameOn, Owned, RestFoot;
    PathRest(d, d', lba, r, i, ks, l, m);
    PathSets(d, d', lba, r, i, ks, l, m);
    PathUnchanged(d, d', lba, r, i, ks, l, m);
    OtherNames(d, lba, r, i);
    assert t == t[i := t[i]];
  }

  lemma PathStep(d: Disk, d': Disk, lba: nat, r: nat, i: nat, ks: seq<Name>, l: nat, m: nat)
    requires OnThePath(d, d', lba, r, i, ks, l, m)
    ensures SubtreeEffect(d, d', lba, r, [TableAt(d, lba)[i].name] + ks, l, m + 1)
  {
    hide Wf, Foot, KidsAt, TableAt, SlotFoot, SlotOk, NodeOf, SlotChange, SpanSet, RestFoot;
    hide Replace, Descend, ChangedKids, SubtreeChange;
    var e := TableAt(d, lba)[i];
    PathKids(d, d', lba, r, i, ks, l, m);
    PathSlotChange(d, d', lba, r, i, ks, l, m);
    ChangedTree(d, d', lba, r, i, e);
    PathRest(d, d', lba, r, i, ks, l, m);
    PathSets(d, d', lba, r, i, ks, l, m);
    assert r - 1 - m == r - (m + 1);
  }

  lemma ReplaceStep(kids: Kids, n: Name, sub: Kids, ks: seq<Name>, kids': Kids)
    requires n in kids && kids[n] == Dir(sub) && Descend(sub, ks).Some?
    ensures Descend(kids, [n] + ks).Some?
    ensures Replace(kids, [n] + ks, kids') == kids[n := Dir(Replace(sub, ks, kids'))]
  {
    assert ([n] + ks)[1..] == ks;
  }

  lemma RebindKids(kids: Kids, e: DirEntry, node: Node)
    requires e.used && e.name in kids
    ensures ChangedKids(kids, e, e, node) == kids[e.name := node]
  {
  }

  lemma PathKids(d: Disk, d': Disk, lba: nat, r: nat, i: nat, ks: seq<Name>, l: nat, m: nat)
    requires OnThePath(d, d', lba, r, i, ks, l, m)
    ensures Descend(KidsAt(d, lba, r), [TableAt(d, lba)[i].name] + ks).Some?
    ensures KidsAt(d', lba, r)
            == Replace(KidsAt(d, lba, r), [TableAt(d, lba)[i].name] + ks, KidsAt(d', l, r - 1 - m))
  {
    var e := TableAt(d, lba)[i];
    FindUnique(d, lba, r, i);
    KidIsDir(d, lba, r, i, e.name);
    ReplaceStep(KidsAt(d, lba, r), e.name, KidsAt(d, e.startLba, r - 1), ks, KidsAt(d', l, r - 1 - m));
    hide Wf, Foot, KidsAt, TableAt, SlotFoot, SlotOk, NodeOf, SlotChange, SpanSet, RestFoot, Owned, Find;
    hide Replace, Descend, ChangedKids;
    PathSlotChange(d, d', lba, r, i, ks, l, m);
    ChangedTree(d, d', lba, r, i, e);
    PathRest(d, d', lba, r, i, ks, l, m);
    RebindKids(KidsAt(d, lba, r), e, NodeOf(d', e, r));
  }

  lemma FocusHere(d: Disk, d': Disk, lba: nat, r: nat)
    requires SubtreeChange(d, d', lba, r, lba, 0)
    ensures SubtreeEffect(d, d', lba, r, [], lba, 0)
  {
    hide Wf, Foot, KidsAt;
    assert r - 0 == r;
  }

  lemma FocusChild(d: Disk, d': Disk, lba: nat, r: nat, c: nat, l: nat, m: nat)
    requires r > 0 && {c} + Foot(d, c, r - 1) <= Foot(d, lba, r)
    requires SubtreeChange(d, d', lba, r, l, m + 1)
    ensures SubtreeChange(d, d', c, r - 1, l, m)
  {
    hide Wf, Foot, KidsAt;
    assert r - 1 - m == r - (m + 1);
  }

  lemma ResolveStep(d: Disk, dirs: seq<Path>, depth: nat, lba: nat)
    requires dirs != [] && ResolveFrom(d, dirs, depth, lba).Ok?
    ensures var i := Find(TableAt(d, lba), NameBytes(dirs[0]));
            && i < 8
            && TableAt(d, lba)[i].used && TableAt(d, lba)[i].isDir
            && TableAt(d, lba)[i].name == NameBytes(dirs[0])
            && ResolveFrom(d, dirs[1..], depth + 1, TableAt(d, lba)[i].startLba) == ResolveFrom(d, dirs, depth, lba)
  {
  }

  lemma WalkOwned(d: Disk, dirs: seq<Path>, depth: nat, lba: nat, r: nat)
    requires Wf(d, lba, r) && lba !in Foot(d, lba, r) && depth + r == MAX_DEPTH
    requires ResolveFrom(d, dirs, depth, lba).Ok?
    ensures |dirs| <= r
    ensures Owned(d, ResolveFrom(d, dirs, depth, lba).value, r - |dirs|) <= Owned(d, lba, r)
  {
    hide Wf, Foot, KidsAt, ResolveFrom, Descend;
    Walk(d, dirs, depth, lba, r);
  }

  /** A change confined to the subtree a path leads to changes the whole tree at that path only. */
  lemma {:induction false} Focus(d: Disk, d': Disk, dirs: seq<Path>, depth: nat, lba: nat, r: nat)
    requires Wf(d, lba, r) && lba !in Foot(d, lba, r) && depth + r == MAX_DEPTH
    requires ResolveFrom(d, dirs, depth, lba).Ok?
    requires SubtreeChange(d, d', lba, r, ResolveFrom(d, dirs, depth, lba).value, |dirs|)
    ensures SubtreeEffect(d, d', lba, r, Keys(dirs), ResolveFrom(d, dirs, depth, lba).value, |dirs|)
    decreases |dirs|
  {
    hide Wf, Foot, KidsAt, SubtreeChange, SubtreeEffect, ResolveFrom, TableAt, Find;
    if dirs == [] {
      ResolveHere(d, depth, lba);
      FocusHere(d, d', lba, r);
    } else {
      var i := Find(TableAt(d, lba), NameBytes(dirs[0]));
      ResolveStep(d, dirs, depth, lba);
      var c := TableAt(d, lba)[i].startLba;
      var l := ResolveFrom(d, dirs, depth, lba).value;
      ChildDir(d, lba, r, i);
      FocusChild(d, d', lba, r, c, l, |dirs| - 1);
      Focus(d, d', dirs[1..], depth + 1, c, r - 1);
      WalkOwned(d, dirs[1..], depth + 1, c, r - 1);
      assert r - 1 - (|dirs| - 1) == r - |dirs|;
      PathStep(d, d', lba, r, i, Keys(dirs[1..]), l, |dirs| - 1);
      KeysTail(dirs);
      assert Keys(dirs) == [TableAt(d, lba)[i].name] + Keys(dirs[1..]);
    }
  }

  lemma ResolveHere(d: Disk, depth: nat, lba: nat)
    ensures ResolveFrom(d, [], depth, lba) == Ok(lba) && Keys([]) == []
  {
  }
}
