/** Runs of filesystem calls from a blank or well-formed disk, and what one call leaves for the next. */
module FsRuns {
  import opened Common
  import opened DirCodec
  import opened FsSpec
  import opened FsTree
  import opened FsWalk
  import opened FsSpace
  import opened FsOps
  import opened FsAbstract
  import opened FsCalls
  import opened FsRefine
  import opened FsDepth

  /** The disk and the replies after a sequence of calls. */
  datatype History = History(disk: Disk, replies: seq<Reply<()>>)

  function Run(d: Disk, ops: seq<Op>): History
    decreases |ops|
  {
    if ops == [] then History(d, [])
    else
      var out := Apply(d, ops[0]);
      var rest := Run(out.disk, ops[1..]);
      History(rest.disk, [out.reply] + rest.replies)
  }

  datatype AbsHistory = AbsHistory(tree: Kids, replies: seq<Reply<()>>)

  /** The same calls on the abstract tree; `full[i]` says the pool had no room for call `i`. */
  ghost function AbsRun(t: Kids, ops: seq<Op>, full: seq<bool>): AbsHistory
    requires |full| == |ops|
    decreases |ops|
  {
    if ops == [] then AbsHistory(t, [])
    else
      var out := AbsApply(t, ops[0], full[0]);
      var rest := AbsRun(out.tree, ops[1..], full[1..]);
      AbsHistory(rest.tree, [out.reply] + rest.replies)
  }

  /** Which calls of the run found no free run of sectors. */
  ghost function FullFlags(d: Disk, ops: seq<Op>): (flags: seq<bool>)
    ensures |flags| == |ops|
    decreases |ops|
  {
    if ops == [] then [] else [NoRoom(d, ops[0])] + FullFlags(Apply(d, ops[0]).disk, ops[1..])
  }

  /** No call of the run succeeds in allocating under exactly 32 directories. */
  predicate Tame(d: Disk, ops: seq<Op>)
    decreases |ops|
  {
    ops == []
    || ((Shallow(ops[0]) || Apply(d, ops[0]).reply.Err?) && Tame(Apply(d, ops[0]).disk, ops[1..]))
  }

  /** A call that is shallow or refused does what the abstract call does. */
  lemma TameCall(d: Disk, op: Op)
    requires WfDisk(d) && (Shallow(op) || Apply(d, op).reply.Err?)
    ensures Matches(d, op, Apply(d, op), NoRoom(d, op))
  {
    hide WfDisk, Tree, AbsApply, Apply, NoRoom, Shallow;
    if Shallow(op) {
      Refines(d, op);
    } else {
      DeepCall(d, op);
      RefusedKeeps(Tree(d), op, NoRoom(d, op));
    }
  }

  lemma RefusedKeeps(t: Kids, op: Op, noRoom: bool)
    ensures AbsApply(t, op, noRoom).reply.Err? ==> AbsApply(t, op, noRoom).tree == t
  {
    hide ParsePath, AbsWalk, Edit, Descend, Replace;
  }

  /** Every such run from a well-formed disk keeps the tree invariant and is a run of the abstract filesystem. */
  lemma {:induction false} RunRefines(d: Disk, ops: seq<Op>)
    requires WfDisk(d) && Tame(d, ops)
    ensures WfDisk(Run(d, ops).disk)
    ensures AbsHistory(Tree(Run(d, ops).disk), Run(d, ops).replies) == AbsRun(Tree(d), ops, FullFlags(d, ops))
    decreases |ops|
  {
    hide WfDisk, Tree, AbsApply, Apply, NoRoom, Shallow;
    if ops != [] {
      TameCall(d, ops[0]);
      RunRefines(Apply(d, ops[0]).disk, ops[1..]);
      FlagsTail(d, ops);
    }
  }

  /** Every disk of the run, from the first to the last, is well formed. */
  ghost predicate AllWf(d: Disk, ops: seq<Op>)
    decreases |ops|
  {
    WfDisk(d) && (ops == [] || AllWf(Apply(d, ops[0]).disk, ops[1..]))
  }

  /** Exactly which runs keep the tree invariant all along. */
  lemma {:induction false} RunKeepsIff(d: Disk, ops: seq<Op>)
    requires WfDisk(d)
    ensures AllWf(d, ops) <==> Tame(d, ops)
    decreases |ops|
  {
    hide WfDisk, Tree, AbsApply, Apply, NoRoom, Shallow;
    if ops != [] {
      KeepsInvariantIff(d, ops[0]);
      if Shallow(ops[0]) || Apply(d, ops[0]).reply.Err? {
        RunKeepsIff(Apply(d, ops[0]).disk, ops[1..]);
      } else {
        BrokenStart(Apply(d, ops[0]).disk, ops[1..]);
      }
    }
  }

  lemma BrokenStart(d: Disk, ops: seq<Op>)
    requires !WfDisk(d)
    ensures !AllWf(d, ops)
  {
    hide WfDisk, Apply;
  }

  lemma FlagsTail(d: Disk, ops: seq<Op>)
    requires ops != []
    ensures FullFlags(d, ops)[0] == NoRoom(d, ops[0])
    ensures FullFlags(d, ops)[1..] == FullFlags(Apply(d, ops[0]).disk, ops[1..])
  {
    hide Apply, NoRoom;
  }

  // ---- Blank disks ----

  /** A disk whose root sector does not carry the magic number. */
  predicate Blank(d: Disk) {
    var s := d[DIR_LBA];
    Le32(s[0], s[1], s[2], s[3]) != DirCodec.MAGIC
  }

  lemma BlankIsEmpty(d: Disk)
    requires Blank(d)
    ensures WfDisk(d) && Tree(d) == map[] && Foot(d, DIR_LBA, MAX_DEPTH) == {}
  {
    hide Wf, KidsAt, Foot;
    assert TableAt(d, DIR_LBA) == EMPTY_TABLE;
    EmptyTableWf(d, DIR_LBA, MAX_DEPTH);
  }

  /** Every such run from a blank disk keeps the tree invariant and is a run from the empty tree. */
  lemma RunFromBlank(d: Disk, ops: seq<Op>)
    requires Blank(d) && Tame(d, ops)
    ensures WfDisk(Run(d, ops).disk)
    ensures AbsHistory(Tree(Run(d, ops).disk), Run(d, ops).replies) == AbsRun(map[], ops, FullFlags(d, ops))
  {
    hide WfDisk, Tree, Run, AbsRun, FullFlags, Tame, Blank;
    BlankIsEmpty(d);
    RunRefines(d, ops);
  }

  // ---- The invariant in terms of sectors ----

  ghost predicate Overlap(a: Range, b: Range) {
    exists s :: s in SpanSet(a.start, a.count) && s in SpanSet(b.start, b.count)
  }

  lemma {:induction false} MemberCovered(rs: seq<Range>, k: nat, s: nat)
    requires k < |rs| && s in SpanSet(rs[k].start, rs[k].count)
    ensures s in Covered(rs)
  {
    if k > 0 {
      MemberCovered(rs[1..], k - 1, s);
    }
  }

  lemma {:induction false} SeparatePairs(rs: seq<Range>, i: nat, j: nat)
    requires Separate(rs) && i < j < |rs|
    ensures !Overlap(rs[i], rs[j])
  {
    if i > 0 {
      SeparatePairs(rs[1..], i - 1, j - 1);
    } else if Overlap(rs[0], rs[j]) {
      var s :| s in SpanSet(rs[0].start, rs[0].count) && s in SpanSet(rs[j].start, rs[j].count);
      MemberCovered(rs[1..], j - 1, s);
    }
  }

  lemma {:induction false} SeparateNonEmpty(rs: seq<Range>, i: nat)
    requires Separate(rs) && i < |rs|
    ensures rs[i].count > 0
  {
    if i > 0 {
      SeparateNonEmpty(rs[1..], i - 1);
    }
  }

  /** On a well-formed disk the allocated ranges of all files and directory tables, at every depth,
      are non-empty, pairwise disjoint, and inside sectors 2 to 65. */
  lemma RangesDisjoint(d: Disk, i: nat, j: nat)
    requires WfDisk(d) && i < |Occupied(d, None)| && j < |Occupied(d, None)|
    ensures var rs := Occupied(d, None);
            && rs[i].count > 0
            && FILE_DATA_START_LBA <= rs[i].start && rs[i].start + rs[i].count <= POOL_END
            && (i != j ==> !Overlap(rs[i], rs[j]))
  {
    hide Wf, Foot, Occupied, Overlap, Covered, Separate;
    var rs := Occupied(d, None);
    OccupiedAll(d);
    FootInPool(d, DIR_LBA, MAX_DEPTH);
    SeparateNonEmpty(rs, i);
    MemberCovered(rs, i, rs[i].start);
    MemberCovered(rs, i, rs[i].start + rs[i].count - 1);
    if i < j {
      SeparatePairs(rs, i, j);
    } else if j < i {
      SeparatePairs(rs, j, i);
      OverlapSwap(rs[i], rs[j]);
    }
  }

  lemma OverlapSwap(a: Range, b: Range)
    ensures Overlap(a, b) <==> Overlap(b, a)
  {
  }

  // ---- One call, then a read ----

  lemma OkTarget(t: Kids, op: Op, noRoom: bool)
    requires AbsApply(t, op, noRoom).reply.Ok?
    ensures ParsePath(op.path).Ok? && NoEmpty(ParsePath(op.path).value.dirs)
  {
    hide Edit, ParsePath, AbsWalk, Descend, Replace;
    AppliedKids(t, op, noRoom);
  }

  /** A write that succeeds reads back the written bytes, by the same path or by any other path
      to the same directory and the same sixteen name bytes. */
  lemma WriteThenRead(d: Disk, path: Path, data: seq<Byte>, again: Path)
    requires WfDisk(d) && Shallow(Write(path, data)) && WriteFile(d, path, data).reply.Ok?
    requires again == path
             || (ParsePath(path).Ok? && ParsePath(again).Ok?
                 && SameTarget(ParsePath(path).value, ParsePath(again).value)
                 && NoEmpty(ParsePath(again).value.dirs))
    ensures ReadFile(WriteFile(d, path, data).disk, again) == Ok(data)
  {
    hide WfDisk, Tree, AbsApply, WriteFile, ReadFile, NoRoom, Shallow, AbsRead, ParsePath;
    var op := Write(path, data);
    Refines(d, op);
    OkTarget(Tree(d), op, NoRoom(d, op));
    ReadAfterWrite(Tree(d), path, data, NoRoom(d, op), again);
    ReadRefines(WriteFile(d, path, data).disk, again);
  }

  /** After any call, a path to any other directory or name reads exactly what it read before;
      after a call that fails, every path does. */
  lemma OthersUnchanged(d: Disk, op: Op, path: Path)
    requires WfDisk(d) && Shallow(op)
    requires Apply(d, op).reply.Ok? ==>
               ParsePath(path).Ok? && ParsePath(op.path).Ok?
               && !SameTarget(ParsePath(op.path).value, ParsePath(path).value)
    ensures ReadFile(Apply(d, op).disk, path).Ok? <==> ReadFile(d, path).Ok?
    ensures ReadFile(d, path).Ok? ==> ReadFile(Apply(d, op).disk, path) == ReadFile(d, path)
  {
    hide WfDisk, Tree, AbsApply, Apply, ReadFile, NoRoom, Shallow, AbsRead, ParsePath;
    Refines(d, op);
    OtherPathsRead(Tree(d), op, NoRoom(d, op), path);
    ReadRefines(Apply(d, op).disk, path);
    ReadRefines(d, path);
  }

  /** A file that `rm` removed, or a directory that `rmdir` removed, is gone. */
  lemma RemoveThenRead(d: Disk, op: Op)
    requires WfDisk(d) && (op.Rm? || op.Rmdir?) && Apply(d, op).reply.Ok?
    ensures ReadFile(Apply(d, op).disk, op.path) == Err(NoSuchFile)
  {
    hide WfDisk, Tree, AbsApply, Apply, ReadFile, NoRoom, AbsRead, ParsePath;
    Refines(d, op);
    GoneAfterRemove(Tree(d), op, NoRoom(d, op));
    ReadRefines(Apply(d, op).disk, op.path);
  }

  /** A directory just made is there and empty: removing it succeeds and restores the tree. */
  lemma MakeThenRemove(d: Disk, path: Path)
    requires WfDisk(d) && Shallow(Mkdir(path)) && MakeDir(d, path).reply.Ok?
    ensures var d1 := MakeDir(d, path).disk;
            && RemoveDir(d1, path).reply.Ok?
            && Tree(RemoveDir(d1, path).disk) == Tree(d)
  {
    hide WfDisk, Tree, AbsApply, MakeDir, RemoveDir, NoRoom, AbsRead, ParsePath, Shallow;
    var d1 := MakeDir(d, path).disk;
    Refines(d, Mkdir(path));
    RemoveIsShallow(path);
    Refines(d1, Rmdir(path));
    AbsMakeThenRemove(Tree(d), path, NoRoom(d, Mkdir(path)), NoRoom(d1, Rmdir(path)));
  }

  lemma RemoveIsShallow(path: Path)
    ensures Shallow(Rmdir(path)) && Shallow(Rm(path))
  {
  }

  lemma AbsMakeThenRemove(t: Kids, path: Path, full: bool, full2: bool)
    requires AbsApply(t, Mkdir(path), full).reply.Ok?
    ensures AbsApply(AbsApply(t, Mkdir(path), full).tree, Rmdir(path), full2) == AbsOutcome(t, Ok(()))
  {
    hide NameBytes, Keys, AbsWalk, Descend, Replace, ParsePath;
    var a := ParsePath(path).value;
    var n := NameBytes(a.leaf);
    var t1 := AbsApply(t, Mkdir(path), full).tree;
    AppliedKids(t, Mkdir(path), full);
    WalkIsDescend(t, a.dirs, 0);
    WalkIsDescend(t1, a.dirs, 0);
    var kids := AbsWalk(t, a.dirs, 0).value;
    var kids1 := kids[n := Dir(map[])];
    assert kids1 - {n} == kids;
    ReplaceTwice(t, Keys(a.dirs), kids1, kids);
    ReplaceSame(t, Keys(a.dirs));
  }

  lemma {:induction false} ReplaceTwice(t: Kids, ks: seq<Name>, k1: Kids, k2: Kids)
    requires Descend(t, ks).Some?
    ensures Descend(Replace(t, ks, k1), ks).Some?
    ensures Replace(Replace(t, ks, k1), ks, k2) == Replace(t, ks, k2)
    decreases |ks|
  {
    if ks != [] {
      ReplaceTwice(t[ks[0]].kids, ks[1..], k1, k2);
    }
  }

  lemma {:induction false} ReplaceSame(t: Kids, ks: seq<Name>)
    requires Descend(t, ks).Some?
    ensures Replace(t, ks, Descend(t, ks).value) == t
    decreases |ks|
  {
    if ks != [] {
      ReplaceSame(t[ks[0]].kids, ks[1..]);
    }
  }
}
