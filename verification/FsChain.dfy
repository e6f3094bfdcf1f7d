/** A concrete run that reaches the uncovered level: `mkdir a`, `mkdir a/a`, and so on, 32 times,
    then a file in the deepest directory. */
module FsChain {
  import opened Common
  import opened DirCodec
  import opened FsSpec
  import opened FsTree
  import opened FsWalk
  import opened FsSpace
  import opened FsOps
  import opened FsAbstract
  import opened FsCalls
  import opened FsRefine
  import opened FsRuns
  import opened FsDepth
  import opened FsDamage

  const LETTER_A: Byte := 97
  const A: Path := [LETTER_A]

  /** "a/a/.../a" with `k` slashes. */
  function ChainPath(k: nat): (p: Path)
    ensures |p| == 2 * k + 1
  {
    if k == 0 then A else [LETTER_A, SLASH] + ChainPath(k - 1)
  }

  lemma {:induction false} ChainBack(k: nat)
    requires k > 0
    ensures ChainPath(k) == ChainPath(k - 1) + [SLASH, LETTER_A]
  {
    if k == 1 {
      assert ChainPath(1) == [LETTER_A, SLASH] + ChainPath(0);
    } else {
      ChainBack(k - 1);
      assert [LETTER_A, SLASH] + (ChainPath(k - 2) + [SLASH, LETTER_A]) == ([LETTER_A, SLASH] + ChainPath(k - 2)) + [SLASH, LETTER_A];
    }
  }

  function Copies(k: nat): (s: seq<Path>)
    ensures |s| == k
    ensures forall i :: 0 <= i < k ==> s[i] == A
  {
    if k == 0 then [] else [A] + Copies(k - 1)
  }

  lemma {:induction false} SplitChain(k: nat)
    ensures Split(ChainPath(k)) == Copies(k + 1)
  {
    if k == 0 {
      assert ChainPath(0)[1..] == [];
      var rest := Split(ChainPath(0)[1..]);
      assert rest == [[]] && [LETTER_A] + rest[0] == A;
      assert Split(ChainPath(0)) == [A] + [];
      assert Copies(1) == [A] + Copies(0);
    } else {
      SplitChain(k - 1);
      var p := ChainPath(k);
      assert p[1..] == [SLASH] + ChainPath(k - 1);
      assert p[1..][1..] == ChainPath(k - 1);
      assert Split(p[1..]) == [[]] + Copies(k);
      var rest := Split(p[1..]);
      assert [p[0]] + rest[0] == A && rest[1..] == Copies(k);
    }
  }

  lemma LastSlashAt(p: Path)
    requires |p| >= 2 && p[|p| - 1] != SLASH && p[|p| - 2] == SLASH
    ensures LastSlash(p) == |p| - 2
  {
    assert p[..|p| - 1][|p[..|p| - 1]| - 1] == SLASH;
  }

  lemma ChainStart()
    ensures ChainPath(0) == A && LastSlash(A) == -1
  {
    assert A[..0] == [];
  }

  lemma ParseChain(k: nat)
    ensures ParsePath(ChainPath(k)) == Ok(Target(Copies(k), A))
  {
    hide Split, LastSlash, ChainPath;
    var p := ChainPath(k);
    if k == 0 {
      ChainStart();
    } else {
      ChainBack(k);
      var front := ChainPath(k - 1);
      LastSlashAt(p);
      assert p[..|front|] == front && p[|front| + 1..] == A;
      SplitChain(k - 1);
    }
  }

  // ---- The tree the chain builds ----

  /** `k` directories named "a", one inside the other. */
  ghost function Nest(k: nat): Kids {
    if k == 0 then map[] else map[NameBytes(A) := Dir(Nest(k - 1))]
  }

  lemma {:induction false} WalkNest(k: nat, depth: nat)
    requires depth + k <= MAX_DEPTH
    ensures AbsWalk(Nest(k), Copies(k), depth) == Ok(map[])
    ensures Descend(Nest(k), Keys(Copies(k))).Some?
    ensures Replace(Nest(k), Keys(Copies(k)), Nest(1)) == Nest(k + 1)
    decreases k
  {
    hide NameBytes, Keys;
    if k == 0 {
      assert Keys([]) == [] by { KeysEmpty(); }
    } else {
      WalkNest(k - 1, depth + 1);
      KeysTail(Copies(k));
      assert Copies(k)[1..] == Copies(k - 1);
      assert |Keys(Copies(k))| == k by { KeysLength(Copies(k)); }
    }
  }

  lemma KeysEmpty()
    ensures Keys([]) == []
  {
  }

  lemma KeysLength(dirs: seq<Path>)
    ensures |Keys(dirs)| == |dirs|
  {
  }

  lemma NestedWrite(k: nat, data: seq<Byte>)
    requires k <= MAX_DEPTH && |data| <= MAX_FILE_BYTES
    ensures AbsApply(Nest(k), Write(ChainPath(k), data), false).reply == Ok(())
  {
    hide ParsePath, ChainPath, Keys, Descend, Replace, AbsWalk, NameBytes;
    ParseChain(k);
    WalkNest(k, 0);
  }

  // ---- The disk it builds ----

  /** `k` nested directories, their tables in sectors 2 to 2 + k. */
  ghost predicate Chained(d: Disk, k: nat) {
    && WfDisk(d)
    && Tree(d) == Nest(k)
    && Foot(d, DIR_LBA, MAX_DEPTH) == SpanSet(FILE_DATA_START_LBA, k)
  }

  lemma ChainedRoom(d: Disk, k: nat, needed: nat)
    requires Chained(d, k) && k + needed <= NUM_DATA_SECTORS && needed > 0
    ensures !NoRun(Foot(d, DIR_LBA, MAX_DEPTH), needed)
  {
    hide Wf, Foot, Tree, Nest;
    assert RunFree(Foot(d, DIR_LBA, MAX_DEPTH), needed, k);
  }

  lemma ChainedFit(d: Disk, k: nat)
    requires Chained(d, k) && k < NUM_DATA_SECTORS
    ensures FitFrom(Occupied(d, None), 1, 0) == Some(k)
    ensures RunFree(Foot(d, DIR_LBA, MAX_DEPTH), 1, k)
  {
    hide Wf, Foot, Tree, Nest, FitFrom, Occupied, Scans;
    OccupiedAll(d);
    FirstFit(Occupied(d, None), Foot(d, DIR_LBA, MAX_DEPTH), 1);
    assert RunFree(Foot(d, DIR_LBA, MAX_DEPTH), 1, k);
    TakenBelow(FitFrom(Occupied(d, None), 1, 0).value, k);
  }

  lemma TakenBelow(s: nat, k: nat)
    ensures RunFree(SpanSet(FILE_DATA_START_LBA, k), 1, s) ==> s >= k
  {
    assert FILE_DATA_START_LBA + s in SpanSet(FILE_DATA_START_LBA + s, 1);
  }

  lemma ChainEnd(d: Disk, k: nat)
    requires Chained(d, k) && k <= MAX_DEPTH
    ensures ResolveFrom(d, Copies(k), 0, DIR_LBA).Ok?
    ensures var l := ResolveFrom(d, Copies(k), 0, DIR_LBA).value;
            && Reached(d, Copies(k), l)
            && KidsAt(d, l, Level(Copies(k))) == map[]
            && Find(TableAt(d, l), NameBytes(A)) == 8 && FreeSlot(TableAt(d, l)) < 8
  {
    hide Wf, Foot, KidsAt, ResolveFrom, TableAt, Find, NameBytes, Nest, Copies, AbsWalk, Tree, FreeSlot;
    WalkNest(k, 0);
    ReachedIff(d, Copies(k));
    CopiesNoEmpty(k);
    var l := ResolveFrom(d, Copies(k), 0, DIR_LBA).value;
    WalkedTo(d, Copies(k), l);
    ReachedTable(d, Copies(k), l);
    FindInKids(d, l, Level(Copies(k)), NameBytes(A));
    FullIff(d, l, Level(Copies(k)));
    FreeSlotRange(TableAt(d, l));
  }

  lemma CopiesNoEmpty(k: nat)
    ensures NoEmpty(Copies(k))
  {
  }

  lemma PlacedInChain(d: Disk, k: nat, l: nat)
    requires Chained(d, k) && k < MAX_DEPTH
    requires ResolveFrom(d, Copies(k), 0, DIR_LBA) == Ok(l)
    ensures Apply(d, Mkdir(ChainPath(k))) == MakeDirIn(d, l, NameBytes(A))
  {
    hide Wf, Foot, Tree, Nest, ResolveFrom, MakeDirIn, NameBytes, ChainPath, ParsePath;
    ParseChain(k);
  }

  lemma ChainStep(d: Disk, k: nat)
    requires Chained(d, k) && k < MAX_DEPTH
    ensures Apply(d, Mkdir(ChainPath(k))).reply == Ok(())
    ensures Chained(Apply(d, Mkdir(ChainPath(k))).disk, k + 1)
  {
    hide Wf, Foot, KidsAt, Nest, ResolveFrom, MakeDirIn, NameBytes, ChainPath, ParsePath, TableAt, Find, FreeSlot, Keys;
    hide Descend, Replace, FitFrom, Occupied, RunFree, Edit, Reached, AbsWalk;
    ChainEnd(d, k);
    var l := ResolveFrom(d, Copies(k), 0, DIR_LBA).value;
    ChainedFit(d, k);
    PlacedInChain(d, k, l);
    MakeDirPlaced(d, Copies(k), l, NameBytes(A), Mkdir(ChainPath(k)), k);
    EmptyEdit(ChainPath(k));
    WalkNest(k, 0);
    assert SpanSet(FILE_DATA_START_LBA, k) - {} + {FILE_DATA_START_LBA + k} == SpanSet(FILE_DATA_START_LBA, k + 1);
  }

  lemma EmptyEdit(path: Path)
    ensures Edit(map[], NameBytes(A), Mkdir(path), false) == Ok(Nest(1))
  {
    assert Nest(1) == map[NameBytes(A) := Dir(Nest(0))];
  }

  /** The first `k` of the nested mkdir calls. */
  function ChainOps(k: nat): seq<Op> {
    if k == 0 then [] else ChainOps(k - 1) + [Mkdir(ChainPath(k - 1))]
  }

  lemma {:induction false} RunSnoc(d: Disk, ops: seq<Op>, op: Op)
    ensures Run(d, ops + [op]).disk == Apply(Run(d, ops).disk, op).disk
    ensures Run(d, ops + [op]).replies == Run(d, ops).replies + [Apply(Run(d, ops).disk, op).reply]
    decreases |ops|
  {
    hide Apply;
    if ops == [] {
      assert [] + [op] == [op] && [op][1..] == [];
    } else {
      RunSnoc(Apply(d, ops[0]).disk, ops[1..], op);
      assert (ops + [op])[1..] == ops[1..] + [op];
    }
  }

  lemma {:induction false} ChainBuilt(d: Disk, k: nat)
    requires Blank(d) && k <= MAX_DEPTH
    ensures Chained(Run(d, ChainOps(k)).disk, k)
  {
    hide Wf, Foot, KidsAt, Apply, Nest, Blank, ChainPath;
    if k == 0 {
      BlankIsEmpty(d);
      assert Nest(0) == map[] by { NestZero(); }
      assert SpanSet(FILE_DATA_START_LBA, 0) == {};
    } else {
      ChainBuilt(d, k - 1);
      RunSnoc(d, ChainOps(k - 1), Mkdir(ChainPath(k - 1)));
      ChainStep(Run(d, ChainOps(k - 1)).disk, k - 1);
    }
  }

  lemma NestZero()
    ensures Nest(0) == map[]
  {
  }

  lemma NotShallow(data: seq<Byte>)
    requires data != []
    ensures !Shallow(Write(ChainPath(MAX_DEPTH), data))
  {
    hide ParsePath, ChainPath;
    ParseChain(MAX_DEPTH);
  }

  lemma ChainNoRoom(d: Disk, data: seq<Byte>)
    requires Chained(d, MAX_DEPTH) && 0 < |data| <= MAX_FILE_BYTES
    ensures !NoRoom(d, Write(ChainPath(MAX_DEPTH), data))
  {
    hide Wf, WfDisk, Foot, KidsAt, Nest, ChainPath, ParsePath, ResolveFrom, TableAt, NameBytes, NoRun, Chained, Copies, Find;
    hide Reached;
    ParseChain(MAX_DEPTH);
    ChainEnd(d, MAX_DEPTH);
    var l := ResolveFrom(d, Copies(MAX_DEPTH), 0, DIR_LBA).value;
    ChainedRoom(d, MAX_DEPTH, SectorsFor(|data|));
    assert Foot(d, DIR_LBA, MAX_DEPTH) - {} == Foot(d, DIR_LBA, MAX_DEPTH);
  }

  const B: Path := [98]

  lemma ParseB()
    ensures ParsePath(B) == Ok(Target([], B)) && NameBytes(B) != NameBytes(A)
  {
    assert LastSlash(B) == -1;
    assert NameBytes(B)[0] == 98 && NameBytes(A)[0] == LETTER_A;
  }

  lemma NestNames(k: nat)
    requires k > 0
    ensures NameBytes(B) !in Nest(k) && |Nest(k)| == 1
  {
    ParseB();
    assert Nest(k).Keys == {NameBytes(A)};
    assert |Nest(k)| == |Nest(k).Keys|;
  }

  lemma AbsSideFile(t: Kids, other: seq<Byte>)
    requires NameBytes(B) !in t && |t| < MAX_ENTRIES && |other| <= MAX_FILE_BYTES
    ensures AbsApply(t, Write(B, other), false).reply == Ok(())
    ensures AbsRead(t, B) == Err(NoSuchFile)
  {
    hide NameBytes, ParsePath, Keys, Descend, Replace;
    ParseB();
  }

  lemma SideRoom(d: Disk, k: nat, other: seq<Byte>)
    requires Chained(d, k) && 0 < k <= MAX_DEPTH && 0 < |other| <= MAX_FILE_BYTES
    ensures !NoRoom(d, Write(B, other))
  {
    hide Wf, WfDisk, Foot, KidsAt, Nest, ParsePath, TableAt, NameBytes, NoRun, Chained, Find;
    ParseB();
    ChainedTree(d, k);
    NestNames(k);
    FindInKids(d, DIR_LBA, MAX_DEPTH, NameBytes(B));
    ChainedRoom(d, k, SectorsFor(|other|));
    assert Foot(d, DIR_LBA, MAX_DEPTH) - {} == Foot(d, DIR_LBA, MAX_DEPTH);
  }

  lemma ChainedTree(d: Disk, k: nat)
    requires Chained(d, k)
    ensures WfDisk(d) && KidsAt(d, DIR_LBA, MAX_DEPTH) == Nest(k) && Tree(d) == Nest(k)
  {
    hide WfDisk, KidsAt, Foot;
  }

  /** Beside the chain, a new file "b" can still be written in the root. */
  lemma SideFile(d: Disk, k: nat, other: seq<Byte>)
    requires Chained(d, k) && 0 < k <= MAX_DEPTH && 0 < |other| <= MAX_FILE_BYTES
    ensures Shallow(Write(B, other)) && Apply(d, Write(B, other)).reply.Ok? && ReadFile(d, B) == Err(NoSuchFile)
  {
    hide Wf, WfDisk, Foot, Tree, Nest, Apply, ReadFile, AbsApply, AbsRead, NoRoom, ParsePath, NameBytes, Chained;
    ParseB();
    ChainedTree(d, k);
    NestNames(k);
    SideRoom(d, k, other);
    AbsSideFile(Nest(k), other);
    Refines(d, Write(B, other));
    ReadRefines(d, B);
  }

  /** From any blank disk: 32 nested directories, a write of any non-empty file into the deepest, then a
      write of as many other bytes to "b" in the root. Every call reports success; the deep file reads back
      after its own write; after the next it reads as the bytes of "b". */
  lemma DepthGuardsDisagree(blank: Disk, data: seq<Byte>, other: seq<Byte>)
    requires Blank(blank) && 0 < |data| == |other| <= MAX_FILE_BYTES
    ensures var d := Run(blank, ChainOps(MAX_DEPTH)).disk;
            var deep := Apply(d, Write(ChainPath(MAX_DEPTH), data));
            var side := Apply(deep.disk, Write(B, other));
            && WfDisk(d) && !WfDisk(deep.disk)
            && deep.reply == Ok(()) && ReadFile(deep.disk, ChainPath(MAX_DEPTH)) == Ok(data)
            && side.reply == Ok(()) && ReadFile(side.disk, B) == Ok(other)
            && ReadFile(side.disk, ChainPath(MAX_DEPTH)) == Ok(other)
  {
    hide Wf, WfDisk, Foot, KidsAt, Apply, Run, Nest, Blank, ChainPath, AbsApply, NoRoom, Shallow, ReadFile, ChainOps, SectorsFor, PaddedOut;
    var d := Run(blank, ChainOps(MAX_DEPTH)).disk;
    var op := Write(ChainPath(MAX_DEPTH), data);
    ChainBuilt(blank, MAX_DEPTH);
    ChainNoRoom(d, data);
    NestedWrite(MAX_DEPTH, data);
    NotShallow(data);
    KeepsInvariantIff(d, op);
    SideFile(d, MAX_DEPTH, other);
    DeepFileOverwritten(d, ChainPath(MAX_DEPTH), data, B, other);
  }

  /** Every reply of the run that builds the chain is success. */
  lemma {:induction false} ChainReplies(d: Disk, k: nat)
    requires Blank(d) && k <= MAX_DEPTH
    ensures forall i :: 0 <= i < |Run(d, ChainOps(k)).replies| ==> Run(d, ChainOps(k)).replies[i] == Ok(())
  {
    hide Wf, Foot, KidsAt, Apply, Nest, Blank, ChainPath, Chained;
    if k > 0 {
      ChainReplies(d, k - 1);
      ChainBuilt(d, k - 1);
      RunSnoc(d, ChainOps(k - 1), Mkdir(ChainPath(k - 1)));
      ChainStep(Run(d, ChainOps(k - 1)).disk, k - 1);
    }
  }
}
