/** The shell's current directory over the filesystem (kernel/src/shell.rs). Arguments are already trimmed. */
module Shell {
  import opened Common
  import opened DirCodec
  import opened FsSpec
  import opened FsTree
  import opened FsWalk
  import opened FsOps
  import opened FsAbstract
  import opened FsRefine
  import FsRuns
  import FsChain
  import FsDepth

  const DOT_DOT: Path := [46, 46]

  /** Components from the root, and the disk. */
  datatype State = State(cwd: seq<Path>, disk: Disk)

  datatype Cmd =
    | Cd(arg: Path)
    | MakeDirectory(arg: Path)
    | RemoveDirectory(arg: Path)
    | WriteText(arg: Path, data: seq<Byte>)
    | RemoveFile(arg: Path)

  function Join(cs: seq<Path>): Path {
    if cs == [] then [] else if |cs| == 1 then cs[0] else cs[0] + [SLASH] + Join(cs[1..])
  }

  /** A leading '/' starts at the root; anything else is relative to the current directory. */
  function ResolveArg(cwd: seq<Path>, arg: Path): Path {
    if arg != [] && arg[0] == SLASH then arg[1..]
    else if Join(cwd) == [] then arg
    else Join(cwd) + [SLASH] + arg
  }

  function ChangeDir(s: State, arg: Path): State {
    if arg == DOT_DOT then (if s.cwd == [] then s else s.(cwd := s.cwd[..|s.cwd| - 1]))
    else if arg == [] || arg == [SLASH] then s.(cwd := [])
    else
      var resolved := ResolveArg(s.cwd, arg);
      if ResolveFrom(s.disk, DirParts(resolved), 0, DIR_LBA).Ok? then s.(cwd := DirParts(resolved)) else s
  }

  /** What a command asks of the filesystem, if it asks to change it. */
  function OpOf(s: State, c: Cmd): Option<Op> {
    match c
    case Cd(_) => None
    case MakeDirectory(arg) => Some(Mkdir(ResolveArg(s.cwd, arg)))
    case RemoveDirectory(arg) => if ResolveArg(s.cwd, arg) == Join(s.cwd) then None else Some(Rmdir(ResolveArg(s.cwd, arg)))
    case WriteText(arg, data) => Some(Write(ResolveArg(s.cwd, arg), data))
    case RemoveFile(arg) => Some(Rm(ResolveArg(s.cwd, arg)))
  }

  function Do(s: State, c: Cmd): State {
    if c.Cd? then ChangeDir(s, c.arg)
    else
      match OpOf(s, c)
      case None => s
      case Some(op) => s.(disk := Apply(s.disk, op).disk)
  }

  // ---- Splitting and joining ----

  predicate SlashFree(c: Path) {
    forall i :: 0 <= i < |c| ==> c[i] != SLASH
  }

  lemma {:induction false} SplitOne(c: Path)
    requires SlashFree(c)
    ensures Split(c) == [c]
  {
    if c != [] {
      SplitOne(c[1..]);
      assert [c[0]] + c[1..] == c;
    }
  }

  lemma {:induction false} SplitConcat(a: Path, b: Path)
    ensures Split(a + [SLASH] + b) == Split(a) + Split(b)
  {
    var p := a + [SLASH] + b;
    if a == [] {
      assert p[1..] == b;
    } else {
      assert p[1..] == a[1..] + [SLASH] + b;
      SplitConcat(a[1..], b);
    }
  }

  predicate AllSlashFree(cs: seq<Path>) {
    forall i :: 0 <= i < |cs| ==> SlashFree(cs[i])
  }

  lemma {:induction false} SplitJoin(cs: seq<Path>)
    requires cs != [] && AllSlashFree(cs)
    ensures Split(Join(cs)) == cs
  {
    hide SlashFree;
    SplitOne(cs[0]);
    if |cs| > 1 {
      assert AllSlashFree(cs[1..]) by {
        forall i | 0 <= i < |cs[1..]| ensures SlashFree(cs[1..][i]) {
          assert cs[1..][i] == cs[i + 1];
        }
      }
      SplitJoin(cs[1..]);
      SplitConcat(cs[0], Join(cs[1..]));
    }
  }

  lemma {:induction false} SplitSlashFree(p: Path)
    ensures AllSlashFree(Split(p))
  {
    if p != [] {
      SplitSlashFree(p[1..]);
      var rest := Split(p[1..]);
      if p[0] != SLASH {
        assert SlashFree([p[0]] + rest[0]);
      }
    }
  }

  /** The components of a path are the one list of parts without '/' that joins back to it. */
  lemma SplitIff(p: Path, cs: seq<Path>)
    requires cs != []
    ensures Split(p) == cs <==> AllSlashFree(cs) && Join(cs) == p
  {
    hide Split, Join, SlashFree;
    SplitSlashFree(p);
    JoinSplit(p);
    if AllSlashFree(cs) {
      SplitJoin(cs);
    }
  }

  /** A path with a '/' splits into the part before its last '/' and the rest. */
  lemma LastSplit(p: Path)
    requires LastSlash(p) >= 0
    ensures Split(p) == Split(p[..LastSlash(p)]) + [p[LastSlash(p) + 1..]]
  {
    var k := LastSlash(p);
    assert p == p[..k] + [SLASH] + p[k + 1..];
    SplitConcat(p[..k], p[k + 1..]);
    SplitOne(p[k + 1..]);
  }

  // ---- Canonical paths ----

  /** A component that its sixteen-byte field holds exactly. */
  predicate Plain(c: Path) {
    c != [] && |c| <= NAME_LEN && SlashFree(c) && forall i :: 0 <= i < |c| ==> c[i] != 0
  }

  predicate AllPlain(cs: seq<Path>) {
    forall i :: 0 <= i < |cs| ==> Plain(cs[i])
  }

  predicate CanonicalPath(p: Path) {
    AllPlain(Split(p))
  }

  /** A typed argument: an optional leading '/', then plain components. */
  predicate CanonicalArg(arg: Path) {
    CanonicalPath(if arg != [] && arg[0] == SLASH then arg[1..] else arg)
  }

  lemma PlainInjective(a: Path, b: Path)
    requires Plain(a) && Plain(b) && NameBytes(a) == NameBytes(b)
    ensures a == b
  {
    var n := NameBytes(a);
    assert forall i :: 0 <= i < |a| ==> n[i] == a[i];
    assert forall i :: 0 <= i < |b| ==> n[i] == b[i];
    assert |a| < NAME_LEN ==> n[|a|] == 0;
    assert |b| < NAME_LEN ==> n[|b|] == 0;
  }

  lemma PlainKeys(a: seq<Path>, b: seq<Path>)
    requires AllPlain(a) && AllPlain(b) && Keys(a) == Keys(b)
    ensures a == b
  {
    hide Plain, NameBytes;
    assert |a| == |b| by { KeysSize(a); KeysSize(b); }
    forall i | 0 <= i < |a| ensures a[i] == b[i] {
      assert Keys(a)[i] == NameBytes(a[i]) && Keys(b)[i] == NameBytes(b[i]);
      PlainInjective(a[i], b[i]);
    }
  }

  lemma KeysSize(a: seq<Path>)
    ensures |Keys(a)| == |a|
  {
  }

  lemma {:induction false} JoinEmpty(cs: seq<Path>)
    requires AllPlain(cs)
    ensures Join(cs) == [] <==> cs == []
  {
    if cs != [] {
      assert Plain(cs[0]);
    }
  }

  lemma PlainSlashFree(cs: seq<Path>)
    requires AllPlain(cs)
    ensures AllSlashFree(cs) && NoEmpty(cs)
  {
    forall i | 0 <= i < |cs| ensures SlashFree(cs[i]) && cs[i] != [] {
      assert Plain(cs[i]);
    }
  }

  lemma SplitNonEmptyPath(p: Path)
    requires CanonicalPath(p)
    ensures p != []
  {
    assert Plain(Split(p)[0]);
  }

  /** What a canonical argument resolves to, component by component. */
  function Components(cwd: seq<Path>, arg: Path): seq<Path> {
    if arg != [] && arg[0] == SLASH then Split(arg[1..]) else cwd + Split(arg)
  }

  lemma ResolvedSplit(cwd: seq<Path>, arg: Path)
    requires AllPlain(cwd) && CanonicalArg(arg)
    ensures var p := ResolveArg(cwd, arg);
            p != [] && Split(p) == Components(cwd, arg) && AllPlain(Components(cwd, arg)) && CanonicalPath(p)
  {
    hide Plain, Split;
    JoinEmpty(cwd);
    if arg != [] && arg[0] == SLASH {
      SplitNonEmptyPath(arg[1..]);
    } else {
      SplitNonEmptyPath(arg);
      if cwd != [] {
        PlainSlashFree(cwd);
        SplitJoin(cwd);
        SplitConcat(Join(cwd), arg);
      } else {
        assert cwd + Split(arg) == Split(arg);
      }
    }
  }

  /** A canonical path parses into its components: all but the last, and the last. */
  lemma ParseCanonical(p: Path)
    requires CanonicalPath(p)
    ensures ParsePath(p).Ok?
    ensures ParsePath(p).value.dirs + [ParsePath(p).value.leaf] == Split(p)
    ensures AllPlain(ParsePath(p).value.dirs)
  {
    hide Plain, Split, LastSlash, AllPlain;
    var k := LastSlash(p);
    LastSlashFacts(p);
    if k < 0 {
      SplitOne(p);
      assert [] + [p] == [p];
      NoneToCheck();
    } else {
      var front, leaf := Split(p[..k]), p[k + 1..];
      LastSplit(p);
      PlainParts(front, leaf);
      SplitOfEmpty();
    }
  }

  lemma LastSlashFacts(p: Path)
    ensures -1 <= LastSlash(p) < |p|
    ensures LastSlash(p) < 0 ==> SlashFree(p)
  {
  }

  lemma NoneToCheck()
    ensures AllPlain([])
  {
  }

  lemma SplitOfEmpty()
    ensures Split([]) == [[]]
  {
  }

  lemma PlainParts(front: seq<Path>, leaf: Path)
    requires AllPlain(front + [leaf])
    ensures AllPlain(front) && leaf != [] && front != [[]]
  {
    hide Plain;
    var all := front + [leaf];
    assert Plain(all[|front|]);
    PlainNonEmpty(leaf);
    forall i | 0 <= i < |front| ensures Plain(front[i]) {
      assert all[i] == front[i];
    }
    if front == [[]] {
      PlainNonEmpty(front[0]);
    }
  }

  lemma PlainNonEmpty(c: Path)
    ensures Plain(c) ==> c != []
  {
  }

  // ---- Directories that stay ----

  /** The directory path `cs` goes through name `n` of directory `ks`. */
  predicate Through(ks: seq<Name>, n: Name, cs: seq<Name>) {
    |ks| < |cs| && cs[..|ks|] == ks && cs[|ks|] == n
  }

  lemma {:induction false} ThroughKid(t: Kids, ks: seq<Name>, n: Name, cs: seq<Name>)
    requires Descend(t, ks).Some? && Descend(t, cs).Some? && Through(ks, n, cs)
    ensures var kids := Descend(t, ks).value;
            n in kids && kids[n].Dir? && Descend(kids[n].kids, cs[|ks| + 1..]).Some?
    decreases |ks|
  {
    if ks != [] {
      assert cs[0] == ks[0] && cs[1..][..|ks| - 1] == ks[1..];
      ThroughKid(t[ks[0]].kids, ks[1..], n, cs[1..]);
      assert cs[1..][|ks|..] == cs[|ks| + 1..];
    }
  }

  lemma ThroughTail(ks: seq<Name>, n: Name, cs: seq<Name>)
    requires ks != [] && cs != [] && ks[0] == cs[0]
    ensures Through(ks[1..], n, cs[1..]) ==> Through(ks, n, cs)
  {
    if Through(ks[1..], n, cs[1..]) {
      assert cs[..|ks|] == [cs[0]] + cs[1..][..|ks| - 1];
    }
  }

  lemma {:induction false} OffPathKept(t: Kids, ks: seq<Name>, n: Name, kids': Kids, cs: seq<Name>)
    requires Descend(t, ks).Some? && Descend(t, cs).Some? && !Through(ks, n, cs)
    requires kids' - {n} == Descend(t, ks).value - {n}
    ensures Descend(Replace(t, ks, kids'), cs).Some?
    decreases |ks|
  {
    if ks == [] {
      if cs != [] {
        assert cs[0] != n;
        assert cs[0] in kids' - {n} && (kids' - {n})[cs[0]] == (t - {n})[cs[0]];
      }
    } else if cs != [] && cs[0] == ks[0] {
      ThroughTail(ks, n, cs);
      OffPathKept(t[ks[0]].kids, ks[1..], n, kids', cs[1..]);
    }
  }

  lemma {:induction false} RemovedGone(t: Kids, ks: seq<Name>, n: Name)
    requires Descend(t, ks).Some?
    ensures Descend(Replace(t, ks, Descend(t, ks).value - {n}), ks + [n]).None?
    decreases |ks|
  {
    if ks == [] {
      assert ([n])[1..] == [];
    } else {
      assert (ks + [n])[1..] == ks[1..] + [n];
      RemovedGone(t[ks[0]].kids, ks[1..], n);
    }
  }

  lemma EmptyBelow(cs: seq<Name>)
    requires Descend(map[], cs).Some?
    ensures cs == []
  {
  }

  /** Where a call's target directory would be. */
  function TargetKeys(op: Op): seq<Name>
    requires ParsePath(op.path).Ok?
  {
    Keys(ParsePath(op.path).value.dirs) + [NameBytes(ParsePath(op.path).value.leaf)]
  }

  /** After a call that succeeds, an existing directory still exists, unless the call is an rmdir of
      exactly that directory. */
  lemma DirStaysIff(t: Kids, op: Op, noRoom: bool, cs: seq<Name>)
    requires AbsApply(t, op, noRoom).reply.Ok? && Descend(t, cs).Some?
    ensures ParsePath(op.path).Ok?
    ensures Descend(AbsApply(t, op, noRoom).tree, cs).Some? <==> !(op.Rmdir? && TargetKeys(op) == cs)
  {
    hide NameBytes, ParsePath, AbsWalk, Replace, Keys;
    AppliedKids(t, op, noRoom);
    var a := ParsePath(op.path).value;
    var ks, n := Keys(a.dirs), NameBytes(a.leaf);
    WalkIsDescend(t, a.dirs, 0);
    var kids := AbsWalk(t, a.dirs, 0).value;
    var kids' := Edit(kids, n, op, noRoom).value;
    EditIsLocal(kids, n, op, noRoom);
    if Through(ks, n, cs) {
      ThroughKid(t, ks, n, cs);
      assert op.Rmdir?;
      EmptyBelow(cs[|ks| + 1..]);
      assert cs == ks + [n];
      RemovedGone(t, ks, n);
    } else {
      OffPathKept(t, ks, n, kids', cs);
      assert (ks + [n])[..|ks|] == ks;
    }
  }

  // ---- The current directory ----

  /** The current directory's components are plain and lead to a directory. */
  ghost predicate Inv(s: State) {
    && WfDisk(s.disk)
    && AllPlain(s.cwd)
    && ResolveFrom(s.disk, s.cwd, 0, DIR_LBA).Ok?
  }

  lemma {:induction false} ResolvePrefix(d: Disk, dirs: seq<Path>, depth: nat, lba: nat)
    requires dirs != [] && ResolveFrom(d, dirs, depth, lba).Ok?
    ensures ResolveFrom(d, dirs[..|dirs| - 1], depth, lba).Ok?
    decreases |dirs|
  {
    hide TableAt, Find, NameBytes;
    if |dirs| > 1 {
      FoundUsed(TableAt(d, lba), NameBytes(dirs[0]));
      var i := Find(TableAt(d, lba), NameBytes(dirs[0]));
      assert dirs[..|dirs| - 1][1..] == dirs[1..][..|dirs| - 2];
      ResolvePrefix(d, dirs[1..], depth + 1, TableAt(d, lba)[i].startLba);
    }
  }

  lemma CdKeeps(s: State, arg: Path)
    requires Inv(s) && (arg == DOT_DOT || arg == [] || arg == [SLASH] || CanonicalArg(arg))
    ensures Inv(ChangeDir(s, arg))
  {
    hide WfDisk, ResolveFrom, Plain, Split, Join;
    ResolveRoot(s.disk);
    if arg == DOT_DOT {
      if s.cwd != [] {
        ResolvePrefix(s.disk, s.cwd, 0, DIR_LBA);
      }
    } else if arg != [] && arg != [SLASH] {
      ResolvedSplit(s.cwd, arg);
    }
  }

  lemma ResolveRoot(d: Disk)
    ensures ResolveFrom(d, [], 0, DIR_LBA).Ok?
  {
  }

  lemma {:induction false} DescendSnoc(t: Kids, ks: seq<Name>, n: Name)
    ensures var up := Descend(t, ks);
            Descend(t, ks + [n])
            == if up.Some? && n in up.value && up.value[n].Dir? then Some(up.value[n].kids) else None
    decreases |ks|
  {
    if ks == [] {
      assert ([n])[1..] == [];
    } else {
      assert (ks + [n])[1..] == ks[1..] + [n];
      if ks[0] in t && t[ks[0]].Dir? {
        DescendSnoc(t[ks[0]].kids, ks[1..], n);
      }
    }
  }

  /** rmdir succeeds exactly on an empty directory. */
  lemma RmdirOkIff(t: Kids, path: Path, noRoom: bool)
    requires ParsePath(path).Ok?
    ensures AbsApply(t, Rmdir(path), noRoom).reply.Ok?
            <==> NoEmpty(ParsePath(path).value.dirs) && |ParsePath(path).value.dirs| <= MAX_DEPTH
                 && Descend(t, TargetKeys(Rmdir(path))) == Some(map[])
  {
    hide ParsePath, NameBytes, Replace, Keys;
    var a := ParsePath(path).value;
    WalkIsDescend(t, a.dirs, 0);
    DescendSnoc(t, Keys(a.dirs), NameBytes(a.leaf));
  }

  /** Components that name a plain directory's own table are no empty ones. */
  lemma KeysOfPlain(dirs: seq<Path>, leaf: Path, cs: seq<Path>)
    requires AllPlain(cs) && Keys(dirs) + [NameBytes(leaf)] == Keys(cs)
    ensures NoEmpty(dirs) && |dirs| + 1 == |cs|
  {
    hide Plain, NameBytes;
    KeysSize(dirs);
    KeysSize(cs);
    forall i | 0 <= i < |dirs| ensures dirs[i] != [] {
      assert (Keys(dirs) + [NameBytes(leaf)])[i] == NameBytes(dirs[i]);
      assert Keys(cs)[i] == NameBytes(cs[i]);
      PlainFirst(cs[i]);
      EmptyFirst();
    }
  }

  lemma PlainFirst(c: Path)
    requires Plain(c)
    ensures NameBytes(c)[0] != 0
  {
  }

  lemma EmptyFirst()
    ensures NameBytes([])[0] == 0
  {
  }

  lemma CwdDepth(s: State)
    requires Inv(s)
    ensures |s.cwd| <= MAX_DEPTH && NoEmpty(s.cwd)
  {
    hide WfDisk, ResolveFrom, Plain, Tree, Descend;
    ReachedIff(s.disk, s.cwd);
  }

  /** The call is an rmdir whose path names the current directory's own table, and that directory is empty. */
  ghost predicate RemovesCwd(s: State, op: Op) {
    op.Rmdir? && ParsePath(op.path).Ok? && TargetKeys(op) == Keys(s.cwd) && Descend(Tree(s.disk), Keys(s.cwd)) == Some(map[])
  }

  /** Exactly when a call on the filesystem leaves the current directory in place: unless it is an rmdir whose
      path names that very directory, by whatever spelling, and the directory is empty. */
  lemma CallKeepsCwdIff(s: State, op: Op)
    requires Inv(s) && Shallow(op)
    ensures Inv(s.(disk := Apply(s.disk, op).disk)) <==> !RemovesCwd(s, op)
  {
    hide WfDisk, ResolveFrom, Plain, Tree, Apply, AbsApply, NoRoom, Shallow, Descend, ParsePath, Keys, NameBytes;
    Refines(s.disk, op);
    var d' := Apply(s.disk, op).disk;
    ReachedIff(s.disk, s.cwd);
    ReachedIff(d', s.cwd);
    if op.Rmdir? && ParsePath(op.path).Ok? && TargetKeys(op) == Keys(s.cwd) {
      var a := ParsePath(op.path).value;
      CwdDepth(s);
      KeysOfPlain(a.dirs, a.leaf, s.cwd);
      RmdirOkIff(Tree(s.disk), op.path, NoRoom(s.disk, op));
    }
    if Apply(s.disk, op).reply.Ok? {
      DirStaysIff(Tree(s.disk), op, NoRoom(s.disk, op), Keys(s.cwd));
    }
  }

  predicate CanonicalCmd(c: Cmd) {
    CanonicalArg(c.arg) || (c.Cd? && (c.arg == DOT_DOT || c.arg == [] || c.arg == [SLASH]))
  }

  lemma TargetIsComponents(cwd: seq<Path>, arg: Path, op: Op)
    requires AllPlain(cwd) && CanonicalArg(arg) && op.path == ResolveArg(cwd, arg)
    ensures ParsePath(op.path).Ok? && TargetKeys(op) == Keys(Components(cwd, arg))
    ensures AllPlain(Components(cwd, arg))
  {
    hide ParsePath, Split, NameBytes, Plain, ResolveArg;
    ResolvedSplit(cwd, arg);
    ParseCanonical(op.path);
    var a := ParsePath(op.path).value;
    KeysSnoc(a.dirs, a.leaf);
  }

  lemma KeysSnoc(dirs: seq<Path>, leaf: Path)
    ensures Keys(dirs + [leaf]) == Keys(dirs) + [NameBytes(leaf)]
  {
    hide NameBytes;
  }

  /** A canonical argument names the current directory only if it resolves to the very same string. */
  lemma SameDirSamePath(cwd: seq<Path>, arg: Path)
    requires AllPlain(cwd) && CanonicalArg(arg) && Components(cwd, arg) == cwd
    ensures ResolveArg(cwd, arg) == Join(cwd)
  {
    hide Plain;
    ResolvedSplit(cwd, arg);
    JoinSplit(ResolveArg(cwd, arg));
  }

  lemma {:induction false} JoinSplit(p: Path)
    ensures Join(Split(p)) == p
  {
    if p != [] {
      JoinSplit(p[1..]);
      var rest := Split(p[1..]);
      if p[0] == SLASH {
        assert ([[]] + rest)[1..] == rest;
      } else if |rest| > 1 {
        var parts := [[p[0]] + rest[0]] + rest[1..];
        assert parts[1..] == rest[1..];
        assert p[1..] == rest[0] + [SLASH] + Join(rest[1..]);
        assert Join(parts) == [p[0]] + rest[0] + [SLASH] + Join(rest[1..]);
      }
    }
  }

  /** The command does not succeed in allocating under exactly 32 directories. */
  predicate Allowed(s: State, c: Cmd) {
    OpOf(s, c).Some? ==> Shallow(OpOf(s, c).value) || Apply(s.disk, OpOf(s, c).value).reply.Err?
  }

  lemma DeepOp(d: FsSpec.Disk, op: Op)
    requires WfDisk(d) && !Shallow(op)
    ensures Apply(d, op).reply.Err? ==> Apply(d, op).disk == d
    ensures Apply(d, op).reply.Ok? ==> !WfDisk(Apply(d, op).disk)
  {
    hide WfDisk, Shallow, Apply, Tree, AbsApply, NoRoom;
    FsDepth.DeepCall(d, op);
  }

  /** Exactly which canonical commands keep the tree well formed and the current directory resolvable. */
  lemma CmdKeepsIff(s: State, c: Cmd)
    requires Inv(s) && CanonicalCmd(c)
    ensures Inv(Do(s, c)) <==> Allowed(s, c)
  {
    hide WfDisk, ResolveFrom, AllPlain, Apply, Shallow, ParsePath, TargetKeys, Keys, Components, CanonicalArg, ResolveArg, Join, ChangeDir;
    hide Tree, Descend;
    if c.Cd? {
      CdKeeps(s, c.arg);
    } else if OpOf(s, c).Some? {
      var op := OpOf(s, c).value;
      if !Shallow(op) {
        DeepOp(s.disk, op);
      } else {
        CallKeepsCwdIff(s, op);
        if RemovesCwd(s, op) {
          TargetIsComponents(s.cwd, c.arg, op);
          PlainKeys(Components(s.cwd, c.arg), s.cwd);
          SameDirSamePath(s.cwd, c.arg);
        }
      }
    }
  }

  function Session(s: State, cs: seq<Cmd>): State
    decreases |cs|
  {
    if cs == [] then s else Session(Do(s, cs[0]), cs[1..])
  }

  /** Every command of the session is canonical, and none succeeds in allocating under exactly 32 directories. */
  predicate GoodSession(s: State, cs: seq<Cmd>)
    decreases |cs|
  {
    cs == []
    || (CanonicalCmd(cs[0]) && Allowed(s, cs[0]) && GoodSession(Do(s, cs[0]), cs[1..]))
  }

  /** Over every session of canonical commands the current directory is always an existing directory:
      `cd ..` is safe, and neither it nor any directory above it can be removed. */
  lemma {:induction false} SessionKeeps(s: State, cs: seq<Cmd>)
    requires Inv(s) && GoodSession(s, cs)
    ensures Inv(Session(s, cs))
    decreases |cs|
  {
    hide Inv, Do, Allowed, CanonicalCmd;
    if cs != [] {
      CmdKeepsIff(s, cs[0]);
      SessionKeeps(Do(s, cs[0]), cs[1..]);
    }
  }

  /** Canonical is needed: from directory `x`, `rmdir //x` passes the check that protects the current directory,
      and removes it exactly when it is empty. */
  lemma AliasRemovesCwd(s: State, x: Path)
    requires Inv(s) && s.cwd == [x]
    ensures var c := RemoveDirectory([SLASH, SLASH] + x);
            && OpOf(s, c) == Some(Rmdir([SLASH] + x))
            && (Inv(Do(s, c)) <==> Descend(Tree(s.disk), Keys(s.cwd)) != Some(map[]))
  {
    hide WfDisk, ResolveFrom, Apply, Keys, Tree, Descend;
    var arg := [SLASH, SLASH] + x;
    assert arg[1..] == [SLASH] + x;
    assert Plain(s.cwd[0]);
    RemoveShallow([SLASH] + x);
    CallKeepsCwdIff(s, Rmdir([SLASH] + x));
    AliasParse(x);
    KeysSnoc([], x);
    KeysEmptyIs();
    assert [] + [x] == [x];
  }

  /** A session that ends in a directory that is gone: on any blank disk, mkdir a, cd a, rmdir //a. */
  lemma AliasSession(blank: FsSpec.Disk)
    requires FsRuns.Blank(blank)
    ensures var cs := [MakeDirectory(FsChain.A), Cd(FsChain.A), RemoveDirectory([SLASH, SLASH] + FsChain.A)];
            var s := Session(State([], blank), cs);
            && s.cwd == [FsChain.A] && WfDisk(s.disk)
            && ResolveFrom(s.disk, s.cwd, 0, DIR_LBA).Err?
  {
    hide WfDisk, ResolveFrom, Apply, Tree, Descend, Plain, Do, ChangeDir, AllPlain, FsRuns.Blank, Keys, NoRoom, AbsApply;
    var a := FsChain.A;
    var s0 := State([], blank);
    var mk, go, rm := MakeDirectory(a), Cd(a), RemoveDirectory([SLASH, SLASH] + a);
    MadeA(blank);
    var s1, s2 := Do(s0, mk), Do(Do(s0, mk), go);
    WentToA(s1);
    AliasRemovesCwd(s2, a);
    var s3 := Do(s2, rm);
    DoneDisk(s2, rm, Rmdir([SLASH] + a));
    RemoveShallow([SLASH] + a);
    Refines(s2.disk, Rmdir([SLASH] + a));
    ThreeCommands(s0, mk, go, rm);
  }

  lemma ThreeCommands(s: State, a: Cmd, b: Cmd, c: Cmd)
    ensures Session(s, [a, b, c]) == Do(Do(Do(s, a), b), c)
  {
    hide Do;
    assert [a, b, c][1..] == [b, c] && [b, c][1..] == [c] && [c][1..] == [];
    assert Session(Do(Do(Do(s, a), b), c), []) == Do(Do(Do(s, a), b), c);
    assert Session(Do(Do(s, a), b), [c]) == Do(Do(Do(s, a), b), c);
    assert Session(Do(s, a), [b, c]) == Do(Do(Do(s, a), b), c);
  }

  lemma DoneDisk(s: State, c: Cmd, op: Op)
    requires !c.Cd? && OpOf(s, c) == Some(op)
    ensures Do(s, c) == s.(disk := Apply(s.disk, op).disk)
  {
    hide Apply, OpOf;
  }

  lemma PlainA()
    ensures Plain(FsChain.A) && FsChain.A != DOT_DOT && AllPlain([FsChain.A]) && CanonicalArg(FsChain.A)
    ensures Split(FsChain.A) == [FsChain.A]
  {
    SplitOne(FsChain.A);
  }

  /** After mkdir a on a blank disk the tree is the one empty directory a. */
  lemma MadeA(blank: FsSpec.Disk)
    requires FsRuns.Blank(blank)
    ensures var s := Do(State([], blank), MakeDirectory(FsChain.A));
            s.cwd == [] && Inv(s) && Tree(s.disk) == FsChain.Nest(1)
  {
    hide WfDisk, ResolveFrom, Apply, Tree, FsChain.Nest, Foot, FsRuns.Blank;
    FsChain.ChainBuilt(blank, 1);
    FsChain.ChainStart();
    var ops := FsChain.ChainOps(1);
    assert FsChain.ChainOps(0) == [];
    assert ops == [Mkdir(FsChain.A)];
    assert ops[1..] == [];
    var d1 := Apply(blank, Mkdir(FsChain.A)).disk;
    assert FsRuns.Run(d1, []).disk == d1;
    assert Join([]) == [];
    ResolveRoot(d1);
  }

  lemma WentToA(s: State)
    requires s.cwd == [] && Inv(s) && Tree(s.disk) == FsChain.Nest(1)
    ensures var s2 := Do(s, Cd(FsChain.A));
            && s2 == s.(cwd := [FsChain.A]) && Inv(s2)
            && Descend(Tree(s2.disk), Keys(s2.cwd)) == Some(map[])
  {
    hide WfDisk, ResolveFrom, Apply, Tree, Plain, ChangeDir, Split, AllPlain, CanonicalArg;
    var a := FsChain.A;
    PlainA();
    DescendA();
    ReachedIff(s.disk, [a]);
    CdGoes(s, a);
    assert [] + [a] == [a];
  }

  lemma DescendA()
    ensures Descend(FsChain.Nest(1), Keys([FsChain.A])) == Some(map[]) && NoEmpty([FsChain.A])
  {
    var n := NameBytes(FsChain.A);
    assert Keys([FsChain.A]) == [n];
    assert FsChain.Nest(1) == map[n := Dir(FsChain.Nest(0))] && FsChain.Nest(0) == map[];
    assert [n][1..] == [];
  }

  lemma KeysEmptyIs()
    ensures Keys([]) == []
  {
  }

  lemma RemoveShallow(path: Path)
    ensures Shallow(Rmdir(path))
  {
  }

  lemma AliasParse(x: Path)
    requires Plain(x)
    ensures ParsePath([SLASH] + x) == Ok(Target([], x))
  {
    var p := [SLASH] + x;
    var k := LastSlash(p);
    assert p[0] == SLASH && forall i :: 0 < i < |p| ==> p[i] == x[i - 1];
    assert k == 0;
    assert p[1..] == x;
  }

  /** A canonical cd moves exactly when its components lead to a directory, and then to exactly them. */
  lemma CdGoes(s: State, arg: Path)
    requires Inv(s) && CanonicalArg(arg) && arg != DOT_DOT
    ensures ChangeDir(s, arg)
            == if ResolveFrom(s.disk, Components(s.cwd, arg), 0, DIR_LBA).Ok? then s.(cwd := Components(s.cwd, arg)) else s
  {
    hide WfDisk, ResolveFrom, Split, Join, Components;
    ResolvedSplit(s.cwd, arg);
    NotBare(arg);
  }

  lemma NotBare(arg: Path)
    requires CanonicalArg(arg)
    ensures arg != [] && arg != [SLASH]
  {
    if arg == [] || arg == [SLASH] {
      SplitNonEmptyPath([]);
    }
  }

  /** cd without a name, or to '/', goes to the root; cd .. drops the last component, and does nothing at the root;
      no cd changes the disk. */
  lemma CdRootAndUp(s: State, arg: Path)
    ensures ChangeDir(s, []) == State([], s.disk) && ChangeDir(s, [SLASH]) == State([], s.disk)
    ensures s.cwd == [] ==> ChangeDir(s, DOT_DOT) == s
    ensures s.cwd != [] ==> ChangeDir(s, DOT_DOT).cwd + [s.cwd[|s.cwd| - 1]] == s.cwd
    ensures ChangeDir(s, arg).disk == s.disk
  {
    hide ResolveFrom;
  }

  /** A directory just made by a canonical name can be entered by it. */
  lemma MkdirThenCd(s: State, arg: Path)
    requires Inv(s) && CanonicalArg(arg) && arg != DOT_DOT
    requires OpOf(s, MakeDirectory(arg)) == Some(Mkdir(ResolveArg(s.cwd, arg))) && Shallow(Mkdir(ResolveArg(s.cwd, arg)))
    requires Apply(s.disk, Mkdir(ResolveArg(s.cwd, arg))).reply.Ok?
    ensures ChangeDir(Do(s, MakeDirectory(arg)), arg).cwd == Components(s.cwd, arg)
  {
    hide WfDisk, ResolveFrom, Apply, Shallow, ParsePath, TargetKeys, Keys, Components, CanonicalArg, ResolveArg, Tree, Descend, AbsApply, NoRoom;
    hide AllPlain, ChangeDir;
    var op := Mkdir(ResolveArg(s.cwd, arg));
    var s1 := s.(disk := Apply(s.disk, op).disk);
    var cs := Components(s.cwd, arg);
    TargetIsComponents(s.cwd, arg, op);
    Refines(s.disk, op);
    CallKeepsCwdIff(s, op);
    MadeDir(Tree(s.disk), op, NoRoom(s.disk, op));
    PlainSlashFree(cs);
    ReachedIff(s1.disk, cs);
    CdGoes(s1, arg);
  }

  lemma MadeDir(t: Kids, op: Op, noRoom: bool)
    requires op.Mkdir? && AbsApply(t, op, noRoom).reply.Ok?
    ensures ParsePath(op.path).Ok? && Descend(AbsApply(t, op, noRoom).tree, TargetKeys(op)) == Some(map[])
  {
    hide ParsePath, AbsApply, Keys, NameBytes;
    AppliedKids(t, op, noRoom);
    var a := ParsePath(op.path).value;
    DescendSnoc(AbsApply(t, op, noRoom).tree, Keys(a.dirs), NameBytes(a.leaf));
  }

  /** Going into a directory and back up returns to where one was. */
  lemma CdThereAndBack(s: State, name: Path)
    requires Inv(s) && Plain(name) && name != DOT_DOT && ChangeDir(s, name) != s
    ensures ChangeDir(ChangeDir(s, name), DOT_DOT) == s
  {
    hide WfDisk, ResolveFrom, Join;
    SplitOne(name);
    CdGoes(s, name);
    assert Components(s.cwd, name) == s.cwd + [name];
    assert (s.cwd + [name])[..|s.cwd|] == s.cwd;
  }

  // ---- As the shell does it ----

  class Prompt {
    var cwd: seq<Path>
    var disk: Disk

    constructor (d: Disk)
      ensures Now() == State([], d)
    {
      cwd, disk := [], d;
    }

    function Now(): State
      reads this
    {
      State(cwd, disk)
    }

    method CdCommand(arg: Path) returns (ok: bool)
      modifies this
      ensures Now() == ChangeDir(old(Now()), arg)
    {
      if arg == DOT_DOT {
        if cwd == [] {
          return false;
        }
        cwd := cwd[..|cwd| - 1];
        return true;
      }
      if arg == [] || arg == [SLASH] {
        cwd := [];
        return true;
      }
      var resolved := ResolveArg(cwd, arg);
      ok := ResolveFrom(disk, DirParts(resolved), 0, DIR_LBA).Ok?;
      if ok {
        cwd := DirParts(resolved);
      }
    }

    method RmdirCommand(arg: Path) returns (ok: bool)
      modifies this
      ensures Now() == Do(old(Now()), RemoveDirectory(arg))
    {
      hide ResolveArg, Join, RemoveDir;
      var target := ResolveArg(cwd, arg);
      if target == Join(cwd) {
        return false;
      }
      var out := RemoveDir(disk, target);
      disk := out.disk;
      ok := out.reply.Ok?;
    }
  }
}
