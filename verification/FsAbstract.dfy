/** The abstract filesystem: a tree of sixteen-byte names and bytes, and the calls on it. */
module FsAbstract {
  import opened Common
  import opened DirCodec
  import opened FsSpec
  import opened FsTree
  import opened FsWalk

  datatype Op =
    | Write(path: Path, data: seq<Byte>)
    | Mkdir(path: Path)
    | Rm(path: Path)
    | Rmdir(path: Path)

  datatype AbsOutcome = AbsOutcome(tree: Kids, reply: Reply<()>)

  function Apply(d: Disk, op: Op): Outcome {
    match op
    case Write(path, data) => WriteFile(d, path, data)
    case Mkdir(path) => MakeDir(d, path)
    case Rm(path) => DeleteFile(d, path)
    case Rmdir(path) => RemoveDir(d, path)
  }

  /** Sectors the call allocates when it succeeds. */
  function Needed(op: Op): nat {
    match op
    case Write(_, data) => SectorsFor(|data|)
    case Mkdir(_) => 1
    case _ => 0
  }

  /** Walking directory components on the tree, with the code's errors in the code's order. */
  ghost function AbsWalk(t: Kids, dirs: seq<Path>, depth: nat): Reply<Kids>
    decreases |dirs|
  {
    if dirs == [] then Ok(t)
    else if dirs[0] == [] then Err(EmptyComponent)
    else if depth >= MAX_DEPTH then Err(TooDeep)
    else
      var n := NameBytes(dirs[0]);
      if n !in t then Err(NoSuchDirectory)
      else if t[n].File? then Err(NotADirectory)
      else AbsWalk(t[n].kids, dirs[1..], depth + 1)
  }

  /** The new children of the directory, or the error. */
  ghost function Edit(kids: Kids, n: Name, op: Op, noRoom: bool): Reply<Kids> {
    match op
    case Write(_, data) =>
      if n in kids && kids[n].Dir? then Err(IsADirectory)
      else if n !in kids && |kids| == MAX_ENTRIES then Err(DirectoryFull)
      else if noRoom then Err(NoSpace)
      else Ok(kids[n := File(data)])
    case Mkdir(_) =>
      if n in kids then Err(AlreadyExists)
      else if |kids| == MAX_ENTRIES then Err(DirectoryFull)
      else if noRoom then Err(NoSpace)
      else Ok(kids[n := Dir(map[])])
    case Rm(_) =>
      if n !in kids then Err(NoSuchFile)
      else if kids[n].Dir? then Err(IsADirectory)
      else Ok(kids - {n})
    case Rmdir(_) =>
      if n !in kids then Err(NoSuchFile)
      else if kids[n].File? then Err(IsAFile)
      else if kids[n].kids != map[] then Err(NotEmpty)
      else Ok(kids - {n})
  }

  ghost function AbsApplyAt(t: Kids, target: Target, op: Op, noRoom: bool): AbsOutcome {
    match AbsWalk(t, target.dirs, 0)
    case Err(e) => AbsOutcome(t, Err(e))
    case Ok(kids) =>
      match Edit(kids, NameBytes(target.leaf), op, noRoom)
      case Err(e) => AbsOutcome(t, Err(e))
      case Ok(kids') =>
        AbsOutcome(if Descend(t, Keys(target.dirs)).Some? then Replace(t, Keys(target.dirs), kids') else t, Ok(()))
  }

  /** One call on the tree; `noRoom` says whether the pool has no free run long enough. */
  ghost function AbsApply(t: Kids, op: Op, noRoom: bool): AbsOutcome {
    if op.Write? && |op.data| > MAX_FILE_BYTES then AbsOutcome(t, Err(TooLarge))
    else
      match ParsePath(op.path)
      case Err(e) => AbsOutcome(t, Err(e))
      case Ok(target) => AbsApplyAt(t, target, op, noRoom)
  }

  ghost function AbsReadAt(t: Kids, target: Target): Reply<seq<Byte>> {
    match AbsWalk(t, target.dirs, 0)
    case Err(e) => Err(e)
    case Ok(kids) =>
      var n := NameBytes(target.leaf);
      if n !in kids then Err(NoSuchFile)
      else if kids[n].Dir? then Err(IsADirectory)
      else Ok(kids[n].data)
  }

  ghost function AbsRead(t: Kids, path: Path): Reply<seq<Byte>> {
    match ParsePath(path)
    case Err(e) => Err(e)
    case Ok(target) => AbsReadAt(t, target)
  }

  // ---- Facts about the abstract tree alone ----

  lemma {:induction false} WalkIsDescend(t: Kids, dirs: seq<Path>, depth: nat)
    ensures AbsWalk(t, dirs, depth).Ok? ==>
              NoEmpty(dirs) && depth + |dirs| <= Max(depth, MAX_DEPTH)
              && Descend(t, Keys(dirs)) == Some(AbsWalk(t, dirs, depth).value)
    ensures NoEmpty(dirs) && depth + |dirs| <= MAX_DEPTH && Descend(t, Keys(dirs)).Some? ==>
              AbsWalk(t, dirs, depth).Ok?
    decreases |dirs|
  {
    if dirs == [] {
      assert Keys(dirs) == [];
    } else {
      KeysTail(dirs);
      NoEmptyTail(dirs);
      var n := NameBytes(dirs[0]);
      if n in t && t[n].Dir? {
        WalkIsDescend(t[n].kids, dirs[1..], depth + 1);
      }
    }
  }

  function Max(a: int, b: int): int {
    if a >= b then a else b
  }

  /** What `Replace` leaves: the edited directory itself, and everything off the path. */
  lemma {:induction false} DescendReplaced(t: Kids, ks: seq<Name>, kids': Kids)
    requires Descend(t, ks).Some?
    ensures Descend(Replace(t, ks, kids'), ks) == Some(kids')
    decreases |ks|
  {
    if ks != [] {
      DescendReplaced(t[ks[0]].kids, ks[1..], kids');
    }
  }

  /** The bytes of the file at directory `ks`, name `n`. */
  ghost function FileAtKeys(t: Kids, ks: seq<Name>, n: Name): Option<seq<Byte>> {
    match Descend(t, ks)
    case None => None
    case Some(kids) => if n in kids && kids[n].File? then Some(kids[n].data) else None
  }

  /** An edit that only touches name `n` of directory `ks`, and turns no file there into a
      non-empty directory or back, changes no file under any other directory and name. */
  lemma {:induction false} OtherFilesSame(t: Kids, ks: seq<Name>, n: Name, kids': Kids, ks2: seq<Name>, n2: Name)
    requires Descend(t, ks).Some?
    requires var kids := Descend(t, ks).value;
             && kids' - {n} == kids - {n}
             && (n in kids && kids[n].Dir? ==> kids[n].kids == map[])
             && (n in kids' && kids'[n].Dir? ==> kids'[n].kids == map[])
    requires ks2 != ks || n2 != n
    ensures FileAtKeys(Replace(t, ks, kids'), ks2, n2) == FileAtKeys(t, ks2, n2)
    decreases |ks2|
  {
    var t' := Replace(t, ks, kids');
    if ks == [] {
      if ks2 == [] {
        assert n2 in t' <==> n2 in t' - {n};
        assert n2 in t <==> n2 in t - {n};
        assert n2 in t ==> t[n2] == (t - {n})[n2] == (t' - {n})[n2];
      } else if ks2[0] != n {
        assert ks2[0] in t' <==> ks2[0] in t' - {n};
        assert ks2[0] in t <==> ks2[0] in t - {n};
        assert ks2[0] in t ==> t[ks2[0]] == (t - {n})[ks2[0]] == (t' - {n})[ks2[0]];
      } else {
        NoFileInEmpty(ks2[1..], n2);
      }
    } else if ks2 != [] && ks2[0] == ks[0] {
      assert ks2[1..] != ks[1..] || n2 != n by {
        if ks2[1..] == ks[1..] {
          assert ks2 == [ks2[0]] + ks2[1..] && ks == [ks[0]] + ks[1..];
        }
      }
      OtherFilesSame(t[ks[0]].kids, ks[1..], n, kids', ks2[1..], n2);
    }
  }

  lemma NoFileInEmpty(ks: seq<Name>, n: Name)
    ensures FileAtKeys(map[], ks, n).None?
  {
  }

  /** Reading by path, as a lookup in the tree. */
  lemma ReadIsLookup(t: Kids, target: Target)
    ensures AbsReadAt(t, target).Ok? <==>
              NoEmpty(target.dirs) && |target.dirs| <= MAX_DEPTH
              && FileAtKeys(t, Keys(target.dirs), NameBytes(target.leaf)).Some?
    ensures AbsReadAt(t, target).Ok? ==>
              FileAtKeys(t, Keys(target.dirs), NameBytes(target.leaf)) == Some(AbsReadAt(t, target).value)
  {
    WalkIsDescend(t, target.dirs, 0);
  }

  /** The path two calls share when they name the same table and the same sixteen bytes. */
  ghost predicate SameTarget(a: Target, b: Target) {
    Keys(a.dirs) == Keys(b.dirs) && NameBytes(a.leaf) == NameBytes(b.leaf)
  }

  lemma EditIsLocal(kids: Kids, n: Name, op: Op, noRoom: bool)
    requires Edit(kids, n, op, noRoom).Ok?
    ensures var kids' := Edit(kids, n, op, noRoom).value;
            && kids' - {n} == kids - {n}
            && (n in kids && kids[n].Dir? ==> kids[n].kids == map[])
            && (n in kids' && kids'[n].Dir? ==> kids'[n].kids == map[])
  {
  }

  /** After any call that succeeds, every path naming a different directory or sixteen-byte name
      reads exactly what it read before; so does every path after a call that fails. */
  lemma OtherPathsRead(t: Kids, op: Op, noRoom: bool, path: Path)
    requires AbsApply(t, op, noRoom).reply.Ok? ==>
               ParsePath(path).Ok? && !SameTarget(ParsePath(op.path).value, ParsePath(path).value)
    ensures AbsRead(AbsApply(t, op, noRoom).tree, path).Ok? <==> AbsRead(t, path).Ok?
    ensures AbsRead(t, path).Ok? ==> AbsRead(AbsApply(t, op, noRoom).tree, path) == AbsRead(t, path)
  {
    if AbsApply(t, op, noRoom).reply.Ok? {
      var a, b := ParsePath(op.path).value, ParsePath(path).value;
      var n := NameBytes(a.leaf);
      WalkIsDescend(t, a.dirs, 0);
      var kids := AbsWalk(t, a.dirs, 0).value;
      EditIsLocal(kids, n, op, noRoom);
      OtherFilesSame(t, Keys(a.dirs), n, Edit(kids, n, op, noRoom).value, Keys(b.dirs), NameBytes(b.leaf));
      ReadIsLookup(t, b);
      ReadIsLookup(AbsApply(t, op, noRoom).tree, b);
    }
  }

  /** What a successful call leaves in the directory it names. */
  lemma AppliedKids(t: Kids, op: Op, noRoom: bool)
    requires AbsApply(t, op, noRoom).reply.Ok?
    ensures var a := ParsePath(op.path).value;
            && ParsePath(op.path).Ok?
            && NoEmpty(a.dirs) && |a.dirs| <= MAX_DEPTH
            && AbsWalk(t, a.dirs, 0).Ok?
            && Edit(AbsWalk(t, a.dirs, 0).value, NameBytes(a.leaf), op, noRoom).Ok?
            && Descend(AbsApply(t, op, noRoom).tree, Keys(a.dirs))
               == Some(Edit(AbsWalk(t, a.dirs, 0).value, NameBytes(a.leaf), op, noRoom).value)
  {
    hide Edit, NameBytes, Keys;
    var a := ParsePath(op.path).value;
    WalkIsDescend(t, a.dirs, 0);
    DescendReplaced(t, Keys(a.dirs), Edit(AbsWalk(t, a.dirs, 0).value, NameBytes(a.leaf), op, noRoom).value);
  }

  lemma SameLength(a: seq<Path>, b: seq<Path>)
    requires Keys(a) == Keys(b)
    ensures |a| == |b|
  {
    assert |Keys(a)| == |a| && |Keys(b)| == |b|;
  }

  lemma WrittenKid(kids: Kids, n: Name, path: Path, data: seq<Byte>, noRoom: bool)
    requires Edit(kids, n, Write(path, data), noRoom).Ok?
    ensures Edit(kids, n, Write(path, data), noRoom).value == kids[n := File(data)]
  {
  }

  /** A successful write reads back, through any path that names the same file. */
  lemma ReadAfterWrite(t: Kids, path: Path, data: seq<Byte>, noRoom: bool, again: Path)
    requires AbsApply(t, Write(path, data), noRoom).reply.Ok?
    requires ParsePath(path).Ok? && ParsePath(again).Ok?
    requires SameTarget(ParsePath(path).value, ParsePath(again).value)
    requires NoEmpty(ParsePath(again).value.dirs)
    ensures AbsRead(AbsApply(t, Write(path, data), noRoom).tree, again) == Ok(data)
  {
    hide AbsApply, Edit, NameBytes, Keys, AbsWalk, AbsReadAt, Descend, ParsePath;
    var a, b := ParsePath(path).value, ParsePath(again).value;
    AppliedKids(t, Write(path, data), noRoom);
    WrittenKid(AbsWalk(t, a.dirs, 0).value, NameBytes(a.leaf), path, data, noRoom);
    SameLength(a.dirs, b.dirs);
    ReadIsLookup(AbsApply(t, Write(path, data), noRoom).tree, b);
  }

  /** A removed file or directory is gone, and its name can be used again. */
  lemma GoneAfterRemove(t: Kids, op: Op, noRoom: bool)
    requires op.Rm? || op.Rmdir?
    requires AbsApply(t, op, noRoom).reply.Ok?
    ensures AbsRead(AbsApply(t, op, noRoom).tree, op.path) == Err(NoSuchFile)
  {
    hide AbsApply, NameBytes, Keys, AbsWalk, Descend, ParsePath;
    AppliedKids(t, op, noRoom);
    WalkIsDescend(AbsApply(t, op, noRoom).tree, ParsePath(op.path).value.dirs, 0);
  }
}
