/** Sessions on open files: what a descriptor's buffer holds and what closing it leaves on disk. */
module DescriptorFiles {
  import opened Common
  import opened Descriptors
  import Fs = FsSpec
  import FsTree
  import FsOps
  import FsAbstract
  import FsRefine
  import FsRuns
  import FsContent
  import FsWalk
  import DirCodec
  import FsDepth
  import FsDamage
  import DescriptorRefs
  import DescriptorPipes

  // ---- Buffers stay within bounds ----

  predicate FileOk(f: OpenFile) {
    f.pos <= |f.buffer| <= Fs.MAX_FILE_BYTES
  }

  predicate EntryOk(x: Option<FdEntry>) {
    x.Some? && x.value.File? ==> FileOk(x.value.file)
  }

  predicate FdsOk(fds: FdTable) {
    forall i :: 0 <= i < 4 ==> EntryOk(fds[i])
  }

  /** Every open file of every process: its cursor is within its buffer, which is at most 4096 bytes. */
  predicate FilesOk(procs: map<nat, Proc>) {
    forall id :: id in procs ==> FdsOk(procs[id].fds)
  }

  lemma PutOk(procs: map<nat, Proc>, id: nat, fd: nat, x: Option<FdEntry>)
    requires FilesOk(procs) && id in procs && fd < 4 && EntryOk(x)
    ensures FilesOk(PutFd(procs, id, fd, x))
  {
  }

  lemma AtOk(k: Kernel, id: nat, fd: nat)
    requires FilesOk(k.procs)
    ensures EntryOk(FdAt(k, id, fd))
  {
  }

  lemma AfterOk(f: OpenFile, len: nat, data: seq<Byte>)
    requires FileOk(f)
    ensures FileOk(AfterRead(f, len)) && FileOk(AfterWrite(f, data))
  {
  }

  /** On a well-formed disk no file is longer than 4096 bytes. */
  lemma FileSize(d: Fs.Disk, path: Fs.Path)
    requires FsTree.WfDisk(d) && Fs.ReadFile(d, path).Ok?
    ensures |Fs.ReadFile(d, path).value| <= Fs.MAX_FILE_BYTES
  {
    hide FsTree.WfDisk, FsTree.Foot, FsTree.Tree, Fs.ParsePath, Fs.ResolveFrom, Fs.NameBytes, Fs.ReadFileIn, Fs.TableAt, FsOps.Reached;
    var a := Fs.ParsePath(path).value;
    FsOps.ReachedIff(d, a.dirs);
    SizeIn(d, a.dirs, Fs.ResolveFrom(d, a.dirs, 0, Fs.DIR_LBA).value, Fs.NameBytes(a.leaf));
  }

  lemma SizeIn(d: Fs.Disk, dirs: seq<Fs.Path>, l: nat, n: DirCodec.Name)
    requires FsOps.Reached(d, dirs, l) && Fs.ReadFileIn(d, Fs.TableAt(d, l), n).Ok?
    ensures |Fs.ReadFileIn(d, Fs.TableAt(d, l), n).value| <= Fs.MAX_FILE_BYTES
  {
    hide FsTree.Foot, FsTree.KidsAt, FsTree.Wf, FsTree.SlotOk, Fs.ResolveFrom, Fs.TableAt, Fs.Find, Fs.EntryBytes, FsOps.Reached;
    FsOps.ReachedTable(d, dirs, l);
    var t := Fs.TableAt(d, l);
    FsWalk.FoundUsed(t, n);
    FsWalk.SlotOfWf(d, l, FsOps.Level(dirs), Fs.Find(t, n));
    SizeOfEntry(d, t[Fs.Find(t, n)], FsOps.Level(dirs));
  }

  lemma SizeOfEntry(d: Fs.Disk, e: DirCodec.DirEntry, r: nat)
    requires FsTree.SlotOk(d, e, r) && e.used && !e.isDir && Fs.EntryBytes(d, e).Ok?
    ensures |Fs.EntryBytes(d, e).value| <= Fs.MAX_FILE_BYTES
  {
    hide Fs.EntryBytes, FsTree.Wf, FsTree.Foot;
    FsContent.FileReads(d, e, r);
    LenBound(d, e, r);
  }

  lemma LenBound(d: Fs.Disk, e: DirCodec.DirEntry, r: nat)
    requires FsTree.SlotOk(d, e, r) && e.used && !e.isDir
    ensures e.len <= Fs.MAX_FILE_BYTES
  {
  }

  /** Every call keeps every open file within bounds, on a well-formed disk. */
  lemma FilesKept(k: Kernel, c: Call)
    requires FilesOk(k.procs) && RingsOk(k.pipes)
    requires c.Open? ==> FsTree.WfDisk(k.disk)
    ensures FilesOk(Do(k, c).k.procs)
  {
    hide FsTree.WfDisk, FilesOk, FileOk, Fs.ReadFile, Fs.WriteFile, AddRef, DropRef, AddRefs, FreeFd, FreePid, FreePipe, PutFd, Contents;
    hide AfterRead, AfterWrite, FdAt, FileRoom, ReadOpenFile, CloseAt, CreatePipe, Dup2At;
    match c {
      case PipeNew(id) => CreateFilesKept(k, id);
      case Open(id, path) => OpenFilesKept(k, id, path);
      case Read(id, fd, len) =>
        AtOk(k, id, fd);
        FdAtMeans(k, id, fd);
        match FdAt(k, id, fd) {
          case Some(File(f)) => AfterOk(f, len, []); PutOk(k.procs, id, fd, Some(File(AfterRead(f, len))));
          case _ =>
        }
      case Write(id, fd, data) =>
        AtOk(k, id, fd);
        FdAtMeans(k, id, fd);
        match FdAt(k, id, fd) {
          case Some(File(f)) => AfterOk(f, 0, data); PutOk(k.procs, id, fd, Some(File(AfterWrite(f, data))));
          case _ =>
        }
      case Close(id, fd) => CloseFilesKept(k, id, fd);
      case Dup(id, fd) =>
        AtOk(k, id, fd);
        FdAtMeans(k, id, fd);
        if FdAt(k, id, fd).Some? {
          var i := FreeFd(k.procs[id].fds, 0);
          FreeRange(k.procs[id].fds, 0);
          if i < 4 { PutOk(k.procs, id, i, FdAt(k, id, fd)); }
        }
      case Dup2(id, fd, newFd) => Dup2FilesKept(k, id, fd, newFd);
      case _ => ProcFilesKept(k, c);
    }
  }

  lemma FreeRange(fds: FdTable, i: nat)
    requires i <= 4
    ensures i <= FreeFd(fds, i) <= 4
  {
  }

  lemma FdAtMeans(k: Kernel, id: nat, fd: nat)
    ensures FdAt(k, id, fd).Some? ==> id in k.procs && fd < 4
  {
  }

  lemma CreateFilesKept(k: Kernel, id: nat)
    requires FilesOk(k.procs)
    ensures FilesOk(CreatePipe(k, id).k.procs)
  {
    hide FilesOk, FreeFd, FreePipe, PutFd;
    var j := FreePipe(k.pipes, 0);
    if id in k.procs {
      var fds := k.procs[id].fds;
      FreeRange(fds, 0);
      var r := FreeFd(fds, 0);
      if r < 4 {
        FreeRange(fds, r + 1);
        var w := FreeFd(fds, r + 1);
        if w < 4 {
          PutOk(k.procs, id, r, Some(PipeRead(j)));
          PutIn(k.procs, id, r, Some(PipeRead(j)));
          PutOk(PutFd(k.procs, id, r, Some(PipeRead(j))), id, w, Some(PipeWrite(j)));
        }
      }
    }
  }

  lemma PutIn(procs: map<nat, Proc>, id: nat, fd: nat, x: Option<FdEntry>)
    requires id in procs && fd < 4
    ensures id in PutFd(procs, id, fd, x)
  {
  }

  lemma OpenFilesKept(k: Kernel, id: nat, path: Fs.Path)
    requires FilesOk(k.procs) && FsTree.WfDisk(k.disk)
    ensures FilesOk(OpenAt(k, id, path).k.procs)
  {
    hide FsTree.WfDisk, FilesOk, Fs.ReadFile, FreeFd, PutFd;
    var data := Fs.ReadFile(k.disk, path);
    if data.Ok? {
      FileSize(k.disk, path);
    }
    var buffer := if data.Ok? then data.value else [];
    if id in k.procs {
      var i := FreeFd(k.procs[id].fds, 0);
      FreeRange(k.procs[id].fds, 0);
      if i < 4 {
        PutOk(k.procs, id, i, Some(File(OpenFile(path, buffer, 0, false))));
      }
    }
  }

  lemma CloseFilesKept(k: Kernel, id: nat, fd: nat)
    requires FilesOk(k.procs)
    ensures FilesOk(CloseAt(k, id, fd).k.procs)
  {
    hide FilesOk, Fs.WriteFile, DropRef, PutFd;
    if FdAt(k, id, fd).Some? {
      PutOk(k.procs, id, fd, None);
    }
  }

  lemma Dup2FilesKept(k: Kernel, id: nat, fd: nat, newFd: nat)
    requires FilesOk(k.procs)
    ensures FilesOk(Dup2At(k, id, fd, newFd).k.procs)
  {
    hide FilesOk, FileOk, Fs.WriteFile, DropRef, AddRef, PutFd, CloseAt;
    AtOk(k, id, fd);
    CloseFilesKept(k, id, newFd);
    CloseKeeps(k, id, newFd);
    if fd != newFd && newFd < 4 && FdAt(k, id, fd).Some? {
      var k1 := if FdAt(k, id, newFd).Some? then CloseAt(k, id, newFd).k else k;
      PutOk(k1.procs, id, newFd, FdAt(k, id, fd));
    }
  }

  lemma ProcFilesKept(k: Kernel, c: Call)
    requires FilesOk(k.procs) && RingsOk(k.pipes)
    requires c.Fork? || c.Kill? || c.Reap? || c.Install?
    ensures FilesOk(Do(k, c).k.procs)
  {
    hide AddRefs, FileOk;
  }

  // ---- Writing back ----

  /** The file, if any, that this call writes back to disk: a dirty one that a close or dup2 gives up. */
  function WriteBack(k: Kernel, c: Call): Option<FsAbstract.Op> {
    var x := match c
      case Close(id, fd) => FdAt(k, id, fd)
      case Dup2(id, fd, newFd) => if fd != newFd && newFd < 4 && FdAt(k, id, fd).Some? then FdAt(k, id, newFd) else None
      case _ => None;
    if x.Some? && x.value.File? && x.value.file.dirty then Some(FsAbstract.Write(x.value.file.path, x.value.file.buffer)) else None
  }

  lemma DiskAfter(k: Kernel, c: Call)
    requires RingsOk(k.pipes)
    ensures Do(k, c).k.disk
            == if WriteBack(k, c).Some? then FsAbstract.Apply(k.disk, WriteBack(k, c).value).disk else k.disk
  {
    hide Fs.ReadFile, Fs.WriteFile, AddRef, AddRefs, DropRef, FreeFd, FreePid, FreePipe, PutFd, Contents;
    hide AfterRead, AfterWrite, FileRoom, ReadOpenFile, Taken, Stored;
  }

  /** What is written back is no allocation under exactly 32 directories, or fails. */
  predicate BackOk(k: Kernel, c: Call) {
    WriteBack(k, c).Some? ==>
      FsRefine.Shallow(WriteBack(k, c).value) || FsAbstract.Apply(k.disk, WriteBack(k, c).value).reply.Err?
  }

  /** Exactly which calls keep the disk well formed. */
  lemma DiskKeptIff(k: Kernel, c: Call)
    requires RingsOk(k.pipes) && FsTree.WfDisk(k.disk)
    ensures FsTree.WfDisk(Do(k, c).k.disk) <==> BackOk(k, c)
  {
    hide FsTree.WfDisk, Do, WriteBack, FsAbstract.Apply, FsAbstract.AbsApply, FsRefine.Shallow, FsRefine.NoRoom, FsTree.Tree;
    DiskAfter(k, c);
    if WriteBack(k, c).Some? {
      FsDepth.KeepsInvariantIff(k.disk, WriteBack(k, c).value);
    }
  }

  /** So is every write-back of a run. */
  predicate BacksOk(k: Kernel, cs: seq<Call>)
    decreases |cs|
  {
    cs == [] || !RingsOk(k.pipes) || (BackOk(k, cs[0]) && BacksOk(Do(k, cs[0]).k, cs[1..]))
  }

  /** Over every run of calls by all processes every open file stays within bounds, and the disk stays
      well formed as long as nothing is written back under exactly 32 directories. */
  lemma {:induction false} RunFilesKept(k: Kernel, cs: seq<Call>)
    requires FilesOk(k.procs) && RingsOk(k.pipes) && DescriptorRefs.SlotsHeld(k.pipes) && FsTree.WfDisk(k.disk)
    requires BacksOk(k, cs)
    ensures FilesOk(DescriptorPipes.Run(k, cs).procs) && FsTree.WfDisk(DescriptorPipes.Run(k, cs).disk)
    decreases |cs|
  {
    hide FsTree.WfDisk, FilesOk, RingsOk, DescriptorRefs.SlotsHeld, Do, BackOk;
    if cs != [] {
      FilesKept(k, cs[0]);
      DiskKeptIff(k, cs[0]);
      DescriptorPipes.PipesKept(k, cs[0]);
      RunFilesKept(Do(k, cs[0]).k, cs[1..]);
    }
  }

  /** The disk's part alone: it needs nothing of the open files. */
  lemma {:induction false} RunDiskKept(k: Kernel, cs: seq<Call>)
    requires RingsOk(k.pipes) && DescriptorRefs.SlotsHeld(k.pipes) && FsTree.WfDisk(k.disk) && BacksOk(k, cs)
    ensures FsTree.WfDisk(DescriptorPipes.Run(k, cs).disk)
    decreases |cs|
  {
    hide FsTree.WfDisk, RingsOk, DescriptorRefs.SlotsHeld, Do, BackOk;
    if cs != [] {
      DiskKeptIff(k, cs[0]);
      DescriptorPipes.PipesKept(k, cs[0]);
      RunDiskKept(Do(k, cs[0]).k, cs[1..]);
    }
  }

  // ---- One descriptor over a run of calls ----

  /** The call closes, replaces or moves the cursor of descriptor `fd` of `id` other than by writing. */
  predicate Disturbs(c: Call, id: nat, fd: nat) {
    match c
    case Close(i, f) => i == id && f == fd
    case Dup2(i, _, f) => i == id && f == fd
    case Read(i, f, _) => i == id && f == fd
    case Kill(_, i) => i == id
    case Reap(i) => i == id
    case Install(i) => i == id
    case _ => false
  }

  predicate Writes(c: Call, id: nat, fd: nat) {
    c.Write? && c.id == id && c.fd == fd
  }

  lemma CloseOthers(k: Kernel, id: nat, fd: nat, i: nat, f: nat)
    requires i != id || f != fd
    ensures FdAt(CloseAt(k, i, f).k, id, fd) == FdAt(k, id, fd)
  {
    hide Fs.WriteFile, DropRef;
  }

  /** Calls that do not touch a descriptor leave it naming exactly what it named. */
  lemma Undisturbed(k: Kernel, c: Call, id: nat, fd: nat)
    requires RingsOk(k.pipes) && FdAt(k, id, fd).Some?
    requires !Disturbs(c, id, fd) && !Writes(c, id, fd)
    ensures FdAt(Do(k, c).k, id, fd) == FdAt(k, id, fd)
  {
    hide Fs.WriteFile, Fs.ReadFile, AddRef, DropRef, AddRefs, Contents, AfterRead, AfterWrite, FileRoom, ReadOpenFile, Taken, Stored, Accepted;
    if c.Dup2? {
      CloseOthers(k, id, fd, c.id, c.newFd);
    }
  }

  lemma WriteHits(k: Kernel, id: nat, fd: nat, data: seq<Byte>, f: OpenFile)
    requires RingsOk(k.pipes) && FdAt(k, id, fd) == Some(File(f))
    ensures FdAt(Do(k, Write(id, fd, data)).k, id, fd) == Some(File(AfterWrite(f, data)))
    ensures Do(k, Write(id, fd, data)).reply == Count(FileRoom(f, data))
  {
    hide AfterWrite, FileRoom;
  }

  /** Bytes this call writes to this descriptor. */
  function Gain(k: Kernel, c: Call, id: nat, fd: nat): seq<Byte>
    requires RingsOk(k.pipes)
  {
    if Writes(c, id, fd) && Do(k, c).reply.Count? && Do(k, c).reply.count <= |c.data| then c.data[..Do(k, c).reply.count] else []
  }

  /** Bytes that the writes of the run to this descriptor accepted, in order. */
  function WrittenTo(k: Kernel, cs: seq<Call>, id: nat, fd: nat): seq<Byte>
    decreases |cs|
  {
    if cs == [] || !RingsOk(k.pipes) then []
    else Gain(k, cs[0], id, fd) + WrittenTo(Do(k, cs[0]).k, cs[1..], id, fd)
  }

  predicate Quiet(cs: seq<Call>, id: nat, fd: nat) {
    forall i :: 0 <= i < |cs| ==> !Disturbs(cs[i], id, fd)
  }

  lemma QuietTail(cs: seq<Call>, id: nat, fd: nat)
    requires Quiet(cs, id, fd) && cs != []
    ensures !Disturbs(cs[0], id, fd) && Quiet(cs[1..], id, fd)
  {
    forall i | 0 <= i < |cs[1..]| ensures !Disturbs(cs[1..][i], id, fd) {
      assert cs[1..][i] == cs[i + 1];
    }
  }

  /** A file descriptor whose buffer is `w` over `c` with the cursor after `w`. */
  predicate Overlaid(f: OpenFile, path: Fs.Path, c: seq<Byte>, w: seq<Byte>) {
    && f.path == path
    && f.pos == |w| <= Fs.MAX_FILE_BYTES
    && f.buffer == w + (if |w| <= |c| then c[|w|..] else [])
  }

  lemma OverlayWrite(f: OpenFile, path: Fs.Path, c: seq<Byte>, w: seq<Byte>, data: seq<Byte>)
    requires Overlaid(f, path, c, w)
    ensures Overlaid(AfterWrite(f, data), path, c, w + data[..FileRoom(f, data)])
    ensures AfterWrite(f, data).dirty
  {
    var n := FileRoom(f, data);
    var b := Extended(f.buffer, f.pos + n);
    assert b[..f.pos] == w;
    assert b[f.pos + n..] == if |w| + n <= |c| then c[|w| + n..] else [];
    assert AfterWrite(f, data).buffer == w + data[..n] + b[f.pos + n..];
  }

  /** The state of one descriptor. */
  ghost predicate Holding(k: Kernel, id: nat, fd: nat, path: Fs.Path, c: seq<Byte>, w: seq<Byte>, dirty: bool) {
    var x := FdAt(k, id, fd);
    x.Some? && x.value.File? && Overlaid(x.value.file, path, c, w) && (dirty ==> x.value.file.dirty)
  }

  predicate SomeWrite(cs: seq<Call>, id: nat, fd: nat) {
    exists i :: 0 <= i < |cs| && Writes(cs[i], id, fd)
  }

  lemma SomeWriteTail(cs: seq<Call>, id: nat, fd: nat)
    requires cs != [] && SomeWrite(cs, id, fd)
    ensures Writes(cs[0], id, fd) || SomeWrite(cs[1..], id, fd)
  {
    var i :| 0 <= i < |cs| && Writes(cs[i], id, fd);
    if i > 0 {
      assert cs[1..][i - 1] == cs[i];
    }
  }

  lemma StepHolding(k: Kernel, c: Call, id: nat, fd: nat, path: Fs.Path, old0: seq<Byte>, w: seq<Byte>, dirty: bool)
    requires RingsOk(k.pipes) && Holding(k, id, fd, path, old0, w, dirty) && !Disturbs(c, id, fd)
    ensures Holding(Do(k, c).k, id, fd, path, old0, w + Gain(k, c, id, fd), dirty || Writes(c, id, fd))
  {
    hide Do, AfterWrite, FileRoom, Overlaid, FdAt;
    assert w + [] == w;
    if Writes(c, id, fd) {
      var f := FdAt(k, id, fd).value.file;
      WriteHits(k, id, fd, c.data, f);
      OverlayWrite(f, path, old0, w, c.data);
      RoomBound(f, c.data);
    } else {
      Undisturbed(k, c, id, fd);
    }
  }

  lemma RoomBound(f: OpenFile, data: seq<Byte>)
    ensures FileRoom(f, data) <= |data|
  {
  }

  lemma {:induction false} RunHolding(k: Kernel, cs: seq<Call>, id: nat, fd: nat, path: Fs.Path, c: seq<Byte>, w: seq<Byte>, dirty: bool)
    requires RingsOk(k.pipes) && DescriptorRefs.SlotsHeld(k.pipes)
    requires Holding(k, id, fd, path, c, w, dirty) && Quiet(cs, id, fd)
    ensures Holding(DescriptorPipes.Run(k, cs), id, fd, path, c, w + WrittenTo(k, cs, id, fd), dirty || SomeWrite(cs, id, fd))
    ensures RingsOk(DescriptorPipes.Run(k, cs).pipes)
    decreases |cs|
  {
    hide Do, Gain, Holding, RingsOk, Writes, Quiet, SomeWrite, DescriptorRefs.SlotsHeld;
    if cs == [] {
      assert w + [] == w;
      NoneWritten(id, fd);
    } else {
      var k1 := Do(k, cs[0]).k;
      QuietTail(cs, id, fd);
      DescriptorPipes.PipesKept(k, cs[0]);
      StepHolding(k, cs[0], id, fd, path, c, w, dirty);
      var more := Gain(k, cs[0], id, fd);
      RunHolding(k1, cs[1..], id, fd, path, c, w + more, dirty || Writes(cs[0], id, fd));
      assert (w + more) + WrittenTo(k1, cs[1..], id, fd) == w + (more + WrittenTo(k1, cs[1..], id, fd));
      if SomeWrite(cs, id, fd) {
        SomeWriteTail(cs, id, fd);
      }
      WeakerDirty(DescriptorPipes.Run(k, cs), id, fd, path, c, w + WrittenTo(k, cs, id, fd),
                  dirty || Writes(cs[0], id, fd) || SomeWrite(cs[1..], id, fd), dirty || SomeWrite(cs, id, fd));
    }
  }

  lemma NoneWritten(id: nat, fd: nat)
    ensures !SomeWrite([], id, fd)
  {
  }

  lemma WeakerDirty(k: Kernel, id: nat, fd: nat, path: Fs.Path, c: seq<Byte>, w: seq<Byte>, strong: bool, weak: bool)
    requires Holding(k, id, fd, path, c, w, strong) && (weak ==> strong)
    ensures Holding(k, id, fd, path, c, w, weak)
  {
  }

  lemma OpenedHolding(k: Kernel, id: nat, path: Fs.Path)
    requires OpenAt(k, id, path).reply.Fd?
    ensures var c := if Fs.ReadFile(k.disk, path).Ok? then Fs.ReadFile(k.disk, path).value else [];
            Holding(OpenAt(k, id, path).k, id, OpenAt(k, id, path).reply.fd, path, c, [], false)
  {
    hide Fs.ReadFile, FreeFd;
    FreeRange(k.procs[id].fds, 0);
    var c := if Fs.ReadFile(k.disk, path).Ok? then Fs.ReadFile(k.disk, path).value else [];
    assert [] + c == c;
  }

  lemma ClosedFile(k: Kernel, id: nat, fd: nat, path: Fs.Path, c: seq<Byte>, w: seq<Byte>)
    requires Holding(k, id, fd, path, c, w, true) && CloseAt(k, id, fd).reply == Flag(true)
    ensures var b := w + (if |w| <= |c| then c[|w|..] else []);
            Fs.WriteFile(k.disk, path, b).reply.Ok? && CloseAt(k, id, fd).k.disk == Fs.WriteFile(k.disk, path, b).disk
  {
    hide Fs.WriteFile;
  }

  /** A whole session: open a path that reads as `c`, any calls by anyone, in which this descriptor is
      only written, then a close that succeeds. The accepted bytes `w` lie over `c` on disk, whatever
      else happened to the file meanwhile, and a fresh open sees them. Nothing is asked of the path. */
  lemma Session(k: Kernel, id: nat, path: Fs.Path, cs: seq<Call>)
    requires RingsOk(k.pipes) && DescriptorRefs.SlotsHeld(k.pipes) && FsTree.WfDisk(k.disk)
    requires OpenAt(k, id, path).reply.Fd? && BacksOk(OpenAt(k, id, path).k, cs)
    requires Quiet(cs, id, OpenAt(k, id, path).reply.fd) && SomeWrite(cs, id, OpenAt(k, id, path).reply.fd)
    requires CloseAt(DescriptorPipes.Run(OpenAt(k, id, path).k, cs), id, OpenAt(k, id, path).reply.fd).reply == Flag(true)
    ensures var k1, fd := OpenAt(k, id, path).k, OpenAt(k, id, path).reply.fd;
            var k3 := CloseAt(DescriptorPipes.Run(k1, cs), id, fd).k;
            var c := if Fs.ReadFile(k.disk, path).Ok? then Fs.ReadFile(k.disk, path).value else [];
            var w := WrittenTo(k1, cs, id, fd);
            Fs.ReadFile(k3.disk, path) == Ok(w + (if |w| <= |c| then c[|w|..] else []))
  {
    hide RingsOk, DescriptorRefs.SlotsHeld, OpenAt, CloseAt, Quiet, SomeWrite, FsTree.WfDisk, BacksOk, Holding, Fs.ReadFile, Fs.WriteFile, WrittenTo;
    hide DescriptorPipes.Run;
    var k1, fd := OpenAt(k, id, path).k, OpenAt(k, id, path).reply.fd;
    var c := if Fs.ReadFile(k.disk, path).Ok? then Fs.ReadFile(k.disk, path).value else [];
    var k2 := DescriptorPipes.Run(k1, cs);
    OpenedHolding(k, id, path);
    OpenPipes(k, id, path);
    RunDiskKept(k1, cs);
    RunHolding(k1, cs, id, fd, path, c, [], false);
    var w := WrittenTo(k1, cs, id, fd);
    assert [] + w == w;
    ClosedFile(k2, id, fd, path, c, w);
    var b := w + (if |w| <= |c| then c[|w|..] else []);
    FsDamage.WriteReadsBack(k2.disk, path, b);
  }

  lemma OpenPipes(k: Kernel, id: nat, path: Fs.Path)
    ensures OpenAt(k, id, path).k.pipes == k.pipes && OpenAt(k, id, path).k.disk == k.disk
  {
    hide Fs.ReadFile, FreeFd;
  }
}
