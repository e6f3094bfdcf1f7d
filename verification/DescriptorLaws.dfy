/** What each descriptor call answers, when it fails, and what reads of an open file return. */
module DescriptorLaws {
  import opened Common
  import opened Descriptors
  import opened DescriptorRefs
  import opened DescriptorPipes
  import opened DescriptorFiles
  import Fs = FsSpec
  import FsTree

  // ---- Pipes ----

  /** Every pipe but `p`, every descriptor and the disk are as they were; so are the counts of `p`. */
  predicate OnlyBytes(k: Kernel, k': Kernel, p: nat) {
    && p < 4 && k.pipes[p].Some? && k'.pipes[p].Some?
    && k'.procs == k.procs && k'.disk == k.disk
    && (forall q :: 0 <= q < 4 && q != p ==> k'.pipes[q] == k.pipes[q])
    && k'.pipes[p].value.readOpen == k.pipes[p].value.readOpen
    && k'.pipes[p].value.writeOpen == k.pipes[p].value.writeOpen
  }

  /** A write to a pipe accepts as many bytes as there is room for, answers that number, and appends exactly them. */
  lemma PipeWriteAnswers(k: Kernel, id: nat, fd: nat, data: seq<Byte>, p: nat)
    requires RingsOk(k.pipes) && FdAt(k, id, fd) == Some(PipeWrite(p)) && p < 4 && k.pipes[p].Some?
    ensures |Buffered(k, p)| <= 512
    ensures var n, out := Min(|data|, 512 - |Buffered(k, p)|), Do(k, Write(id, fd, data));
            && out.reply == Count(n) && OnlyBytes(k, out.k, p) && RingsOk(out.k.pipes)
            && Buffered(out.k, p) == Buffered(k, p) + data[..n]
  {
    hide Contents, Fill;
    var q := k.pipes[p].value;
    ContentsSize(q);
    StoreBack(q, data[..Min(|data|, 512 - q.len)]);
  }

  lemma ContentsSize(q: Pipe)
    requires |q.buffer| == PIPE_CAPACITY
    ensures |Contents(q)| == q.len
  {
  }

  /** A read from a pipe returns the oldest bytes, as many as asked for and there are, and takes exactly them. */
  lemma PipeReadAnswers(k: Kernel, id: nat, fd: nat, len: nat, p: nat)
    requires RingsOk(k.pipes) && FdAt(k, id, fd) == Some(PipeRead(p)) && p < 4 && k.pipes[p].Some?
    ensures var n, out := Min(len, |Buffered(k, p)|), Do(k, Read(id, fd, len));
            && out.reply == Bytes(Buffered(k, p)[..n]) && OnlyBytes(k, out.k, p) && RingsOk(out.k.pipes)
            && Buffered(out.k, p) == Buffered(k, p)[n..]
  {
    hide Contents;
    var q := k.pipes[p].value;
    ContentsSize(q);
    TakeFront(q, Min(len, q.len));
  }

  // ---- Files ----

  /** Every descriptor but `fd` of `id`, every pipe and the disk are as they were. */
  ghost predicate OnlyFd(k: Kernel, k': Kernel, id: nat, fd: nat) {
    k'.pipes == k.pipes && k'.disk == k.disk && OthersSame(k, k', id, fd)
  }

  /** A read of a file returns the bytes at the cursor, as many as asked for and there are, and moves the
      cursor past them; nothing else changes. */
  lemma FileReadAnswers(k: Kernel, id: nat, fd: nat, len: nat, f: OpenFile)
    requires RingsOk(k.pipes) && FdAt(k, id, fd) == Some(File(f)) && FileOk(f)
    ensures var out := Do(k, Read(id, fd, len));
            && out.reply.Bytes?
            && var bytes := out.reply.bytes;
               && |bytes| == Min(len, |f.buffer| - f.pos)
               && f.buffer[..f.pos] + bytes == f.buffer[..f.pos + |bytes|]
               && FdAt(out.k, id, fd) == Some(File(f.(pos := f.pos + |bytes|)))
               && OnlyFd(k, out.k, id, fd)
  {
    var n := Min(len, |f.buffer| - f.pos);
    assert ReadOpenFile(f, len) == f.buffer[f.pos..f.pos + n];
  }

  /** A write to a file takes what fits below 4096 bytes, answers that number and moves the cursor past it; each
      byte of the file is then the written one, the old one, or a zero in a gap; nothing else changes. */
  lemma FileWriteAnswers(k: Kernel, id: nat, fd: nat, data: seq<Byte>, f: OpenFile)
    requires RingsOk(k.pipes) && FdAt(k, id, fd) == Some(File(f)) && FileOk(f)
    ensures var n, out := Min(|data|, 4096 - f.pos), Do(k, Write(id, fd, data));
            && out.reply == Count(n) && OnlyFd(k, out.k, id, fd)
            && FdAt(out.k, id, fd).Some? && FdAt(out.k, id, fd).value.File?
            && var g := FdAt(out.k, id, fd).value.file;
               && g.path == f.path && g.pos == f.pos + n && g.dirty
               && |g.buffer| == (if |f.buffer| < f.pos + n then f.pos + n else |f.buffer|)
               && forall i :: 0 <= i < |g.buffer| ==>
                    g.buffer[i] == if f.pos <= i < f.pos + n then data[i - f.pos] else f.buffer[i]
  {
  }

  /** A new descriptor for a file is the lowest free one; it holds the file's bytes, or none, at cursor zero. */
  lemma OpenAnswers(k: Kernel, id: nat, path: Fs.Path)
    requires OpenAt(k, id, path).reply.Fd?
    ensures var k', i := OpenAt(k, id, path).k, OpenAt(k, id, path).reply.fd;
            && i < 4 && FdAt(k, id, i).None? && (forall f: nat :: f < i ==> FdAt(k, id, f).Some?)
            && OnlyFd(k, k', id, i)
            && FdAt(k', id, i).Some? && FdAt(k', id, i).value.File?
            && var f := FdAt(k', id, i).value.file;
               && f.path == path && f.pos == 0 && !f.dirty
               && (Fs.ReadFile(k.disk, path) == Ok(f.buffer) || (Fs.ReadFile(k.disk, path).Err? && f.buffer == []))
  {
    hide Fs.ReadFile;
  }

  /** Closing gives up exactly that descriptor. A file that was not written, or a pipe end, leaves the disk;
      a written file goes to disk as it stands, and the answer says whether that succeeded. */
  lemma CloseAnswers(k: Kernel, id: nat, fd: nat)
    requires FdAt(k, id, fd).Some?
    ensures var x, out := FdAt(k, id, fd).value, CloseAt(k, id, fd);
            && FdAt(out.k, id, fd).None? && OthersSame(k, out.k, id, fd)
            && (x.File? ==> out.k.pipes == k.pipes)
            && (if x.File? && x.file.dirty
                then var w := Fs.WriteFile(k.disk, x.file.path, x.file.buffer); out.k.disk == w.disk && out.reply == Flag(w.reply.Ok?)
                else out.k.disk == k.disk && out.reply == Flag(true))
  {
    hide Fs.WriteFile, DropRef;
  }

  // ---- When calls fail ----

  predicate FullFds(k: Kernel, id: nat) {
    forall f :: 0 <= f < 4 ==> FdAt(k, id, f).Some?
  }

  predicate TwoFreeFds(k: Kernel, id: nat) {
    exists f, g :: 0 <= f < g < 4 && FdAt(k, id, f).None? && FdAt(k, id, g).None?
  }

  /** A read fails exactly on a descriptor that is not open or is a write end, and then changes nothing. */
  lemma ReadFailsIff(k: Kernel, id: nat, fd: nat, len: nat)
    requires Inv(k)
    ensures RingsOk(k.pipes)
    ensures Do(k, Read(id, fd, len)).reply == Fail <==> FdAt(k, id, fd).None? || FdAt(k, id, fd).value.PipeWrite?
    ensures Do(k, Read(id, fd, len)).reply == Fail ==> Do(k, Read(id, fd, len)).k == k
  {
    hide CountsCover, Contents, Taken, ReadOpenFile, AfterRead;
    LiveEnds(k, id, fd);
  }

  lemma WriteFailsIff(k: Kernel, id: nat, fd: nat, data: seq<Byte>)
    requires Inv(k)
    ensures RingsOk(k.pipes)
    ensures Do(k, Write(id, fd, data)).reply == Fail <==> FdAt(k, id, fd).None? || FdAt(k, id, fd).value.PipeRead?
    ensures Do(k, Write(id, fd, data)).reply == Fail ==> Do(k, Write(id, fd, data)).k == k
  {
    hide CountsCover, Contents, Stored, AfterWrite, FileRoom;
    LiveEnds(k, id, fd);
  }

  lemma LiveEnds(k: Kernel, id: nat, fd: nat)
    requires Inv(k)
    ensures FdAt(k, id, fd).Some? && IsEnd(FdAt(k, id, fd).value) ==> Live(k.pipes, FdAt(k, id, fd).value)
  {
    hide Inv, Live;
    if FdAt(k, id, fd).Some? && IsEnd(FdAt(k, id, fd).value) {
      NoDangling(k, id, fd);
    }
  }

  /** An open fails exactly without such a process or a free descriptor, and then changes nothing. */
  lemma OpenFailsIff(k: Kernel, id: nat, path: Fs.Path)
    ensures OpenAt(k, id, path).reply == Fail <==> id !in k.procs || FullFds(k, id)
    ensures OpenAt(k, id, path).reply == Fail ==> OpenAt(k, id, path).k == k
  {
    hide Fs.ReadFile;
    if id in k.procs {
      FreeMeans(k, id, 0);
    }
  }

  lemma FreeMeans(k: Kernel, id: nat, i: nat)
    requires id in k.procs && i <= 4
    ensures var j := FreeFd(k.procs[id].fds, i);
            && i <= j <= 4 && (j < 4 ==> FdAt(k, id, j).None?) && (forall f: nat :: i <= f < j ==> FdAt(k, id, f).Some?)
  {
  }

  /** A pipe is made exactly when a pipe slot and two descriptors are free. */
  lemma PipeFailsIff(k: Kernel, id: nat)
    requires id in k.procs
    ensures CreatePipe(k, id).reply == Fail <==> (forall p :: 0 <= p < 4 ==> k.pipes[p].Some?) || !TwoFreeFds(k, id)
    ensures CreatePipe(k, id).reply == Fail ==> CreatePipe(k, id).k == k
  {
    hide FreeFd, NewPipe;
    FreeMeans(k, id, 0);
    var r := FreeFd(k.procs[id].fds, 0);
    if r < 4 {
      FreeMeans(k, id, r + 1);
      var w := FreeFd(k.procs[id].fds, r + 1);
      if w < 4 {
        assert FdAt(k, id, r).None? && FdAt(k, id, w).None?;
      }
    }
  }

  /** A close fails exactly on a descriptor that is not open, and then changes nothing. */
  lemma CloseFailsIff(k: Kernel, id: nat, fd: nat)
    ensures CloseAt(k, id, fd).reply == Fail <==> FdAt(k, id, fd).None?
    ensures CloseAt(k, id, fd).reply == Fail ==> CloseAt(k, id, fd).k == k
  {
    hide Fs.WriteFile, DropRef;
  }

  /** A dup fails exactly on a descriptor that is not open or in a full table. */
  lemma DupFailsIff(k: Kernel, id: nat, fd: nat)
    ensures DupAt(k, id, fd).reply == Fail <==> FdAt(k, id, fd).None? || FullFds(k, id)
    ensures DupAt(k, id, fd).reply == Fail ==> DupAt(k, id, fd).k.procs == k.procs && DupAt(k, id, fd).k.disk == k.disk
  {
    hide AddRef, FreeFd;
    if id in k.procs {
      FreeMeans(k, id, 0);
    }
  }

  /** A dup2 fails exactly on a descriptor that is not open or a target that is none, and then changes nothing;
      onto itself it changes nothing either. */
  lemma Dup2FailsIff(k: Kernel, id: nat, fd: nat, newFd: nat)
    ensures Dup2At(k, id, fd, newFd).reply == (if FdAt(k, id, fd).None? || newFd >= 4 then Fail else Flag(true))
    ensures Dup2At(k, id, fd, newFd).reply == Fail || fd == newFd ==> Dup2At(k, id, fd, newFd).k == k
  {
    hide AddRef, CloseAt;
    CloseKeeps(k, id, newFd);
  }

  /** A fork fails exactly when it is not allowed, there is no such process, or the process table is full. */
  lemma ForkFailsIff(k: Kernel, id: nat, allowed: bool)
    ensures ForkAt(k, id, allowed).reply == Fail
            <==> !allowed || id !in k.procs || forall pid :: PID_TABLE_BASE <= pid < PID_LIMIT ==> pid in k.procs
    ensures ForkAt(k, id, allowed).reply == Fail ==> ForkAt(k, id, allowed).k.procs == k.procs && ForkAt(k, id, allowed).k.disk == k.disk
  {
    hide AddRefs;
  }

  /** A kill removes exactly an own child of the caller, and otherwise answers no and changes nothing. */
  lemma KillAnswers(k: Kernel, id: nat, target: nat)
    ensures var own := PID_TABLE_BASE <= target < PID_LIMIT && target in k.procs && k.procs[target].parent == Some(id);
            && KillAt(k, id, target).reply == Flag(own)
            && (forall i: nat :: i in KillAt(k, id, target).k.procs <==> i in k.procs && !(own && i == target))
            && (forall i: nat, f: nat :: !(own && i == target) ==> FdAt(KillAt(k, id, target).k, i, f) == FdAt(k, i, f))
            && KillAt(k, id, target).k.pipes == k.pipes && KillAt(k, id, target).k.disk == k.disk
  {
  }

  /** Reaping empties a table slot, installing gives a static slot a process without descriptors; ids outside those
      are refused; no other process, pipe or file is touched. */
  lemma ReapInstallAnswer(k: Kernel, id: nat)
    ensures ReapAt(k, id).reply == Flag(10 <= id < 14) && InstallAt(k, id).reply == Flag(1 <= id <= 7)
    ensures ReapAt(k, id).k == if 10 <= id < 14 then k.(procs := k.procs - {id}) else k
    ensures InstallAt(k, id).k == if 1 <= id <= 7 then k.(procs := k.procs[id := Proc([None, None, None, None], None)]) else k
  {
  }

  // ---- Reading a file from the start ----

  /** The call closes, replaces or writes descriptor `fd` of `id`. */
  predicate Spoils(c: Call, id: nat, fd: nat) {
    match c
    case Close(i, f) => i == id && f == fd
    case Dup2(i, _, f) => i == id && f == fd
    case Write(i, f, _) => i == id && f == fd
    case Kill(_, i) => i == id
    case Reap(i) => i == id
    case Install(i) => i == id
    case _ => false
  }

  predicate OnlyRead(cs: seq<Call>, id: nat, fd: nat) {
    forall i :: 0 <= i < |cs| ==> !Spoils(cs[i], id, fd)
  }

  lemma OnlyReadTail(cs: seq<Call>, id: nat, fd: nat)
    requires OnlyRead(cs, id, fd) && cs != []
    ensures !Spoils(cs[0], id, fd) && OnlyRead(cs[1..], id, fd)
  {
    forall i | 0 <= i < |cs[1..]| ensures !Spoils(cs[1..][i], id, fd) {
      assert cs[1..][i] == cs[i + 1];
    }
  }

  predicate Reads(c: Call, id: nat, fd: nat) {
    c.Read? && c.id == id && c.fd == fd
  }

  /** Bytes this call returns from this descriptor. */
  function Returned(k: Kernel, c: Call, id: nat, fd: nat): seq<Byte>
    requires RingsOk(k.pipes)
  {
    if Reads(c, id, fd) && Do(k, c).reply.Bytes? then Do(k, c).reply.bytes else []
  }

  /** All bytes the reads of the run return from this descriptor, in order. */
  function ReadFrom(k: Kernel, cs: seq<Call>, id: nat, fd: nat): seq<Byte>
    decreases |cs|
  {
    if cs == [] || !RingsOk(k.pipes) then []
    else Returned(k, cs[0], id, fd) + ReadFrom(Do(k, cs[0]).k, cs[1..], id, fd)
  }

  function AskedBy(c: Call, id: nat, fd: nat): nat {
    if Reads(c, id, fd) then c.len else 0
  }

  /** How many bytes the reads of the run ask for. */
  function Asked(cs: seq<Call>, id: nat, fd: nat): nat {
    if cs == [] then 0 else AskedBy(cs[0], id, fd) + Asked(cs[1..], id, fd)
  }

  ghost predicate AtCursor(k: Kernel, id: nat, fd: nat, buffer: seq<Byte>, pos: nat) {
    var x := FdAt(k, id, fd);
    x.Some? && x.value.File? && x.value.file.buffer == buffer && x.value.file.pos == pos && FileOk(x.value.file)
  }

  lemma ReadStep(k: Kernel, c: Call, id: nat, fd: nat, buffer: seq<Byte>, pos: nat)
    requires RingsOk(k.pipes) && AtCursor(k, id, fd, buffer, pos) && !Spoils(c, id, fd)
    ensures pos <= |buffer|
    ensures var n := Min(AskedBy(c, id, fd), |buffer| - pos);
            Returned(k, c, id, fd) == buffer[pos..pos + n] && AtCursor(Do(k, c).k, id, fd, buffer, pos + n)
  {
    hide Do, FdAt;
    var f := FdAt(k, id, fd).value.file;
    if Reads(c, id, fd) {
      FileReadAnswers(k, id, fd, c.len, f);
      var bytes := Do(k, c).reply.bytes;
      assert bytes == f.buffer[..pos + |bytes|][pos..];
    } else {
      Undisturbed(k, c, id, fd);
    }
  }

  /** Whatever anyone calls, the reads of one open file return its bytes from the cursor on, none twice and none
      left out: together as many as they ask for and there are. */
  lemma {:induction false} ReadsInOrder(k: Kernel, cs: seq<Call>, id: nat, fd: nat, buffer: seq<Byte>, pos: nat)
    requires RingsOk(k.pipes) && SlotsHeld(k.pipes) && AtCursor(k, id, fd, buffer, pos) && OnlyRead(cs, id, fd)
    ensures pos <= |buffer|
    ensures var n := Min(Asked(cs, id, fd), |buffer| - pos);
            ReadFrom(k, cs, id, fd) == buffer[pos..pos + n] && AtCursor(Run(k, cs), id, fd, buffer, pos + n)
    decreases |cs|
  {
    hide Do, Returned, AtCursor, RingsOk, SlotsHeld, AskedBy, OnlyRead;
    CursorIn(k, id, fd, buffer, pos);
    if cs != [] {
      OnlyReadTail(cs, id, fd);
      ReadStep(k, cs[0], id, fd, buffer, pos);
      PipesKept(k, cs[0]);
      var n := Min(AskedBy(cs[0], id, fd), |buffer| - pos);
      var rest := Min(Asked(cs[1..], id, fd), |buffer| - (pos + n));
      ReadsInOrder(Do(k, cs[0]).k, cs[1..], id, fd, buffer, pos + n);
      assert buffer[pos..pos + n] + buffer[pos + n..pos + n + rest] == buffer[pos..pos + n + rest];
    }
  }

  lemma CursorIn(k: Kernel, id: nat, fd: nat, buffer: seq<Byte>, pos: nat)
    requires AtCursor(k, id, fd, buffer, pos)
    ensures pos <= |buffer|
  {
  }

  lemma {:induction false} RunPipes(k: Kernel, cs: seq<Call>)
    requires RingsOk(k.pipes) && SlotsHeld(k.pipes)
    ensures RingsOk(Run(k, cs).pipes) && SlotsHeld(Run(k, cs).pipes)
    decreases |cs|
  {
    hide Do, RingsOk, SlotsHeld;
    if cs != [] {
      PipesKept(k, cs[0]);
      RunPipes(Do(k, cs[0]).k, cs[1..]);
    }
  }

  lemma FreshCursor(k: Kernel, id: nat, path: Fs.Path)
    requires OpenAt(k, id, path).reply.Fd? && Fs.ReadFile(k.disk, path).Ok?
    requires |Fs.ReadFile(k.disk, path).value| <= Fs.MAX_FILE_BYTES
    ensures AtCursor(OpenAt(k, id, path).k, id, OpenAt(k, id, path).reply.fd, Fs.ReadFile(k.disk, path).value, 0)
  {
    hide Fs.ReadFile, FdAt, OpenAt;
    OpenAnswers(k, id, path);
  }

  /** A file of a well-formed disk, opened and then read in any pieces while anyone calls anything else, is
      returned from its first byte on. */
  lemma OpenThenRead(k: Kernel, id: nat, path: Fs.Path, cs: seq<Call>)
    requires RingsOk(k.pipes) && SlotsHeld(k.pipes) && FsTree.WfDisk(k.disk)
    requires OpenAt(k, id, path).reply.Fd? && Fs.ReadFile(k.disk, path).Ok?
    requires OnlyRead(cs, id, OpenAt(k, id, path).reply.fd)
    ensures var fd, c := OpenAt(k, id, path).reply.fd, Fs.ReadFile(k.disk, path).value;
            ReadFrom(OpenAt(k, id, path).k, cs, id, fd) == c[..Min(Asked(cs, id, fd), |c|)]
  {
    hide RingsOk, SlotsHeld, OpenAt, AtCursor, OnlyRead, ReadFrom, Asked, Run, FsTree.WfDisk, Fs.ReadFile;
    FileSize(k.disk, path);
    FreshCursor(k, id, path);
    OpenPipes(k, id, path);
    ReadsInOrder(OpenAt(k, id, path).k, cs, id, OpenAt(k, id, path).reply.fd, Fs.ReadFile(k.disk, path).value, 0);
  }

  /** The end of a session, seen by the next reader: after the writer's close, a fresh open by anyone, read in any
      pieces, returns the accepted bytes over the old contents, from the first byte on. */
  lemma SessionThenReads(k: Kernel, id: nat, path: Fs.Path, cs: seq<Call>, reader: nat, later: seq<Call>)
    requires RingsOk(k.pipes) && SlotsHeld(k.pipes) && FsTree.WfDisk(k.disk)
    requires OpenAt(k, id, path).reply.Fd? && BacksOk(OpenAt(k, id, path).k, cs)
    requires Quiet(cs, id, OpenAt(k, id, path).reply.fd) && SomeWrite(cs, id, OpenAt(k, id, path).reply.fd)
    requires CloseAt(Run(OpenAt(k, id, path).k, cs), id, OpenAt(k, id, path).reply.fd).reply == Flag(true)
    requires var k3 := CloseAt(Run(OpenAt(k, id, path).k, cs), id, OpenAt(k, id, path).reply.fd).k;
             OpenAt(k3, reader, path).reply.Fd? && OnlyRead(later, reader, OpenAt(k3, reader, path).reply.fd)
    ensures var k1, fd := OpenAt(k, id, path).k, OpenAt(k, id, path).reply.fd;
            var k3 := CloseAt(Run(k1, cs), id, fd).k;
            var k4, fd4 := OpenAt(k3, reader, path).k, OpenAt(k3, reader, path).reply.fd;
            var c := if Fs.ReadFile(k.disk, path).Ok? then Fs.ReadFile(k.disk, path).value else [];
            var w := WrittenTo(k1, cs, id, fd);
            var now := w + (if |w| <= |c| then c[|w|..] else []);
            ReadFrom(k4, later, reader, fd4) == now[..Min(Asked(later, reader, fd4), |now|)]
  {
    hide RingsOk, SlotsHeld, OpenAt, CloseAt, Quiet, SomeWrite, BacksOk, AtCursor, OnlyRead, ReadFrom, Asked, Run, WrittenTo;
    hide FsTree.WfDisk, Fs.ReadFile;
    var k1, fd := OpenAt(k, id, path).k, OpenAt(k, id, path).reply.fd;
    var k2 := Run(k1, cs);
    var k3 := CloseAt(k2, id, fd).k;
    Session(k, id, path, cs);
    SessionSize(k, id, path, cs);
    OpenPipes(k, id, path);
    RunPipes(k1, cs);
    ClosePipes(k2, id, fd);
    OpenPipes(k3, reader, path);
    FreshCursor(k3, reader, path);
    ReadsInOrder(OpenAt(k3, reader, path).k, later, reader, OpenAt(k3, reader, path).reply.fd, Fs.ReadFile(k3.disk, path).value, 0);
  }

  lemma ClosePipes(k: Kernel, id: nat, fd: nat)
    requires RingsOk(k.pipes) && SlotsHeld(k.pipes)
    ensures RingsOk(CloseAt(k, id, fd).k.pipes) && SlotsHeld(CloseAt(k, id, fd).k.pipes)
  {
    hide RingsOk, SlotsHeld, CloseAt;
    PipesKept(k, Close(id, fd));
  }

  /** What a session leaves is at most 4096 bytes. */
  lemma SessionSize(k: Kernel, id: nat, path: Fs.Path, cs: seq<Call>)
    requires RingsOk(k.pipes) && SlotsHeld(k.pipes) && FsTree.WfDisk(k.disk)
    requires OpenAt(k, id, path).reply.Fd? && Quiet(cs, id, OpenAt(k, id, path).reply.fd)
    ensures var c := if Fs.ReadFile(k.disk, path).Ok? then Fs.ReadFile(k.disk, path).value else [];
            var w := WrittenTo(OpenAt(k, id, path).k, cs, id, OpenAt(k, id, path).reply.fd);
            |w + (if |w| <= |c| then c[|w|..] else [])| <= Fs.MAX_FILE_BYTES
  {
    hide RingsOk, SlotsHeld, OpenAt, Quiet, SomeWrite, Holding, Run, WrittenTo, FsTree.WfDisk, Fs.ReadFile;
    var k1, fd := OpenAt(k, id, path).k, OpenAt(k, id, path).reply.fd;
    var c := if Fs.ReadFile(k.disk, path).Ok? then Fs.ReadFile(k.disk, path).value else [];
    if Fs.ReadFile(k.disk, path).Ok? {
      FileSize(k.disk, path);
    }
    OpenedHolding(k, id, path);
    OpenPipes(k, id, path);
    RunHolding(k1, cs, id, fd, path, c, [], false);
    var w := WrittenTo(k1, cs, id, fd);
    assert [] + w == w;
    HeldSize(Run(k1, cs), id, fd, path, c, w, SomeWrite(cs, id, fd));
  }

  lemma HeldSize(k: Kernel, id: nat, fd: nat, path: Fs.Path, c: seq<Byte>, w: seq<Byte>, dirty: bool)
    requires Holding(k, id, fd, path, c, w, dirty)
    ensures |w| <= Fs.MAX_FILE_BYTES
  {
  }
}
