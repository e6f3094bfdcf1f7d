/** Open files, pipes and the processes that hold them, as one kernel state and the calls on it
    (kernel/src/process.rs). */
module Descriptors {
  import opened Common
  import Fs = FsSpec

  const PIPE_CAPACITY := 512
  const MAX_COUNT := 0xFFFF_FFFF

  datatype OpenFile = OpenFile(path: Fs.Path, buffer: seq<Byte>, pos: nat, dirty: bool)

  datatype FdEntry = File(file: OpenFile) | PipeRead(pipe: nat) | PipeWrite(pipe: nat)

  type FdTable = fds: seq<Option<FdEntry>> | |fds| == 4 witness [None, None, None, None]

  datatype Pipe = Pipe(
    buffer: seq<Byte>,
    readPos: nat,
    writePos: nat,
    len: nat,
    readOpen: U32,
    writeOpen: U32)

  type PipeTable = t: seq<Option<Pipe>> | |t| == 4 witness [None, None, None, None]

  datatype Proc = Proc(fds: FdTable, parent: Option<nat>)

  /** Everything a descriptor call can touch. */
  datatype Kernel = Kernel(disk: Fs.Disk, procs: map<nat, Proc>, pipes: PipeTable)

  datatype Call =
    | PipeNew(id: nat)
    | Open(id: nat, path: Fs.Path)
    | Read(id: nat, fd: nat, len: nat)
    | Write(id: nat, fd: nat, data: seq<Byte>)
    | Close(id: nat, fd: nat)
    | Dup(id: nat, fd: nat)
    | Dup2(id: nat, fd: nat, newFd: nat)
    | Fork(id: nat, allowed: bool)
    | Kill(id: nat, target: nat)
    | Reap(pid: nat)
    | Install(id: nat)

  datatype Reply =
    | Fail
    | Fd(fd: nat)
    | FdPair(readFd: nat, writeFd: nat)
    | Bytes(bytes: seq<Byte>)
    | Count(count: nat)
    | Flag(flag: bool)

  datatype Outcome = Outcome(k: Kernel, reply: Reply)

  const NO_FDS: FdTable := [None, None, None, None]

  /** Ids a static slot (1 to 7) or a process table slot (10 to 13) can have. */
  predicate IsPid(id: nat) {
    1 <= id <= 7 || PID_TABLE_BASE <= id < PID_LIMIT
  }

  // ---- Fd tables ----

  /** First free slot at or after `i`, or 4. */
  function FreeFd(fds: FdTable, i: nat): (j: nat)
    requires i <= 4
    decreases 4 - i
    ensures i <= j <= 4
    ensures j < 4 ==> fds[j].None?
    ensures forall m :: i <= m < j ==> fds[m].Some?
  {
    if i == 4 || fds[i].None? then i else FreeFd(fds, i + 1)
  }

  /** What `fd` names for process `id`. */
  function FdAt(k: Kernel, id: nat, fd: nat): Option<FdEntry> {
    if id in k.procs && fd < 4 then k.procs[id].fds[fd] else None
  }

  function PutFd(procs: map<nat, Proc>, id: nat, fd: nat, x: Option<FdEntry>): map<nat, Proc>
    requires id in procs && fd < 4
  {
    procs[id := procs[id].(fds := procs[id].fds[fd := x])]
  }

  // ---- Pipes ----

  function ZeroBuffer(): seq<Byte> {
    Zeros(PIPE_CAPACITY)
  }

  function NewPipe(): Pipe {
    Pipe(ZeroBuffer(), 0, 0, 0, 1, 1)
  }

  function FreePipe(t: PipeTable, i: nat): (j: nat)
    requires i <= 4
    decreases 4 - i
    ensures i <= j <= 4
    ensures j < 4 ==> t[j].None?
    ensures forall m :: i <= m < j ==> t[m].Some?
  {
    if i == 4 || t[i].None? then i else FreePipe(t, i + 1)
  }

  function SatAdd(x: U32): U32 {
    if x == MAX_COUNT then x else x + 1
  }

  function SatSub(x: U32): U32 {
    if x == 0 then x else x - 1
  }

  predicate IsEnd(e: FdEntry) {
    !e.File?
  }

  predicate Live(t: PipeTable, e: FdEntry) {
    IsEnd(e) && e.pipe < 4 && t[e.pipe].Some?
  }

  /** One more holder of end `e`; a file or a freed pipe counts nothing. */
  function AddRef(t: PipeTable, e: FdEntry): PipeTable {
    if !Live(t, e) then t
    else
      var p := t[e.pipe].value;
      t[e.pipe := Some(if e.PipeRead? then p.(readOpen := SatAdd(p.readOpen)) else p.(writeOpen := SatAdd(p.writeOpen)))]
  }

  /** One holder of end `e` less; the slot is freed when both counts reach zero. */
  function DropRef(t: PipeTable, e: FdEntry): PipeTable {
    if !Live(t, e) then t
    else
      var p := t[e.pipe].value;
      var q := if e.PipeRead? then p.(readOpen := SatSub(p.readOpen)) else p.(writeOpen := SatSub(p.writeOpen));
      t[e.pipe := if q.readOpen == 0 && q.writeOpen == 0 then None else Some(q)]
  }

  function AddRefs(t: PipeTable, fds: FdTable, i: nat): PipeTable
    requires i <= 4
    decreases 4 - i
  {
    if i == 4 then t
    else AddRefs(if fds[i].Some? then AddRef(t, fds[i].value) else t, fds, i + 1)
  }

  /** The buffered bytes, oldest first. */
  function Contents(p: Pipe): seq<Byte>
    requires |p.buffer| == PIPE_CAPACITY
  {
    seq(p.len, i requires 0 <= i => p.buffer[(p.readPos + i) % PIPE_CAPACITY])
  }

  /** The ring buffer after bytes `i..` of `data` are stored from `writePos` on. */
  function Fill(buffer: seq<Byte>, writePos: nat, data: seq<Byte>, i: nat): (b: seq<Byte>)
    requires |buffer| == PIPE_CAPACITY && i <= |data|
    ensures |b| == PIPE_CAPACITY
    decreases |data| - i
  {
    if i == |data| then buffer else Fill(buffer[(writePos + i) % PIPE_CAPACITY := data[i]], writePos, data, i + 1)
  }

  function Accepted(p: Pipe, data: seq<Byte>): seq<Byte>
    requires p.len <= PIPE_CAPACITY
  {
    data[..Min(|data|, PIPE_CAPACITY - p.len)]
  }

  predicate RingOk(p: Pipe) {
    && |p.buffer| == PIPE_CAPACITY
    && p.len <= PIPE_CAPACITY
    && p.readPos < PIPE_CAPACITY
    && p.writePos == (p.readPos + p.len) % PIPE_CAPACITY
  }

  predicate RingsOk(t: PipeTable) {
    forall p :: 0 <= p < 4 && t[p].Some? ==> RingOk(t[p].value)
  }

  /** `n` bytes taken from the front of the ring. */
  function Taken(p: Pipe, n: nat): Pipe
    requires n <= p.len
  {
    p.(readPos := (p.readPos + n) % PIPE_CAPACITY, len := p.len - n)
  }

  /** `data` appended at the back of the ring. */
  function Stored(p: Pipe, data: seq<Byte>): Pipe
    requires |p.buffer| == PIPE_CAPACITY
  {
    p.(buffer := Fill(p.buffer, p.writePos, data, 0),
       writePos := (p.writePos + |data|) % PIPE_CAPACITY,
       len := p.len + |data|)
  }

  // ---- Calls ----

  function CreatePipe(k: Kernel, id: nat): Outcome {
    var j := FreePipe(k.pipes, 0);
    if j == 4 then Outcome(k, Fail)
    else if id !in k.procs then Outcome(k.(pipes := k.pipes[j := Some(NewPipe())]), Fail)
    else
      var r := FreeFd(k.procs[id].fds, 0);
      if r == 4 then Outcome(k, Fail)
      else
        var w := FreeFd(k.procs[id].fds, r + 1);
        if w == 4 then Outcome(k, Fail)
        else
          Outcome(Kernel(k.disk,
                         PutFd(PutFd(k.procs, id, r, Some(PipeRead(j))), id, w, Some(PipeWrite(j))),
                         k.pipes[j := Some(NewPipe())]),
                  FdPair(r, w))
  }

  function OpenAt(k: Kernel, id: nat, path: Fs.Path): Outcome {
    var data := Fs.ReadFile(k.disk, path);
    var buffer := if data.Ok? then data.value else [];
    if id !in k.procs then Outcome(k, Fail)
    else
      var i := FreeFd(k.procs[id].fds, 0);
      if i == 4 then Outcome(k, Fail)
      else Outcome(k.(procs := PutFd(k.procs, id, i, Some(File(OpenFile(path, buffer, 0, false))))), Fd(i))
  }

  function ReadOpenFile(f: OpenFile, len: nat): seq<Byte> {
    var start := Min(f.pos, |f.buffer|);
    f.buffer[start..Min(start + len, |f.buffer|)]
  }

  function AfterRead(f: OpenFile, len: nat): OpenFile {
    f.(pos := Min(Min(f.pos, |f.buffer|) + len, |f.buffer|))
  }

  function ReadAt(k: Kernel, id: nat, fd: nat, len: nat): Outcome
    requires RingsOk(k.pipes)
  {
    match FdAt(k, id, fd)
    case Some(PipeRead(p)) =>
      if p < 4 && k.pipes[p].Some? then
        var q := k.pipes[p].value;
        var n := Min(len, q.len);
        Outcome(k.(pipes := k.pipes[p := Some(Taken(q, n))]), Bytes(Contents(q)[..n]))
      else Outcome(k, Fail)
    case Some(File(f)) =>
      Outcome(k.(procs := PutFd(k.procs, id, fd, Some(File(AfterRead(f, len))))), Bytes(ReadOpenFile(f, len)))
    case _ => Outcome(k, Fail)
  }

  /** How much of `data` a file descriptor takes: never past 4096 bytes. */
  function FileRoom(f: OpenFile, data: seq<Byte>): nat {
    Min(|data|, if f.pos <= Fs.MAX_FILE_BYTES then Fs.MAX_FILE_BYTES - f.pos else 0)
  }

  function Extended(b: seq<Byte>, n: nat): (r: seq<Byte>)
    ensures |r| >= n && |r| >= |b|
  {
    if |b| < n then b + Zeros(n - |b|) else b
  }

  function AfterWrite(f: OpenFile, data: seq<Byte>): OpenFile {
    var n := FileRoom(f, data);
    var b := Extended(f.buffer, f.pos + n);
    f.(buffer := b[..f.pos] + data[..n] + b[f.pos + n..], pos := f.pos + n, dirty := true)
  }

  function WriteAt(k: Kernel, id: nat, fd: nat, data: seq<Byte>): Outcome
    requires RingsOk(k.pipes)
  {
    match FdAt(k, id, fd)
    case Some(PipeWrite(p)) =>
      if p < 4 && k.pipes[p].Some? then
        var q := k.pipes[p].value;
        var taken := Accepted(q, data);
        Outcome(k.(pipes := k.pipes[p := Some(Stored(q, taken))]), Count(|taken|))
      else Outcome(k, Fail)
    case Some(File(f)) =>
      Outcome(k.(procs := PutFd(k.procs, id, fd, Some(File(AfterWrite(f, data))))), Count(FileRoom(f, data)))
    case _ => Outcome(k, Fail)
  }

  function CloseAt(k: Kernel, id: nat, fd: nat): Outcome {
    match FdAt(k, id, fd)
    case None => Outcome(k, Fail)
    case Some(File(f)) =>
      var procs := PutFd(k.procs, id, fd, None);
      if !f.dirty then Outcome(k.(procs := procs), Flag(true))
      else
        var out := Fs.WriteFile(k.disk, f.path, f.buffer);
        Outcome(Kernel(out.disk, procs, k.pipes), Flag(out.reply.Ok?))
    case Some(e) =>
      Outcome(Kernel(k.disk, PutFd(k.procs, id, fd, None), DropRef(k.pipes, e)), Flag(true))
  }

  function DupAt(k: Kernel, id: nat, fd: nat): Outcome {
    match FdAt(k, id, fd)
    case None => Outcome(k, Fail)
    case Some(e) =>
      var pipes := AddRef(k.pipes, e);
      var i := FreeFd(k.procs[id].fds, 0);
      if i == 4 then Outcome(k.(pipes := pipes), Fail)
      else Outcome(Kernel(k.disk, PutFd(k.procs, id, i, Some(e)), pipes), Fd(i))
  }

  function Dup2At(k: Kernel, id: nat, fd: nat, newFd: nat): Outcome {
    if fd == newFd then Outcome(k, if FdAt(k, id, fd).Some? then Flag(true) else Fail)
    else if newFd >= 4 then Outcome(k, Fail)
    else
      match FdAt(k, id, fd)
      case None => Outcome(k, Fail)
      case Some(e) =>
        var k1 := if FdAt(k, id, newFd).Some? then CloseAt(k, id, newFd).k else k;
        CloseKeeps(k, id, newFd);
        Outcome(Kernel(k1.disk, PutFd(k1.procs, id, newFd, Some(e)), AddRef(k1.pipes, e)), Flag(true))
  }

  lemma CloseKeeps(k: Kernel, id: nat, fd: nat)
    ensures CloseAt(k, id, fd).k.procs.Keys == k.procs.Keys
  {
  }

  /** `allowed` is false inside a child's own run and when building the address space fails. */
  function ForkAt(k: Kernel, id: nat, allowed: bool): Outcome {
    if !allowed || id !in k.procs then Outcome(k, Fail)
    else
      var fds := k.procs[id].fds;
      var pipes := AddRefs(k.pipes, fds, 0);
      var pid := FreePid(k.procs, PID_TABLE_BASE);
      if pid == PID_LIMIT then Outcome(k.(pipes := pipes), Fail)
      else Outcome(Kernel(k.disk, k.procs[pid := Proc(fds, Some(id))], pipes), Fd(pid))
  }

  function KillAt(k: Kernel, id: nat, target: nat): Outcome {
    if PID_TABLE_BASE <= target < PID_LIMIT && target in k.procs && k.procs[target].parent == Some(id)
    then Outcome(k.(procs := k.procs - {target}), Flag(true))
    else Outcome(k, Flag(false))
  }

  function ReapAt(k: Kernel, pid: nat): Outcome {
    if PID_TABLE_BASE <= pid < PID_LIMIT then Outcome(k.(procs := k.procs - {pid}), Flag(true)) else Outcome(k, Flag(false))
  }

  /** A fresh process in one of the seven static slots, replacing what was there. */
  function InstallAt(k: Kernel, id: nat): Outcome {
    if 1 <= id <= 7 then Outcome(k.(procs := k.procs[id := Proc(NO_FDS, None)]), Flag(true)) else Outcome(k, Flag(false))
  }

  function Do(k: Kernel, c: Call): Outcome
    requires RingsOk(k.pipes)
  {
    match c
    case PipeNew(id) => CreatePipe(k, id)
    case Open(id, path) => OpenAt(k, id, path)
    case Read(id, fd, len) => ReadAt(k, id, fd, len)
    case Write(id, fd, data) => WriteAt(k, id, fd, data)
    case Close(id, fd) => CloseAt(k, id, fd)
    case Dup(id, fd) => DupAt(k, id, fd)
    case Dup2(id, fd, newFd) => Dup2At(k, id, fd, newFd)
    case Fork(id, allowed) => ForkAt(k, id, allowed)
    case Kill(id, target) => KillAt(k, id, target)
    case Reap(pid) => ReapAt(k, pid)
    case Install(id) => InstallAt(k, id)
  }
}
