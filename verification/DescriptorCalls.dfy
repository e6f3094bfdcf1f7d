/** The descriptor calls as the kernel runs them: global tables updated in place, ring buffers
    filled and drained in loops (kernel/src/process.rs). */
module DescriptorCalls {
  import opened Common
  import opened Descriptors
  import Fs = FsSpec

  class Tables {
    var disk: Fs.Disk
    var procs: map<nat, Proc>
    var pipes: PipeTable

    constructor (d: Fs.Disk)
      ensures State() == Kernel(d, map[], [None, None, None, None])
    {
      disk, procs, pipes := d, map[], [None, None, None, None];
    }

    function State(): Kernel
      reads this
    {
      Kernel(disk, procs, pipes)
    }

    /** First free slot of an fd table from `i` on, or 4. */
    static method FindFree(fds: FdTable, i: nat) returns (j: nat)
      requires i <= 4
      ensures j == FreeFd(fds, i) && i <= j <= 4
    {
      j := i;
      while j < 4 && fds[j].Some?
        invariant i <= j <= 4
        invariant FreeFd(fds, j) == FreeFd(fds, i)
        decreases 4 - j
      {
        j := j + 1;
      }
    }

    method PipeCreate(id: nat) returns (r: Reply)
      modifies this
      ensures Outcome(State(), r) == CreatePipe(old(State()), id)
    {
      hide FreeFd, FreePipe;
      var j := FindPipe();
      if j == 4 {
        return Fail;
      }
      pipes := pipes[j := Some(NewPipe())];
      if id !in procs {
        return Fail;
      }
      var fds := procs[id].fds;
      var readSlot := FindFree(fds, 0);
      var writeSlot := 4;
      if readSlot < 4 {
        writeSlot := FindFree(fds, readSlot + 1);
      }
      if readSlot == 4 || writeSlot == 4 {
        pipes := pipes[j := None];
        assert pipes == old(pipes);
        return Fail;
      }
      procs := PutFd(procs, id, readSlot, Some(PipeRead(j)));
      procs := PutFd(procs, id, writeSlot, Some(PipeWrite(j)));
      r := FdPair(readSlot, writeSlot);
    }

    method FindPipe() returns (j: nat)
      ensures j == FreePipe(pipes, 0) && j <= 4
      ensures j < 4 ==> pipes[j].None?
    {
      j := 0;
      while j < 4 && pipes[j].Some?
        invariant 0 <= j <= 4
        invariant FreePipe(pipes, j) == FreePipe(pipes, 0)
        decreases 4 - j
      {
        j := j + 1;
      }
    }

    method OpenFd(id: nat, path: Fs.Path) returns (r: Reply)
      modifies this
      ensures Outcome(State(), r) == OpenAt(old(State()), id, path)
    {
      hide FreeFd, Fs.ReadFile;
      var data := Fs.ReadFile(disk, path);
      var buffer := if data.Ok? then data.value else [];
      if id !in procs {
        return Fail;
      }
      var slot := FindFree(procs[id].fds, 0);
      if slot == 4 {
        return Fail;
      }
      procs := PutFd(procs, id, slot, Some(File(OpenFile(path, buffer, 0, false))));
      r := Fd(slot);
    }

    /** Copies `n` bytes out of the ring, oldest first. */
    static method Drain(q: Pipe, n: nat) returns (out: seq<Byte>)
      requires RingOk(q) && n <= q.len
      ensures out == Contents(q)[..n]
    {
      out := [];
      var i := 0;
      while i < n
        invariant 0 <= i <= n
        invariant out == Contents(q)[..i]
      {
        out := out + [q.buffer[(q.readPos + i) % PIPE_CAPACITY]];
        assert Contents(q)[..i + 1] == Contents(q)[..i] + [Contents(q)[i]];
        i := i + 1;
      }
    }

    /** Copies `data` into the ring from the write position on. */
    static method FillRing(q: Pipe, data: seq<Byte>) returns (buffer: seq<Byte>)
      requires |q.buffer| == PIPE_CAPACITY
      ensures buffer == Fill(q.buffer, q.writePos, data, 0)
    {
      buffer := q.buffer;
      var i := 0;
      while i < |data|
        invariant 0 <= i <= |data|
        invariant |buffer| == PIPE_CAPACITY
        invariant Fill(buffer, q.writePos, data, i) == Fill(q.buffer, q.writePos, data, 0)
      {
        buffer := buffer[(q.writePos + i) % PIPE_CAPACITY := data[i]];
        i := i + 1;
      }
    }

    method ReadFd(id: nat, fd: nat, len: nat) returns (r: Reply)
      requires RingsOk(pipes)
      modifies this
      ensures Outcome(State(), r) == ReadAt(old(State()), id, fd, len)
    {
      hide Contents, Fill;
      var x := FdAt(State(), id, fd);
      if x.None? || x.value.PipeWrite? {
        return Fail;
      }
      if x.value.PipeRead? {
        var p := x.value.pipe;
        if p >= 4 || pipes[p].None? {
          return Fail;
        }
        var q := pipes[p].value;
        var n := Min(len, q.len);
        var out := Drain(q, n);
        q := q.(readPos := (q.readPos + n) % PIPE_CAPACITY);
        q := q.(len := q.len - n);
        pipes := pipes[p := Some(q)];
        return Bytes(out);
      }
      var f := x.value.file;
      var start := Min(f.pos, |f.buffer|);
      var end := Min(start + len, |f.buffer|);
      procs := PutFd(procs, id, fd, Some(File(f.(pos := end))));
      r := Bytes(f.buffer[start..end]);
    }

    method WriteFd(id: nat, fd: nat, data: seq<Byte>) returns (r: Reply)
      requires RingsOk(pipes)
      modifies this
      ensures Outcome(State(), r) == WriteAt(old(State()), id, fd, data)
    {
      hide Contents, Fill;
      var x := FdAt(State(), id, fd);
      if x.None? || x.value.PipeRead? {
        return Fail;
      }
      if x.value.PipeWrite? {
        var p := x.value.pipe;
        if p >= 4 || pipes[p].None? {
          return Fail;
        }
        var q := pipes[p].value;
        var n := Min(|data|, PIPE_CAPACITY - q.len);
        var buffer := FillRing(q, data[..n]);
        q := q.(buffer := buffer, writePos := (q.writePos + n) % PIPE_CAPACITY);
        q := q.(len := q.len + n);
        pipes := pipes[p := Some(q)];
        return Count(n);
      }
      var f := x.value.file;
      var room := if f.pos <= Fs.MAX_FILE_BYTES then Fs.MAX_FILE_BYTES - f.pos else 0;
      var n := Min(|data|, room);
      var buffer := f.buffer;
      if |buffer| < f.pos + n {
        buffer := buffer + Zeros(f.pos + n - |buffer|);
      }
      buffer := buffer[..f.pos] + data[..n] + buffer[f.pos + n..];
      procs := PutFd(procs, id, fd, Some(File(OpenFile(f.path, buffer, f.pos + n, true))));
      r := Count(n);
    }

    /** Takes one holder off a pipe end, freeing the slot when no end is counted any more. */
    method ReleaseEnd(e: FdEntry)
      modifies this
      ensures State() == old(State()).(pipes := DropRef(old(pipes), e))
    {
      if Live(pipes, e) {
        var p := pipes[e.pipe].value;
        if e.PipeRead? {
          p := p.(readOpen := SatSub(p.readOpen));
        } else {
          p := p.(writeOpen := SatSub(p.writeOpen));
        }
        pipes := pipes[e.pipe := Some(p)];
        if p.readOpen == 0 && p.writeOpen == 0 {
          pipes := pipes[e.pipe := None];
        }
      }
    }

    method ShareEnd(e: FdEntry)
      modifies this
      ensures State() == old(State()).(pipes := AddRef(old(pipes), e))
    {
      if Live(pipes, e) {
        var p := pipes[e.pipe].value;
        if e.PipeRead? {
          p := p.(readOpen := SatAdd(p.readOpen));
        } else {
          p := p.(writeOpen := SatAdd(p.writeOpen));
        }
        pipes := pipes[e.pipe := Some(p)];
      }
    }

    method CloseFd(id: nat, fd: nat) returns (r: Reply)
      modifies this
      ensures Outcome(State(), r) == CloseAt(old(State()), id, fd)
    {
      hide Fs.WriteFile, DropRef;
      var x := FdAt(State(), id, fd);
      if x.None? {
        return Fail;
      }
      procs := PutFd(procs, id, fd, None);
      if !x.value.File? {
        ReleaseEnd(x.value);
        return Flag(true);
      }
      var f := x.value.file;
      if !f.dirty {
        return Flag(true);
      }
      var out := Fs.WriteFile(disk, f.path, f.buffer);
      disk := out.disk;
      r := Flag(out.reply.Ok?);
    }

    method DupFd(id: nat, fd: nat) returns (r: Reply)
      modifies this
      ensures Outcome(State(), r) == DupAt(old(State()), id, fd)
    {
      hide AddRef, FreeFd;
      var x := FdAt(State(), id, fd);
      if x.None? {
        return Fail;
      }
      ShareEnd(x.value);
      FilesNotShared(old(pipes), x.value);
      var slot := FindFree(procs[id].fds, 0);
      if slot == 4 {
        return Fail;
      }
      procs := PutFd(procs, id, slot, x);
      r := Fd(slot);
    }

    static lemma FilesNotShared(t: PipeTable, e: FdEntry)
      ensures e.File? ==> AddRef(t, e) == t
    {
    }

    method Dup2Fd(id: nat, fd: nat, newFd: nat) returns (r: Reply)
      modifies this
      ensures Outcome(State(), r) == Dup2At(old(State()), id, fd, newFd)
    {
      hide AddRef, CloseAt;
      var x := FdAt(State(), id, fd);
      if fd == newFd {
        return if x.Some? then Flag(true) else Fail;
      }
      if newFd >= 4 || x.None? {
        return Fail;
      }
      CloseKeeps(State(), id, newFd);
      if FdAt(State(), id, newFd).Some? {
        var closed := CloseFd(id, newFd);
      }
      ShareEnd(x.value);
      procs := PutFd(procs, id, newFd, x);
      r := Flag(true);
    }

    method ForkFds(id: nat, allowed: bool) returns (r: Reply)
      modifies this
      ensures Outcome(State(), r) == ForkAt(old(State()), id, allowed)
    {
      hide AddRef, FreePid;
      if !allowed || id !in procs {
        return Fail;
      }
      var fds := procs[id].fds;
      var i := 0;
      while i < 4
        invariant 0 <= i <= 4
        invariant disk == old(disk) && procs == old(procs)
        invariant AddRefs(pipes, fds, i) == AddRefs(old(pipes), fds, 0)
      {
        if fds[i].Some? {
          ShareEnd(fds[i].value);
        }
        i := i + 1;
      }
      var pid := FindPid();
      if pid == PID_LIMIT {
        return Fail;
      }
      procs := procs[pid := Proc(fds, Some(id))];
      r := Fd(pid);
    }

    method FindPid() returns (pid: nat)
      ensures pid == FreePid(procs, PID_TABLE_BASE) && pid <= PID_LIMIT
    {
      pid := PID_TABLE_BASE;
      while pid < PID_LIMIT && pid in procs
        invariant PID_TABLE_BASE <= pid <= PID_LIMIT
        invariant FreePid(procs, pid) == FreePid(procs, PID_TABLE_BASE)
        decreases PID_LIMIT - pid
      {
        pid := pid + 1;
      }
    }

    method KillChild(id: nat, target: nat) returns (r: Reply)
      modifies this
      ensures Outcome(State(), r) == KillAt(old(State()), id, target)
    {
      if !(PID_TABLE_BASE <= target < PID_LIMIT) || target !in procs || procs[target].parent != Some(id) {
        return Flag(false);
      }
      procs := procs - {target};
      r := Flag(true);
    }
  }
}
