/** The filesystem driver as it runs: sector buffers and tables filled in place, one disk
    updated by every call (kernel/src/fs.rs). Every method is tied to the disk function it computes. */
module FileSystem {
  import opened Common
  import opened DirCodec
  import opened FsSpec
  import opened FsAbstract
  import opened FsSpace
  import opened FsTree
  import opened FsWalk
  import opened FsOps

  /** Path resolution from the root, as resolve_dir_lba does it. */
  function ResolveDir(d: Disk, path: Path): Reply<nat> {
    ResolveFrom(d, DirParts(path), 0, DIR_LBA)
  }

  /** Used entries at positions `i..`, in table order. */
  function UsedFrom(t: Table, i: nat): seq<DirEntry>
    requires i <= 8
    decreases 8 - i
  {
    if i == 8 then [] else (if t[i].used then [t[i]] else []) + UsedFrom(t, i + 1)
  }

  lemma EncodedByte(t: Table, i: nat, j: nat)
    requires i < 8 && j < ENTRY_LEN
    ensures TableByte(t, 4 + i * ENTRY_LEN + j) == EntryByte(t[i], j)
  {
    var k := 4 + i * ENTRY_LEN + j;
    assert (k - 4) / ENTRY_LEN == i && (k - 4) % ENTRY_LEN == j;
  }

  lemma {:induction false} SplitAt(d: Disk, parts: seq<Path>, depth: nat, lba: nat)
    requires depth < |parts|
    ensures ResolveFrom(d, parts[depth..], depth, lba)
            == if parts[depth] == [] then Err(EmptyComponent)
               else if depth >= MAX_DEPTH then Err(TooDeep)
               else
                 var t := TableAt(d, lba);
                 var i := Find(t, NameBytes(parts[depth]));
                 if i == 8 then Err(NoSuchDirectory)
                 else if !t[i].isDir then Err(NotADirectory)
                 else ResolveFrom(d, parts[depth + 1..], depth + 1, t[i].startLba)
  {
    assert parts[depth..][1..] == parts[depth + 1..];
  }

  lemma {:induction false} UsedFromHas(t: Table, i: nat, e: DirEntry)
    requires i <= 8
    ensures e in UsedFrom(t, i) <==> exists j: nat :: i <= j < 8 && t[j] == e && e.used
    decreases 8 - i
  {
    if i < 8 {
      UsedFromHas(t, i + 1, e);
    }
  }

  /** A listing of a directory shows exactly its children, with their kinds. */
  lemma ListingShowsKids(d: Disk, dirs: seq<Path>, l: nat, n: Name)
    requires Reached(d, dirs, l)
    ensures var kids := KidsAt(d, l, Level(dirs));
            && (n in kids <==> exists e :: e in UsedFrom(TableAt(d, l), 0) && e.name == n)
            && (forall e :: e in UsedFrom(TableAt(d, l), 0) && e.name == n ==> n in kids && (e.isDir <==> kids[n].Dir?))
  {
    hide Wf, Foot, KidsAt, ResolveFrom, TableAt, Find, UsedFrom, NodeOf;
    var t := TableAt(d, l);
    ReachedTable(d, dirs, l);
    KidsOfSlot(d, l, Level(dirs), n);
    FoundUsed(t, n);
    NodeKinds(d, Level(dirs));
    if n in KidsAt(d, l, Level(dirs)) {
      UsedFromHas(t, 0, t[Find(t, n)]);
    }
    forall e | e in UsedFrom(t, 0) && e.name == n
      ensures n in KidsAt(d, l, Level(dirs)) && (e.isDir <==> KidsAt(d, l, Level(dirs))[n].Dir?)
    {
      UsedFromHas(t, 0, e);
      var j: nat :| j < 8 && t[j] == e && e.used;
      FindUnique(d, l, Level(dirs), j);
    }
  }

  lemma NodeKinds(d: Disk, r: nat)
    ensures forall e: DirEntry :: NodeOf(d, e, r).Dir? <==> e.isDir
  {
    hide KidsAt;
  }

  class Driver {
    var disk: Disk

    constructor (d: Disk)
      ensures disk == d
    {
      disk := d;
    }

    // ---- Directory tables ----

    method LoadDirAt(lba: nat) returns (t: Table)
      ensures t == TableAt(disk, lba)
    {
      hide DecodeEntry;
      var entries := new DirEntry[8](_ => EMPTY_ENTRY);
      if lba >= |disk| {
        return EMPTY_TABLE;
      }
      var buf := disk[lba];
      if Le32(buf[0], buf[1], buf[2], buf[3]) != DirCodec.MAGIC {
        return EMPTY_TABLE;
      }
      var i := 0;
      while i < 8
        invariant 0 <= i <= 8
        invariant disk == old(disk)
        invariant forall k: nat :: k < i ==> entries[k] == DecodeEntry(buf, k)
      {
        entries[i] := GetEntry(buf, i);
        i := i + 1;
      }
      t := entries[..];
      DecodedAll(buf, t);
    }

    static lemma DecodedAll(s: Sector, t: Table)
      requires Le32(s[0], s[1], s[2], s[3]) == DirCodec.MAGIC && forall k: nat :: k < 8 ==> t[k] == DecodeEntry(s, k)
      ensures t == DecodeTable(s)
    {
      hide DecodeEntry;
    }

    /** Reads entry `i`'s fields, each at its place in the entry's 25 bytes. */
    static method GetEntry(buf: Sector, i: nat) returns (e: DirEntry)
      requires i < 8
      ensures e == DecodeEntry(buf, i)
    {
      hide Le16, Le32;
      var off := 4 + i * ENTRY_LEN;
      var used := buf[off] != 0;
      var isDir := buf[off + 1] != 0;
      var name := buf[off + 2..off + 18];
      var len := Le16(buf[off + 18], buf[off + 19]);
      var start := Le32(buf[off + 20], buf[off + 21], buf[off + 22], buf[off + 23]);
      e := DirEntry(used, isDir, name, len, start, buf[off + 24]);
    }

    method SaveDirAt(lba: nat, t: Table) returns (ok: bool)
      modifies this
      ensures ok <==> lba < |old(disk)|
      ensures disk == if ok then old(disk)[lba := EncodeTable(t)] else old(disk)
    {
      var buf := new Byte[512](_ => 0);
      buf[0], buf[1], buf[2], buf[3] := LeByte(DirCodec.MAGIC, 0), LeByte(DirCodec.MAGIC, 1), LeByte(DirCodec.MAGIC, 2), LeByte(DirCodec.MAGIC, 3);
      var i := 0;
      while i < 8
        invariant 0 <= i <= 8
        invariant disk == old(disk)
        invariant forall k: nat :: k < 4 + i * ENTRY_LEN ==> buf[k] == TableByte(t, k)
        invariant forall k: nat :: 4 + i * ENTRY_LEN <= k < 512 ==> buf[k] == 0
      {
        PutEntry(buf, t, i);
        i := i + 1;
      }
      assert buf[..] == EncodeTable(t);
      ok := lba < |disk|;
      if ok {
        disk := disk[lba := buf[..]];
      }
    }

    /** Writes the 25 bytes of entry `i`; nothing else in the buffer changes. */
    static method PutEntry(buf: array<Byte>, t: Table, i: nat)
      requires buf.Length == 512 && i < 8
      modifies buf
      ensures forall k: nat :: k < 512 && !(4 + i * ENTRY_LEN <= k < 4 + (i + 1) * ENTRY_LEN) ==> buf[k] == old(buf[k])
      ensures forall k: nat :: 4 + i * ENTRY_LEN <= k < 4 + (i + 1) * ENTRY_LEN ==> buf[k] == TableByte(t, k)
    {
      hide TableByte, LeByte;
      var e := t[i];
      var off := 4 + i * ENTRY_LEN;
      buf[off] := if e.used then 1 else 0;
      buf[off + 1] := if e.isDir then 1 else 0;
      forall k | 0 <= k < 16 {
        buf[off + 2 + k] := e.name[k];
      }
      buf[off + 18], buf[off + 19] := LeByte(e.len, 0), LeByte(e.len, 1);
      buf[off + 20], buf[off + 21] := LeByte(e.startLba, 0), LeByte(e.startLba, 1);
      buf[off + 22], buf[off + 23] := LeByte(e.startLba, 2), LeByte(e.startLba, 3);
      buf[off + 24] := e.sectorCount;
      FieldsPlaced(buf[..], t, i);
    }

    /** The fields of entry `i`, each at its place, are that entry's 25 bytes. */
    static lemma FieldsPlaced(b: seq<Byte>, t: Table, i: nat)
      requires |b| == 512 && i < 8
      requires var off, e := 4 + i * ENTRY_LEN, t[i];
               && b[off] == (if e.used then 1 else 0)
               && b[off + 1] == (if e.isDir then 1 else 0)
               && (forall j: nat :: j < 16 ==> b[off + 2 + j] == e.name[j])
               && b[off + 18] == LeByte(e.len, 0) && b[off + 19] == LeByte(e.len, 1)
               && b[off + 20] == LeByte(e.startLba, 0) && b[off + 21] == LeByte(e.startLba, 1)
               && b[off + 22] == LeByte(e.startLba, 2) && b[off + 23] == LeByte(e.startLba, 3)
               && b[off + 24] == e.sectorCount
      ensures forall k: nat :: 4 + i * ENTRY_LEN <= k < 4 + (i + 1) * ENTRY_LEN ==> b[k] == TableByte(t, k)
    {
      hide TableByte, LeByte;
      var off := 4 + i * ENTRY_LEN;
      forall k: nat | off <= k < off + ENTRY_LEN ensures b[k] == TableByte(t, k) {
        var j := k - off;
        EncodedByte(t, i, j);
        assert 2 <= j < 18 ==> b[off + 2 + (j - 2)] == t[i].name[j - 2];
      }
    }

    static method Position(t: Table, n: Name) returns (i: nat)
      ensures i == Find(t, n) && i <= 8
    {
      i := 0;
      while i < 8 && !(t[i].used && t[i].name == n)
        invariant 0 <= i <= 8
        invariant FindFrom(t, n, i) == Find(t, n)
        decreases 8 - i
      {
        i := i + 1;
      }
    }

    static method Unused(t: Table) returns (i: nat)
      ensures i == FreeSlot(t) && i <= 8
    {
      i := 0;
      while i < 8 && t[i].used
        invariant 0 <= i <= 8
        invariant FreeFrom(t, i) == FreeSlot(t)
        decreases 8 - i
      {
        i := i + 1;
      }
    }

    // ---- Paths ----

    method ResolveDirLba(path: Path) returns (r: Reply<nat>)
      ensures r == ResolveDir(disk, path)
    {
      if path == [] {
        return Ok(DIR_LBA);
      }
      var lba: nat := DIR_LBA;
      var parts := Split(path);
      var depth := 0;
      assert parts[0..] == parts;
      while depth < |parts|
        invariant 0 <= depth <= |parts|
        invariant ResolveFrom(disk, parts[depth..], depth, lba) == ResolveDir(disk, path)
      {
        SplitAt(disk, parts, depth, lba);
        if parts[depth] == [] {
          return Err(EmptyComponent);
        }
        if depth >= MAX_DEPTH {
          return Err(TooDeep);
        }
        var table := LoadDirAt(lba);
        var i := Position(table, NameBytes(parts[depth]));
        if i == 8 {
          return Err(NoSuchDirectory);
        }
        if !table[i].isDir {
          return Err(NotADirectory);
        }
        lba := table[i].startLba;
        depth := depth + 1;
      }
      r := Ok(lba);
    }

    method ResolveTable(path: Path) returns (r: Reply<Place>)
      ensures r == Resolve(disk, path)
    {
      var k := LastSlash(path);
      if k < 0 {
        return Ok(Place(DIR_LBA, path));
      }
      if k + 1 == |path| {
        return Err(MissingName);
      }
      var dir := ResolveDirLba(path[..k]);
      match dir {
        case Ok(lba) => r := Ok(Place(lba, path[k + 1..]));
        case Err(e) => r := Err(e);
      }
    }

    // ---- Space ----

    method CollectOccupiedAt(tableLba: nat, ranges: seq<Range>, depth: nat) returns (out: seq<Range>)
      requires depth <= MAX_DEPTH
      ensures out == ranges + Collect(disk, tableLba, depth)
      decreases MAX_DEPTH - depth
    {
      hide Collect, CollectFrom, TableAt, SlotRanges;
      out := ranges;
      CollectEnds(disk, tableLba, depth);
      if depth >= MAX_DEPTH {
        return;
      }
      var table := LoadDirAt(tableLba);
      var i := 0;
      while i < 8
        invariant 0 <= i <= 8
        invariant out + CollectFrom(disk, table, i, depth) == ranges + Collect(disk, tableLba, depth)
      {
        ghost var before := out;
        var e := table[i];
        if e.used && e.sectorCount != 0 {
          out := out + [Range(e.startLba, e.sectorCount)];
          if e.isDir {
            out := CollectOccupiedAt(e.startLba, out, depth + 1);
          }
        }
        SlotPushed(disk, e, depth, before, out);
        CollectSplit(disk, table, i, depth);
        assert before + SlotRanges(disk, e, depth) + CollectFrom(disk, table, i + 1, depth)
            == before + CollectFrom(disk, table, i, depth);
        i := i + 1;
      }
    }

    static lemma CollectEnds(d: Disk, lba: nat, depth: nat)
      requires depth <= MAX_DEPTH
      ensures depth == MAX_DEPTH ==> Collect(d, lba, depth) == []
      ensures depth < MAX_DEPTH ==> Collect(d, lba, depth) == CollectFrom(d, TableAt(d, lba), 0, depth)
      ensures depth < MAX_DEPTH ==> CollectFrom(d, TableAt(d, lba), 8, depth) == []
    {
      hide TableAt;
    }

    static lemma SlotPushed(d: Disk, e: DirEntry, depth: nat, before: seq<Range>, after: seq<Range>)
      requires depth < MAX_DEPTH
      requires after == if !e.used || e.sectorCount == 0 then before
                        else if e.isDir then (before + [Range(e.startLba, e.sectorCount)]) + Collect(d, e.startLba, depth + 1)
                        else before + [Range(e.startLba, e.sectorCount)]
      ensures after == before + SlotRanges(d, e, depth)
    {
      hide Collect;
    }

    method CollectOccupied(exclude: Option<Range>) returns (ranges: seq<Range>)
      ensures ranges == Occupied(disk, exclude)
    {
      hide Collect;
      ranges := CollectOccupiedAt(DIR_LBA, [], 0);
      assert ranges == Collect(disk, DIR_LBA, 0);
      if exclude.Some? {
        var k := IndexOf(ranges, exclude.value);
        if k < |ranges| {
          ranges := ranges[..k] + ranges[k + 1..];
        }
      }
    }

    static method FindFreeSpan(occupied: seq<Range>, needed: nat) returns (r: Option<nat>)
      requires needed <= NUM_DATA_SECTORS
      ensures r == FitFrom(occupied, needed, 0)
    {
      var start := 0;
      while start <= NUM_DATA_SECTORS - needed
        invariant 0 <= start <= NUM_DATA_SECTORS - needed + 1
        invariant FitFrom(occupied, needed, start) == FitFrom(occupied, needed, 0)
      {
        var candStart := FILE_DATA_START_LBA + start;
        var candEnd := candStart + needed;
        var k := 0;
        while k < |occupied| && !(candStart < occupied[k].start + occupied[k].count && occupied[k].start < candEnd)
          invariant 0 <= k <= |occupied|
          invariant forall j :: 0 <= j < k ==> !Clash(occupied[j], candStart, needed)
          decreases |occupied| - k
        {
          k := k + 1;
        }
        if k == |occupied| {
          return Some(start);
        }
        assert Clash(occupied[k], candStart, needed);
        start := start + 1;
      }
      r := None;
    }

    // ---- Calls ----

    method MakeDir(path: Path) returns (r: Reply<()>)
      modifies this
      ensures Outcome(disk, r) == FsSpec.MakeDir(old(disk), path)
    {
      var place := ResolveTable(path);
      if place.Err? {
        return Err(place.error);
      }
      var lba := place.value.lba;
      var table := LoadDirAt(lba);
      var target := NameBytes(place.value.leaf);
      var existing := Position(table, target);
      if existing < 8 {
        return Err(AlreadyExists);
      }
      var slot := Unused(table);
      if slot == 8 {
        return Err(DirectoryFull);
      }
      var occupied := CollectOccupied(None);
      var start := FindFreeSpan(occupied, 1);
      if start.None? {
        return Err(NoSpace);
      }
      var home := FILE_DATA_START_LBA + start.value;
      var ok := SaveDirAt(home, EMPTY_TABLE);
      table := table[slot := DirEntry(true, true, target, 0, home, 1)];
      ok := SaveDirAt(lba, table);
      r := if ok then Ok(()) else Err(IoError);
    }

    /** Writes the 512-byte pieces of `data` to consecutive sectors. */
    method WriteData(start: nat, data: seq<Byte>)
      requires start + SectorsFor(|data|) <= |disk|
      modifies this
      ensures disk == WriteChunks(old(disk), start, data, 0)
    {
      var i := 0;
      var needed := SectorsFor(|data|);
      while i < needed
        invariant 0 <= i <= needed
        invariant |disk| == |old(disk)|
        invariant WriteChunks(disk, start, data, i) == WriteChunks(old(disk), start, data, 0)
      {
        var sector := new Byte[512](_ => 0);
        var from := i * 512;
        var end := Min(from + 512, |data|);
        forall k | 0 <= k < end - from {
          sector[k] := data[from + k];
        }
        assert sector[..] == Chunk(data, i);
        disk := disk[start + i := sector[..]];
        i := i + 1;
      }
    }

    method WriteFile(path: Path, data: seq<Byte>) returns (r: Reply<()>)
      modifies this
      ensures Outcome(disk, r) == FsSpec.WriteFile(old(disk), path, data)
    {
      if |data| > MAX_FILE_BYTES {
        return Err(TooLarge);
      }
      var place := ResolveTable(path);
      if place.Err? {
        return Err(place.error);
      }
      r := WriteInto(place.value.lba, NameBytes(place.value.leaf), data);
    }

    method WriteInto(lba: nat, target: Name, data: seq<Byte>) returns (r: Reply<()>)
      requires |data| <= MAX_FILE_BYTES
      modifies this
      ensures Outcome(disk, r) == WriteFileIn(old(disk), lba, target, data)
    {
      hide Occupied, TableAt, EncodeTable, Find, FreeSlot, FitFrom, WriteChunks;
      var entries := LoadDirAt(lba);
      var existing := Position(entries, target);
      if existing < 8 && entries[existing].isDir {
        return Err(IsADirectory);
      }
      var slot := existing;
      if existing == 8 {
        slot := Unused(entries);
      }
      if slot == 8 {
        return Err(DirectoryFull);
      }
      var oldAlloc := OldSpan(entries[slot]);
      var needed := SectorsFor(|data|);
      var startPool: nat := 0;
      if needed != 0 {
        var occupied := CollectOccupied(oldAlloc);
        var found := FindFreeSpan(occupied, needed);
        if found.None? {
          return Err(NoSpace);
        }
        startPool := found.value;
        WriteData(FILE_DATA_START_LBA + startPool, data);
      }
      var start := if needed == 0 then 0 else FILE_DATA_START_LBA + startPool;
      var ok := SaveDirAt(lba, entries[slot := DirEntry(true, false, target, |data|, start, needed)]);
      r := if ok then Ok(()) else Err(IoError);
    }

    method ReadFile(path: Path) returns (r: Reply<seq<Byte>>)
      ensures r == FsSpec.ReadFile(disk, path)
    {
      var place := ResolveTable(path);
      if place.Err? {
        return Err(place.error);
      }
      var entries := LoadDirAt(place.value.lba);
      var i := Position(entries, NameBytes(place.value.leaf));
      if i == 8 {
        return Err(NoSuchFile);
      }
      if entries[i].isDir {
        return Err(IsADirectory);
      }
      r := ReadEntry(entries[i]);
    }

    method ReadEntry(e: DirEntry) returns (r: Reply<seq<Byte>>)
      ensures r == EntryBytes(disk, e)
    {
      if e.sectorCount == 0 {
        return Ok([]);
      }
      var data: seq<Byte> := [];
      var i := 0;
      while i < e.sectorCount
        invariant 0 <= i <= e.sectorCount
        invariant ReadSectors(disk, e.startLba, i) == Ok(data)
      {
        if e.startLba + i >= |disk| {
          ReadPastEnd(disk, e.startLba, i + 1, e.sectorCount);
          return Err(IoError);
        }
        data := data + disk[e.startLba + i];
        i := i + 1;
      }
      r := Ok(Truncate(data, e.len));
    }

    static lemma {:induction false} ReadPastEnd(d: Disk, start: nat, i: nat, count: nat)
      requires i <= count && ReadSectors(d, start, i) == Err(IoError)
      ensures ReadSectors(d, start, count) == Err(IoError)
    {
      if i < count {
        ReadPastEnd(d, start, i, count - 1);
      }
    }

    method DeleteFile(path: Path) returns (r: Reply<()>)
      modifies this
      ensures Outcome(disk, r) == FsSpec.DeleteFile(old(disk), path)
    {
      var place := ResolveTable(path);
      if place.Err? {
        return Err(place.error);
      }
      var entries := LoadDirAt(place.value.lba);
      var slot := Position(entries, NameBytes(place.value.leaf));
      if slot == 8 {
        return Err(NoSuchFile);
      }
      if entries[slot].isDir {
        return Err(IsADirectory);
      }
      var ok := SaveDirAt(place.value.lba, entries[slot := EMPTY_ENTRY]);
      r := if ok then Ok(()) else Err(IoError);
    }

    method RemoveDir(path: Path) returns (r: Reply<()>)
      modifies this
      ensures Outcome(disk, r) == FsSpec.RemoveDir(old(disk), path)
    {
      var place := ResolveTable(path);
      if place.Err? {
        return Err(place.error);
      }
      var entries := LoadDirAt(place.value.lba);
      var slot := Position(entries, NameBytes(place.value.leaf));
      if slot == 8 {
        return Err(NoSuchFile);
      }
      if !entries[slot].isDir {
        return Err(IsAFile);
      }
      var sub := LoadDirAt(entries[slot].startLba);
      if !AllUnused(sub) {
        return Err(NotEmpty);
      }
      var ok := SaveDirAt(place.value.lba, entries[slot := EMPTY_ENTRY]);
      r := if ok then Ok(()) else Err(IoError);
    }

    static lemma UsedStep(t: Table, i: nat, out: seq<DirEntry>)
      requires i < 8
      ensures out + UsedFrom(t, i) == (if t[i].used then out + [t[i]] else out) + UsedFrom(t, i + 1)
    {
    }

    static lemma UsedEnd(t: Table)
      ensures UsedFrom(t, 8) == []
    {
    }

    method List(dir: Option<Path>) returns (r: Reply<seq<DirEntry>>)
      ensures var lba := if dir.Some? then ResolveDir(disk, dir.value) else Ok(DIR_LBA);
              r == if lba.Err? then Err(lba.error) else Ok(UsedFrom(TableAt(disk, lba.value), 0))
    {
      hide TableAt, ResolveDir, UsedFrom;
      var lba: Reply<nat> := Ok(DIR_LBA);
      if dir.Some? {
        lba := ResolveDirLba(dir.value);
        if lba.Err? {
          return Err(lba.error);
        }
      }
      var table := LoadDirAt(lba.value);
      var out: seq<DirEntry> := [];
      var i := 0;
      while i < 8
        invariant 0 <= i <= 8
        invariant out + UsedFrom(table, i) == UsedFrom(table, 0)
      {
        UsedStep(table, i, out);
        if table[i].used {
          out := out + [table[i]];
        }
        i := i + 1;
      }
      UsedEnd(table);
      assert out + [] == out;
      r := Ok(out);
    }
  }
}
