/** What each filesystem call does to the disk, as functions of the disk
    (kernel/src/fs.rs). */
module FsSpec {
  import opened Common
  import opened DirCodec

  const DIR_LBA := 1
  const FILE_DATA_START_LBA := 2
  const MAX_FILE_BYTES := 4096
  const NUM_DATA_SECTORS := 64
  const POOL_END := 66
  const MAX_DEPTH := 32
  const SLASH: Byte := 47

  /** A disk large enough for the root table and the data pool. */
  type Disk = d: seq<Sector> | |d| >= 66 witness seq<Sector>(66, _ => BLANK_SECTOR)

  datatype FsError =
    | MissingName | EmptyComponent | TooDeep | NoSuchDirectory | NotADirectory
    | AlreadyExists | DirectoryFull | NoSpace | TooLarge
    | IsADirectory | IsAFile | NoSuchFile | NotEmpty | IoError

  type Reply<T> = Result<T, FsError>

  type Path = seq<Byte>

  datatype Range = Range(start: nat, count: nat)

  // ---- Paths ----

  /** str::split('/'). */
  function Split(p: Path): (parts: seq<Path>)
    ensures |parts| >= 1
  {
    if p == [] then [[]]
    else
      var rest := Split(p[1..]);
      if p[0] == SLASH then [[]] + rest
      else [[p[0]] + rest[0]] + rest[1..]
  }

  /** Position of the last '/', as rsplit_once finds it. */
  function LastSlash(p: Path): (k: int)
    ensures -1 <= k < |p|
    ensures k >= 0 ==> p[k] == SLASH
    ensures forall i :: k < i < |p| ==> p[i] != SLASH
  {
    if p == [] then -1
    else if p[|p| - 1] == SLASH then |p| - 1
    else LastSlash(p[..|p| - 1])
  }

  datatype Target = Target(dirs: seq<Path>, leaf: Path)

  /** The directory components and the leaf of a path; an empty directory part means the root. */
  function ParsePath(p: Path): Reply<Target> {
    var k := LastSlash(p);
    if k < 0 then Ok(Target([], p))
    else if k + 1 == |p| then Err(MissingName)
    else Ok(Target(DirParts(p[..k]), p[k + 1..]))
  }

  function DirParts(dir: Path): seq<Path> {
    if dir == [] then [] else Split(dir)
  }

  /** A component cut or zero-padded to sixteen bytes. */
  function NameBytes(comp: Path): Name {
    var n := Min(|comp|, NAME_LEN);
    comp[..n] + Zeros(NAME_LEN - n)
  }

  // ---- Tables on disk ----

  /** A sector past the end of the disk reads as an empty table. */
  function TableAt(d: Disk, lba: nat): Table {
    if lba < |d| then DecodeTable(d[lba]) else EMPTY_TABLE
  }

  /** First used entry at or after `i` with this name, or 8. */
  function FindFrom(t: Table, n: Name, i: nat): (k: nat)
    requires i <= 8
    decreases 8 - i
    ensures i <= k <= 8
    ensures k < 8 ==> t[k].used && t[k].name == n
    ensures forall j :: i <= j < k ==> !(t[j].used && t[j].name == n)
  {
    if i == 8 || (t[i].used && t[i].name == n) then i else FindFrom(t, n, i + 1)
  }

  function Find(t: Table, n: Name): nat {
    FindFrom(t, n, 0)
  }

  /** First unused entry at or after `i`, or 8. */
  function FreeFrom(t: Table, i: nat): (k: nat)
    requires i <= 8
    decreases 8 - i
    ensures i <= k <= 8
    ensures k < 8 ==> !t[k].used
    ensures forall j :: i <= j < k ==> t[j].used
  {
    if i == 8 || !t[i].used then i else FreeFrom(t, i + 1)
  }

  function FreeSlot(t: Table): nat {
    FreeFrom(t, 0)
  }

  predicate AllUnused(t: Table) {
    forall i :: 0 <= i < 8 ==> !t[i].used
  }

  // ---- Walking a path ----

  function ResolveFrom(d: Disk, dirs: seq<Path>, depth: nat, lba: nat): Reply<nat>
    decreases |dirs|
  {
    if dirs == [] then Ok(lba)
    else if dirs[0] == [] then Err(EmptyComponent)
    else if depth >= MAX_DEPTH then Err(TooDeep)
    else
      var t := TableAt(d, lba);
      var i := Find(t, NameBytes(dirs[0]));
      if i == 8 then Err(NoSuchDirectory)
      else if !t[i].isDir then Err(NotADirectory)
      else ResolveFrom(d, dirs[1..], depth + 1, t[i].startLba)
  }

  // ---- Space ----

  /** The ranges collect_occupied_at pushes for entries `i..8` of a table at `depth`. */
  function CollectFrom(d: Disk, t: Table, i: nat, depth: nat): seq<Range>
    requires i <= 8
    requires depth < MAX_DEPTH
    decreases MAX_DEPTH - depth, 0, 8 - i
  {
    if i == 8 then []
    else if !t[i].used || t[i].sectorCount == 0 then CollectFrom(d, t, i + 1, depth)
    else
      [Range(t[i].startLba, t[i].sectorCount)]
      + (if t[i].isDir then Collect(d, t[i].startLba, depth + 1) else [])
      + CollectFrom(d, t, i + 1, depth)
  }

  function Collect(d: Disk, lba: nat, depth: nat): seq<Range>
    requires depth <= MAX_DEPTH
    decreases MAX_DEPTH - depth, 1
  {
    if depth >= MAX_DEPTH then [] else CollectFrom(d, TableAt(d, lba), 0, depth)
  }

  function IndexOf(rs: seq<Range>, x: Range): (k: nat)
    ensures k <= |rs|
    ensures k < |rs| ==> rs[k] == x
    ensures forall j :: 0 <= j < k ==> rs[j] != x
  {
    if rs == [] then 0 else if rs[0] == x then 0 else 1 + IndexOf(rs[1..], x)
  }

  /** `rs` without the first range equal to `x`. */
  function Without(rs: seq<Range>, x: Range): seq<Range> {
    var k := IndexOf(rs, x);
    if k == |rs| then rs else rs[..k] + rs[k + 1..]
  }

  function Occupied(d: Disk, exclude: Option<Range>): seq<Range> {
    var rs := Collect(d, DIR_LBA, 0);
    if exclude.None? then rs else Without(rs, exclude.value)
  }

  predicate Clash(r: Range, start: nat, needed: nat) {
    start < r.start + r.count && r.start < start + needed
  }

  predicate SpanFree(rs: seq<Range>, start: nat, needed: nat) {
    forall k :: 0 <= k < |rs| ==> !Clash(rs[k], start, needed)
  }

  /** Whether `needed` sectors fit at pool-relative position `s`. */
  predicate Fits(rs: seq<Range>, needed: nat, s: nat) {
    s + needed <= NUM_DATA_SECTORS && SpanFree(rs, FILE_DATA_START_LBA + s, needed)
  }

  /** First fit: the smallest position at or after `start` where `needed` sectors fit. */
  function FitFrom(rs: seq<Range>, needed: nat, start: nat): (r: Option<nat>)
    requires needed <= NUM_DATA_SECTORS
    decreases NUM_DATA_SECTORS + 1 - needed - start
    ensures r.Some? ==> start <= r.value && Fits(rs, needed, r.value)
    ensures forall s: nat :: start <= s && (r.None? || s < r.value) ==> !Fits(rs, needed, s)
  {
    if start > NUM_DATA_SECTORS - needed then None
    else if SpanFree(rs, FILE_DATA_START_LBA + start, needed) then Some(start)
    else FitFrom(rs, needed, start + 1)
  }

  // ---- File contents ----

  function SectorsFor(len: nat): nat {
    (len + 511) / 512
  }

  /** Sector `i` of the file: its 512-byte piece of `data`, zero-padded at the end. */
  function Chunk(data: seq<Byte>, i: nat): Sector
    requires 512 * i <= |data|
  {
    var end := Min(512 * i + 512, |data|);
    data[512 * i..end] + Zeros(512 - (end - 512 * i))
  }

  /** The disk after writing pieces `i..` of `data` from sector `start` on. */
  function WriteChunks(d: Disk, start: nat, data: seq<Byte>, i: nat): (d': Disk)
    requires i <= SectorsFor(|data|)
    requires start + SectorsFor(|data|) <= |d|
    ensures |d'| == |d|
    decreases SectorsFor(|data|) - i
  {
    if i == SectorsFor(|data|) then d
    else WriteChunks(d[start + i := Chunk(data, i)], start, data, i + 1)
  }

  function ReadSectors(d: Disk, start: nat, count: nat): Reply<seq<Byte>> {
    if count == 0 then Ok([])
    else
      var rest := ReadSectors(d, start, count - 1);
      if rest.Err? then rest
      else if start + count - 1 < |d| then Ok(rest.value + d[start + count - 1])
      else Err(IoError)
  }

  function Truncate(s: seq<Byte>, n: nat): seq<Byte> {
    s[..Min(|s|, n)]
  }

  function EntryBytes(d: Disk, e: DirEntry): Reply<seq<Byte>> {
    if e.sectorCount == 0 then Ok([])
    else
      var r := ReadSectors(d, e.startLba, e.sectorCount);
      if r.Err? then r else Ok(Truncate(r.value, e.len))
  }

  // ---- The calls ----

  /** Disk after a call, and its reply. */
  datatype Outcome = Outcome(disk: Disk, reply: Reply<()>)

  /** The table a path's leaf lives in, and the leaf. */
  datatype Place = Place(lba: nat, leaf: Path)

  function Resolve(d: Disk, path: Path): Reply<Place> {
    match ParsePath(path)
    case Err(e) => Err(e)
    case Ok(target) => ResolveTarget(d, target)
  }

  function ResolveTarget(d: Disk, target: Target): Reply<Place> {
    match ResolveFrom(d, target.dirs, 0, DIR_LBA)
    case Err(e) => Err(e)
    case Ok(lba) => Ok(Place(lba, target.leaf))
  }

  /** Saves `t` at `lba` as the last step of a call. */
  function Commit(d: Disk, lba: nat, t: Table): Outcome {
    if lba < |d| then Outcome(d[lba := EncodeTable(t)], Ok(())) else Outcome(d, Err(IoError))
  }

  function DirEntryAt(n: Name, home: nat): DirEntry
    requires home < POOL_END
  {
    DirEntry(true, true, n, 0, home, 1)
  }

  function MakeDir(d: Disk, path: Path): Outcome {
    match Resolve(d, path)
    case Err(e) => Outcome(d, Err(e))
    case Ok(place) => MakeDirIn(d, place.lba, NameBytes(place.leaf))
  }

  function MakeDirIn(d: Disk, lba: nat, n: Name): Outcome {
    var t := TableAt(d, lba);
    if Find(t, n) < 8 then Outcome(d, Err(AlreadyExists))
    else if FreeSlot(t) == 8 then Outcome(d, Err(DirectoryFull))
    else
      match FitFrom(Occupied(d, None), 1, 0)
      case None => Outcome(d, Err(NoSpace))
      case Some(s) => PlaceDir(d, lba, n, FILE_DATA_START_LBA + s)
  }

  /** Writes an empty table at `home`, then the parent's entry for it. */
  function PlaceDir(d: Disk, lba: nat, n: Name, home: nat): Outcome
    requires home < POOL_END
    requires FreeSlot(TableAt(d, lba)) < 8
  {
    var t := TableAt(d, lba);
    Commit(d[home := EncodeTable(EMPTY_TABLE)], lba, t[FreeSlot(t) := DirEntryAt(n, home)])
  }

  /** The slot a write uses: the entry of that name, else the first unused one. */
  function WriteSlot(t: Table, n: Name): nat {
    if Find(t, n) < 8 then Find(t, n) else FreeSlot(t)
  }

  function OldSpan(e: DirEntry): Option<Range> {
    if e.used then Some(Range(e.startLba, e.sectorCount)) else None
  }

  function FileEntry(n: Name, len: nat, start: nat): DirEntry
    requires len <= MAX_FILE_BYTES && start < POOL_END
  {
    DirEntry(true, false, n, len, if len == 0 then 0 else start, SectorsFor(len))
  }

  function WriteFile(d: Disk, path: Path, data: seq<Byte>): Outcome {
    if |data| > MAX_FILE_BYTES then Outcome(d, Err(TooLarge))
    else
      match Resolve(d, path)
      case Err(e) => Outcome(d, Err(e))
      case Ok(place) => WriteFileIn(d, place.lba, NameBytes(place.leaf), data)
  }

  function WriteFileIn(d: Disk, lba: nat, n: Name, data: seq<Byte>): Outcome
    requires |data| <= MAX_FILE_BYTES
  {
    var t := TableAt(d, lba);
    var i := Find(t, n);
    var slot := WriteSlot(t, n);
    if i < 8 && t[i].isDir then Outcome(d, Err(IsADirectory))
    else if slot == 8 then Outcome(d, Err(DirectoryFull))
    else if data == [] then Commit(d, lba, t[slot := FileEntry(n, 0, 0)])
    else
      match FitFrom(Occupied(d, OldSpan(t[slot])), SectorsFor(|data|), 0)
      case None => Outcome(d, Err(NoSpace))
      case Some(s) => PlaceFile(d, lba, n, data, FILE_DATA_START_LBA + s)
  }

  /** Writes the data sectors from `start` on, then the entry. */
  function PlaceFile(d: Disk, lba: nat, n: Name, data: seq<Byte>, start: nat): Outcome
    requires 0 < |data| <= MAX_FILE_BYTES
    requires start + SectorsFor(|data|) <= POOL_END
    requires WriteSlot(TableAt(d, lba), n) < 8
  {
    var t := TableAt(d, lba);
    Commit(WriteChunks(d, start, data, 0), lba, t[WriteSlot(t, n) := FileEntry(n, |data|, start)])
  }

  function ReadFile(d: Disk, path: Path): Reply<seq<Byte>> {
    match Resolve(d, path)
    case Err(e) => Err(e)
    case Ok(place) => ReadFileIn(d, TableAt(d, place.lba), NameBytes(place.leaf))
  }

  function ReadFileIn(d: Disk, t: Table, n: Name): Reply<seq<Byte>> {
    var i := Find(t, n);
    if i == 8 then Err(NoSuchFile)
    else if t[i].isDir then Err(IsADirectory)
    else EntryBytes(d, t[i])
  }

  function DeleteFile(d: Disk, path: Path): Outcome {
    match Resolve(d, path)
    case Err(e) => Outcome(d, Err(e))
    case Ok(place) => DeleteFileIn(d, place.lba, NameBytes(place.leaf))
  }

  function DeleteFileIn(d: Disk, lba: nat, n: Name): Outcome {
    var t := TableAt(d, lba);
    var i := Find(t, n);
    if i == 8 then Outcome(d, Err(NoSuchFile))
    else if t[i].isDir then Outcome(d, Err(IsADirectory))
    else Commit(d, lba, t[i := EMPTY_ENTRY])
  }

  function RemoveDir(d: Disk, path: Path): Outcome {
    match Resolve(d, path)
    case Err(e) => Outcome(d, Err(e))
    case Ok(place) => RemoveDirIn(d, place.lba, NameBytes(place.leaf))
  }

  function RemoveDirIn(d: Disk, lba: nat, n: Name): Outcome {
    var t := TableAt(d, lba);
    var i := Find(t, n);
    if i == 8 then Outcome(d, Err(NoSuchFile))
    else if !t[i].isDir then Outcome(d, Err(IsAFile))
    else if !AllUnused(TableAt(d, t[i].startLba)) then Outcome(d, Err(NotEmpty))
    else Commit(d, lba, t[i := EMPTY_ENTRY])
  }
}
