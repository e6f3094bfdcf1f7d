/** The on-disk directory table: eight 25-byte entries behind a magic number in
    one 512-byte sector (kernel/src/fs.rs, load_dir_at and save_dir_at). */
module DirCodec {
  import opened Common

  const MAX_ENTRIES := 8
  const NAME_LEN := 16
  const ENTRY_LEN := 25
  const MAGIC: U32 := 0x53504B46

  type Sector = s: seq<Byte> | |s| == 512 witness Zeros(512)
  type Name = s: seq<Byte> | |s| == 16 witness Zeros(16)

  const BLANK_SECTOR: Sector := Zeros(512)

  datatype DirEntry = DirEntry(
    used: bool,
    isDir: bool,
    name: Name,
    len: U16,
    startLba: U32,
    sectorCount: Byte)

  type Table = t: seq<DirEntry> | |t| == 8 witness seq(8, _ => EMPTY_ENTRY)

  const EMPTY_ENTRY: DirEntry := DirEntry(false, false, Zeros(16), 0, 0, 0)
  const EMPTY_TABLE: Table :=
    [EMPTY_ENTRY, EMPTY_ENTRY, EMPTY_ENTRY, EMPTY_ENTRY, EMPTY_ENTRY, EMPTY_ENTRY, EMPTY_ENTRY, EMPTY_ENTRY]

  function Le16(b0: Byte, b1: Byte): U16 {
    b0 + 0x100 * b1
  }

  function Le32(b0: Byte, b1: Byte, b2: Byte, b3: Byte): U32 {
    b0 + 0x100 * b1 + 0x1_0000 * b2 + 0x100_0000 * b3
  }

  /** Byte `k` of the little-endian form of `x`. */
  function LeByte(x: nat, k: nat): Byte {
    if k == 0 then x % 0x100 else LeByte(x / 0x100, k - 1)
  }

  lemma Le16RoundTrip(x: U16)
    ensures Le16(LeByte(x, 0), LeByte(x, 1)) == x
  {
    assert LeByte(x, 1) == LeByte(x / 0x100, 0);
  }

  lemma Le32RoundTrip(x: U32)
    ensures Le32(LeByte(x, 0), LeByte(x, 1), LeByte(x, 2), LeByte(x, 3)) == x
  {
    var y := x / 0x100;
    var z := y / 0x100;
    var w := z / 0x100;
    assert x == 0x100 * y + LeByte(x, 0);
    assert LeByte(x, 1) == LeByte(y, 0) && y == 0x100 * z + LeByte(y, 0);
    assert LeByte(x, 2) == LeByte(y, 1) == LeByte(z, 0) && z == 0x100 * w + LeByte(z, 0);
    assert LeByte(x, 3) == LeByte(y, 2) == LeByte(z, 1) == LeByte(w, 0) == w;
  }

  /** Byte `j` of the 25-byte encoding of one entry. */
  function EntryByte(e: DirEntry, j: nat): Byte
    requires j < ENTRY_LEN
  {
    if j == 0 then (if e.used then 1 else 0)
    else if j == 1 then (if e.isDir then 1 else 0)
    else if j < 18 then e.name[j - 2]
    else if j < 20 then LeByte(e.len, j - 18)
    else if j < 24 then LeByte(e.startLba, j - 20)
    else e.sectorCount
  }

  /** Byte `k` of the sector that save_dir_at writes. */
  function TableByte(t: Table, k: nat): Byte {
    if k < 4 then LeByte(MAGIC, k)
    else if k < 4 + MAX_ENTRIES * ENTRY_LEN then EntryByte(t[(k - 4) / ENTRY_LEN], (k - 4) % ENTRY_LEN)
    else 0
  }

  function EncodeTable(t: Table): Sector {
    seq(512, k requires 0 <= k => TableByte(t, k))
  }

  function DecodeEntry(s: Sector, i: nat): DirEntry
    requires i < MAX_ENTRIES
  {
    var off := 4 + i * ENTRY_LEN;
    DirEntry(s[off] != 0, s[off + 1] != 0, s[off + 2..off + 18],
             Le16(s[off + 18], s[off + 19]),
             Le32(s[off + 20], s[off + 21], s[off + 22], s[off + 23]),
             s[off + 24])
  }

  /** A sector without the magic number reads as an empty directory. */
  function DecodeTable(s: Sector): Table {
    if Le32(s[0], s[1], s[2], s[3]) != MAGIC then EMPTY_TABLE
    else seq(8, i requires 0 <= i < 8 => DecodeEntry(s, i))
  }

  lemma EncodedEntryByte(t: Table, i: nat, j: nat)
    requires i < MAX_ENTRIES && j < ENTRY_LEN
    ensures EncodeTable(t)[4 + i * ENTRY_LEN + j] == EntryByte(t[i], j)
  {
    var k := 4 + i * ENTRY_LEN + j;
    assert (k - 4) / ENTRY_LEN == i && (k - 4) % ENTRY_LEN == j;
  }

  lemma DecodeEncodedEntry(t: Table, i: nat)
    requires i < MAX_ENTRIES
    ensures DecodeEntry(EncodeTable(t), i) == t[i]
  {
    var s := EncodeTable(t);
    var off := 4 + i * ENTRY_LEN;
    EncodedEntryByte(t, i, 0);
    EncodedEntryByte(t, i, 1);
    EncodedEntryByte(t, i, 18);
    EncodedEntryByte(t, i, 19);
    EncodedEntryByte(t, i, 20);
    EncodedEntryByte(t, i, 21);
    EncodedEntryByte(t, i, 22);
    EncodedEntryByte(t, i, 23);
    EncodedEntryByte(t, i, 24);
    EncodedName(t, i);
    Le16RoundTrip(t[i].len);
    Le32RoundTrip(t[i].startLba);
  }

  lemma EncodedName(t: Table, i: nat)
    requires i < MAX_ENTRIES
    ensures EncodeTable(t)[4 + i * ENTRY_LEN + 2..4 + i * ENTRY_LEN + 18] == t[i].name
  {
    var s := EncodeTable(t);
    var off := 4 + i * ENTRY_LEN;
    forall j | 0 <= j < 16 ensures s[off + 2..off + 18][j] == t[i].name[j] {
      EncodedEntryByte(t, i, 2 + j);
      assert s[off + 2..off + 18][j] == s[off + (2 + j)];
    }
  }

  /** Loading the sector that was saved gives back every field of every entry. */
  lemma LoadAfterSave(t: Table)
    ensures DecodeTable(EncodeTable(t)) == t
  {
    var s := EncodeTable(t);
    Le32RoundTrip(MAGIC);
    forall i: nat | i < MAX_ENTRIES
      ensures DecodeTable(s)[i] == t[i]
    {
      DecodeEncodedEntry(t, i);
    }
  }

  /** Where everything lies in a saved sector: the magic number, then for each entry its two flags, its name, its length,
      first sector and sector count, numbers little-endian; zeros after the eighth. */
  lemma SectorLayout(t: Table, i: nat)
    requires i < 8
    ensures var s, off := EncodeTable(t), 4 + 25 * i;
            && s[off] == (if t[i].used then 1 else 0) && s[off + 1] == (if t[i].isDir then 1 else 0)
            && s[off + 2..off + 18] == t[i].name
            && (s[off + 18] as int) + 256 * (s[off + 19] as int) == t[i].len
            && (s[off + 20] as int) + 256 * (s[off + 21] as int) + 65536 * (s[off + 22] as int) + 16777216 * (s[off + 23] as int) == t[i].startLba
            && s[off + 24] == t[i].sectorCount
  {
    hide EncodeTable, LeByte;
    EncodedEntryByte(t, i, 0);
    EncodedEntryByte(t, i, 1);
    EncodedName(t, i);
    EncodedEntryByte(t, i, 18);
    EncodedEntryByte(t, i, 19);
    EncodedEntryByte(t, i, 20);
    EncodedEntryByte(t, i, 21);
    EncodedEntryByte(t, i, 22);
    EncodedEntryByte(t, i, 23);
    EncodedEntryByte(t, i, 24);
    Le16RoundTrip(t[i].len);
    Le32RoundTrip(t[i].startLba);
  }

  /** What any sector that starts with the magic number means, entry by entry: any non-zero flag byte is a set flag. */
  lemma SectorReads(s: Sector, i: nat)
    requires s[..4] == [0x46, 0x4B, 0x50, 0x53] && i < 8
    ensures var e, off := DecodeTable(s)[i], 4 + 25 * i;
            && (e.used <==> s[off] != 0) && (e.isDir <==> s[off + 1] != 0) && e.name == s[off + 2..off + 18]
            && e.len == (s[off + 18] as int) + 256 * (s[off + 19] as int)
            && e.startLba == (s[off + 20] as int) + 256 * (s[off + 21] as int) + 65536 * (s[off + 22] as int) + 16777216 * (s[off + 23] as int)
            && e.sectorCount == s[off + 24]
  {
    MagicHere(s);
  }

  lemma MagicHere(s: Sector)
    requires s[..4] == [0x46, 0x4B, 0x50, 0x53]
    ensures Le32(s[0], s[1], s[2], s[3]) == MAGIC
  {
    assert s[..4] == [s[0], s[1], s[2], s[3]];
  }

  lemma SectorFrame(t: Table)
    ensures EncodeTable(t)[..4] == [0x46, 0x4B, 0x50, 0x53]
    ensures forall k :: 204 <= k < 512 ==> EncodeTable(t)[k] == 0
  {
    hide LeByte, EntryByte;
    MagicValues();
  }

  lemma MagicValues()
    ensures LeByte(MAGIC, 0) == 0x46 && LeByte(MAGIC, 1) == 0x4B && LeByte(MAGIC, 2) == 0x50 && LeByte(MAGIC, 3) == 0x53
  {
    assert LeByte(MAGIC, 1) == LeByte(MAGIC / 0x100, 0);
    assert LeByte(MAGIC, 2) == LeByte(MAGIC / 0x100, 1) == LeByte(MAGIC / 0x1_0000, 0);
    assert LeByte(MAGIC, 3) == LeByte(MAGIC / 0x100, 2) == LeByte(MAGIC / 0x1_0000, 1) == LeByte(MAGIC / 0x100_0000, 0);
  }

  /** Any sector that does not start with the four magic bytes reads as an empty directory; a zeroed one is such. */
  lemma BlankSectorIsEmpty(s: Sector)
    requires s[..4] != EncodeTable(EMPTY_TABLE)[..4]
    ensures DecodeTable(s) == EMPTY_TABLE
  {
    if Le32(s[0], s[1], s[2], s[3]) == MAGIC {
      MagicPrefix(s);
    }
  }

  lemma MagicPrefix(s: Sector)
    requires Le32(s[0], s[1], s[2], s[3]) == MAGIC
    ensures s[..4] == EncodeTable(EMPTY_TABLE)[..4]
  {
    MagicBytes(s[0], s[1], s[2], s[3]);
  }

  lemma MagicBytes(b0: Byte, b1: Byte, b2: Byte, b3: Byte)
    requires Le32(b0, b1, b2, b3) == MAGIC
    ensures b0 == LeByte(MAGIC, 0) && b1 == LeByte(MAGIC, 1) && b2 == LeByte(MAGIC, 2) && b3 == LeByte(MAGIC, 3)
  {
    Le32RoundTrip(MAGIC);
    assert LeByte(MAGIC, 0) == 0x46;
    assert LeByte(MAGIC, 1) == LeByte(MAGIC / 0x100, 0) == 0x4B;
    assert LeByte(MAGIC, 2) == LeByte(MAGIC / 0x100, 1) == LeByte(MAGIC / 0x1_0000, 0) == 0x50;
    assert LeByte(MAGIC, 3) == LeByte(MAGIC / 0x100, 2) == LeByte(MAGIC / 0x1_0000, 1) == LeByte(MAGIC / 0x100_0000, 0) == 0x53;
  }
}
