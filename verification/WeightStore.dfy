/** Synapse weights on their own sector: names and packed weights, saved and loaded (kernel/src/ata.rs). */
module WeightStore {
  import opened Common
  import opened DirCodec
  import opened Ternary
  import Fs = FsSpec

  const STORE_MAGIC: U32 := 0x53504B32
  const FORMAT_VERSION := 1
  const STORE_ENTRY_LEN := 34
  const HEADER_LEN := 8
  const MAX_SYNAPSES := 14

  type Text = seq<Byte>

  datatype Entry = Entry(from: Text, to: Text, weight: real)

  // ---- Names ----

  predicate Follows(b: seq<Byte>, i: nat) {
    i < |b| && 0x80 <= b[i] <= 0xBF
  }

  /** Well-formed UTF-8 (Unicode Standard, table 3-7). */
  predicate Utf8(b: seq<Byte>) {
    if b == [] then true
    else if b[0] <= 0x7F then Utf8(b[1..])
    else if 0xC2 <= b[0] <= 0xDF then Follows(b, 1) && Utf8(b[2..])
    else if 0xE0 <= b[0] <= 0xEF then
      && Follows(b, 1) && Follows(b, 2)
      && (b[0] == 0xE0 ==> b[1] >= 0xA0) && (b[0] == 0xED ==> b[1] <= 0x9F)
      && Utf8(b[3..])
    else if 0xF0 <= b[0] <= 0xF4 then
      && Follows(b, 1) && Follows(b, 2) && Follows(b, 3)
      && (b[0] == 0xF0 ==> b[1] >= 0x90) && (b[0] == 0xF4 ==> b[1] <= 0x8F)
      && Utf8(b[4..])
    else false
  }

  /** Position of the first zero byte at or after `i`, or the length. */
  function FirstNul(b: seq<Byte>, i: nat): (k: nat)
    requires i <= |b|
    decreases |b| - i
    ensures i <= k <= |b|
    ensures k < |b| ==> b[k] == 0
    ensures forall j :: i <= j < k ==> b[j] != 0
  {
    if i == |b| || b[i] == 0 then i else FirstNul(b, i + 1)
  }

  /** The name in a sixteen-byte field; not UTF-8 reads as empty. */
  function ReadName(field: Name): Text {
    var s := field[..FirstNul(field, 0)];
    if Utf8(s) then s else []
  }

  predicate NulFree(s: Text) {
    forall i :: 0 <= i < |s| ==> s[i] != 0
  }

  /** A name that its field can hold. */
  predicate Fits(s: Text) {
    |s| <= NAME_LEN && NulFree(s)
  }

  /** A UTF-8 name comes back from its field if and only if it is at most sixteen bytes without a zero byte. */
  lemma NameRoundTripIff(s: Text)
    requires Utf8(s)
    ensures ReadName(Fs.NameBytes(s)) == s <==> Fits(s)
  {
    hide Utf8;
    var field := Fs.NameBytes(s);
    var k := FirstNul(field, 0);
    if Fits(s) {
      assert forall i :: 0 <= i < |s| ==> field[i] == s[i];
      assert forall i :: 0 <= i < |s| ==> field[i] != 0;
      assert |s| < NAME_LEN ==> field[|s|] == 0;
      assert field[..k] == s;
    }
  }

  // ---- The sector ----

  function Stored(n: nat): nat {
    Min(n, MAX_SYNAPSES)
  }

  /** Byte `j` of an entry's 34. */
  function EntryByteAt(e: Entry, j: nat): Byte
    requires j < STORE_ENTRY_LEN
  {
    EncodeLength(e.weight);
    if j < 16 then Fs.NameBytes(e.from)[j] else if j < 32 then Fs.NameBytes(e.to)[j - 16] else Encode(e.weight)[j - 32]
  }

  function StoreByte(es: seq<Entry>, k: nat): Byte {
    if k < 4 then LeByte(STORE_MAGIC, k)
    else if k == 4 then FORMAT_VERSION
    else if k == 5 then Stored(|es|)
    else if k == 6 then TRITS_PER_WEIGHT
    else if k == 7 then 0
    else if k < HEADER_LEN + STORE_ENTRY_LEN * Stored(|es|) then
      EntryByteAt(es[(k - HEADER_LEN) / STORE_ENTRY_LEN], (k - HEADER_LEN) % STORE_ENTRY_LEN)
    else 0
  }

  function StoreSector(es: seq<Entry>): Sector {
    seq(512, k requires 0 <= k => StoreByte(es, k))
  }

  /** The disk after saving, or an error when there is nothing to save. */
  function Save(d: Fs.Disk, es: seq<Entry>): Option<Fs.Disk> {
    if es == [] then None else Some(d[0 := StoreSector(es)])
  }

  function EntryIn(s: Sector, i: nat): Entry
    requires i < MAX_SYNAPSES
  {
    var off := HEADER_LEN + i * STORE_ENTRY_LEN;
    Entry(ReadName(s[off..off + 16]), ReadName(s[off + 16..off + 32]), Decode(s[off + 32..off + 34]))
  }

  function Load(d: Fs.Disk): Option<seq<Entry>> {
    var s := d[0];
    if Le32(s[0], s[1], s[2], s[3]) != STORE_MAGIC then None
    else Some(seq(Stored(s[5]), i requires 0 <= i < Stored(s[5]) => EntryIn(s, i)))
  }

  /** An entry as it comes back: names through their fields, the weight at its nearest level. */
  function Restored(e: Entry): Entry {
    Entry(ReadName(Fs.NameBytes(e.from)), ReadName(Fs.NameBytes(e.to)), OfLevel(Level(e.weight)))
  }

  /** The first fourteen entries, as they come back. */
  function RestoredAll(es: seq<Entry>): (r: seq<Entry>)
    ensures |r| == Stored(|es|)
  {
    seq(Stored(|es|), i requires 0 <= i < Stored(|es|) => Restored(es[i]))
  }

  lemma StoredByte(es: seq<Entry>, i: nat, j: nat)
    requires i < Stored(|es|) && j < STORE_ENTRY_LEN
    ensures StoreSector(es)[HEADER_LEN + i * STORE_ENTRY_LEN + j] == EntryByteAt(es[i], j)
  {
    var k := HEADER_LEN + i * STORE_ENTRY_LEN + j;
    DivIs(k - HEADER_LEN, STORE_ENTRY_LEN, i);
    assert k < HEADER_LEN + STORE_ENTRY_LEN * Stored(|es|);
  }

  lemma FieldIs(es: seq<Entry>, i: nat, lo: nat, n: nat, field: seq<Byte>)
    requires i < Stored(|es|) && lo + n <= STORE_ENTRY_LEN && |field| == n
    requires forall j: nat :: j < n ==> EntryByteAt(es[i], lo + j) == field[j]
    ensures HEADER_LEN + i * STORE_ENTRY_LEN + lo + n <= 512
    ensures var off := HEADER_LEN + i * STORE_ENTRY_LEN + lo; StoreSector(es)[off..off + n] == field
  {
    hide EntryByteAt, StoreSector;
    var off := HEADER_LEN + i * STORE_ENTRY_LEN + lo;
    forall j: nat | j < n ensures StoreSector(es)[off..off + n][j] == field[j] {
      StoredByte(es, i, lo + j);
    }
  }

  lemma StoredEntry(es: seq<Entry>, i: nat)
    requires i < Stored(|es|)
    ensures EntryIn(StoreSector(es), i) == Restored(es[i])
  {
    hide StoreSector, ReadName, Decode, Encode, OfLevel, Level, Fs.NameBytes;
    var e := es[i];
    EncodeLength(e.weight);
    FieldIs(es, i, 0, 16, Fs.NameBytes(e.from));
    FieldIs(es, i, 16, 16, Fs.NameBytes(e.to));
    FieldIs(es, i, 32, 2, Encode(e.weight));
    DecodeEncode(e.weight);
  }

  lemma StoredHeader(es: seq<Entry>)
    ensures var s := StoreSector(es); Le32(s[0], s[1], s[2], s[3]) == STORE_MAGIC && s[5] == Stored(|es|)
  {
    Le32RoundTrip(STORE_MAGIC);
  }

  lemma StoreMagicValues()
    ensures LeByte(STORE_MAGIC, 0) == 0x32 && LeByte(STORE_MAGIC, 1) == 0x4B && LeByte(STORE_MAGIC, 2) == 0x50 && LeByte(STORE_MAGIC, 3) == 0x53
  {
    assert LeByte(STORE_MAGIC, 1) == LeByte(STORE_MAGIC / 0x100, 0);
    assert LeByte(STORE_MAGIC, 2) == LeByte(STORE_MAGIC / 0x100, 1) == LeByte(STORE_MAGIC / 0x1_0000, 0);
    assert LeByte(STORE_MAGIC, 3) == LeByte(STORE_MAGIC / 0x100, 2) == LeByte(STORE_MAGIC / 0x1_0000, 1) == LeByte(STORE_MAGIC / 0x100_0000, 0);
  }

  /** The saved sector's first eight bytes: magic, version 1, the number of entries kept, ten trits to a weight, zero. */
  lemma HeaderLayout(es: seq<Entry>)
    ensures StoreSector(es)[..8] == [0x32, 0x4B, 0x50, 0x53, 1, if |es| <= 14 then |es| else 14, 10, 0]
  {
    hide LeByte, EntryByteAt;
    StoreMagicValues();
  }

  /** Each kept entry in its 34 bytes: the two names in sixteen bytes each, cut or zero-padded, then the weight's level,
      low part first; zeros after the last. */
  lemma EntryLayout(es: seq<Entry>, i: nat)
    requires i < |es| && i < 14
    ensures var s, off := StoreSector(es), 8 + 34 * i;
            && s[off..off + 16] == Fs.NameBytes(es[i].from) && s[off + 16..off + 32] == Fs.NameBytes(es[i].to)
            && s[off + 32] == Level(es[i].weight) % 243 && s[off + 33] == Level(es[i].weight) / 243
            && forall k :: 8 + 34 * (if |es| <= 14 then |es| else 14) <= k < 512 ==> s[k] == 0
  {
    hide Encode, Level, Fs.NameBytes, LeByte, StoreSector;
    var e := es[i];
    EncodeLength(e.weight);
    EncodeBytes(e.weight);
    FieldIs(es, i, 0, 16, Fs.NameBytes(e.from));
    FieldIs(es, i, 16, 16, Fs.NameBytes(e.to));
    FieldIs(es, i, 32, 2, Encode(e.weight));
    WeightBytes(StoreSector(es), 8 + 34 * i, Encode(e.weight));
    ZerosAfter(es);
  }

  lemma WeightBytes(s: Sector, off: nat, w: seq<Byte>)
    requires off + 34 <= 512 && |w| == 2 && s[off + 32..off + 34] == w
    ensures s[off + 32] == w[0] && s[off + 33] == w[1]
  {
    assert s[off + 32..off + 34][0] == s[off + 32] && s[off + 32..off + 34][1] == s[off + 33];
  }

  lemma ZerosAfter(es: seq<Entry>)
    ensures forall k :: 8 + 34 * (if |es| <= 14 then |es| else 14) <= k < 512 ==> StoreSector(es)[k] == 0
  {
    hide LeByte, EntryByteAt;
  }

  /** There is something to load exactly when the sector starts with the magic number. */
  lemma LoadsIff(d: Fs.Disk)
    ensures Load(d).Some? <==> d[0][..4] == [0x32, 0x4B, 0x50, 0x53]
  {
    hide EntryIn, LeByte;
    var s := d[0];
    assert s[..4] == [s[0], s[1], s[2], s[3]];
    MagicIs(s[0], s[1], s[2], s[3]);
  }

  /** A sector that can be loaded gives as many entries as it counts, fourteen at most, each from its own 34 bytes: a
      name is its field up to the first zero byte, or empty if that is not UTF-8; a weight is its two bytes' value. */
  lemma LoadReads(d: Fs.Disk, i: nat)
    requires Load(d).Some?
    ensures |Load(d).value| == if d[0][5] <= 14 then d[0][5] else 14
    ensures i < |Load(d).value| ==> ReadsAs(d[0], 8 + 34 * i, Load(d).value[i])
  {
    hide ReadName, Decode, NameOf, TwoByteWeight;
    if i < |Load(d).value| {
      EntryReads(d[0], i);
    }
  }

  /** Entry `e` is what the 34 bytes from `off` on say. */
  predicate ReadsAs(s: Sector, off: nat, e: Entry) {
    off + 34 <= 512 && NameOf(s[off..off + 16], e.from) && NameOf(s[off + 16..off + 32], e.to)
    && e.weight == TwoByteWeight(s[off + 32], s[off + 33])
  }

  lemma EntryReads(s: Sector, i: nat)
    requires i < 14
    ensures ReadsAs(s, 8 + 34 * i, EntryIn(s, i))
  {
    hide ReadName, Decode, NameOf, TwoByteWeight;
    var off := 8 + 34 * i;
    NameIs(s[off..off + 16]);
    NameIs(s[off + 16..off + 32]);
    assert s[off + 32..off + 34] == [s[off + 32], s[off + 33]];
    DecodeBytes(s[off + 32], s[off + 33]);
  }

  /** `t` is the text in a name field. */
  predicate NameOf(field: Name, t: Text) {
    exists k :: 0 <= k <= 16 && (k < 16 ==> field[k] == 0) && NulFree(field[..k]) && t == if Utf8(field[..k]) then field[..k] else []
  }

  lemma NameIs(field: Name)
    ensures NameOf(field, ReadName(field))
  {
    hide Utf8;
    var k := FirstNul(field, 0);
    assert NulFree(field[..k]);
  }

  lemma MagicIs(b0: Byte, b1: Byte, b2: Byte, b3: Byte)
    ensures Le32(b0, b1, b2, b3) == STORE_MAGIC <==> b0 == 0x32 && b1 == 0x4B && b2 == 0x50 && b3 == 0x53
  {
  }

  /** Loading what was saved gives the first fourteen entries, in order, each as it comes back. */
  lemma LoadAfterSave(d: Fs.Disk, es: seq<Entry>)
    requires es != []
    ensures Load(Save(d, es).value) == Some(RestoredAll(es))
  {
    hide StoreSector, EntryIn, Restored;
    StoredHeader(es);
    forall i: nat | i < Stored(|es|) ensures EntryIn(StoreSector(es), i) == Restored(es[i]) {
      StoredEntry(es, i);
    }
    assert Load(Save(d, es).value).value == RestoredAll(es);
  }

  predicate NamesFit(es: seq<Entry>) {
    forall i :: 0 <= i < |es| ==> Utf8(es[i].from) && Utf8(es[i].to) && Fits(es[i].from) && Fits(es[i].to)
  }

  /** With names that fit, loading returns every name exactly and every weight within half a level. */
  lemma LoadExact(d: Fs.Disk, es: seq<Entry>, i: nat)
    requires es != [] && NamesFit(es) && i < |es| <= MAX_SYNAPSES
    ensures Load(Save(d, es).value).Some? && |Load(Save(d, es).value).value| == |es|
    ensures var e := Load(Save(d, es).value).value[i];
            && e.from == es[i].from && e.to == es[i].to
            && -1.0 / 118096.0 <= e.weight - Clamp(es[i].weight) <= 1.0 / 118096.0
  {
    hide Load, Save, Utf8, ReadName, Clamp, Level, OfLevel, Fs.NameBytes, Decode, Encode;
    LoadAfterSave(d, es);
    NameRoundTripIff(es[i].from);
    NameRoundTripIff(es[i].to);
    DecodeEncode(es[i].weight);
    WithinHalfLevel(es[i].weight);
  }

  lemma RestoredBytes(e: Entry, j: nat)
    requires j < STORE_ENTRY_LEN && Utf8(e.from) && Utf8(e.to) && Fits(e.from) && Fits(e.to)
    ensures EntryByteAt(Restored(e), j) == EntryByteAt(e, j)
  {
    hide Utf8, ReadName, Level, OfLevel, Fs.NameBytes, Decode, Encode, Fits;
    NameRoundTripIff(e.from);
    NameRoundTripIff(e.to);
    DecodeEncode(e.weight);
    EncodeAgain(e.weight);
  }

  /** Saving what was loaded writes the identical sector. */
  lemma SaveAgain(d: Fs.Disk, es: seq<Entry>)
    requires es != [] && NamesFit(es)
    ensures Save(d, Load(Save(d, es).value).value) == Save(d, es)
  {
    hide Load, Restored, EntryByteAt, Utf8, Fits;
    LoadAfterSave(d, es);
    var n := Stored(|es|);
    var again := RestoredAll(es);
    forall k: nat | k < 512 ensures StoreByte(again, k) == StoreByte(es, k) {
      if HEADER_LEN <= k < HEADER_LEN + STORE_ENTRY_LEN * n {
        DivBounds(k - HEADER_LEN, STORE_ENTRY_LEN);
        RestoredBytes(es[(k - HEADER_LEN) / STORE_ENTRY_LEN], (k - HEADER_LEN) % STORE_ENTRY_LEN);
      }
    }
    assert StoreSector(again) == StoreSector(es);
  }

  // ---- As the kernel does it ----

  class Store {
    var disk: Fs.Disk

    constructor (d: Fs.Disk)
      ensures disk == d
    {
      disk := d;
    }

    static method PutName(buf: array<Byte>, off: nat, name: Text)
      requires off + 16 <= buf.Length
      requires forall k :: off <= k < off + 16 ==> buf[k] == 0
      modifies buf
      ensures forall j: nat :: j < 16 ==> buf[off + j] == Fs.NameBytes(name)[j]
      ensures forall k :: 0 <= k < buf.Length && !(off <= k < off + 16) ==> buf[k] == old(buf[k])
    {
      var n := Min(|name|, NAME_LEN);
      forall k | 0 <= k < n {
        buf[off + k] := name[k];
      }
      assert forall j: nat :: j < 16 ==> buf[off + j] == if j < n then name[j] else 0;
    }

    static method PutEntry(buf: array<Byte>, off: nat, e: Entry)
      requires off + STORE_ENTRY_LEN <= buf.Length
      requires forall k :: off <= k < off + STORE_ENTRY_LEN ==> buf[k] == 0
      modifies buf
      ensures forall j: nat :: j < STORE_ENTRY_LEN ==> buf[off + j] == EntryByteAt(e, j)
      ensures forall k :: 0 <= k < buf.Length && !(off <= k < off + STORE_ENTRY_LEN) ==> buf[k] == old(buf[k])
    {
      hide Fs.NameBytes, Encode;
      PutName(buf, off, e.from);
      PutName(buf, off + 16, e.to);
      var packed := EncodeWeight(e.weight);
      buf[off + 32], buf[off + 33] := packed[0], packed[1];
      assert forall j: nat :: j < 16 ==> buf[off + 16 + j] == Fs.NameBytes(e.to)[j];
      forall j: nat | j < STORE_ENTRY_LEN ensures buf[off + j] == EntryByteAt(e, j) {
        assert 16 <= j < 32 ==> buf[off + 16 + (j - 16)] == Fs.NameBytes(e.to)[j - 16];
      }
    }

    /** Magic, version, count and trit count; the eighth byte stays zero. */
    static method PutHeader(buf: array<Byte>, es: seq<Entry>)
      requires buf.Length == 512 && forall k: nat :: k < 512 ==> buf[k] == 0
      modifies buf
      ensures forall k: nat :: k < HEADER_LEN ==> buf[k] == StoreByte(es, k)
      ensures forall k: nat :: HEADER_LEN <= k < 512 ==> buf[k] == 0
    {
      hide StoreByte, LeByte;
      HeaderBytes(es);
      buf[0], buf[1] := LeByte(STORE_MAGIC, 0), LeByte(STORE_MAGIC, 1);
      buf[2], buf[3] := LeByte(STORE_MAGIC, 2), LeByte(STORE_MAGIC, 3);
      buf[4], buf[5], buf[6] := FORMAT_VERSION, Min(|es|, MAX_SYNAPSES), TRITS_PER_WEIGHT;
    }

    method SaveWeights(es: seq<Entry>) returns (ok: bool)
      modifies this
      ensures ok <==> es != []
      ensures if ok then Save(old(disk), es) == Some(disk) else disk == old(disk)
    {
      hide EntryByteAt, StoreByte, LeByte;
      if es == [] {
        return false;
      }
      var count := Min(|es|, MAX_SYNAPSES);
      var buf := new Byte[512](_ => 0);
      PutHeader(buf, es);
      var off := HEADER_LEN;
      var i := 0;
      while i < count
        invariant 0 <= i <= count
        invariant off == HEADER_LEN + i * STORE_ENTRY_LEN
        invariant disk == old(disk)
        invariant forall k: nat :: k < off ==> buf[k] == StoreByte(es, k)
        invariant forall k: nat :: off <= k < 512 ==> buf[k] == 0
      {
        PutEntry(buf, off, es[i]);
        EntryPlaced(buf[..], es, i);
        off := off + STORE_ENTRY_LEN;
        i := i + 1;
      }
      HeaderBytes(es);
      BytesAreSector(buf[..], es);
      disk := disk[0 := buf[..]];
      ok := true;
    }

    static lemma HeaderBytes(es: seq<Entry>)
      ensures forall k: nat :: k < 4 ==> StoreByte(es, k) == LeByte(STORE_MAGIC, k)
      ensures StoreByte(es, 4) == FORMAT_VERSION && StoreByte(es, 5) == Stored(|es|)
      ensures StoreByte(es, 6) == TRITS_PER_WEIGHT && StoreByte(es, 7) == 0
      ensures forall k: nat :: HEADER_LEN + STORE_ENTRY_LEN * Stored(|es|) <= k ==> StoreByte(es, k) == 0
    {
      hide EntryByteAt, LeByte;
    }

    static lemma BytesAreSector(b: seq<Byte>, es: seq<Entry>)
      requires |b| == 512 && forall k: nat :: k < 512 ==> b[k] == StoreByte(es, k)
      ensures b == StoreSector(es)
    {
      hide StoreByte;
    }

    static lemma EntryPlaced(b: seq<Byte>, es: seq<Entry>, i: nat)
      requires |b| == 512 && i < Stored(|es|)
      requires forall j: nat :: j < STORE_ENTRY_LEN ==> b[HEADER_LEN + i * STORE_ENTRY_LEN + j] == EntryByteAt(es[i], j)
      ensures forall k: nat :: HEADER_LEN + i * STORE_ENTRY_LEN <= k < HEADER_LEN + (i + 1) * STORE_ENTRY_LEN ==> b[k] == StoreByte(es, k)
    {
      hide EntryByteAt, StoreByte;
      forall k: nat | HEADER_LEN + i * STORE_ENTRY_LEN <= k < HEADER_LEN + (i + 1) * STORE_ENTRY_LEN ensures b[k] == StoreByte(es, k) {
        var j := k - (HEADER_LEN + i * STORE_ENTRY_LEN);
        StoredByte(es, i, j);
        assert b[HEADER_LEN + i * STORE_ENTRY_LEN + j] == EntryByteAt(es[i], j);
        SectorByte(es, k);
      }
    }

    static lemma SectorByte(es: seq<Entry>, k: nat)
      requires k < 512
      ensures StoreSector(es)[k] == StoreByte(es, k)
    {
    }

    method LoadWeights() returns (r: Option<seq<Entry>>)
      ensures r == Load(disk)
    {
      hide Decode, ReadName;
      var buf := disk[0];
      if Le32(buf[0], buf[1], buf[2], buf[3]) != STORE_MAGIC {
        return None;
      }
      var count := Min(buf[5], MAX_SYNAPSES);
      var out: seq<Entry> := [];
      var off := HEADER_LEN;
      var i := 0;
      while i < count
        invariant 0 <= i <= count
        invariant off == HEADER_LEN + i * STORE_ENTRY_LEN
        invariant |out| == i && forall k :: 0 <= k < i ==> out[k] == EntryIn(buf, k)
      {
        var w := DecodeWeight(buf[off + 32..off + 34]);
        out := out + [Entry(ReadName(buf[off..off + 16]), ReadName(buf[off + 16..off + 32]), w)];
        off := off + STORE_ENTRY_LEN;
        i := i + 1;
      }
      assert out == Load(disk).value;
      r := Some(out);
    }
  }
}
