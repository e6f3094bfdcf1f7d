/** The ELF64 parser (kernel/src/elf.rs). */
module Elf {
  import opened Common
  import opened DirCodec

  const EHDR_SIZE := 64
  const PHDR_SIZE := 56
  const ET_EXEC := 2
  const EM_X86_64 := 0x3E
  const PT_LOAD := 1
  const MAX_LOAD_SEGMENTS := 8
  const TWO_64 := 0x1_0000_0000_0000_0000

  /** A file in memory: its length is a machine word. */
  type Image = s: seq<Byte> | |s| < TWO_64 witness []

  datatype Segment = Segment(vaddr: U64, offset: U64, fileSize: U64, memSize: U64, flags: U32)

  datatype ElfImage = ElfImage(entry: U64, segments: seq<Segment>)

  datatype ElfError =
    | TooSmall | BadMagic | NotClass64 | NotLittleEndian | NotExecutable | NotX86 | NoHeaders | OddHeaderSize
    | TableOverflow | TablePastEnd | MemBelowFile | RangeOverflow | RangePastEnd | TooManySegments | NoSegments

  function ReadU16(image: Image, off: nat): U16
    requires off + 2 <= |image|
  {
    Le16(image[off], image[off + 1])
  }

  function ReadU32(image: Image, off: nat): U32
    requires off + 4 <= |image|
  {
    Le32(image[off], image[off + 1], image[off + 2], image[off + 3])
  }

  function ReadU64(image: Image, off: nat): U64
    requires off + 8 <= |image|
  {
    ReadU32(image, off) + 0x1_0000_0000 * ReadU32(image, off + 4)
  }

  function Phoff(image: Image): U64
    requires |image| >= EHDR_SIZE
  {
    ReadU64(image, 32)
  }

  function Phnum(image: Image): U16
    requires |image| >= EHDR_SIZE
  {
    ReadU16(image, 56)
  }

  /** The first header check that fails, in the parser's order. */
  function HeaderError(image: Image): Option<ElfError> {
    if |image| < EHDR_SIZE then Some(TooSmall)
    else if image[..4] != [0x7F, 0x45, 0x4C, 0x46] then Some(BadMagic)
    else if image[4] != 2 then Some(NotClass64)
    else if image[5] != 1 then Some(NotLittleEndian)
    else if ReadU16(image, 16) != ET_EXEC then Some(NotExecutable)
    else if ReadU16(image, 18) != EM_X86_64 then Some(NotX86)
    else if Phnum(image) == 0 then Some(NoHeaders)
    else if ReadU16(image, 54) != PHDR_SIZE then Some(OddHeaderSize)
    else if Phoff(image) + PHDR_SIZE * Phnum(image) >= TWO_64 then Some(TableOverflow)
    else if Phoff(image) + PHDR_SIZE * Phnum(image) > |image| then Some(TablePastEnd)
    else None
  }

  predicate HasHeader(image: Image, i: nat) {
    |image| >= EHDR_SIZE && Phoff(image) + PHDR_SIZE * (i + 1) <= |image|
  }

  function IsLoad(image: Image, i: nat): bool
    requires HasHeader(image, i)
  {
    ReadU32(image, Phoff(image) + PHDR_SIZE * i) == PT_LOAD
  }

  /** Program header `i` as a segment. */
  function HeaderAt(image: Image, i: nat): Segment
    requires HasHeader(image, i)
  {
    var off := Phoff(image) + PHDR_SIZE * i;
    Segment(ReadU64(image, off + 16), ReadU64(image, off + 8), ReadU64(image, off + 32), ReadU64(image, off + 40),
            ReadU32(image, off + 4))
  }

  function SegmentError(image: Image, s: Segment): Option<ElfError> {
    if s.memSize < s.fileSize then Some(MemBelowFile)
    else if s.offset + s.fileSize >= TWO_64 then Some(RangeOverflow)
    else if s.offset + s.fileSize > |image| then Some(RangePastEnd)
    else None
  }

  /** Segments collected from headers `i..n` after `found`. */
  function Collect(image: Image, i: nat, n: nat, found: seq<Segment>): Result<seq<Segment>, ElfError>
    requires i <= n && (n > 0 ==> HasHeader(image, n - 1))
    decreases n - i
  {
    if i == n then Ok(found)
    else if !IsLoad(image, i) then Collect(image, i + 1, n, found)
    else
      var s := HeaderAt(image, i);
      var e := SegmentError(image, s);
      if e.Some? then Err(e.value)
      else if |found| >= MAX_LOAD_SEGMENTS then Err(TooManySegments)
      else Collect(image, i + 1, n, found + [s])
  }

  function Parse(image: Image): Result<ElfImage, ElfError> {
    var e := HeaderError(image);
    if e.Some? then Err(e.value)
    else
      match Collect(image, 0, Phnum(image), [])
      case Err(e) => Err(e)
      case Ok(segments) => if segments == [] then Err(NoSegments) else Ok(ElfImage(ReadU64(image, 24), segments))
  }

  // ---- What an accepted file guarantees ----

  /** File range inside the file, memory at least as large. */
  predicate SegmentOk(image: Image, s: Segment) {
    s.fileSize <= s.memSize && s.offset + s.fileSize <= |image|
  }

  predicate AllOk(image: Image, segments: seq<Segment>) {
    forall k :: 0 <= k < |segments| ==> SegmentOk(image, segments[k])
  }

  /** The load headers below `n`, in order. */
  function Loads(image: Image, n: nat): seq<Segment>
    requires n > 0 ==> HasHeader(image, n - 1)
  {
    if n == 0 then [] else Loads(image, n - 1) + (if IsLoad(image, n - 1) then [HeaderAt(image, n - 1)] else [])
  }

  lemma {:induction false} CollectIs(image: Image, i: nat, n: nat, found: seq<Segment>)
    requires i <= n && (n > 0 ==> HasHeader(image, n - 1))
    requires found == Loads(image, i) && AllOk(image, found) && |found| <= MAX_LOAD_SEGMENTS
    ensures Collect(image, i, n, found).Ok? <==> AllOk(image, Loads(image, n)) && |Loads(image, n)| <= MAX_LOAD_SEGMENTS
    ensures Collect(image, i, n, found).Ok? ==> Collect(image, i, n, found).value == Loads(image, n)
    decreases n - i
  {
    hide ReadU16, ReadU32, ReadU64, HeaderAt, IsLoad, Phoff;
    if i < n {
      LoadsPrefix(image, i + 1, n);
      if !IsLoad(image, i) {
        assert Loads(image, i + 1) == found + [];
        CollectIs(image, i + 1, n, found);
      } else {
        var s := HeaderAt(image, i);
        assert Loads(image, i + 1) == found + [s];
        var all := Loads(image, n);
        assert all[|found|] == s;
        if SegmentError(image, s).None? && |found| < MAX_LOAD_SEGMENTS {
          CollectIs(image, i + 1, n, found + [s]);
        } else {
          assert !SegmentOk(image, all[|found|]) || |all| > MAX_LOAD_SEGMENTS;
        }
      }
    }
  }

  lemma {:induction false} LoadsPrefix(image: Image, i: nat, n: nat)
    requires i <= n && (n > 0 ==> HasHeader(image, n - 1))
    ensures i > 0 ==> HasHeader(image, i - 1)
    ensures Loads(image, i) <= Loads(image, n)
    decreases n - i
  {
    if i < n {
      LoadsPrefix(image, i, n - 1);
    }
  }

  /** A file is accepted exactly when its header is sound and its load segments are between one and
      eight, each with its file range inside the file; the result lists exactly those, in order. */
  lemma ParseAccepts(image: Image)
    ensures Parse(image).Ok? <==>
              && HeaderError(image).None?
              && AllOk(image, Loads(image, Phnum(image)))
              && 1 <= |Loads(image, Phnum(image))| <= MAX_LOAD_SEGMENTS
    ensures Parse(image).Ok? ==> Parse(image).value == ElfImage(ReadU64(image, 24), Loads(image, Phnum(image)))
  {
    hide ReadU16, ReadU32, ReadU64, HeaderAt, IsLoad, Loads, Collect;
    if HeaderError(image).None? {
      NoLoadsYet(image);
      CollectIs(image, 0, Phnum(image), []);
    }
  }

  lemma NoLoadsYet(image: Image)
    ensures Loads(image, 0) == []
  {
  }

  /** Walks the headers as the kernel does; every read is inside the file. */
  method ParseElf(image: Image) returns (r: Result<ElfImage, ElfError>)
    ensures r == Parse(image)
  {
    hide ReadU16, ReadU32, ReadU64;
    var e := HeaderError(image);
    if e.Some? {
      return Err(e.value);
    }
    var phnum := Phnum(image);
    var segments: seq<Segment> := [];
    var i := 0;
    while i < phnum
      invariant 0 <= i <= phnum
      invariant Collect(image, i, phnum, segments) == Collect(image, 0, phnum, [])
    {
      if IsLoad(image, i) {
        var s := HeaderAt(image, i);
        if s.memSize < s.fileSize {
          return Err(MemBelowFile);
        }
        if s.offset + s.fileSize >= TWO_64 {
          return Err(RangeOverflow);
        }
        if s.offset + s.fileSize > |image| {
          return Err(RangePastEnd);
        }
        if |segments| >= MAX_LOAD_SEGMENTS {
          return Err(TooManySegments);
        }
        segments := segments + [s];
      }
      i := i + 1;
    }
    if segments == [] {
      return Err(NoSegments);
    }
    r := Ok(ElfImage(ReadU64(image, 24), segments));
  }

  // ---- The file layout ----

  /** A field of a C structure: its width in bytes and its value. */
  datatype Field = Field(width: nat, value: nat)

  predicate FieldOk(f: Field) {
    (f.width == 2 && f.value < 0x1_0000) || (f.width == 4 && f.value < 0x1_0000_0000) || (f.width == 8 && f.value < TWO_64)
  }

  predicate FieldsOk(fs: seq<Field>) {
    forall k :: 0 <= k < |fs| ==> FieldOk(fs[k])
  }

  /** The low `n` bytes of a number, least significant first. */
  function LittleEndian(x: nat, n: nat): (b: seq<Byte>)
    ensures |b| == n
    decreases n
  {
    if n == 0 then [] else [x % 0x100] + LittleEndian(x / 0x100, n - 1)
  }

  /** Fields packed one after the other. */
  function Packed(fs: seq<Field>): seq<Byte> {
    if fs == [] then [] else LittleEndian(fs[0].value, fs[0].width) + Packed(fs[1..])
  }

  function Offset(fs: seq<Field>, k: nat): nat
    requires k <= |fs|
  {
    if k == 0 then 0 else Offset(fs, k - 1) + fs[k - 1].width
  }

  lemma {:induction false} OffsetTail(fs: seq<Field>, k: nat)
    requires 0 < k <= |fs|
    ensures Offset(fs, k) == fs[0].width + Offset(fs[1..], k - 1)
  {
    if k > 1 {
      OffsetTail(fs, k - 1);
    }
  }

  lemma {:induction false} PackedField(fs: seq<Field>, k: nat)
    requires k < |fs|
    ensures Offset(fs, k) + fs[k].width <= |Packed(fs)|
    ensures Packed(fs)[Offset(fs, k)..Offset(fs, k) + fs[k].width] == LittleEndian(fs[k].value, fs[k].width)
    decreases |fs|
  {
    hide LittleEndian, Packed, Offset;
    var head, tail := LittleEndian(fs[0].value, fs[0].width), Packed(fs[1..]);
    PackedHead(fs);
    if k == 0 {
      OffsetHead(fs);
    } else {
      PackedField(fs[1..], k - 1);
      OffsetTail(fs, k);
      AfterHead(head, tail, Offset(fs[1..], k - 1), fs[k].width);
    }
  }

  lemma PackedHead(fs: seq<Field>)
    requires fs != []
    ensures Packed(fs) == LittleEndian(fs[0].value, fs[0].width) + Packed(fs[1..])
  {
    hide LittleEndian;
  }

  lemma OffsetHead(fs: seq<Field>)
    ensures Offset(fs, 0) == 0
  {
  }

  lemma AfterHead(head: seq<Byte>, tail: seq<Byte>, o: nat, w: nat)
    requires o + w <= |tail|
    ensures (head + tail)[|head| + o..|head| + o + w] == tail[o..o + w]
  {
  }

  lemma Read16(image: Image, off: nat, x: U16)
    requires off + 2 <= |image| && image[off..off + 2] == LittleEndian(x, 2)
    ensures ReadU16(image, off) == x
  {
    var b := LittleEndian(x, 2);
    assert LittleEndian(x / 0x100, 1) == [x / 0x100 % 0x100] + LittleEndian(x / 0x100 / 0x100, 0);
    assert image[off] == b[0] && image[off + 1] == b[1];
  }

  lemma Read32(image: Image, off: nat, x: U32)
    requires off + 4 <= |image| && image[off..off + 4] == LittleEndian(x, 4)
    ensures ReadU32(image, off) == x
  {
    var b := LittleEndian(x, 4);
    var y := x / 0x100;
    var z := y / 0x100;
    var w := z / 0x100;
    assert b[1..] == LittleEndian(y, 3) && b[1..][1..] == LittleEndian(z, 2) && b[1..][1..][1..] == LittleEndian(w, 1);
    assert b[0] == x % 0x100 && b[1] == y % 0x100 && b[2] == z % 0x100 && b[3] == w % 0x100;
    assert image[off] == b[0] && image[off + 1] == b[1] && image[off + 2] == b[2] && image[off + 3] == b[3];
  }

  lemma {:induction false} LittleEndianSplit(x: nat, n: nat, m: nat, hi: nat, lo: nat)
    requires x == Power256(n) * hi + lo && lo < Power256(n)
    ensures LittleEndian(x, n + m) == LittleEndian(lo, n) + LittleEndian(hi, m)
    decreases n
  {
    hide Power256, LittleEndian;
    Power256Step(n);
    if n == 0 {
      SplitNone(x, m);
    } else {
      PowerSplit(x, Power256(n - 1), hi, lo);
      LittleEndianSplit(x / 0x100, n - 1, m, hi, lo / 0x100);
      SplitHead(x, n + m);
      SplitHead(lo, n);
      assert n - 1 + m == n + m - 1;
    }
  }

  lemma SplitNone(x: nat, m: nat)
    ensures LittleEndian(x, m) == LittleEndian(0, 0) + LittleEndian(x, m)
  {
  }

  lemma SplitHead(x: nat, n: nat)
    requires n > 0
    ensures LittleEndian(x, n) == [x % 0x100] + LittleEndian(x / 0x100, n - 1)
  {
  }

  lemma Power256Step(n: nat)
    ensures Power256(n) == if n == 0 then 1 else 0x100 * Power256(n - 1)
  {
  }

  function Power256(n: nat): (p: nat)
    ensures p > 0
  {
    if n == 0 then 1 else 0x100 * Power256(n - 1)
  }

  lemma PowerSplit(x: nat, q: nat, hi: nat, lo: nat)
    requires x == 0x100 * q * hi + lo && lo < 0x100 * q
    ensures lo % 0x100 == x % 0x100 && lo / 0x100 < q
    ensures x / 0x100 == q * hi + lo / 0x100
  {
    assert 0x100 * q * hi == 0x100 * (q * hi);
  }

  lemma Read64(image: Image, off: nat, x: U64)
    requires off + 8 <= |image| && image[off..off + 8] == LittleEndian(x, 8)
    ensures ReadU64(image, off) == x
  {
    hide ReadU32, LittleEndian;
    assert Power256(2) == 0x1_0000 && Power256(4) == 0x1_0000_0000;
    var lo, hi := x % 0x1_0000_0000, x / 0x1_0000_0000;
    LittleEndianSplit(x, 4, 4, hi, lo);
    assert image[off..off + 4] == image[off..off + 8][..4] == LittleEndian(lo, 4);
    assert image[off + 4..off + 8] == image[off..off + 8][4..] == LittleEndian(hi, 4);
    Read32(image, off, lo);
    Read32(image, off + 4, hi);
  }

  /** Elf64_Phdr, in the order of the structure (System V gABI, chapter 5, Program Header). */
  datatype Phdr = Phdr(kind: U32, flags: U32, offset: U64, vaddr: U64, paddr: U64, filesz: U64, memsz: U64, align: U64)

  function PhdrFields(h: Phdr): (fs: seq<Field>)
    ensures FieldsOk(fs)
  {
    [Field(4, h.kind), Field(4, h.flags), Field(8, h.offset), Field(8, h.vaddr), Field(8, h.paddr),
     Field(8, h.filesz), Field(8, h.memsz), Field(8, h.align)]
  }

  /** The fields of an Elf64_Ehdr after its sixteen identification bytes (System V gABI, chapter 4, ELF Header). */
  datatype Ehdr = Ehdr(kind: U16, machine: U16, version: U32, entry: U64, phoff: U64, shoff: U64, flags: U32,
                       ehsize: U16, phentsize: U16, phnum: U16, shentsize: U16, shnum: U16, shstrndx: U16)

  function EhdrFields(h: Ehdr): (fs: seq<Field>)
    ensures FieldsOk(fs)
  {
    [Field(2, h.kind), Field(2, h.machine), Field(4, h.version), Field(8, h.entry), Field(8, h.phoff), Field(8, h.shoff),
     Field(4, h.flags), Field(2, h.ehsize), Field(2, h.phentsize), Field(2, h.phnum), Field(2, h.shentsize),
     Field(2, h.shnum), Field(2, h.shstrndx)]
  }

  /** The structure with these fields lies at `off` in the file. */
  predicate LiesAt(image: Image, off: nat, fs: seq<Field>) {
    off + |Packed(fs)| <= |image| && image[off..off + |Packed(fs)|] == Packed(fs)
  }

  lemma FieldInFile(image: Image, off: nat, fs: seq<Field>, k: nat)
    requires LiesAt(image, off, fs) && k < |fs|
    ensures off + Offset(fs, k) + fs[k].width <= |image|
    ensures image[off + Offset(fs, k)..off + Offset(fs, k) + fs[k].width] == LittleEndian(fs[k].value, fs[k].width)
  {
    hide LittleEndian, Packed, Offset;
    PackedField(fs, k);
    var o := Offset(fs, k);
    SliceOfSlice(image, off, Packed(fs), o, fs[k].width);
  }

  lemma SliceOfSlice(image: Image, off: nat, part: seq<Byte>, o: nat, w: nat)
    requires off + |part| <= |image| && image[off..off + |part|] == part && o + w <= |part|
    ensures image[off + o..off + o + w] == part[o..o + w]
  {
    var a, c := image[off + o..off + o + w], part[o..o + w];
    forall i | 0 <= i < w ensures a[i] == c[i] {
      assert image[off..off + |part|][o + i] == part[o + i];
    }
  }

  lemma PhdrOffsets(h: Phdr)
    ensures var fs := PhdrFields(h);
            && Offset(fs, 0) == 0 && Offset(fs, 1) == 4 && Offset(fs, 2) == 8 && Offset(fs, 3) == 16
            && Offset(fs, 5) == 32 && Offset(fs, 6) == 40
  {
    var fs := PhdrFields(h);
    assert Offset(fs, 2) == 8 && Offset(fs, 4) == 24;
  }

  /** A program header laid out as the gABI says is read field by field. */
  lemma ReadsPhdr(image: Image, i: nat, h: Phdr)
    requires HasHeader(image, i) && LiesAt(image, Phoff(image) + PHDR_SIZE * i, PhdrFields(h))
    ensures IsLoad(image, i) <==> h.kind == PT_LOAD
    ensures HeaderAt(image, i) == Segment(h.vaddr, h.offset, h.filesz, h.memsz, h.flags)
  {
    hide LittleEndian, Packed, Offset, ReadU32, ReadU64, Phoff, LiesAt;
    var off, fs := Phoff(image) + PHDR_SIZE * i, PhdrFields(h);
    PhdrOffsets(h);
    FieldInFile(image, off, fs, 0);
    FieldInFile(image, off, fs, 1);
    FieldInFile(image, off, fs, 2);
    FieldInFile(image, off, fs, 3);
    FieldInFile(image, off, fs, 5);
    FieldInFile(image, off, fs, 6);
    Read32(image, off, h.kind);
    Read32(image, off + 4, h.flags);
    Read64(image, off + 8, h.offset);
    Read64(image, off + 16, h.vaddr);
    Read64(image, off + 32, h.filesz);
    Read64(image, off + 40, h.memsz);
  }

  lemma EhdrOffsets(h: Ehdr)
    ensures var fs := EhdrFields(h);
            && Offset(fs, 0) == 0 && Offset(fs, 1) == 2 && Offset(fs, 3) == 8 && Offset(fs, 4) == 16
            && Offset(fs, 8) == 38 && Offset(fs, 9) == 40
  {
    var fs := EhdrFields(h);
    assert Offset(fs, 2) == 4 && Offset(fs, 5) == 24 && Offset(fs, 7) == 36;
  }

  /** A file header laid out as the gABI says is read field by field. */
  lemma ReadsEhdr(image: Image, h: Ehdr)
    requires |image| >= EHDR_SIZE && LiesAt(image, 16, EhdrFields(h))
    ensures ReadU16(image, 16) == h.kind && ReadU16(image, 18) == h.machine && ReadU64(image, 24) == h.entry
    ensures Phoff(image) == h.phoff && ReadU16(image, 54) == h.phentsize && Phnum(image) == h.phnum
  {
    hide LittleEndian, Packed, Offset, ReadU16, ReadU64, LiesAt;
    var fs := EhdrFields(h);
    EhdrOffsets(h);
    FieldInFile(image, 16, fs, 0);
    FieldInFile(image, 16, fs, 1);
    FieldInFile(image, 16, fs, 3);
    FieldInFile(image, 16, fs, 4);
    FieldInFile(image, 16, fs, 8);
    FieldInFile(image, 16, fs, 9);
    Read16(image, 16, h.kind);
    Read16(image, 18, h.machine);
    Read64(image, 24, h.entry);
    Read64(image, 32, h.phoff);
    Read16(image, 54, h.phentsize);
    Read16(image, 56, h.phnum);
  }
}
