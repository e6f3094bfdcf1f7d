/** What the parser accepts, stated on the file's bytes and on the structures of the System V gABI. */
module ElfLaws {
  import opened Common
  import opened DirCodec
  import opened Elf

  lemma Le16Is(b0: Byte, b1: Byte, x: U16)
    ensures Le16(b0, b1) == x <==> b0 == x % 0x100 && b1 == x / 0x100
  {
  }

  /** The header checks, byte by byte: magic, 64-bit, little-endian, executable, x86-64, 56-byte program headers, at
      least one of them, and the table inside the file. */
  predicate SoundHeader(image: Image) {
    && |image| >= 64
    && image[..6] == [0x7F, 0x45, 0x4C, 0x46, 2, 1]
    && image[16..20] == [2, 0, 0x3E, 0]
    && image[54..56] == [56, 0] && image[56..58] != [0, 0]
    && Phoff(image) + 56 * Phnum(image) <= |image|
  }

  /** A header passes exactly when it is sound. */
  lemma HeaderPassesIff(image: Image)
    ensures HeaderError(image).None? <==> SoundHeader(image)
  {
    hide Phoff;
    if |image| >= 64 {
      Le16Is(image[16], image[17], 2);
      Le16Is(image[18], image[19], 0x3E);
      Le16Is(image[54], image[55], 56);
      Le16Is(image[56], image[57], 0);
      assert image[..6] == image[..4] + [image[4], image[5]];
      assert image[16..20] == [image[16], image[17], image[18], image[19]];
      assert image[54..56] == [image[54], image[55]] && image[56..58] == [image[56], image[57]];
      MagicPart(image);
    }
  }

  lemma MagicPart(image: Image)
    requires |image| >= 64
    ensures image[..6] == [0x7F, 0x45, 0x4C, 0x46, 2, 1]
            <==> image[..4] == [0x7F, 0x45, 0x4C, 0x46] && image[4] == 2 && image[5] == 1
  {
    assert image[..6] == [image[0], image[1], image[2], image[3], image[4], image[5]];
    assert image[..4] == [image[0], image[1], image[2], image[3]];
  }

  // ---- Files with the gABI's structures in them ----

  /** The segments that the load headers among `hs` describe, in order. */
  function LoadsOf(hs: seq<Phdr>): seq<Segment> {
    if hs == [] then []
    else
      var h := hs[|hs| - 1];
      LoadsOf(hs[..|hs| - 1]) + (if h.kind == 1 then [Segment(h.vaddr, h.offset, h.filesz, h.memsz, h.flags)] else [])
  }

  /** The file carries this file header, and these program headers where it says. */
  predicate Carries(image: Image, h: Ehdr, hs: seq<Phdr>) {
    && |image| >= 64 && LiesAt(image, 16, EhdrFields(h)) && |hs| == h.phnum
    && forall i :: 0 <= i < |hs| ==> LiesAt(image, h.phoff + 56 * i, PhdrFields(hs[i]))
  }

  /** What a file must be to be accepted. */
  predicate Acceptable(image: Image, h: Ehdr, hs: seq<Phdr>) {
    && |image| >= 64 && image[..6] == [0x7F, 0x45, 0x4C, 0x46, 2, 1]
    && h.kind == 2 && h.machine == 62 && h.phentsize == 56 && h.phnum > 0 && h.phoff + 56 * h.phnum <= |image|
    && (forall i :: 0 <= i < |hs| ==> RangeOk(image, hs[i]))
    && 1 <= |LoadsOf(hs)| <= 8
  }

  lemma HeaderOfFields(image: Image, h: Ehdr)
    requires |image| >= 64 && LiesAt(image, 16, EhdrFields(h))
    ensures HeaderError(image).None?
            <==> image[..6] == [0x7F, 0x45, 0x4C, 0x46, 2, 1] && h.kind == 2 && h.machine == 62 && h.phentsize == 56
                 && h.phnum > 0 && h.phoff + 56 * h.phnum <= |image|
  {
    hide LiesAt, Phoff, Phnum, ReadU16, ReadU64;
    ReadsEhdr(image, h);
    MagicPart(image);
  }

  lemma {:induction false} LoadsAre(image: Image, h: Ehdr, hs: seq<Phdr>, n: nat)
    requires Carries(image, h, hs) && h.phoff + 56 * h.phnum <= |image| && n <= |hs|
    ensures n > 0 ==> HasHeader(image, n - 1)
    ensures Loads(image, n) == LoadsOf(hs[..n])
  {
    hide LiesAt, Phnum, ReadU16, ReadU64, ReadU32, HeaderAt, IsLoad;
    ReadsEhdr(image, h);
    if n > 0 {
      LoadsAre(image, h, hs, n - 1);
      ReadsPhdr(image, n - 1, hs[n - 1]);
      assert hs[..n][..n - 1] == hs[..n - 1];
    }
  }

  /** A load header whose file range is inside the file and whose memory is at least as large; any other header. */
  predicate RangeOk(image: Image, h: Phdr) {
    h.kind == 1 ==> h.filesz <= h.memsz && h.offset + h.filesz <= |image|
  }

  lemma {:induction false} LoadsInside(image: Image, hs: seq<Phdr>)
    ensures AllOk(image, LoadsOf(hs)) <==> forall i :: 0 <= i < |hs| ==> RangeOk(image, hs[i])
    decreases |hs|
  {
    hide AllOk, RangeOk, LoadsOf;
    if hs == [] {
      NoLoads(image);
    } else {
      var front, h := hs[..|hs| - 1], hs[|hs| - 1];
      LoadsInside(image, front);
      assert forall i :: 0 <= i < |front| ==> front[i] == hs[i];
      LastLoad(image, front, h);
      assert hs == front + [h];
    }
  }

  lemma NoLoads(image: Image)
    ensures AllOk(image, LoadsOf([]))
  {
  }

  lemma LastLoad(image: Image, front: seq<Phdr>, h: Phdr)
    ensures AllOk(image, LoadsOf(front + [h])) <==> AllOk(image, LoadsOf(front)) && RangeOk(image, h)
  {
    hide AllOk;
    assert (front + [h])[..|front|] == front;
    AllOkSnoc(image, LoadsOf(front), Segment(h.vaddr, h.offset, h.filesz, h.memsz, h.flags));
    assert LoadsOf(front) + [] == LoadsOf(front);
  }

  lemma AllOkSnoc(image: Image, ss: seq<Segment>, s: Segment)
    ensures AllOk(image, ss + [s]) <==> AllOk(image, ss) && SegmentOk(image, s)
  {
    hide SegmentOk;
    assert forall i :: 0 <= i < |ss| ==> (ss + [s])[i] == ss[i];
    assert (ss + [s])[|ss|] == s;
  }

  /** Exactly which files are accepted, and what they give: the entry and the load headers, field by field. */
  lemma ParsesIff(image: Image, h: Ehdr, hs: seq<Phdr>)
    requires Carries(image, h, hs)
    ensures Parse(image).Ok? <==> Acceptable(image, h, hs)
    ensures Parse(image).Ok? ==> Parse(image).value == ElfImage(h.entry, LoadsOf(hs))
  {
    hide LiesAt, Phoff, Phnum, ReadU16, ReadU64, HeaderError, Parse, Loads, LoadsOf, AllOk;
    ParseAccepts(image);
    HeaderOfFields(image, h);
    ReadsEhdr(image, h);
    if h.phoff + 56 * h.phnum <= |image| {
      LoadsAre(image, h, hs, |hs|);
      assert hs[..|hs|] == hs;
      LoadsInside(image, hs);
    }
  }

  // ---- Refusals ----

  /** What can be wrong with the load headers `ss`. */
  predicate LoadReason(image: Image, ss: seq<Segment>, e: ElfError) {
    match e
    case MemBelowFile => exists k :: 0 <= k < |ss| && ss[k].memSize < ss[k].fileSize
    case RangeOverflow => exists k :: 0 <= k < |ss| && ss[k].offset + ss[k].fileSize >= 0x1_0000_0000_0000_0000
    case RangePastEnd => exists k :: 0 <= k < |ss| && ss[k].offset + ss[k].fileSize > |image|
    case TooManySegments => |ss| > 8
    case NoSegments => ss == []
    case _ => false
  }

  /** The reason given for a refusal is one the file gives. */
  predicate ReasonHolds(image: Image, e: ElfError) {
    match e
    case TooSmall => |image| < 64
    case BadMagic => |image| >= 64 && image[..4] != [0x7F, 0x45, 0x4C, 0x46]
    case NotClass64 => |image| >= 64 && image[4] != 2
    case NotLittleEndian => |image| >= 64 && image[5] != 1
    case NotExecutable => |image| >= 64 && image[16..18] != [2, 0]
    case NotX86 => |image| >= 64 && image[18..20] != [0x3E, 0]
    case NoHeaders => |image| >= 64 && image[56..58] == [0, 0]
    case OddHeaderSize => |image| >= 64 && image[54..56] != [56, 0]
    case TableOverflow => |image| >= 64 && Phoff(image) + 56 * Phnum(image) >= 0x1_0000_0000_0000_0000
    case TablePastEnd => |image| >= 64 && Phoff(image) + 56 * Phnum(image) > |image|
    case _ => SoundHeader(image) && HasHeader(image, Phnum(image) - 1) && LoadReason(image, Loads(image, Phnum(image)), e)
  }

  lemma HeaderReason(image: Image)
    ensures HeaderError(image).Some? ==> ReasonHolds(image, HeaderError(image).value)
  {
    hide Phoff, LoadReason, SoundHeader;
    if |image| >= 64 {
      Le16Is(image[16], image[17], 2);
      Le16Is(image[18], image[19], 0x3E);
      Le16Is(image[54], image[55], 56);
      Le16Is(image[56], image[57], 0);
      assert image[16..18] == [image[16], image[17]] && image[18..20] == [image[18], image[19]];
      assert image[54..56] == [image[54], image[55]] && image[56..58] == [image[56], image[57]];
    }
  }

  lemma {:induction false} CollectReason(image: Image, i: nat, n: nat, found: seq<Segment>)
    requires i <= n && (n > 0 ==> HasHeader(image, n - 1)) && found == Loads(image, i)
    ensures Collect(image, i, n, found).Err? ==> LoadReason(image, Loads(image, n), Collect(image, i, n, found).error)
    decreases n - i
  {
    hide ReadU16, ReadU32, ReadU64, HeaderAt, IsLoad, Phoff;
    if i < n {
      LoadsPrefix(image, i + 1, n);
      if !IsLoad(image, i) {
        assert Loads(image, i + 1) == found + [];
        CollectReason(image, i + 1, n, found);
      } else {
        var s := HeaderAt(image, i);
        assert Loads(image, i + 1) == found + [s];
        assert Loads(image, n)[|found|] == s;
        if SegmentError(image, s).None? && |found| < MAX_LOAD_SEGMENTS {
          CollectReason(image, i + 1, n, found + [s]);
        }
      }
    }
  }

  /** Every refusal gives a reason the file gives. */
  lemma RefusalIsTrue(image: Image)
    ensures Parse(image).Err? ==> ReasonHolds(image, Parse(image).error)
  {
    hide Loads, Collect, ReadU16, ReadU32, ReadU64, Phoff, HeaderError;
    HeaderReason(image);
    HeaderPassesIff(image);
    if HeaderError(image).None? {
      TableThere(image);
      NoLoadsYet(image);
      CollectReason(image, 0, Phnum(image), []);
      CollectIs(image, 0, Phnum(image), []);
    }
  }

  lemma TableThere(image: Image)
    requires HeaderError(image).None?
    ensures |image| >= 64 && Phnum(image) > 0 && HasHeader(image, Phnum(image) - 1)
  {
    hide ReadU16, ReadU64;
  }
}
