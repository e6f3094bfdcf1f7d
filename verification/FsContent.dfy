/** File contents: writing a file's sectors and reading them back. */
module FsContent {
  import opened Common
  import opened DirCodec
  import opened FsSpec
  import opened FsTree

  /** Sectors `start..start + n` of `d` hold the first `n` pieces of `data`. */
  ghost predicate Holds(d: Disk, start: nat, data: seq<Byte>, n: nat) {
    && n <= SectorsFor(|data|)
    && start + n <= |d|
    && forall j: nat :: j < n ==> d[start + j] == Chunk(data, j)
  }

  lemma {:induction false} WriteChunksEffect(d: Disk, start: nat, data: seq<Byte>, i: nat)
    requires i <= SectorsFor(|data|) && start + SectorsFor(|data|) <= |d|
    requires Holds(d, start, data, i)
    ensures var d' := WriteChunks(d, start, data, i);
            && |d'| == |d|
            && Holds(d', start, data, SectorsFor(|data|))
            && forall s: nat :: s < |d| && s !in SpanSet(start, SectorsFor(|data|)) ==> d'[s] == d[s]
    decreases SectorsFor(|data|) - i
  {
    if i < SectorsFor(|data|) {
      var d1 := d[start + i := Chunk(data, i)];
      assert Holds(d1, start, data, i + 1);
      WriteChunksEffect(d1, start, data, i + 1);
    }
  }

  lemma {:induction false} ReadBack(d: Disk, start: nat, data: seq<Byte>, n: nat)
    requires Holds(d, start, data, n)
    ensures var r := ReadSectors(d, start, n);
            && r.Ok?
            && |r.value| == 512 * n
            && Truncate(r.value, |data|) == data[..Min(512 * n, |data|)]
  {
    if n > 0 {
      ReadBack(d, start, data, n - 1);
      var rest := ReadSectors(d, start, n - 1).value;
      var piece := Chunk(data, n - 1);
      assert d[start + (n - 1)] == piece;
      var all := rest + piece;
      var m := Min(512 * n, |data|);
      assert 512 * (n - 1) < |data|;
      assert rest == data[..512 * (n - 1)];
      assert all[..m] == data[..m];
    }
  }

  /** The bytes of a file entry written at `start` are the bytes written. */
  lemma WrittenBytes(d: Disk, n: Name, data: seq<Byte>, start: nat)
    requires |data| <= MAX_FILE_BYTES && start < POOL_END
    requires data != [] ==> Holds(d, start, data, SectorsFor(|data|))
    ensures EntryBytes(d, FileEntry(n, |data|, start)) == Ok(data)
  {
    if data != [] {
      ReadBack(d, start, data, SectorsFor(|data|));
      assert data[..|data|] == data;
    }
  }

  /** A well-formed file entry always reads, and gives exactly its recorded length. */
  lemma {:induction false} ReadSectorsOk(d: Disk, start: nat, count: nat)
    requires start + count <= |d|
    ensures ReadSectors(d, start, count).Ok? && |ReadSectors(d, start, count).value| == 512 * count
  {
    if count > 0 {
      ReadSectorsOk(d, start, count - 1);
    }
  }

  lemma FileReads(d: Disk, e: DirEntry, r: nat)
    requires SlotOk(d, e, r) && e.used && !e.isDir
    ensures EntryBytes(d, e) == Ok(Bytes(d, e))
    ensures |Bytes(d, e)| == e.len
  {
    if e.sectorCount > 0 {
      ReadSectorsOk(d, e.startLba, e.sectorCount);
    }
  }
}
