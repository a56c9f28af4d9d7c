// The chunked file format of compressed CAS blobs
// (cache/disk/casblob/casblob.go): its header codec, what a written file
// holds, and what the two random-access readers return.
module CasBlob {
  import opened Wrappers
  import opened Bytes
  import opened Int64
  import Z = Zstd

  const CHUNK: nat := 0x10_0000
  const TABLE_OFFSET: nat := 29
  const IDENTITY: byte := 0
  const ZSTANDARD: byte := 1

  datatype Header = Header(uncompressedSize: int, compression: int, chunkSize: nat, chunkOffsets: seq<int>)

  // ----- the header codec -----

  // The length field of the header, in 32 bits.
  function FrameSize(numOffsets: nat): (r: nat)
    ensures r < 0x1_0000_0000
  {
    (8 * numOffsets + 21) % 0x1_0000_0000
  }

  // The low eight bytes of a non-negative integer.
  function Bytes8(n: nat): (bs: seq<byte>)
    ensures |bs| == 8
  {
    LittleEndian(n, 8)
  }

  function OffsetBytes(offsets: seq<nat>): (bs: seq<byte>)
    ensures |bs| == 8 * |offsets|
  {
    if offsets == [] then [] else Bytes8(offsets[0]) + OffsetBytes(offsets[1..])
  }

  // The 29 bytes before a table of n offsets.
  function FixedBytes(uncompressedSize: nat, compression: byte, chunkSize: nat, n: nat): (bs: seq<byte>)
    ensures |bs| == TABLE_OFFSET
  {
    LittleEndian(Z.SKIPPABLE_MAGIC, 4) + LittleEndian(FrameSize(n), 4) +
    Bytes8(uncompressedSize) + [compression] + LittleEndian(chunkSize, 4) + Bytes8(n)
  }

  function HeaderBytes(uncompressedSize: nat, compression: byte, chunkSize: nat, offsets: seq<nat>): (bs: seq<byte>)
    ensures |bs| == HeaderSize(|offsets|)
  {
    FixedBytes(uncompressedSize, compression, chunkSize, |offsets|) + OffsetBytes(offsets)
  }

  // TableTooLong stands for a run-time panic.
  datatype HeaderError =
    | TooSmall | WrongMagic | NoChunks | SizeFieldMismatch | TableTooLong | ShortTable | NotIncreasing | WrongEnd

  // A table of signed 64-bit integers.
  function ParseTable(bs: seq<byte>): (r: seq<int>)
    ensures |r| == |bs| / 8
  {
    if |bs| < 8 then [] else [FromSigned(bs[..8])] + ParseTable(bs[8..])
  }

  predicate Increasing(offsets: seq<int>, above: int) {
    offsets == [] || (offsets[0] > above && Increasing(offsets[1..], offsets[0]))
  }

  lemma {:induction false} IncreasingMeans(offsets: seq<int>, above: int)
    requires Increasing(offsets, above)
    ensures forall i :: 0 <= i < |offsets| ==> above < offsets[i]
    ensures forall i, j :: 0 <= i < j < |offsets| ==> offsets[i] < offsets[j]
  {
    if offsets != [] { IncreasingMeans(offsets[1..], offsets[0]); }
  }

  // What reading the header of a file yields. The size of the table is computed
  // in 64 bits, so that an absurd number of offsets, near a multiple of 2^61,
  // can pass the comparison with the 32-bit field; allocating it then panics.
  function ParseHeader(bs: seq<byte>): (r: Result<Header, HeaderError>)
    ensures r.Ok? ==> TABLE_OFFSET + 8 * |r.value.chunkOffsets| <= |bs| && |r.value.chunkOffsets| >= 2
  {
    if |bs| <= TABLE_OFFSET + 16 then Err(TooSmall)
    else if FromLittleEndian(bs[0..4]) != Z.SKIPPABLE_MAGIC then Err(WrongMagic)
    else
      var frameSize := FromLittleEndian(bs[4..8]);
      var n := FromSigned(bs[21..29]);
      if n < 2 then Err(NoChunks)
      else if frameSize != Wrap(8 * n + 21) then Err(SizeFieldMismatch)
      else if 8 * n + 21 >= 0x1_0000_0000 then Err(TableTooLong)
      else if TABLE_OFFSET + 8 * n > |bs| then Err(ShortTable)
      else
        var offsets := ParseTable(bs[TABLE_OFFSET..TABLE_OFFSET + 8 * n]);
        if !Increasing(offsets, -1) then Err(NotIncreasing)
        else if offsets[n - 1] != |bs| then Err(WrongEnd)
        else Ok(Header(FromSigned(bs[8..16]), bs[16], FromLittleEndian(bs[17..21]), offsets))
  }

  // ----- what a written file holds -----

  function Chunks(data: seq<byte>): (cs: seq<seq<byte>>)
    ensures data != [] ==> cs != []
  {
    if data == [] then []
    else if |data| <= CHUNK then [data]
    else [data[..CHUNK]] + Chunks(data[CHUNK..])
  }

  function Encoded(z: Z.Zstd, chunks: seq<seq<byte>>): seq<byte> {
    if chunks == [] then [] else z.enc(chunks[0]) + Encoded(z, chunks[1..])
  }

  // Where each chunk starts, and where the last one ends.
  function Offsets(z: Z.Zstd, chunks: seq<seq<byte>>, start: nat): (r: seq<nat>)
    ensures |r| == |chunks| + 1 && r[0] == start
  {
    if chunks == [] then [start] else [start] + Offsets(z, chunks[1..], start + |z.enc(chunks[0])|)
  }

  function HeaderSize(numOffsets: nat): nat {
    TABLE_OFFSET + 8 * numOffsets
  }

  // The offset table of the file that holds data.
  function TableFor(z: Z.Zstd, data: seq<byte>): seq<nat> {
    Offsets(z, Chunks(data), HeaderSize(|Chunks(data)| + 1))
  }

  function HeaderFor(z: Z.Zstd, data: seq<byte>): Header {
    Header(|data|, ZSTANDARD, CHUNK, TableFor(z, data))
  }

  function FileBytes(z: Z.Zstd, data: seq<byte>): seq<byte> {
    HeaderBytes(|data|, ZSTANDARD, CHUNK, TableFor(z, data)) + Encoded(z, Chunks(data))
  }

  lemma {:induction false} ChunksJoin(data: seq<byte>, k: nat)
    requires k <= |Chunks(data)|
    ensures Chunks(data)[k..] == Chunks(data[if k * CHUNK <= |data| then k * CHUNK else |data|..])
    ensures k < |Chunks(data)| ==> k * CHUNK < |data|
    ensures k == |Chunks(data)| ==> k * CHUNK >= |data|
    decreases k
  {
    if k == 0 {
      assert data[0..] == data;
    } else if |data| > CHUNK {
      ChunksJoin(data[CHUNK..], k - 1);
      assert Chunks(data)[k..] == Chunks(data[CHUNK..])[k - 1..];
      var p := if k * CHUNK <= |data| then k * CHUNK else |data|;
      assert data[CHUNK..][p - CHUNK..] == data[p..];
    }
  }

  lemma {:induction false} ChunksNotEmpty(data: seq<byte>)
    ensures forall i :: 0 <= i < |Chunks(data)| ==> Chunks(data)[i] != []
  {
    if |data| > CHUNK {
      ChunksNotEmpty(data[CHUNK..]);
    }
  }

  // The chunks encode, one frame each, to a stream that decodes to the data.
  lemma {:induction false} EncodedDecodes(z: Z.Zstd, data: seq<byte>)
    requires Z.Lawful(z)
    ensures z.dec(Encoded(z, Chunks(data))) == Some(data)
  {
    if data == [] {
    } else if |data| <= CHUNK {
      Z.DecodeOne(z, data);
      assert Encoded(z, [data]) == z.enc(data);
    } else {
      EncodedDecodes(z, data[CHUNK..]);
      assert Chunks(data)[1..] == Chunks(data[CHUNK..]);
      assert data == data[..CHUNK] + data[CHUNK..];
    }
  }

  // The frames of the later chunks are a suffix of all the frames, and the
  // offset table says where it starts.
  lemma {:induction false} EncodedSuffix(z: Z.Zstd, chunks: seq<seq<byte>>, start: nat, k: nat)
    requires k <= |chunks|
    ensures var r := Offsets(z, chunks, start)[k] - start;
      && 0 <= r <= |Encoded(z, chunks)|
      && Encoded(z, chunks)[r..] == Encoded(z, chunks[k..])
    ensures k < |chunks| ==> Offsets(z, chunks, start)[k + 1] == Offsets(z, chunks, start)[k] + |z.enc(chunks[k])|
  {
    if k > 0 {
      var first := z.enc(chunks[0]);
      EncodedSuffix(z, chunks[1..], start + |first|, k - 1);
      var r := Offsets(z, chunks, start)[k] - start;
      assert chunks[k..] == chunks[1..][k - 1..];
      assert Encoded(z, chunks)[r..] == Encoded(z, chunks[1..])[r - |first|..];
    } else {
      assert chunks[0..] == chunks;
      assert Encoded(z, chunks)[0..] == Encoded(z, chunks);
      if chunks != [] {
        assert Offsets(z, chunks, start)[1] == Offsets(z, chunks[1..], start + |z.enc(chunks[0])|)[0];
      }
    }
  }

  lemma {:induction false} OffsetsIncrease(z: Z.Zstd, chunks: seq<seq<byte>>, start: nat, above: int)
    requires Z.Lawful(z) && start > above && forall i :: 0 <= i < |chunks| ==> chunks[i] != []
    ensures Increasing(Offsets(z, chunks, start), above)
    ensures Offsets(z, chunks, start)[|chunks|] == start + |Encoded(z, chunks)|
    ensures forall i :: 0 <= i <= |chunks| ==> start <= Offsets(z, chunks, start)[i] <= start + |Encoded(z, chunks)|
  {
    if chunks != [] {
      assert chunks[0] != [] && z.enc(chunks[0]) != [];
      OffsetsIncrease(z, chunks[1..], start + |z.enc(chunks[0])|, start);
      assert Offsets(z, chunks, start)[1..] == Offsets(z, chunks[1..], start + |z.enc(chunks[0])|);
    }
  }

  // ----- reading back what was written -----

  lemma TableSplits(first: seq<byte>, rest: seq<byte>)
    requires |first| == 8
    ensures ParseTable(first + rest) == [FromSigned(first)] + ParseTable(rest)
  {
    assert (first + rest)[..8] == first && (first + rest)[8..] == rest;
  }

  lemma {:induction false} TableRoundTrip(offsets: seq<nat>)
    requires forall i :: 0 <= i < |offsets| ==> offsets[i] < 0x8000_0000_0000_0000
    ensures ParseTable(OffsetBytes(offsets)) == offsets
  {
    if offsets != [] {
      RoundTrip8(offsets[0]);
      TableSplits(Bytes8(offsets[0]), OffsetBytes(offsets[1..]));
      TableRoundTrip(offsets[1..]);
    }
  }

  lemma Slices(a: seq<byte>, b: seq<byte>, c: seq<byte>, d: byte, e: seq<byte>, f: seq<byte>, rest: seq<byte>)
    requires |a| == 4 && |b| == 4 && |c| == 8 && |e| == 4 && |f| == 8
    ensures var bs := a + b + c + [d] + e + f + rest;
      && bs[0..4] == a && bs[4..8] == b && bs[8..16] == c && bs[16] == d && bs[17..21] == e && bs[21..29] == f
  {
  }

  // The fields of a header that has been written come back one by one.
  lemma ParseFixed(size: nat, compression: byte, chunkSize: nat, n: nat, rest: seq<byte>)
    requires size < 0x8000_0000_0000_0000 && chunkSize < 0x1_0000_0000 && n < 0x8000_0000_0000_0000
    ensures var bs := FixedBytes(size, compression, chunkSize, n) + rest;
      && FromLittleEndian(bs[0..4]) == Z.SKIPPABLE_MAGIC
      && FromLittleEndian(bs[4..8]) == FrameSize(n)
      && FromSigned(bs[8..16]) == size
      && bs[16] == compression
      && FromLittleEndian(bs[17..21]) == chunkSize
      && FromSigned(bs[21..29]) == n
  {
    RoundTrip4(Z.SKIPPABLE_MAGIC);
    RoundTrip4(FrameSize(n));
    RoundTrip8(size);
    RoundTrip4(chunkSize);
    RoundTrip8(n);
    Slices(LittleEndian(Z.SKIPPABLE_MAGIC, 4), LittleEndian(FrameSize(n), 4),
      Bytes8(size), compression, LittleEndian(chunkSize, 4), Bytes8(n), rest);
  }

  // ----- the header of a written file -----

  // The length of the header fits its 32-bit field.
  predicate TableFits(numOffsets: nat) {
    8 * numOffsets + 21 < 0x1_0000_0000
  }

  // Sizes that an int64 can hold, as every file has them.
  predicate SizesFit(z: Z.Zstd, data: seq<byte>) {
    0 < |data| < 0x8000_0000_0000_0000 && |FileBytes(z, data)| < 0x8000_0000_0000_0000
  }

  lemma FileParts(z: Z.Zstd, data: seq<byte>)
    ensures var n, table := |Chunks(data)| + 1, TableFor(z, data);
      var bs := FileBytes(z, data);
      && |table| == n && |bs| == HeaderSize(n) + |Encoded(z, Chunks(data))|
      && bs == FixedBytes(|data|, ZSTANDARD, CHUNK, n) + (OffsetBytes(table) + Encoded(z, Chunks(data)))
      && bs[TABLE_OFFSET..TABLE_OFFSET + 8 * n] == OffsetBytes(table)
      && bs[HeaderSize(n)..] == Encoded(z, Chunks(data))
  {
    var n, table := |Chunks(data)| + 1, TableFor(z, data);
    Regroup(FixedBytes(|data|, ZSTANDARD, CHUNK, n), OffsetBytes(table), Encoded(z, Chunks(data)));
  }

  lemma Regroup(a: seq<byte>, b: seq<byte>, c: seq<byte>)
    ensures a + b + c == a + (b + c)
    ensures (a + b + c)[|a|..|a| + |b|] == b && (a + b + c)[|a| + |b|..] == c
  {
  }

  lemma FrameSizeExact(n: nat)
    ensures FrameSize(n) == 8 * n + 21 <==> TableFits(n)
  {
  }

  lemma ParsedFields(bs: seq<byte>, size: nat, n: nat, table: seq<nat>, frameSize: nat)
    requires 2 <= n == |table| && HeaderSize(n) < |bs| < 0x8000_0000_0000_0000
    requires FromLittleEndian(bs[0..4]) == Z.SKIPPABLE_MAGIC && FromLittleEndian(bs[4..8]) == frameSize < 0x1_0000_0000
    requires FromSigned(bs[8..16]) == size && bs[16] == ZSTANDARD
    requires FromLittleEndian(bs[17..21]) == CHUNK && FromSigned(bs[21..29]) == n
    requires ParseTable(bs[TABLE_OFFSET..TABLE_OFFSET + 8 * n]) == table
    requires Increasing(table, -1) && table[n - 1] == |bs|
    ensures ParseHeader(bs) ==
            if frameSize == 8 * n + 21 then Ok(Header(size, ZSTANDARD, CHUNK, table)) else Err(SizeFieldMismatch)
  {
    var r := ParseHeader(bs);
    assert Wrap(8 * n + 21) == 8 * n + 21;
  }

  // Header codec: reading the header of a finished file gives back what was
  // written precisely when the header length fits 32 bits; otherwise the file is
  // rejected.
  lemma HeaderRoundTrip(z: Z.Zstd, data: seq<byte>)
    requires Z.Lawful(z) && SizesFit(z, data)
    ensures ParseHeader(FileBytes(z, data)) ==
            if TableFits(|Chunks(data)| + 1) then Ok(HeaderFor(z, data)) else Err(SizeFieldMismatch)
    ensures Increasing(TableFor(z, data), -1) && TableFor(z, data)[|Chunks(data)|] == |FileBytes(z, data)|
  {
    var n, table, chunks := |Chunks(data)| + 1, TableFor(z, data), Chunks(data);
    TableFacts(z, data);
    FileParts(z, data);
    ParseFixed(|data|, ZSTANDARD, CHUNK, n, OffsetBytes(table) + Encoded(z, chunks));
    TableRoundTrip(table);
    FrameSizeExact(n);
    ParsedFields(FileBytes(z, data), |data|, n, table, FrameSize(n));
  }

  // A blob of 512 TiB, whose header is too long.
  function HugeBlob(): seq<byte> {
    seq(0x2000_0000 * 0x10_0000, _ => 0)
  }

  lemma HugeIsRejected()
    ensures SizesFit(Z.Toy(), HugeBlob())
    ensures ParseHeader(FileBytes(Z.Toy(), HugeBlob())) == Err(SizeFieldMismatch)
  {
    var data := HugeBlob();
    NumChunks(data, 0x1FFF_FFFF);
    ToySize(data);
    FileParts(Z.Toy(), data);
    Z.ToyIsLawful();
    HeaderRoundTrip(Z.Toy(), data);
  }

  lemma {:induction false} NumChunks(data: seq<byte>, n: nat)
    requires n * CHUNK < |data| <= (n + 1) * CHUNK
    ensures |Chunks(data)| == n + 1
    decreases n
  {
    if n > 0 { NumChunks(data[CHUNK..], n - 1); }
  }

  lemma {:induction false} ToySize(data: seq<byte>)
    ensures |Encoded(Z.Toy(), Chunks(data))| == 2 * |data| + |Chunks(data)|
  {
    if |data| <= CHUNK {
      Z.ToyLength(data);
      assert data != [] ==> Chunks(data)[1..] == [];
    } else {
      Z.ToyLength(data[..CHUNK]);
      assert Chunks(data)[1..] == Chunks(data[CHUNK..]);
      ToySize(data[CHUNK..]);
    }
  }

  lemma TableFacts(z: Z.Zstd, data: seq<byte>)
    requires Z.Lawful(z) && data != []
    ensures var table, bs := TableFor(z, data), FileBytes(z, data);
      && Increasing(table, -1) && table[|Chunks(data)|] == |bs| > HeaderSize(|Chunks(data)| + 1)
      && (forall i :: 0 <= i < |table| ==> table[i] <= |bs|)
  {
    var chunks := Chunks(data);
    FileParts(z, data);
    ChunksNotEmpty(data);
    OffsetsIncrease(z, chunks, HeaderSize(|chunks| + 1), -1);
    assert chunks[0] != [] && z.enc(chunks[0]) != [];
  }

  // The header is exactly one skippable frame, so that the whole file is a
  // Zstandard stream of the data.
  lemma WholeFileDecodes(z: Z.Zstd, data: seq<byte>)
    requires Z.Lawful(z) && TableFits(|Chunks(data)| + 1)
    ensures var n := |Chunks(data)| + 1;
      FileBytes(z, data)[..HeaderSize(n)] == Z.SkippableFrame(FileBytes(z, data)[8..HeaderSize(n)])
    ensures z.dec(FileBytes(z, data)) == Some(data)
  {
    var n := |Chunks(data)| + 1;
    FileParts(z, data);
    FileStart(z, data);
    FrameSizeExact(n);
    SkippedHead(z, FrameSize(n), FileBytes(z, data));
    EncodedDecodes(z, data);
  }

  // Every file starts with the magic number and the header length.
  lemma FileStart(z: Z.Zstd, data: seq<byte>)
    ensures var bs := FileBytes(z, data);
      |bs| >= 8 && bs == Start(FrameSize(|Chunks(data)| + 1)) + bs[8..]
  {
    var n, bs := |Chunks(data)| + 1, FileBytes(z, data);
    FileParts(z, data);
    FixedStart(LittleEndian(Z.SKIPPABLE_MAGIC, 4), LittleEndian(FrameSize(n), 4), Bytes8(|data|), [ZSTANDARD],
      LittleEndian(CHUNK, 4), Bytes8(n), OffsetBytes(TableFor(z, data)) + Encoded(z, Chunks(data)));
  }

  function Start(frameSize: nat): seq<byte> {
    LittleEndian(Z.SKIPPABLE_MAGIC, 4) + LittleEndian(frameSize, 4)
  }

  lemma FixedStart(a: seq<byte>, b: seq<byte>, c: seq<byte>, d: seq<byte>, e: seq<byte>, f: seq<byte>, rest: seq<byte>)
    requires |a| == |b| == 4
    ensures var bs := a + b + c + d + e + f + rest;
      bs == a + b + bs[8..]
  {
  }

  lemma SkippedHead(z: Z.Zstd, length: nat, bs: seq<byte>)
    requires Z.Lawful(z) && length < 0x1_0000_0000 && 8 + length <= |bs|
    requires bs == Start(length) + bs[8..]
    ensures bs[..8 + length] == Z.SkippableFrame(bs[8..8 + length]) && z.dec(bs) == z.dec(bs[8 + length..])
  {
    var content := bs[8..8 + length];
    assert bs[..8 + length] == Start(length) + content;
    assert bs == Z.SkippableFrame(content) + bs[8 + length..];
  }
}
