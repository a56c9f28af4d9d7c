// The two readers of compressed CAS blobs (cache/disk/casblob/casblob.go):
// what they return for any file, step by step and as functions, and that on a
// written file they return the data from the offset on.
module BlobReaders {
  import opened Wrappers
  import opened Bytes
  import opened Int64
  import opened CasBlob
  import Z = Zstd

  // RuntimePanic stands for an index, slice or division outside its domain,
  // and BadFrame for an error while the returned stream is being read.
  datatype ReadError = BadHeader(e: HeaderError) | WrongSize | Unsupported | RuntimePanic | ShortRead | BadFrame

  // Where reading starts: at a file position, or within a decoded chunk with
  // the position of the following chunk, if there is one.
  datatype Start = From(pos: nat) | Within(tail: seq<byte>, next: Option<nat>)

  function Tail(bs: seq<byte>, pos: nat): seq<byte> {
    if pos <= |bs| then bs[pos..] else []
  }

  function HeaderFailure(e: HeaderError): ReadError {
    if e == TableTooLong then RuntimePanic else BadHeader(e)
  }

  function CheckedHeader(bs: seq<byte>, expected: int): Result<Header, ReadError> {
    match ParseHeader(bs)
    case Err(e) => Err(HeaderFailure(e))
    case Ok(h) => if expected != -1 && h.uncompressedSize != expected then Err(WrongSize) else Ok(h)
  }

  ghost predicate Ascending(offsets: seq<int>) {
    && (forall i :: 0 <= i < |offsets| ==> 0 <= offsets[i])
    && (forall i, j :: 0 <= i < j < |offsets| ==> offsets[i] < offsets[j])
  }

  function FindStart(z: Z.Zstd, bs: seq<byte>, h: Header, offset: nat): Result<Start, ReadError>
    requires Ascending(h.chunkOffsets)
  {
    if h.chunkSize == 0 then Err(RuntimePanic)
    else StartAt(z, bs, h.chunkOffsets, offset / h.chunkSize, offset % h.chunkSize)
  }

  function StartAt(z: Z.Zstd, bs: seq<byte>, table: seq<int>, chunk: nat, remainder: nat): Result<Start, ReadError>
    requires Ascending(table)
  {
    if 0 < chunk && |table| <= chunk then Err(RuntimePanic)
    else
      var pos := if chunk > 0 then table[chunk] else HeaderSize(|table|);
      if remainder == 0 then Ok(From(pos))
      else if |table| <= chunk + 1 then Err(RuntimePanic)
      else
        var end := pos + (table[chunk + 1] - table[chunk]);
        if end > |bs| then Err(ShortRead)
        else
          match z.dec(bs[pos..end])
          case None => Err(BadFrame)
          case Some(first) =>
            if remainder > |first| then Err(RuntimePanic)
            else Ok(Within(first[remainder..], if chunk == |table| - 2 then None else Some(end)))
  }

  lemma HeaderTable(bs: seq<byte>, expected: int)
    requires CheckedHeader(bs, expected).Ok?
    ensures Ascending(CheckedHeader(bs, expected).value.chunkOffsets)
  {
    IncreasingMeans(CheckedHeader(bs, expected).value.chunkOffsets, -1);
  }

  // All the bytes that the stream returned by GetUncompressedReadCloser gives.
  function ReadUncompressed(z: Z.Zstd, bs: seq<byte>, expected: int, offset: nat): Result<seq<byte>, ReadError> {
    match CheckedHeader(bs, expected)
    case Err(e) => Err(e)
    case Ok(h) =>
      if h.compression == IDENTITY as int then Ok(Tail(bs, HeaderSize(|h.chunkOffsets|) + offset))
      else if h.compression != ZSTANDARD as int then Err(Unsupported)
      else
        HeaderTable(bs, expected);
        match FindStart(z, bs, h, offset)
        case Err(e) => Err(e)
        case Ok(From(pos)) => Decoded(z.dec(Tail(bs, pos)))
        case Ok(Within(tail, None)) => Ok(tail)
        case Ok(Within(tail, Some(next))) => Decoded(Z.Then(tail, z.dec(Tail(bs, next))))
  }

  function Decoded(d: Option<seq<byte>>): Result<seq<byte>, ReadError> {
    match d
    case Some(x) => Ok(x)
    case None => Err(BadFrame)
  }

  // All the bytes that the stream returned by GetZstdReadCloser gives.
  function ReadZstd(z: Z.Zstd, bs: seq<byte>, expected: int, offset: nat): Result<seq<byte>, ReadError> {
    match CheckedHeader(bs, expected)
    case Err(e) => Err(e)
    case Ok(h) =>
      if h.compression == IDENTITY as int then Ok(z.enc(Tail(bs, HeaderSize(|h.chunkOffsets|) + offset)))
      else if h.compression != ZSTANDARD as int then Err(Unsupported)
      else
        HeaderTable(bs, expected);
        match FindStart(z, bs, h, offset)
        case Err(e) => Err(e)
        case Ok(From(pos)) => Ok(Tail(bs, pos))
        case Ok(Within(tail, None)) => Ok(z.enc(tail))
        case Ok(Within(tail, Some(next))) => Ok(z.enc(tail) + Tail(bs, next))
  }

  // ----- the steps of the program -----

  method ReadHeader(f: File) returns (r: Result<Header, HeaderError>)
    requires f.pos == 0
    modifies f`pos
    ensures r == ParseHeader(f.contents)
    ensures r.Ok? ==> f.pos == HeaderSize(|r.value.chunkOffsets|)
  {
    var foundFileSize := |f.contents|;
    if foundFileSize <= TABLE_OFFSET + 16 {
      return Err(TooSmall);
    }
    var _, magic := f.ReadFull(4);
    if FromLittleEndian(magic) != Z.SKIPPABLE_MAGIC {
      return Err(WrongMagic);
    }
    var frameSize, uncompressedSize, compression, chunkSize, numOffsets := ReadFields(f);
    if numOffsets < 2 {
      return Err(NoChunks);
    }
    var metadataSize := Wrap(numOffsets * 8 + 8 + 1 + 4 + 8);
    if frameSize != metadataSize {
      return Err(SizeFieldMismatch);
    }
    if 8 * numOffsets + 21 >= 0x1_0000_0000 {
      return Err(TableTooLong);
    }
    var table := ReadTable(f, numOffsets);
    if table.Err? {
      return Err(table.error);
    }
    return Ok(Header(uncompressedSize, compression, chunkSize, table.value));
  }

  // Read the fields between the magic number and the offset table.
  method ReadFields(f: File) returns (frameSize: int, uncompressedSize: int, compression: int, chunkSize: int, numOffsets: int)
    requires f.pos == 4 && TABLE_OFFSET <= |f.contents|
    modifies f`pos
    ensures f.pos == TABLE_OFFSET && compression == f.contents[16] as int
    ensures frameSize == FromLittleEndian(f.contents[4..8]) && uncompressedSize == FromSigned(f.contents[8..16])
    ensures chunkSize == FromLittleEndian(f.contents[17..21]) && numOffsets == FromSigned(f.contents[21..29])
  {
    var _, frameSizeField := f.ReadFull(4);
    var _, uncompressedSizeField := f.ReadFull(8);
    var _, compressionField := f.ReadFull(1);
    var _, chunkSizeField := f.ReadFull(4);
    var _, numOffsetsField := f.ReadFull(8);
    return FromLittleEndian(frameSizeField), FromSigned(uncompressedSizeField), compressionField[0] as int,
           FromLittleEndian(chunkSizeField), FromSigned(numOffsetsField);
  }

  // Read the offset table, which must increase and end where the file does.
  method ReadTable(f: File, numOffsets: int) returns (r: Result<seq<int>, HeaderError>)
    requires f.pos == TABLE_OFFSET && numOffsets >= 2
    modifies f`pos
    ensures r ==
      if TABLE_OFFSET + 8 * numOffsets > |f.contents| then Err(ShortTable)
      else
        var offsets := ParseTable(f.contents[TABLE_OFFSET..TABLE_OFFSET + 8 * numOffsets]);
        if !Increasing(offsets, -1) then Err(NotIncreasing)
        else if offsets[numOffsets - 1] != |f.contents| then Err(WrongEnd)
        else Ok(offsets)
    ensures r.Ok? ==> f.pos == TABLE_OFFSET + 8 * numOffsets && |r.value| == numOffsets
  {
    var ok, tableField := f.ReadFull(8 * numOffsets);
    if !ok {
      return Err(ShortTable);
    }
    var offsets := ParseTable(tableField);
    var increasing := CheckIncreasing(offsets);
    if !increasing {
      return Err(NotIncreasing);
    }
    return if offsets[numOffsets - 1] == |f.contents| then Ok(offsets) else Err(WrongEnd);
  }

  // The check that the offset table increases.
  method CheckIncreasing(offsets: seq<int>) returns (ok: bool)
    ensures ok == Increasing(offsets, -1)
  {
    var prevOffset := -1;
    var i := 0;
    assert offsets[0..] == offsets;
    while i < |offsets|
      invariant 0 <= i <= |offsets|
      invariant Increasing(offsets, -1) == Increasing(offsets[i..], prevOffset)
    {
      if offsets[i] <= prevOffset {
        return false;
      }
      assert offsets[i..][1..] == offsets[i + 1..];
      prevOffset := offsets[i];
      i := i + 1;
    }
    return true;
  }

  // The part the two readers share: seek to the first relevant chunk, and
  // decode it if the offset lies within it.
  method SeekStart(z: Z.Zstd, f: File, h: Header, offset: nat) returns (r: Result<Start, ReadError>)
    requires Ascending(h.chunkOffsets) && f.pos == HeaderSize(|h.chunkOffsets|)
    modifies f`pos
    ensures r == FindStart(z, f.contents, h, offset)
    ensures r.Ok? ==> PositionedAt(f, r.value)
  {
    if h.chunkSize == 0 {
      return Err(RuntimePanic);
    }
    r := SeekChunk(z, f, h.chunkOffsets, offset / h.chunkSize, offset % h.chunkSize);
  }

  // The file position is where the rest of the stream is to be read.
  ghost predicate PositionedAt(f: File, start: Start)
    reads f
  {
    match start
    case From(pos) => f.pos == pos
    case Within(_, None) => true
    case Within(_, Some(next)) => f.pos == next
  }

  method SeekChunk(z: Z.Zstd, f: File, chunkOffsets: seq<int>, chunkNum: nat, remainder: nat)
    returns (r: Result<Start, ReadError>)
    requires Ascending(chunkOffsets) && f.pos == HeaderSize(|chunkOffsets|)
    modifies f`pos
    ensures r == StartAt(z, f.contents, chunkOffsets, chunkNum, remainder)
    ensures r.Ok? ==> PositionedAt(f, r.value)
  {
    if chunkNum > 0 {
      if chunkNum >= |chunkOffsets| {
        return Err(RuntimePanic);
      }
      f.Seek(chunkOffsets[chunkNum]);
    }
    if remainder == 0 {
      return Ok(From(f.pos));
    }
    if chunkNum + 1 >= |chunkOffsets| {
      return Err(RuntimePanic);
    }
    var ok, compressedFirstChunk := f.ReadFull(chunkOffsets[chunkNum + 1] - chunkOffsets[chunkNum]);
    if !ok {
      return Err(ShortRead);
    }
    match z.dec(compressedFirstChunk)
    case None =>
      return Err(BadFrame);
    case Some(uncompressedFirstChunk) =>
      if remainder > |uncompressedFirstChunk| {
        return Err(RuntimePanic);
      }
      return Ok(Within(uncompressedFirstChunk[remainder..],
                       if chunkNum == |chunkOffsets| - 2 then None else Some(f.pos)));
  }

  method GetUncompressedReadCloser(z: Z.Zstd, f: File, expectedSize: int, offset: nat)
    returns (r: Result<seq<byte>, ReadError>)
    requires f.pos == 0
    modifies f`pos
    ensures r == ReadUncompressed(z, f.contents, expectedSize, offset)
  {
    var parsed := ReadHeader(f);
    if parsed.Err? {
      return Err(HeaderFailure(parsed.error));
    }
    var h := parsed.value;
    if expectedSize != -1 && h.uncompressedSize != expectedSize {
      return Err(WrongSize);
    }
    if h.compression == IDENTITY as int {
      f.Seek(f.pos + offset);
      return Ok(f.Rest());
    }
    if h.compression != ZSTANDARD as int {
      return Err(Unsupported);
    }
    HeaderTable(f.contents, expectedSize);
    var start := SeekStart(z, f, h, offset);
    match start
    case Err(e) =>
      return Err(e);
    case Ok(From(_)) =>
      return Decoded(z.dec(f.Rest()));
    case Ok(Within(tail, None)) =>
      return Ok(tail);
    case Ok(Within(tail, Some(_))) =>
      return Decoded(Z.Then(tail, z.dec(f.Rest())));
  }

  method GetZstdReadCloser(z: Z.Zstd, f: File, expectedSize: int, offset: nat)
    returns (r: Result<seq<byte>, ReadError>)
    requires f.pos == 0
    modifies f`pos
    ensures r == ReadZstd(z, f.contents, expectedSize, offset)
  {
    var parsed := ReadHeader(f);
    if parsed.Err? {
      return Err(HeaderFailure(parsed.error));
    }
    var h := parsed.value;
    if expectedSize != -1 && h.uncompressedSize != expectedSize {
      return Err(WrongSize);
    }
    if h.compression == IDENTITY as int {
      f.Seek(f.pos + offset);
      return Ok(z.enc(f.Rest()));
    }
    if h.compression != ZSTANDARD as int {
      return Err(Unsupported);
    }
    HeaderTable(f.contents, expectedSize);
    var start := SeekStart(z, f, h, offset);
    match start
    case Err(e) =>
      return Err(e);
    case Ok(From(_)) =>
      return Ok(f.Rest());
    case Ok(Within(tail, None)) =>
      return Ok(z.enc(tail));
    case Ok(Within(tail, Some(_))) =>
      return Ok(z.enc(tail) + f.Rest());
  }

  // ----- random access to a written file -----

  // The offsets that the readers accept on a written file. Besides those up to
  // the size it is the end of the last chunk's range.
  predicate InRange(data: seq<byte>, offset: nat) {
    offset <= |data| || offset == |Chunks(data)| * CHUNK
  }

  function DataFrom(data: seq<byte>, offset: nat): seq<byte> {
    if offset <= |data| then data[offset..] else []
  }

  // The frames of the written file from chunk k on.
  lemma TailFrames(z: Z.Zstd, data: seq<byte>, k: nat)
    requires k <= |Chunks(data)|
    ensures var pos := TableFor(z, data)[k];
      && pos <= |FileBytes(z, data)|
      && FileBytes(z, data)[pos..] == Encoded(z, Chunks(data)[k..])
      && (k == 0 ==> pos == HeaderSize(|Chunks(data)| + 1))
      && (k < |Chunks(data)| ==> TableFor(z, data)[k + 1] == pos + |z.enc(Chunks(data)[k])|)
  {
    var chunks := Chunks(data);
    var start := HeaderSize(|chunks| + 1);
    FileParts(z, data);
    EncodedSuffix(z, chunks, start, k);
    var r := TableFor(z, data)[k] - start;
    assert FileBytes(z, data)[start..][r..] == FileBytes(z, data)[start + r..];
  }

  // The frames from chunk k on decode to the data from there on, the first of
  // them to the chunk itself, and the others to the data after it.
  lemma FramesFrom(z: Z.Zstd, data: seq<byte>, k: nat)
    requires Z.Lawful(z) && k < |Chunks(data)|
    ensures var bs, pos, end := FileBytes(z, data), TableFor(z, data)[k], TableFor(z, data)[k + 1];
      var d := if k * CHUNK <= |data| then data[k * CHUNK..] else [];
      var size := if |d| <= CHUNK then |d| else CHUNK;
      && k * CHUNK < |data| && pos <= end <= |bs|
      && z.dec(bs[pos..]) == Some(d)
      && z.dec(bs[pos..end]) == Some(d[..size])
      && z.dec(bs[end..]) == Some(d[size..])
      && (k == |Chunks(data)| - 1 <==> |d| <= CHUNK)
      && (k == 0 ==> pos == HeaderSize(|Chunks(data)| + 1))
  {
    ChunksJoin(data, k);
    ChunksJoin(data, k + 1);
    var d := data[k * CHUNK..];
    var size := if |d| <= CHUNK then |d| else CHUNK;
    TailFrames(z, data, k);
    TailFrames(z, data, k + 1);
    RestOfChunks(d, size);
    assert Chunks(data)[k] == Chunks(data)[k..][0] && Chunks(data)[k + 1..] == Chunks(data)[k..][1..];
    FirstFrame(z, FileBytes(z, data), TableFor(z, data)[k], TableFor(z, data)[k + 1], d);
  }

  lemma FirstFrame(z: Z.Zstd, bs: seq<byte>, pos: nat, end: nat, d: seq<byte>)
    requires Z.Lawful(z) && d != [] && pos <= |bs| && bs[pos..] == Encoded(z, Chunks(d))
    requires end == pos + |z.enc(Chunks(d)[0])|
    ensures var size := if |d| <= CHUNK then |d| else CHUNK;
      && end <= |bs| && z.dec(bs[pos..]) == Some(d)
      && z.dec(bs[pos..end]) == Some(d[..size])
      && z.dec(bs[end..]) == Some(d[size..])
  {
    var size := if |d| <= CHUNK then |d| else CHUNK;
    var first := Chunks(d)[0];
    RestOfChunks(d, size);
    var rest := Encoded(z, Chunks(d[size..]));
    assert bs[pos..] == z.enc(first) + rest;
    assert bs[pos..end] == bs[pos..][..|z.enc(first)|] == z.enc(first);
    assert bs[end..] == bs[pos..][|z.enc(first)|..] == rest;
    Z.DecodeOne(z, first);
    EncodedDecodes(z, d);
    EncodedDecodes(z, d[size..]);
  }

  lemma RestOfChunks(d: seq<byte>, size: nat)
    requires d != [] && size == if |d| <= CHUNK then |d| else CHUNK
    ensures Chunks(d)[1..] == Chunks(d[size..])
    ensures |Chunks(d)| == 1 <==> |d| <= CHUNK
  {
  }

  // What FindStart returns on a written file, in terms of the data.
  ghost predicate StartsRight(z: Z.Zstd, data: seq<byte>, offset: nat, start: Result<Start, ReadError>) {
    match start
    case Ok(From(pos)) => InRange(data, offset) && z.dec(Tail(FileBytes(z, data), pos)) == Some(DataFrom(data, offset))
    case Ok(Within(tail, None)) => InRange(data, offset) && tail == DataFrom(data, offset)
    case Ok(Within(tail, Some(next))) =>
      && InRange(data, offset)
      && Z.Then(tail, z.dec(Tail(FileBytes(z, data), next))) == Some(DataFrom(data, offset))
    case Err(e) => e == RuntimePanic && !InRange(data, offset)
  }

  lemma StartOfWritten(z: Z.Zstd, data: seq<byte>, offset: nat)
    requires Z.Lawful(z) && data != [] && Ascending(TableFor(z, data))
    ensures StartsRight(z, data, offset, FindStart(z, FileBytes(z, data), HeaderFor(z, data), offset))
  {
    var k, r := offset / 0x10_0000, offset % 0x10_0000;
    assert offset == k * 0x10_0000 + r;
    var start := FindStart(z, FileBytes(z, data), HeaderFor(z, data), offset);
    if k < |Chunks(data)| {
      StartInside(z, data, k, r);
    } else {
      StartAfter(z, data, k, r);
    }
  }

  lemma StartInside(z: Z.Zstd, data: seq<byte>, k: nat, r: nat)
    requires Z.Lawful(z) && data != [] && Ascending(TableFor(z, data))
    requires k < |Chunks(data)| && r < CHUNK
    ensures StartsRight(z, data, k * CHUNK + r, StartAt(z, FileBytes(z, data), TableFor(z, data), k, r))
  {
    var bs, table := FileBytes(z, data), TableFor(z, data);
    var d := data[if k * CHUNK <= |data| then k * CHUNK else |data|..];
    var size := if |d| <= CHUNK then |d| else CHUNK;
    FramesFrom(z, data, k);
    OffsetInChunk(data, k, r);
    StartAtGives(z, bs, table, k, r, d[..size]);
    var start := StartAt(z, bs, table, k, r);
    if r == 0 {
      assert start == Ok(From(table[k])) && Tail(bs, table[k]) == bs[table[k]..];
      assert d == DataFrom(data, k * CHUNK + r);
    } else if r <= size {
      assert start.Ok? && start.value.Within? && start.value.tail == d[..size][r..];
      assert Tail(bs, table[k + 1]) == bs[table[k + 1]..];
    }
  }

  lemma StartAtGives(z: Z.Zstd, bs: seq<byte>, table: seq<int>, k: nat, r: nat, first: seq<byte>)
    requires Ascending(table) && k + 1 < |table| && table[k + 1] <= |bs|
    requires k == 0 ==> table[0] == HeaderSize(|table|)
    requires z.dec(bs[table[k]..table[k + 1]]) == Some(first)
    ensures StartAt(z, bs, table, k, r) ==
            if r == 0 then Ok(From(table[k]))
            else if r > |first| then Err(RuntimePanic)
            else Ok(Within(first[r..], if k == |table| - 2 then None else Some(table[k + 1])))
  {
  }

  lemma StartAfter(z: Z.Zstd, data: seq<byte>, k: nat, r: nat)
    requires Z.Lawful(z) && data != [] && Ascending(TableFor(z, data))
    requires |Chunks(data)| <= k && r < CHUNK
    ensures StartsRight(z, data, k * CHUNK + r, StartAt(z, FileBytes(z, data), TableFor(z, data), k, r))
  {
    var n := |Chunks(data)|;
    var start := StartAt(z, FileBytes(z, data), TableFor(z, data), k, r);
    ChunksJoin(data, n);
    if k == n {
      StartAtEnd(z, data, r);
    } else {
      assert start == Err(RuntimePanic) && !InRange(data, k * CHUNK + r);
    }
  }

  // Behind the last chunk there is nothing to decode.
  lemma StartAtEnd(z: Z.Zstd, data: seq<byte>, r: nat)
    requires Z.Lawful(z) && data != [] && Ascending(TableFor(z, data)) && r < CHUNK
    ensures var n := |Chunks(data)|;
      StartsRight(z, data, n * CHUNK + r, StartAt(z, FileBytes(z, data), TableFor(z, data), n, r))
  {
    var n := |Chunks(data)|;
    var start := StartAt(z, FileBytes(z, data), TableFor(z, data), n, r);
    ChunksJoin(data, n);
    TailFrames(z, data, n);
    assert Chunks(data)[n..] == [];
    EncodedDecodes(z, []);
  }

  lemma OffsetInChunk(data: seq<byte>, k: nat, r: nat)
    requires k < |Chunks(data)| && k * CHUNK < |data| && r < CHUNK
    ensures var d := data[k * CHUNK..];
      var size := if |d| <= CHUNK then |d| else CHUNK;
      && (InRange(data, k * CHUNK + r) <==> r <= size)
      && (r <= size ==> d[..size][r..] + d[size..] == data[k * CHUNK + r..])
      && (|d| <= CHUNK && r <= size ==> d[..size][r..] == data[k * CHUNK + r..])
  {
    ChunksJoin(data, |Chunks(data)|);
    var d := data[k * CHUNK..];
    if r <= |d| { assert d[r..] == data[k * CHUNK + r..]; }
  }

  // Random access refines decoding the whole file: for every offset up to the
  // size the uncompressed reader yields the data from there on. Beyond it the
  // readers yield nothing at the end of the last chunk's range, and otherwise
  // leave the domain of an index or a slice.
  lemma UncompressedRefines(z: Z.Zstd, data: seq<byte>, expected: int, offset: nat)
    requires Z.Lawful(z) && SizesFit(z, data) && TableFits(|Chunks(data)| + 1)
    requires expected == -1 || expected == |data|
    ensures ReadUncompressed(z, FileBytes(z, data), expected, offset) ==
            if InRange(data, offset) then Ok(DataFrom(data, offset)) else Err(RuntimePanic)
  {
    HeaderRoundTrip(z, data);
    IncreasingMeans(TableFor(z, data), -1);
    StartOfWritten(z, data, offset);
    var r := ReadUncompressed(z, FileBytes(z, data), expected, offset);
  }

  // The zstd reader yields frames that decode to the same.
  lemma ZstdRefines(z: Z.Zstd, data: seq<byte>, expected: int, offset: nat)
    requires Z.Lawful(z) && SizesFit(z, data) && TableFits(|Chunks(data)| + 1)
    requires expected == -1 || expected == |data|
    ensures var r := ReadZstd(z, FileBytes(z, data), expected, offset);
      if InRange(data, offset) then r.Ok? && z.dec(r.value) == Some(DataFrom(data, offset)) else r == Err(RuntimePanic)
  {
    HeaderRoundTrip(z, data);
    IncreasingMeans(TableFor(z, data), -1);
    StartOfWritten(z, data, offset);
    var h := HeaderFor(z, data);
    match FindStart(z, FileBytes(z, data), h, offset)
    case Ok(Within(tail, None)) => Z.DecodeOne(z, tail);
    case _ =>
  }

  // ----- the logical size of a stream -----

  function LogicalSize(bs: seq<byte>): Option<int> {
    if |bs| < 16 then None
    else
      var size := FromSigned(bs[8..16]);
      if size <= 0 then None else Some(size)
  }

  // Find the size of the data in a compressed blob from the start of its
  // stream, and give back an equivalent stream.
  method ExtractLogicalSize(f: File) returns (size: Option<int>, stream: seq<byte>)
    requires f.pos == 0
    modifies f`pos
    ensures size == LogicalSize(f.contents)
    ensures size.Some? ==> stream == f.contents
  {
    var ok, earlyHeader := f.ReadFull(16);
    if !ok {
      return None, [];
    }
    var uncompressedSize := FromSigned(earlyHeader[8..]);
    if uncompressedSize <= 0 {
      return None, [];
    }
    assert earlyHeader[8..] == f.contents[8..16];
    return Some(uncompressedSize), earlyHeader + f.Rest();
  }

  // It is the size that the readers see in the header, and on a written file
  // the size of the data, however many offsets its table has.
  lemma LogicalSizeIsExact(z: Z.Zstd, data: seq<byte>, bs: seq<byte>)
    ensures ParseHeader(bs).Ok? ==>
      var size := ParseHeader(bs).value.uncompressedSize;
      LogicalSize(bs) == if size > 0 then Some(size) else None
    ensures 0 < |data| < 0x8000_0000_0000_0000 ==> LogicalSize(FileBytes(z, data)) == Some(|data|)
  {
    var n := |Chunks(data)| + 1;
    if 0 < |data| < 0x8000_0000_0000_0000 {
      ChunksJoin(data, n - 2);
      FileParts(z, data);
      ParseFixed(|data|, ZSTANDARD, CHUNK, n, OffsetBytes(TableFor(z, data)) + Encoded(z, Chunks(data)));
    }
  }
}
