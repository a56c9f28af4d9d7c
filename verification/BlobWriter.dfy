// The writer of compressed CAS blobs (cache/disk/casblob/casblob.go): it
// copies exactly size bytes chunk by chunk, checks their hash, and goes back
// to fill in the offset table.
module BlobWriter {
  import opened Wrappers
  import opened Bytes
  import opened CasBlob
  import Z = Zstd

  // An input stream: some bytes, and then the end or an error.
  class Reader {
    var rest: seq<byte>
    const fails: bool

    constructor (body: seq<byte>, fails: bool)
      ensures rest == body && this.fails == fails
    {
      this.rest := body;
      this.fails := fails;
    }

    // Fill a buffer of n bytes: what was read, or why not all of it.
    method ReadFull(n: nat) returns (r: ReadOutcome)
      modifies this
      ensures r == if n <= |old(rest)| then Full(old(rest)[..n])
                   else if old(rest) == [] && !fails then EndOfFile else OtherError
      ensures rest == if n <= |old(rest)| then old(rest)[n..] else []
    {
      if n <= |rest| {
        r := Full(rest[..n]);
        rest := rest[n..];
      } else {
        r := if rest == [] && !fails then EndOfFile else OtherError;
        rest := [];
      }
    }
  }

  datatype ReadOutcome = Full(bs: seq<byte>) | EndOfFile | OtherError

  datatype WriteError = InvalidSize | TooFewBytes | TooManyBytes | InputError | WrongHash | DiskError

  // A body of exactly the declared, positive size, with the right hash.
  predicate Acceptable(body: seq<byte>, fails: bool, size: int, sha: seq<byte> -> string, hash: string) {
    size > 0 && |body| == size && !fails && sha(body) == hash
  }

  // ----- chunks and offsets grow at the end -----

  lemma {:induction false} ChunksAppend(c: seq<byte>, piece: seq<byte>, k: nat)
    requires |c| == k * CHUNK && 0 < |piece| <= CHUNK
    ensures Chunks(c + piece) == Chunks(c) + [piece] && |Chunks(c)| == k
    decreases k
  {
    if k == 0 {
      assert c + piece == piece;
    } else {
      ChunksAppend(c[CHUNK..], piece, k - 1);
      assert (c + piece)[CHUNK..] == c[CHUNK..] + piece;
      assert (c + piece)[..CHUNK] == c[..CHUNK];
      if k == 1 {
        assert c[CHUNK..] == [];
        assert c == c[..CHUNK];
      }
    }
  }

  lemma {:induction false} EncodedAppend(z: Z.Zstd, chunks: seq<seq<byte>>, piece: seq<byte>, start: nat)
    ensures Encoded(z, chunks + [piece]) == Encoded(z, chunks) + z.enc(piece)
    ensures Offsets(z, chunks, start)[|chunks|] == start + |Encoded(z, chunks)|
    ensures Offsets(z, chunks + [piece], start) ==
            Offsets(z, chunks, start) + [start + |Encoded(z, chunks)| + |z.enc(piece)|]
  {
    if chunks == [] {
      assert chunks + [piece] == [piece];
      assert Encoded(z, [piece]) == z.enc(piece) + Encoded(z, []);
    } else {
      EncodedAppend(z, chunks[1..], piece, start + |z.enc(chunks[0])|);
      assert (chunks + [piece])[1..] == chunks[1..] + [piece];
    }
  }

  // After i chunks: what has been read, what is in the file behind the
  // provisional header, and which offsets are known.
  ghost predicate Progress(z: Z.Zstd, all: seq<byte>, size: nat, i: nat, numChunks: nat,
                           read: nat, body: seq<byte>, table: seq<nat>, fileOffset: nat) {
    && i <= numChunks == |table| - 1 && read <= size && read <= |all|
    && read == (if i < numChunks then i * CHUNK else size)
    && body == Encoded(z, Chunks(all[..read])) && |Chunks(all[..read])| == i
    && table[..i] == Offsets(z, Chunks(all[..read]), HeaderSize(|table|))[..i]
    && fileOffset == HeaderSize(|table|) + |body|
  }

  lemma ProgressStep(z: Z.Zstd, all: seq<byte>, size: nat, i: nat, numChunks: nat,
                     read: nat, body: seq<byte>, table: seq<nat>, fileOffset: nat, chunkEnd: nat)
    requires Progress(z, all, size, i, numChunks, read, body, table, fileOffset) && i < numChunks
    requires (numChunks - 1) * CHUNK < size <= numChunks * CHUNK
    requires chunkEnd == (if size - read <= CHUNK then size - read else CHUNK) && read + chunkEnd <= |all|
    ensures var piece := all[read..read + chunkEnd];
      Progress(z, all, size, i + 1, numChunks, read + chunkEnd, body + z.enc(piece), table[i := fileOffset],
               fileOffset + |z.enc(piece)|)
  {
    var piece := all[read..read + chunkEnd];
    assert all[..read + chunkEnd] == all[..read] + piece;
    ChunksAppend(all[..read], piece, i);
    EncodedAppend(z, Chunks(all[..read]), piece, HeaderSize(|table|));
    var table' := table[i := fileOffset];
    assert table'[..i + 1] == table[..i] + [fileOffset];
  }

  // Filling in the offset table turns the provisional file into the final one.
  lemma Finished(z: Z.Zstd, data: seq<byte>, zeros: seq<nat>)
    requires |zeros| == |Chunks(data)| + 1
    ensures var provisional := HeaderBytes(|data|, ZSTANDARD, CHUNK, zeros) + Encoded(z, Chunks(data));
      && TABLE_OFFSET <= |provisional|
      && Overwritten(provisional, TABLE_OFFSET, OffsetBytes(TableFor(z, data))) == FileBytes(z, data)
  {
    Overlay(FixedBytes(|data|, ZSTANDARD, CHUNK, |zeros|), OffsetBytes(zeros), OffsetBytes(TableFor(z, data)),
      Encoded(z, Chunks(data)));
  }

  lemma Overlay(fixed: seq<byte>, before: seq<byte>, after: seq<byte>, body: seq<byte>)
    requires |before| == |after|
    ensures Overwritten(fixed + before + body, |fixed|, after) == fixed + after + body
  {
  }

  // Store the input as a compressed blob. It succeeds only if r holds size bytes, no more
  // and no fewer, with the given hash, and then does so unless the disk fails;
  // the file then holds them.
  method WriteAndClose(z: Z.Zstd, sha: seq<byte> -> string, r: Reader, f: File, hash: string, size: int)
    returns (res: Result<nat, WriteError>)
    requires f.contents == [] && f.pos == 0
    modifies r, f
    ensures res.Ok? ==> Acceptable(old(r.rest), r.fails, size, sha, hash)
    ensures Acceptable(old(r.rest), r.fails, size, sha, hash) && !f.faulty ==> res.Ok?
    ensures res.Ok? ==> f.contents == FileBytes(z, old(r.rest)) && res.value == |f.contents|
  {
    if size <= 0 {
      return Err(InvalidSize);
    }
    ghost var all := r.rest;
    var numChunks := CountChunks(size);
    var numOffsets := numChunks + 1;
    var chunkOffsets := new nat[numOffsets](_ => 0);
    chunkOffsets[0] := TABLE_OFFSET;
    ghost var zeros := chunkOffsets[..];
    var ok := f.Write(HeaderBytes(size, ZSTANDARD, CHUNK, chunkOffsets[..]));
    if !ok {
      return Err(DiskError);
    }
    var fileOffset := HeaderSize(numOffsets);
    assert f.contents == HeaderBytes(size, ZSTANDARD, CHUNK, zeros);

    var hashed := [];
    var written: Result<nat, WriteError>;
    written, hashed := CopyChunks(z, r, f, chunkOffsets, size, fileOffset);
    if written.Err? {
      return written;
    }
    fileOffset := written.value;
    assert hashed == all[..size];

    // Nothing may be left in the input.
    var after := r.ReadFull(CHUNK);
    if after.Full? {
      return Err(TooManyBytes);
    }
    if after != EndOfFile {
      return Err(InputError);
    }
    assert hashed == all;
    if sha(hashed) != hash {
      return Err(WrongHash);
    }
    f.Seek(TABLE_OFFSET);
    Finished(z, all, zeros);
    ok := f.Write(OffsetBytes(chunkOffsets[..]));
    if !ok {
      return Err(DiskError);
    }
    ok := f.Finish();
    return if ok then Ok(fileOffset) else Err(DiskError);
  }

  method CountChunks(size: nat) returns (numChunks: nat)
    requires size > 0
    ensures numChunks > 0 && (numChunks - 1) * CHUNK < size <= numChunks * CHUNK
  {
    numChunks := size / 0x10_0000;
    var remainder := size % 0x10_0000;
    if remainder > 0 {
      numChunks := numChunks + 1;
    }
  }

  // Read one chunk and append its frame to the file.
  method CopyChunk(z: Z.Zstd, r: Reader, f: File, chunkEnd: nat)
    returns (err: Option<WriteError>, bs: seq<byte>, written: nat)
    requires f.pos == |f.contents|
    modifies r, f
    ensures err == Some(TooFewBytes) <==> chunkEnd > |old(r.rest)|
    ensures err.Some? && !f.faulty ==> err == Some(TooFewBytes)
    ensures err == None ==>
      && bs == old(r.rest)[..chunkEnd] && r.rest == old(r.rest)[chunkEnd..]
      && f.contents == old(f.contents) + z.enc(bs) && f.pos == |f.contents| && written == |z.enc(bs)|
  {
    var input := r.ReadFull(chunkEnd);
    if !input.Full? {
      return Some(TooFewBytes), [], 0;
    }
    var compressedChunk := z.enc(input.bs);
    var ok := f.Write(compressedChunk);
    if !ok {
      return Some(DiskError), [], 0;
    }
    return None, input.bs, |compressedChunk|;
  }

  // In the middle of the loop: what it has done, and what is left to read.
  ghost predicate Copying(z: Z.Zstd, r: Reader, f: File, chunkOffsets: array<nat>, all: seq<byte>, size: nat, i: nat,
                          read: nat, header: seq<byte>, body: seq<byte>, fileOffset: nat)
    reads r, f, chunkOffsets
  {
    && chunkOffsets.Length > 0 && Progress(z, all, size, i, chunkOffsets.Length - 1, read, body, chunkOffsets[..], fileOffset)
    && r.rest == all[read..] && f.contents == header + body && f.pos == |f.contents|
  }

  // Note where the next chunk starts, and copy it.
  method CopyNext(z: Z.Zstd, r: Reader, f: File, chunkOffsets: array<nat>, i: nat, chunkEnd: nat, fileOffset: nat,
                  ghost all: seq<byte>, ghost size: nat, ghost read: nat, ghost header: seq<byte>, ghost body: seq<byte>)
    returns (err: Option<WriteError>, bs: seq<byte>, written: nat)
    requires i < chunkOffsets.Length - 1 && (chunkOffsets.Length - 2) * CHUNK < size <= (chunkOffsets.Length - 1) * CHUNK
    requires Copying(z, r, f, chunkOffsets, all, size, i, read, header, body, fileOffset)
    requires chunkEnd == if size - read <= CHUNK then size - read else CHUNK
    modifies r, f, chunkOffsets
    ensures err == Some(TooFewBytes) <==> read + chunkEnd > |all|
    ensures err.Some? && !f.faulty ==> err == Some(TooFewBytes)
    ensures err == None ==>
      && bs == all[read..read + chunkEnd] && all[..read] + bs == all[..read + chunkEnd] && written == |z.enc(bs)|
      && Copying(z, r, f, chunkOffsets, all, size, i + 1, read + chunkEnd, header, body + z.enc(bs), fileOffset + written)
  {
    ghost var table := chunkOffsets[..];
    chunkOffsets[i] := fileOffset;
    assert chunkOffsets[..] == table[i := fileOffset];
    err, bs, written := CopyChunk(z, r, f, chunkEnd);
    if err == None {
      ProgressStep(z, all, size, i, chunkOffsets.Length - 1, read, body, table, fileOffset, chunkEnd);
      assert all[read..][..chunkEnd] == all[read..read + chunkEnd] && all[read..][chunkEnd..] == all[read + chunkEnd..];
      assert header + body + z.enc(bs) == header + (body + z.enc(bs));
    }
  }

  // The loop that compresses the data chunk by chunk.
  method CopyChunks(z: Z.Zstd, r: Reader, f: File, chunkOffsets: array<nat>, size: nat, start: nat)
    returns (res: Result<nat, WriteError>, hashed: seq<byte>)
    requires chunkOffsets.Length >= 2 && start == HeaderSize(chunkOffsets.Length)
    requires (chunkOffsets.Length - 2) * CHUNK < size <= (chunkOffsets.Length - 1) * CHUNK
    requires f.pos == |f.contents| == start
    modifies r, f, chunkOffsets
    ensures res.Ok? ==> size <= |old(r.rest)|
    ensures size <= |old(r.rest)| && !f.faulty ==> res.Ok?
    ensures res.Ok? ==> var data := old(r.rest)[..size];
      && hashed == data && r.rest == old(r.rest)[size..]
      && |Chunks(data)| == chunkOffsets.Length - 1
      && f.contents == old(f.contents) + Encoded(z, Chunks(data)) && res.value == |f.contents|
      && chunkOffsets[..] == TableFor(z, data)
  {
    ghost var all := r.rest;
    ghost var header := f.contents;
    ghost var body: seq<byte> := [];
    ghost var read: nat := 0;
    var fileOffset: nat := start;
    var nextChunk := 0;
    var remainingRawData := size;
    var numChunks := chunkOffsets.Length - 1;
    hashed := [];
    while nextChunk < numChunks
      invariant Copying(z, r, f, chunkOffsets, all, size, nextChunk, read, header, body, fileOffset)
      invariant remainingRawData == size - read && hashed == all[..read]
    {
      var chunkEnd := CHUNK;
      if remainingRawData <= CHUNK {
        chunkEnd := remainingRawData;
      }
      remainingRawData := remainingRawData - chunkEnd;
      var err, bs, written := CopyNext(z, r, f, chunkOffsets, nextChunk, chunkEnd, fileOffset, all, size, read, header, body);
      if err.Some? {
        return Err(err.value), hashed;
      }
      hashed := hashed + bs;
      fileOffset := fileOffset + written;
      body := body + z.enc(bs);
      read := read + chunkEnd;
      nextChunk := nextChunk + 1;
    }
    ProgressEnd(z, all, size, numChunks, read, body, chunkOffsets[..], fileOffset);
    ghost var table := chunkOffsets[..];
    chunkOffsets[nextChunk] := fileOffset;
    assert chunkOffsets[..] == table[numChunks := fileOffset];
    return Ok(fileOffset), hashed;
  }

  lemma ProgressEnd(z: Z.Zstd, all: seq<byte>, size: nat, numChunks: nat,
                    read: nat, body: seq<byte>, table: seq<nat>, fileOffset: nat)
    requires Progress(z, all, size, numChunks, numChunks, read, body, table, fileOffset)
    ensures read == size <= |all| && |Chunks(all[..size])| == numChunks
    ensures body == Encoded(z, Chunks(all[..size])) && table[numChunks := fileOffset] == TableFor(z, all[..size])
  {
    TableEnd(z, Chunks(all[..size]), HeaderSize(|table|));
    assert table[numChunks := fileOffset] == table[..numChunks] + [fileOffset];
  }

  lemma {:induction false} TableEnd(z: Z.Zstd, chunks: seq<seq<byte>>, start: nat)
    ensures Offsets(z, chunks, start)[|chunks|] == start + |Encoded(z, chunks)|
  {
    if chunks != [] { TableEnd(z, chunks[1..], start + |z.enc(chunks[0])|); }
  }
}
