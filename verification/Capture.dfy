// Recording which blobs an action result keeps alive (cache/disk/lru_capture.go).
// A closure is emitted completely or not at all.
module Capture {
  import opened Wrappers
  import opened Int64
  import opened LruSpec
  import opened SizedLru
  import opened Names
  import opened Messages

  datatype LruObject = LruObject(hash: string, sizeOnDisk: int)

  datatype Closure = Closure(ac: LruObject, leaves: seq<LruObject>)

  datatype DropReason = IncompleteClosure | WriteHasDirectories | WriteInlinedLeaf

  // The sizes on disk that the validation of one action result comes across.
  class Collector {
    var sizes: map<string, int64>

    constructor ()
      ensures sizes == map[]
    {
      sizes := map[];
    }

    method Record(hash: string, sizeOnDisk: int64)
      modifies this
      ensures sizes == old(sizes)[hash := sizeOnDisk]
    {
      sizes := sizes[hash := sizeOnDisk];
    }
  }

  function Hashes(leaves: seq<LruObject>): seq<string> {
    seq(|leaves|, i requires 0 <= i < |leaves| => leaves[i].hash)
  }

  // Every leaf has the size that is known for its hash.
  ghost predicate Sized(leaves: seq<LruObject>, size: string -> Option<int64>) {
    forall i :: 0 <= i < |leaves| ==> size(leaves[i].hash) == Some(leaves[i].sizeOnDisk)
  }

  // All the hashes, and nothing else, as leaves of known size.
  ghost predicate Complete(leaves: seq<LruObject>, hashes: seq<string>, size: string -> Option<int64>) {
    Hashes(leaves) == Nub(hashes) && Sized(leaves, size)
  }

  // A complete list of leaves is free of duplicates, names the same hashes as a
  // set, and exists exactly if every size is known.
  lemma CompleteMeans(leaves: seq<LruObject>, hashes: seq<string>, size: string -> Option<int64>)
    requires Complete(leaves, hashes, size)
    ensures forall i, j :: 0 <= i < j < |leaves| ==> leaves[i].hash != leaves[j].hash
    ensures forall h :: h in hashes <==> exists i :: 0 <= i < |leaves| && leaves[i].hash == h
    ensures forall h :: h in hashes ==> size(h).Some?
  {
    NubFacts(hashes);
    forall i, j | 0 <= i < j < |leaves| ensures leaves[i].hash != leaves[j].hash {
      assert Hashes(leaves)[i] != Hashes(leaves)[j];
    }
    forall h | h in hashes ensures size(h).Some? && exists i :: 0 <= i < |leaves| && leaves[i].hash == h {
      var i :| 0 <= i < |leaves| && Hashes(leaves)[i] == h;
      assert leaves[i].hash == h;
    }
    forall i | 0 <= i < |leaves| ensures leaves[i].hash in hashes {
      assert Hashes(leaves)[i] in Nub(hashes);
    }
  }

  lemma CompleteNext(leaves: seq<LruObject>, hashes: seq<string>, size: string -> Option<int64>, h: string)
    requires Complete(leaves, hashes, size)
    ensures h in hashes ==> Complete(leaves, hashes + [h], size)
    ensures h !in hashes && size(h).Some? ==> Complete(leaves + [LruObject(h, size(h).value)], hashes + [h], size)
  {
    NubSnoc(hashes, h);
    if h !in hashes && size(h).Some? {
      assert Hashes(leaves + [LruObject(h, size(h).value)]) == Hashes(leaves) + [h];
    }
  }

  // ----- reads -----

  function CollectedSize(sizes: map<string, int64>): string -> Option<int64> {
    h => if h == EMPTY_SHA256 then Some(0) else if h in sizes then Some(sizes[h]) else None
  }

  // The closure of a validated hit is emitted exactly if the size of every leaf
  // has been collected.
  method EmitFromHit(acHash: string, acSizeOnDisk: int, leafHashes: seq<string>, collector: Collector)
    returns (closure: Option<Closure>)
    ensures closure.Some? <==> forall h :: h in leafHashes ==> CollectedSize(collector.sizes)(h).Some?
    ensures closure.Some? ==>
      && closure.value.ac == LruObject(acHash, acSizeOnDisk)
      && Complete(closure.value.leaves, leafHashes, CollectedSize(collector.sizes))
  {
    var leaves: seq<LruObject> := [];
    var seen: set<string> := {};
    ghost var size := CollectedSize(collector.sizes);
    var i := 0;
    while i < |leafHashes|
      invariant 0 <= i <= |leafHashes|
      invariant forall h :: h in seen <==> h in leafHashes[..i]
      invariant Complete(leaves, leafHashes[..i], size)
      invariant forall h :: h in leafHashes[..i] ==> size(h).Some?
    {
      var h := leafHashes[i];
      assert leafHashes[..i + 1] == leafHashes[..i] + [h];
      CompleteNext(leaves, leafHashes[..i], size, h);
      if h !in seen {
        seen := seen + {h};
        if h == EMPTY_SHA256 {
          leaves := leaves + [LruObject(h, 0)];
        } else if h in collector.sizes {
          leaves := leaves + [LruObject(h, collector.sizes[h])];
        } else {
          assert h in leafHashes && size(h) == None;
          return None;
        }
      }
      i := i + 1;
    }
    assert leafHashes[..|leafHashes|] == leafHashes;
    return Some(Closure(LruObject(acHash, acSizeOnDisk), leaves));
  }

  // ----- writes -----

  function StoredSize(es: seq<Entry>, prefix: string): string -> Option<int64> {
    h => if h == EMPTY_SHA256 then Some(0)
         else match Find(es, CasKey(prefix, h)) case Some(item) => Some(item.sizeOnDisk) case None => None
  }

  // A lookup that leaves the index as it is, its order included.
  method LookupSizeOnDisk(lru: SizedLRU, prefix: string, hash: string) returns (size: Option<int64>)
    requires lru.Valid()
    ensures size == StoredSize(lru.Entries(), prefix)(hash)
  {
    if hash == EMPTY_SHA256 {
      return Some(0);
    }
    var item := lru.Peek(CasKey(prefix, hash));
    return if item.Some? then Some(item.value.sizeOnDisk) else None;
  }

  function HashOf(d: Option<Digest>): seq<string> {
    match d
    case Some(digest) => [digest.hash]
    case None => []
  }

  function HashOfFile(f: Option<OutputFile>): seq<string> {
    match f
    case Some(file) => HashOf(file.digest)
    case None => []
  }

  function FileHashes(files: seq<Option<OutputFile>>): seq<string> {
    if files == [] then [] else HashOfFile(files[0]) + FileHashes(files[1..])
  }

  // The hashes from the i-th file on.
  lemma FileHashesFrom(files: seq<Option<OutputFile>>, i: nat)
    requires i < |files|
    ensures FileHashes(files[i..]) == HashOfFile(files[i]) + FileHashes(files[i + 1..])
  {
    assert files[i..][1..] == files[i + 1..];
  }

  // The hashes an action result refers to without reading any tree.
  function ReferencedHashes(ar: ActionResult): seq<string> {
    FileHashes(ar.outputFiles) + HashOf(ar.stdoutDigest) + HashOf(ar.stderrDigest)
  }

  predicate Inlined(f: Option<OutputFile>) {
    f.Some? && f.value.contents != []
  }

  predicate HasInlinedContent(ar: ActionResult) {
    ar.stdoutRaw != [] || ar.stderrRaw != [] ||
    exists i :: 0 <= i < |ar.outputFiles| && Inlined(ar.outputFiles[i])
  }

  ghost predicate AllKnown(hashes: seq<string>, size: string -> Option<int64>) {
    forall h :: h in hashes ==> size(h).Some?
  }

  // Nothing is inlined in the first i files, and done are their hashes.
  ghost predicate FilesDone(files: seq<Option<OutputFile>>, i: nat, done: seq<string>)
    requires i <= |files|
  {
    FileHashes(files) == done + FileHashes(files[i..]) && forall k :: 0 <= k < i ==> !Inlined(files[k])
  }

  // The files give a reason to drop the closure, or none of them does.
  ghost predicate Explains(dropped: Option<DropReason>, files: seq<Option<OutputFile>>, size: string -> Option<int64>) {
    match dropped
    case Some(WriteInlinedLeaf) => exists k :: 0 <= k < |files| && Inlined(files[k])
    case Some(IncompleteClosure) => !AllKnown(FileHashes(files), size)
    case Some(WriteHasDirectories) => false
    case None => AllKnown(FileHashes(files), size) && forall k :: 0 <= k < |files| ==> !Inlined(files[k])
  }

  lemma FirstFile(files: seq<Option<OutputFile>>)
    ensures FilesDone(files, 0, [])
  {
    assert files[0..] == files && [] + FileHashes(files) == FileHashes(files);
  }

  lemma NextFile(files: seq<Option<OutputFile>>, i: nat, done: seq<string>, size: string -> Option<int64>)
    requires i < |files| && FilesDone(files, i, done)
    ensures if Inlined(files[i]) then Explains(Some(WriteInlinedLeaf), files, size)
            else if !AllKnown(HashOfFile(files[i]), size) then Explains(Some(IncompleteClosure), files, size)
            else FilesDone(files, i + 1, done + HashOfFile(files[i]))
  {
    FileHashesFrom(files, i);
    assert FileHashes(files) == done + HashOfFile(files[i]) + FileHashes(files[i + 1..]);
  }

  lemma LastFile(files: seq<Option<OutputFile>>, done: seq<string>, size: string -> Option<int64>)
    requires FilesDone(files, |files|, done) && AllKnown(done, size)
    ensures FileHashes(files) == done && Explains(None, files, size)
  {
    assert done + [] == done;
  }

  // The leaves collected so far for the hashes done.
  ghost predicate Collected(leaves: seq<LruObject>, seen: set<string>, done: seq<string>, size: string -> Option<int64>) {
    && (forall h :: h in seen <==> h in done)
    && Complete(leaves, done, size) && AllKnown(done, size)
  }

  lemma NothingCollected(size: string -> Option<int64>)
    ensures Collected([], {}, [], size)
  {
    assert Hashes([]) == [];
  }

  method AddLeaf(lru: SizedLRU, prefix: string, d: Option<Digest>, leaves: seq<LruObject>, seen: set<string>,
                 ghost done: seq<string>)
    returns (ok: bool, leaves': seq<LruObject>, seen': set<string>)
    requires lru.Valid() && Collected(leaves, seen, done, StoredSize(lru.Entries(), prefix))
    ensures ok <==> AllKnown(HashOf(d), StoredSize(lru.Entries(), prefix))
    ensures ok ==> Collected(leaves', seen', done + HashOf(d), StoredSize(lru.Entries(), prefix))
  {
    ghost var known := StoredSize(lru.Entries(), prefix);
    if d.None? {
      assert done + HashOf(d) == done;
      return true, leaves, seen;
    }
    var h := d.value.hash;
    CompleteNext(leaves, done, known, h);
    if h in seen {
      return true, leaves, seen;
    }
    var size := LookupSizeOnDisk(lru, prefix, h);
    if size.None? {
      return false, leaves, seen + {h};
    }
    return true, leaves + [LruObject(h, size.value)], seen + {h};
  }

  // The leaves of one output file.
  method AddFile(lru: SizedLRU, prefix: string, f: Option<OutputFile>, leaves: seq<LruObject>, seen: set<string>,
                 ghost done: seq<string>)
    returns (dropped: Option<DropReason>, leaves': seq<LruObject>, seen': set<string>)
    requires lru.Valid() && Collected(leaves, seen, done, StoredSize(lru.Entries(), prefix))
    ensures dropped == None <==> !Inlined(f) && AllKnown(HashOfFile(f), StoredSize(lru.Entries(), prefix))
    ensures dropped != None ==> dropped == Some(if Inlined(f) then WriteInlinedLeaf else IncompleteClosure)
    ensures dropped == None ==> Collected(leaves', seen', done + HashOfFile(f), StoredSize(lru.Entries(), prefix))
  {
    if f.None? {
      assert done + HashOfFile(f) == done;
      return None, leaves, seen;
    }
    if f.value.contents != [] {
      return Some(WriteInlinedLeaf), leaves, seen;
    }
    var ok;
    ok, leaves', seen' := AddLeaf(lru, prefix, f.value.digest, leaves, seen, done);
    dropped := if ok then None else Some(IncompleteClosure);
  }

  // Go on from the first i files: the next one is added, or explains why the
  // closure is dropped.
  method AddNext(lru: SizedLRU, prefix: string, files: seq<Option<OutputFile>>, i: nat, leaves: seq<LruObject>,
                 seen: set<string>, ghost done: seq<string>)
    returns (dropped: Option<DropReason>, leaves': seq<LruObject>, seen': set<string>, ghost done': seq<string>)
    requires lru.Valid() && i < |files| && FilesDone(files, i, done)
    requires Collected(leaves, seen, done, StoredSize(lru.Entries(), prefix))
    ensures dropped != None ==> Explains(dropped, files, StoredSize(lru.Entries(), prefix))
    ensures dropped == None ==>
      FilesDone(files, i + 1, done') && Collected(leaves', seen', done', StoredSize(lru.Entries(), prefix))
  {
    NextFile(files, i, done, StoredSize(lru.Entries(), prefix));
    done' := done + HashOfFile(files[i]);
    dropped, leaves', seen' := AddFile(lru, prefix, files[i], leaves, seen, done);
  }

  // The leaves of the output files.
  method AddFiles(lru: SizedLRU, prefix: string, files: seq<Option<OutputFile>>)
    returns (dropped: Option<DropReason>, leaves: seq<LruObject>, seen: set<string>)
    requires lru.Valid()
    ensures Explains(dropped, files, StoredSize(lru.Entries(), prefix))
    ensures dropped == None ==> Collected(leaves, seen, FileHashes(files), StoredSize(lru.Entries(), prefix))
  {
    ghost var known := StoredSize(lru.Entries(), prefix);
    leaves, seen, dropped := [], {}, None;
    var i := 0;
    ghost var done: seq<string> := [];
    FirstFile(files);
    NothingCollected(known);
    while i < |files|
      invariant 0 <= i <= |files| && FilesDone(files, i, done) && dropped == None
      invariant Collected(leaves, seen, done, known)
    {
      dropped, leaves, seen, done := AddNext(lru, prefix, files, i, leaves, seen, done);
      if dropped.Some? {
        return;
      }
      i := i + 1;
    }
    LastFile(files, done, known);
  }

  // The closure of an action result that was just written is emitted exactly if
  // the result has no output directories and no inlined content and every blob
  // it refers to is indexed. The method changes nothing, the index included.
  method EmitFromWrite(lru: SizedLRU, prefix: string, acHash: string, acSizeOnDisk: int, ar: ActionResult)
    returns (r: Result<Closure, DropReason>)
    requires lru.Valid()
    ensures r.Ok? <==>
      && ar.outputDirectories == [] && !HasInlinedContent(ar)
      && AllKnown(ReferencedHashes(ar), StoredSize(lru.Entries(), prefix))
    ensures r.Ok? ==>
      && r.value.ac == LruObject(acHash, acSizeOnDisk)
      && Complete(r.value.leaves, ReferencedHashes(ar), StoredSize(lru.Entries(), prefix))
    ensures r == Err(WriteHasDirectories) <==> ar.outputDirectories != []
    ensures r == Err(WriteInlinedLeaf) ==> HasInlinedContent(ar)
    ensures r == Err(IncompleteClosure) ==> !AllKnown(ReferencedHashes(ar), StoredSize(lru.Entries(), prefix))
  {
    if ar.outputDirectories != [] {
      return Err(WriteHasDirectories);
    }
    var dropped, leaves, seen := AddFiles(lru, prefix, ar.outputFiles);
    if dropped.Some? {
      return Err(dropped.value);
    }
    if ar.stdoutRaw != [] || ar.stderrRaw != [] {
      return Err(WriteInlinedLeaf);
    }
    ghost var done := FileHashes(ar.outputFiles);
    var ok;
    ok, leaves, seen := AddLeaf(lru, prefix, ar.stdoutDigest, leaves, seen, done);
    if ok {
      ok, leaves, seen := AddLeaf(lru, prefix, ar.stderrDigest, leaves, seen, done + HashOf(ar.stdoutDigest));
    }
    if !ok {
      return Err(IncompleteClosure);
    }
    return Ok(Closure(LruObject(acHash, acSizeOnDisk), leaves));
  }
}
