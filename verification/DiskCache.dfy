// The mutable disk cache as far as validating action results uses it
// (cache/disk/disk.go, without a proxy). Its methods are proved against the
// functions in ActionResults.
module DiskCache {
  import opened Wrappers
  import opened Int64
  import opened Bytes
  import opened LruSpec
  import opened SizedLru
  import opened Names
  import opened Messages
  import opened Capture
  import opened FindMissing
  import opened ActionResults
  import Protocol

  lemma {:induction false} TouchIsTouchAll(l: Lru, prefix: string, ds: seq<Digest>)
    ensures Touch(l, prefix, ds) == TouchAll(l, KeysOf(prefix, ds))
    decreases |ds|
  {
    if ds != [] {
      TouchIsTouchAll(TouchOne(l, prefix, ds[0]), prefix, ds[1..]);
      TouchAllConcat(l, KeysOf(prefix, ds[..1]), KeysOf(prefix, ds[1..]));
      if !IsEmptyBlob(ds[0]) {
        var key := CasKey(prefix, ds[0].hash);
        assert ([key] + KeysOf(prefix, ds[1..]))[1..] == KeysOf(prefix, ds[1..]);
      } else {
        assert KeysOf(prefix, ds) == KeysOf(prefix, ds[1..]);
      }
    }
  }

  // ----- collected sizes -----

  // Every collected size is that of the entry for the hash.
  ghost predicate SizesOk(es: seq<Entry>, prefix: string, sizes: map<string, int64>) {
    forall h :: h in sizes && h != EMPTY_SHA256 ==> StoredSize(es, prefix)(h) == Some(sizes[h])
  }

  // The sizes of all the hashes are known.
  ghost predicate Covers(sizes: map<string, int64>, hashes: seq<string>) {
    forall h :: h in hashes ==> CollectedSize(sizes)(h).Some?
  }

  lemma {:induction false} RecordedOk(sizes: map<string, int64>, es: seq<Entry>, prefix: string, ds: seq<Digest>)
    requires SizesOk(es, prefix, sizes)
    ensures SizesOk(es, prefix, Recorded(sizes, es, prefix, ds)) && sizes.Keys <= Recorded(sizes, es, prefix, ds).Keys
    ensures AllAvailable(es, prefix, ds) ==> Covers(Recorded(sizes, es, prefix, ds), HashesOf(ds))
    decreases |ds|
  {
    if ds != [] {
      var sizes' := RecordOne(sizes, es, prefix, ds[0]);
      RecordedOk(sizes', es, prefix, ds[1..]);
      if AllAvailable(es, prefix, ds) {
        assert forall i :: 0 <= i < |ds| - 1 ==> ds[1..][i] == ds[i + 1];
        assert Available(es, prefix, ds[0]);
        assert HashesOf(ds) == [ds[0].hash] + HashesOf(ds[1..]);
      }
    }
  }

  function HashesOf(ds: seq<Digest>): seq<string> {
    seq(|ds|, i requires 0 <= i < |ds| => ds[i].hash)
  }

  lemma CoversMore(sizes: map<string, int64>, sizes': map<string, int64>, hashes: seq<string>, h: string)
    requires Covers(sizes, hashes) && sizes.Keys <= sizes'.Keys
    ensures Covers(sizes', hashes)
    ensures CollectedSize(sizes')(h).Some? ==> Covers(sizes', hashes + [h])
  {
  }

  lemma ConcatAssociates<T>(a: seq<T>, b: seq<T>, c: seq<T>)
    ensures a + (b + c) == a + b + c
  {
  }

  ghost predicate HashesUpTo(hashes: seq<string>, ds: seq<Digest>, n: nat) {
    n <= |ds| && hashes == HashesOf(ds[..n])
  }

  lemma HashesNext(hashes: seq<string>, ds: seq<Digest>, n: nat)
    requires n < |ds| && HashesUpTo(hashes, ds, n)
    ensures HashesUpTo(hashes + [ds[n].hash], ds, n + 1)
  {
  }

  lemma HashesEnd(hashes: seq<string>, ds: seq<Digest>)
    requires HashesUpTo(hashes, ds, |ds|)
    ensures hashes == HashesOf(ds)
  {
    assert ds[..|ds|] == ds;
  }

  // Complete leaves remain so with sizes known from elsewhere.
  lemma SameSizes(leaves: seq<LruObject>, hashes: seq<string>, es: seq<Entry>, prefix: string, sizes: map<string, int64>)
    requires Capture.Complete(leaves, hashes, CollectedSize(sizes)) && SizesOk(es, prefix, sizes)
    ensures Capture.Complete(leaves, hashes, StoredSize(es, prefix))
  {
    forall i | 0 <= i < |leaves| ensures StoredSize(es, prefix)(leaves[i].hash) == Some(leaves[i].sizeOnDisk) {
      assert CollectedSize(sizes)(leaves[i].hash) == Some(leaves[i].sizeOnDisk);
    }
  }

  // ----- collecting digests -----

  method OutputFileDigests(files: seq<Option<OutputFile>>) returns (pending: seq<Digest>)
    requires forall i :: 0 <= i < |files| ==> files[i].Some? && files[i].value.digest.Some?
    ensures pending == FilesPending(files)
  {
    pending := [];
    assert files[0..] == files;
    for i := 0 to |files|
      invariant pending + FilesPending(files[i..]) == FilesPending(files)
    {
      assert files[i..][1..] == files[i + 1..];
      assert FilesPending(files[i..]) == FilePending(files[i]) + FilesPending(files[i + 1..]);
      if files[i].value.contents == [] {
        pending := pending + [files[i].value.digest.value];
      }
    }
  }

  // The digests of the files of one directory are added to those before.
  method AddFileDigests(before: seq<Digest>, digests: seq<Option<Digest>>) returns (pending: seq<Digest>)
    ensures pending == before + SetDigests(digests)
  {
    pending := before;
    assert digests[0..] == digests;
    for i := 0 to |digests|
      invariant pending + SetDigests(digests[i..]) == before + SetDigests(digests)
    {
      assert digests[i..][1..] == digests[i + 1..];
      if digests[i].Some? {
        pending := pending + [digests[i].value];
      }
    }
  }

  method AddTreeDigests(before: seq<Digest>, tree: Tree) returns (pending: seq<Digest>)
    ensures pending == before + TreePending(tree)
  {
    pending := AddFileDigests(before, tree.root);
    var children := tree.children;
    ghost var root := pending;
    assert children[0..] == children;
    for i := 0 to |children|
      invariant pending + ChildrenPending(children[i..]) == root + ChildrenPending(children)
    {
      assert children[i..][1..] == children[i + 1..];
      pending := AddFileDigests(pending, children[i]);
    }
    assert children[|children|..] == [] && pending + [] == pending;
    assert root + ChildrenPending(children) == before + (SetDigests(tree.root) + ChildrenPending(children));
  }

  method AddOutputs(before: seq<Digest>, ar: ActionResult) returns (pending: seq<Digest>)
    ensures pending == before + OfDigest(ar.stdoutDigest) + OfDigest(ar.stderrDigest)
  {
    pending := before;
    if ar.stdoutDigest.Some? {
      pending := pending + [ar.stdoutDigest.value];
    }
    if ar.stderrDigest.Some? {
      pending := pending + [ar.stderrDigest.value];
    }
  }

  predicate AllDirsSet(dirs: seq<Option<OutputDirectory>>) {
    forall i :: 0 <= i < |dirs| ==> dirs[i].Some? && dirs[i].value.treeDigest.Some?
  }

  // What was gathered before, followed by the rest.
  function Follow(pending: seq<Digest>, keys: seq<Key>, rest: Gathered): Gathered {
    Gathered(rest.stop, pending + rest.pending, keys + rest.keys)
  }

  lemma FollowEnds(pending: seq<Digest>, keys: seq<Key>, g: Gathered)
    ensures Follow([], keys, g) == Gathered(g.stop, g.pending, keys + g.keys)
    ensures Follow(pending, keys, Gathered(None, [], [])) == Gathered(None, pending, keys)
  {
    assert [] + g.pending == g.pending && pending + [] == pending && keys + [] == keys;
  }

  lemma GatherNext(env: Env, files: Files, es: seq<Entry>, prefix: string, trees: seq<Digest>, i: nat,
                   pending: seq<Digest>, keys: seq<Key>)
    requires i < |trees|
    ensures var d := trees[i];
      var keys' := keys + ReadKeys(files, es, prefix, CAS, d.hash, d.sizeBytes);
      Follow(pending, keys, Gather(env, files, es, prefix, trees[i..])) ==
      match ReadTree(env, files, es, prefix, d)
      case Err(stop) => Gathered(Some(stop), pending, keys')
      case Ok(tree) => Follow(pending + TreePending(tree), keys', Gather(env, files, es, prefix, trees[i + 1..]))
  {
    assert trees[i..][1..] == trees[i + 1..];
    var d, g, rest := trees[i], Gather(env, files, es, prefix, trees[i..]), Gather(env, files, es, prefix, trees[i + 1..]);
    var read := ReadKeys(files, es, prefix, CAS, d.hash, d.sizeBytes);
    match ReadTree(env, files, es, prefix, d)
    case Err(stop) =>
      assert g == Gathered(Some(stop), [], read);
      assert pending + [] == pending;
    case Ok(tree) =>
      assert g == Gathered(rest.stop, TreePending(tree) + rest.pending, read + rest.keys);
      assert pending + g.pending == pending + TreePending(tree) + rest.pending;
      assert keys + g.keys == keys + read + rest.keys;
  }

  lemma {:induction false} TreeDigestsAt(dirs: seq<Option<OutputDirectory>>, i: nat)
    requires AllDirsSet(dirs)
    ensures |TreeDigests(dirs)| == |dirs|
    ensures i < |dirs| ==> TreeDigests(dirs)[i] == dirs[i].value.treeDigest.value
  {
    if dirs != [] { TreeDigestsAt(dirs[1..], if i > 0 then i - 1 else 0); }
  }

  class DiskCache {
    const env: Env
    const lru: SizedLRU
    const observing: bool
    var files: Files
    // The closures given to the observer so far.
    var log: seq<Closure>

    constructor (env: Env, maxSize: int64, observing: bool)
      requires 0 <= maxSize < HALF_RANGE
      ensures lru.Valid() && lru.Model() == Empty(maxSize) && files == map[] && log == []
      ensures this.env == env && this.observing == observing
    {
      this.env, this.observing := env, observing;
      files, log := map[], [];
      lru := new SizedLRU(maxSize);
    }

    // Since the index was as in was, the keys have been looked up, and nothing
    // else has happened to it; the sizes collected are right.
    ghost predicate Looked(was: Lru, keys: seq<Key>, es: seq<Entry>, prefix: string, collector: Collector?)
      reads lru, lru.ll, collector
    {
      && lru.Valid() && lru.Model() == TouchAll(was, keys) && SameAnswers(es, lru.Entries())
      && (collector != null ==> SizesOk(es, prefix, collector.sizes))
    }

    // Read a whole blob.
    method ReadBlob(prefix: string, kind: Kind, hash: string, size: int64, ghost es: seq<Entry>) returns (b: Blob)
      requires lru.Valid() && SameAnswers(es, lru.Entries())
      modifies lru
      ensures lru.Valid() && lru.evicted == old(lru.evicted) && SameAnswers(es, lru.Entries())
      ensures lru.Model() == TouchAll(old(lru.Model()), ReadKeys(files, es, prefix, kind, hash, size))
      ensures b == Read(env, files, es, prefix, kind, hash, size)
    {
      if |hash| != 64 {
        return Broken;
      }
      if kind == CAS && size <= 0 && hash == EMPTY_SHA256 {
        return Found([], 0);
      }
      ghost var was := lru.Model();
      var key := LookupKey(prefix, kind, hash);
      GetValid(was, key);
      var item := lru.Get(key);
      assert TouchAll(was, [key]) == LruSpec.Get(was, key);
      if item.None? || Protocol.IsSizeMismatch(size, item.value.size) {
        return Absent;
      }
      var path := Protocol.PathIn(Request(prefix, kind, hash, size), item.value);
      if path !in files {
        // Look again, in case the entry has been replaced meanwhile.
        GetValid(lru.Model(), key);
        item := lru.Get(key);
        assert [key, key][1..] == [key];
        return Absent;
      }
      return FromServed(Protocol.Serve(env.cfg, Request(prefix, kind, hash, size), item.value, files[path]));
    }

    // Read one tree, and note its size for the closure: it is not looked up
    // again with the other blobs.
    method ReadTreeBlob(prefix: string, d: Digest, collector: Collector?, ghost es: seq<Entry>, ghost was: Lru,
                        ghost keys: seq<Key>)
      returns (r: Result<Tree, Stop>)
      requires Looked(was, keys, es, prefix, collector)
      modifies lru, collector
      ensures Looked(was, keys + ReadKeys(files, es, prefix, CAS, d.hash, d.sizeBytes), es, prefix, collector)
      ensures r == ReadTree(env, files, es, prefix, d) && lru.evicted == old(lru.evicted)
      ensures collector != null ==> old(collector.sizes).Keys <= collector.sizes.Keys
      ensures collector != null && r.Ok? ==> CollectedSize(collector.sizes)(d.hash).Some?
    {
      TouchAllConcat(was, keys, ReadKeys(files, es, prefix, CAS, d.hash, d.sizeBytes));
      var blob := ReadBlob(prefix, CAS, d.hash, d.sizeBytes, es);
      if blob.Absent? {
        return Err(NotThere);
      }
      if blob.Broken? || blob.size != d.sizeBytes {
        return Err(Unreadable);
      }
      var tree := env.decodeTree(blob.bytes);
      if tree.None? {
        return Err(Unreadable);
      }
      if collector != null {
        NoteSize(prefix, d.hash, collector, es);
      }
      return Ok(tree.value);
    }

    // Note the size of a blob from the index alone, without touching it.
    method NoteSize(prefix: string, hash: string, collector: Collector, ghost es: seq<Entry>)
      requires lru.Valid() && SameAnswers(es, lru.Entries()) && SizesOk(es, prefix, collector.sizes)
      modifies collector
      ensures SizesOk(es, prefix, collector.sizes) && old(collector.sizes).Keys <= collector.sizes.Keys
      ensures StoredSize(es, prefix)(hash).Some? ==> CollectedSize(collector.sizes)(hash).Some?
    {
      assert StoredSize(lru.Entries(), prefix)(hash) == StoredSize(es, prefix)(hash);
      var size := LookupSizeOnDisk(lru, prefix, hash);
      if size.Some? {
        collector.Record(hash, size.value);
      }
    }

    // Take one output directory: its tree's files are to be looked up as well.
    // All is what gathering gives for all the trees.
    method TakeTree(prefix: string, d: Digest, collector: Collector?, pending: seq<Digest>, treeHashes: seq<string>,
                    ghost trees: seq<Digest>, ghost i: nat, ghost all: Gathered,
                    ghost es: seq<Entry>, ghost was: Lru, ghost keys: seq<Key>)
      returns (stop: Option<Stop>, pending': seq<Digest>, treeHashes': seq<string>, ghost keys': seq<Key>)
      requires Looked(was, keys, es, prefix, collector)
      requires collector != null ==> Covers(collector.sizes, treeHashes)
      requires i < |trees| && d == trees[i]
      requires all == Follow(pending, keys, Gather(env, files, es, prefix, trees[i..]))
      modifies lru, collector
      ensures Looked(was, keys', es, prefix, collector) && lru.evicted == old(lru.evicted)
      ensures stop.Some? ==> all == Gathered(stop, pending', keys')
      ensures stop.None? ==>
        && all == Follow(pending', keys', Gather(env, files, es, prefix, trees[i + 1..]))
        && treeHashes' == treeHashes + [d.hash]
      ensures collector != null ==> Covers(collector.sizes, treeHashes')
    {
      ghost var sizes := if collector == null then map[] else collector.sizes;
      GatherNext(env, files, es, prefix, trees, i, pending, keys);
      keys' := keys + ReadKeys(files, es, prefix, CAS, d.hash, d.sizeBytes);
      var r := ReadTreeBlob(prefix, d, collector, es, was, keys);
      if collector != null {
        CoversMore(sizes, collector.sizes, treeHashes, d.hash);
      }
      if r.Err? {
        return Some(r.error), pending, treeHashes, keys';
      }
      pending' := AddTreeDigests(pending, r.value);
      return None, pending', treeHashes + [d.hash], keys';
    }

    method ReadTrees(prefix: string, dirs: seq<Option<OutputDirectory>>, collector: Collector?,
                     ghost es: seq<Entry>, ghost was: Lru, ghost keys: seq<Key>)
      returns (stop: Option<Stop>, pending: seq<Digest>, treeHashes: seq<string>)
      requires Looked(was, keys, es, prefix, collector) && AllDirsSet(dirs)
      modifies lru, collector
      ensures var g := Gather(env, files, es, prefix, TreeDigests(dirs));
        && Looked(was, keys + g.keys, es, prefix, collector)
        && stop == g.stop && (stop == None ==> pending == g.pending)
      ensures lru.evicted == old(lru.evicted)
      ensures stop == None ==> treeHashes == HashesOf(TreeDigests(dirs))
      ensures collector != null && stop == None ==> Covers(collector.sizes, treeHashes)
    {
      stop, pending, treeHashes := None, [], [];
      ghost var trees := TreeDigests(dirs);
      ghost var done := keys;
      ghost var all := Follow([], keys, Gather(env, files, es, prefix, trees));
      TreeDigestsAt(dirs, 0);
      assert trees[0..] == trees;
      FollowEnds([], keys, Gather(env, files, es, prefix, trees));
      for i := 0 to |dirs|
        invariant Looked(was, done, es, prefix, collector) && lru.evicted == old(lru.evicted) && stop == None
        invariant all == Follow(pending, done, Gather(env, files, es, prefix, trees[i..]))
        invariant HashesUpTo(treeHashes, trees, i)
        invariant collector != null ==> Covers(collector.sizes, treeHashes)
      {
        var d := dirs[i].value.treeDigest.value;
        TreeDigestsAt(dirs, i);
        HashesNext(treeHashes, trees, i);
        stop, pending, treeHashes, done :=
          TakeTree(prefix, d, collector, pending, treeHashes, trees, i, all, es, was, done);
        if stop.Some? {
          return;
        }
      }
      assert trees[|dirs|..] == [];
      FollowEnds(pending, done, Gather(env, files, es, prefix, trees));
      HashesEnd(treeHashes, trees);
    }

    // Look up one batch.
    method CheckBatch(prefix: string, blobs: array<Option<Digest>>, lo: nat, hi: nat, collector: Collector?,
                      ghost pending: seq<Digest>, ghost es: seq<Entry>, ghost was: Lru, ghost keys: seq<Key>)
      returns (missing: nat)
      requires Looked(was, keys, es, prefix, collector)
      requires lo <= hi <= blobs.Length == |pending|
      requires forall i :: lo <= i < |pending| ==> blobs[i] == Some(pending[i])
      requires collector != null ==> Covers(collector.sizes, HashesOf(pending[..lo]))
      modifies lru, blobs, collector
      ensures Looked(was, keys + KeysOf(prefix, pending[lo..hi]), es, prefix, collector)
      ensures lru.evicted == old(lru.evicted)
      ensures missing == 0 <==> AllAvailable(es, prefix, pending[lo..hi])
      ensures forall i :: hi <= i < |pending| ==> blobs[i] == Some(pending[i])
      ensures collector != null ==> old(collector.sizes).Keys <= collector.sizes.Keys
      ensures collector != null && missing == 0 ==> Covers(collector.sizes, HashesOf(pending[..hi]))
    {
      ghost var now, ds := lru.Model(), pending[lo..hi];
      ghost var sizes := if collector == null then map[] else collector.sizes;
      forall k | 0 <= k < hi - lo ensures blobs[lo..hi][k] == Some(ds[k]) {
        assert blobs[lo..hi][k] == blobs[lo + k];
      }
      assert Digests(blobs[lo..hi]) == ds;
      missing := FindMissingLocalCAS(lru, prefix, blobs, lo, hi, collector);
      TouchIsTouchAll(now, prefix, ds);
      TouchAllConcat(was, keys, KeysOf(prefix, ds));
      TouchAllKeeps(now, KeysOf(prefix, ds));
      SameBatch(es, now.entries, prefix, ds, sizes);
      if collector != null && missing == 0 {
        CoversBatch(sizes, collector.sizes, pending, lo, hi);
      }
    }

    // Look up all digests in batches, failing fast.
    method CheckPending(prefix: string, pending: seq<Digest>, collector: Collector?,
                        ghost es: seq<Entry>, ghost was: Lru, ghost keys: seq<Key>)
      returns (ok: bool)
      requires Looked(was, keys, es, prefix, collector)
      modifies lru, collector
      ensures Looked(was, keys + BatchKeys(es, prefix, pending), es, prefix, collector)
      ensures lru.evicted == old(lru.evicted)
      ensures ok <==> AllAvailable(es, prefix, pending)
      ensures collector != null ==> old(collector.sizes).Keys <= collector.sizes.Keys
      ensures collector != null && ok ==> Covers(collector.sizes, HashesOf(pending))
    {
      var blobs := new Option<Digest>[|pending|](i requires 0 <= i < |pending| => Some(pending[i]));
      var lo := 0;
      ghost var done := keys;
      assert pending[0..] == pending;
      while lo < |pending|
        invariant lo <= |pending|
        invariant Looked(was, done, es, prefix, collector) && lru.evicted == old(lru.evicted)
        invariant keys + BatchKeys(es, prefix, pending) == done + BatchKeys(es, prefix, pending[lo..])
        invariant AllAvailable(es, prefix, pending) <==> AllAvailable(es, prefix, pending[lo..])
        invariant forall i :: lo <= i < |pending| ==> blobs[i] == Some(pending[i])
        invariant collector != null ==> old(collector.sizes).Keys <= collector.sizes.Keys
        invariant collector != null ==> Covers(collector.sizes, HashesOf(pending[..lo]))
      {
        var hi := if |pending| - lo <= BATCH_SIZE then |pending| else lo + BATCH_SIZE;
        NextBatch(es, prefix, pending, lo, hi, done);
        var missing := CheckBatch(prefix, blobs, lo, hi, collector, pending, es, was, done);
        done := done + KeysOf(prefix, pending[lo..hi]);
        if missing > 0 {
          return false;
        }
        lo := hi;
      }
      assert pending[..lo] == pending && done + [] == done;
      return true;
    }

    // Give the observer a closure, all of whose sizes have been collected.
    method Emit(prefix: string, hash: string, size: int, leafHashes: seq<string>, collector: Collector,
                ghost es: seq<Entry>)
      requires SizesOk(es, prefix, collector.sizes) && Covers(collector.sizes, leafHashes)
      modifies this`log
      ensures |log| > 0 && log == old(log) + [log[|log| - 1]]
      ensures var c := log[|log| - 1];
        c.ac == LruObject(hash, size) && Capture.Complete(c.leaves, leafHashes, StoredSize(es, prefix))
    {
      var closure := EmitFromHit(hash, size, leafHashes, collector);
      SameSizes(closure.value.leaves, leafHashes, es, prefix, collector.sizes);
      log := log + [closure.value];
    }

    // Check all that an action result needs, and find the hashes of its closure.
    method CheckAll(prefix: string, ar: ActionResult, data: seq<byte>, collector: Collector?,
                    ghost es: seq<Entry>, ghost was: Lru, ghost keys: seq<Key>)
      returns (v: Validation, leafHashes: seq<string>)
      requires Looked(was, keys, es, prefix, collector) && Sound(env, ar)
      modifies lru, collector
      ensures var a := CheckNeeded(env, files, es, prefix, ar, data);
        v == a.v && Looked(was, keys + a.keys, es, prefix, collector)
      ensures lru.evicted == old(lru.evicted)
      ensures v.Validated? ==> v == Validated(ar, data) && leafHashes == LeafHashes(env, files, es, prefix, ar)
      ensures collector != null && v.Validated? ==> Covers(collector.sizes, leafHashes)
    {
      leafHashes := [];
      ghost var a := CheckNeeded(env, files, es, prefix, ar, data);
      ghost var g := Gather(env, files, es, prefix, TreeDigests(ar.outputDirectories));
      var pending := OutputFileDigests(ar.outputFiles);
      var stop, treeFiles, treeHashes := ReadTrees(prefix, ar.outputDirectories, collector, es, was, keys);
      if stop.Some? {
        return Stopped(stop.value), leafHashes;
      }
      pending := AddOutputs(pending + treeFiles, ar);
      ghost var sizes := if collector == null then map[] else collector.sizes;
      var ok := CheckPending(prefix, pending, collector, es, was, keys + g.keys);
      ConcatAssociates(keys, g.keys, BatchKeys(es, prefix, pending));
      if !ok {
        return Unvalidated, leafHashes;
      }
      if collector != null {
        CoversBoth(sizes, collector.sizes, HashesOf(pending), treeHashes);
      }
      return Validated(ar, data), HashesOf(pending) + treeHashes;
    }

    // Read the action result itself.
    method ReadResult(prefix: string, hash: string, ghost es: seq<Entry>) returns (r: Result<(ActionResult, Blob), Validation>)
      requires lru.Valid() && SameAnswers(es, lru.Entries())
      modifies lru
      ensures lru.Valid() && lru.evicted == old(lru.evicted) && SameAnswers(es, lru.Entries())
      ensures lru.Model() == TouchAll(old(lru.Model()), ReadKeys(files, es, prefix, AC, hash, -1))
      ensures r.Ok? ==>
        && r.value.1.Found? && r.value.1.size == |r.value.1.bytes| && Sound(env, r.value.0)
        && Validate(env, files, es, prefix, hash) ==
           (var a := CheckNeeded(env, files, es, prefix, r.value.0, r.value.1.bytes);
            Answer(a.v, ReadKeys(files, es, prefix, AC, hash, -1) + a.keys))
      ensures r.Err? ==>
        !r.error.Validated? &&
        Validate(env, files, es, prefix, hash) == Answer(r.error, ReadKeys(files, es, prefix, AC, hash, -1))
    {
      var blob := ReadBlob(prefix, AC, hash, -1, es);
      if blob.Broken? {
        return Err(Failure);
      }
      if blob.Absent? || blob.size <= 0 {
        return Err(Unvalidated);
      }
      ActionResultSize(env, files, es, prefix, hash);
      var result := env.decodeResult(blob.bytes);
      if result.None? || !Sound(env, result.value) {
        return Err(Failure);
      }
      return Ok((result.value, blob));
    }

    // The validation, with or without a collector for the sizes.
    method ValidateWith(prefix: string, hash: string, collector: Collector?)
      returns (v: Validation, size: int, leafHashes: seq<string>)
      requires lru.Valid() && (collector != null ==> collector.sizes == map[])
      modifies lru, collector
      ensures var a := Validate(env, files, old(lru.Entries()), prefix, hash);
        v == a.v && Looked(old(lru.Model()), a.keys, old(lru.Entries()), prefix, collector)
      ensures lru.evicted == old(lru.evicted)
      ensures v.Validated? ==>
        size == |v.data| && leafHashes == LeafHashes(env, files, old(lru.Entries()), prefix, v.result)
      ensures collector != null && v.Validated? ==> Covers(collector.sizes, leafHashes)
    {
      size, leafHashes := 0, [];
      ghost var es, was := lru.Entries(), lru.Model();
      ghost var keys := ReadKeys(files, es, prefix, AC, hash, -1);
      var r := ReadResult(prefix, hash, es);
      if r.Err? {
        return r.error, size, leafHashes;
      }
      var (ar, blob) := r.value;
      size := blob.size;
      v, leafHashes := CheckAll(prefix, ar, blob.bytes, collector, es, was, keys);
    }

    // The action result with the given hash, if it and all it refers to are
    // available. The outcome and the index are those of Validate, which does not
    // depend on whether accesses are observed; with an observer, every hit gives
    // it the complete closure.
    method GetValidatedActionResult(prefix: string, hash: string) returns (v: Validation)
      requires lru.Valid()
      modifies lru, this`log
      ensures lru.Valid() && lru.evicted == old(lru.evicted)
      ensures var a := Validate(env, files, old(lru.Entries()), prefix, hash);
        v == a.v && lru.Model() == TouchAll(old(lru.Model()), a.keys)
      ensures !(observing && v.Validated?) ==> log == old(log)
      ensures observing && v.Validated? ==>
        && |log| > 0 && log == old(log) + [log[|log| - 1]]
        && IsClosureOf(log[|log| - 1], env, files, old(lru.Entries()), prefix, hash, v)
    {
      ghost var es := lru.Entries();
      if observing {
        var collector := new Collector();
        var size, leafHashes;
        v, size, leafHashes := ValidateWith(prefix, hash, collector);
        if v.Validated? {
          Emit(prefix, hash, size, leafHashes, collector, es);
        }
      } else {
        var size, leafHashes;
        v, size, leafHashes := ValidateWith(prefix, hash, null);
      }
    }
  }

  // The hashes of all blobs that a validated result needs.
  function LeafHashes(env: Env, files: Files, es: seq<Entry>, prefix: string, ar: ActionResult): seq<string> {
    var trees := TreeDigests(ar.outputDirectories);
    HashesOf(Pending(ar, Gather(env, files, es, prefix, trees).pending)) + HashesOf(trees)
  }

  ghost predicate IsClosureOf(c: Closure, env: Env, files: Files, es: seq<Entry>, prefix: string, hash: string,
                              v: Validation)
    requires v.Validated?
  {
    && c.ac == LruObject(hash, |v.data|)
    && Capture.Complete(c.leaves, LeafHashes(env, files, es, prefix, v.result), StoredSize(es, prefix))
  }

  lemma ActionResultSize(env: Env, files: Files, es: seq<Entry>, prefix: string, hash: string)
    ensures var b := Read(env, files, es, prefix, AC, hash, -1);
      b.Found? ==> b.size == |b.bytes|
  {
  }

  lemma NextBatch(es: seq<Entry>, prefix: string, pending: seq<Digest>, lo: nat, hi: nat, keys: seq<Key>)
    requires lo < |pending| && hi == lo + FirstBatch(pending[lo..])
    ensures var keys' := keys + KeysOf(prefix, pending[lo..hi]);
      keys + BatchKeys(es, prefix, pending[lo..]) ==
      if AllAvailable(es, prefix, pending[lo..hi]) then keys' + BatchKeys(es, prefix, pending[hi..]) else keys'
    ensures AllAvailable(es, prefix, pending[lo..]) <==>
      AllAvailable(es, prefix, pending[lo..hi]) && AllAvailable(es, prefix, pending[hi..])
  {
    var ds, n := pending[lo..], hi - lo;
    assert ds[..n] == pending[lo..hi] && ds[n..] == pending[hi..];
    UnavailableEmpty(es, prefix, ds[..n]);
    assert ds == ds[..n] + ds[n..];
    AllAvailableConcat(es, prefix, ds[..n], ds[n..]);
    var batch := KeysOf(prefix, ds[..n]);
    assert BatchKeys(es, prefix, ds) ==
      batch + if AllAvailable(es, prefix, ds[..n]) then BatchKeys(es, prefix, ds[n..]) else [];
  }

  lemma CoversBatch(sizes: map<string, int64>, sizes': map<string, int64>, ds: seq<Digest>, lo: nat, hi: nat)
    requires lo <= hi <= |ds| && sizes.Keys <= sizes'.Keys
    requires Covers(sizes, HashesOf(ds[..lo])) && Covers(sizes', HashesOf(ds[lo..hi]))
    ensures Covers(sizes', HashesOf(ds[..hi]))
  {
    assert HashesOf(ds[..hi]) == HashesOf(ds[..lo]) + HashesOf(ds[lo..hi]);
  }

  lemma CoversBoth(sizes: map<string, int64>, sizes': map<string, int64>, a: seq<string>, b: seq<string>)
    requires Covers(sizes', a) && Covers(sizes, b) && sizes.Keys <= sizes'.Keys
    ensures Covers(sizes', a + b)
  {
  }

  // A batch has the same outcome with entries that give the same answers.
  lemma {:induction false} SameBatch(es: seq<Entry>, es': seq<Entry>, prefix: string, ds: seq<Digest>,
                                     sizes: map<string, int64>)
    requires SameAnswers(es, es') && SizesOk(es, prefix, sizes)
    ensures SizesOk(es, prefix, Recorded(sizes, es', prefix, ds))
    ensures sizes.Keys <= Recorded(sizes, es', prefix, ds).Keys
    ensures Unavailable(es', prefix, ds) == [] <==> AllAvailable(es, prefix, ds)
    ensures AllAvailable(es, prefix, ds) ==> Covers(Recorded(sizes, es', prefix, ds), HashesOf(ds))
  {
    SizesTransfer(es, es', prefix, sizes);
    RecordedOk(sizes, es', prefix, ds);
    SizesTransfer(es', es, prefix, Recorded(sizes, es', prefix, ds));
    UnavailableEmpty(es', prefix, ds);
    assert forall i :: 0 <= i < |ds| ==> (Available(es', prefix, ds[i]) <==> Available(es, prefix, ds[i]));
  }

  lemma SizesTransfer(es: seq<Entry>, es': seq<Entry>, prefix: string, sizes: map<string, int64>)
    requires (SameAnswers(es, es') || SameAnswers(es', es)) && SizesOk(es, prefix, sizes)
    ensures SizesOk(es', prefix, sizes)
  {
    forall h | h in sizes && h != EMPTY_SHA256 ensures StoredSize(es', prefix)(h) == Some(sizes[h]) {
      assert StoredSize(es, prefix)(h) == Some(sizes[h]);
    }
  }
}
