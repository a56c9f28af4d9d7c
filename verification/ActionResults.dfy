// Validating a cached action result (cache/disk/disk.go) when there is no
// proxy: the result is returned only if every blob it needs is available.
module ActionResults {
  import opened Wrappers
  import opened Int64
  import opened Bytes
  import opened LruSpec
  import opened Names
  import opened Messages
  import opened FindMissing
  import Protocol

  // The configuration, with the message formats: decoding of action results and
  // trees, and what the validation of an action result checks beyond the
  // presence of its digests.
  datatype Env = Env(cfg: Protocol.Config, decodeResult: seq<byte> -> Option<ActionResult>,
                     decodeTree: seq<byte> -> Option<Tree>, wellFormed: ActionResult -> bool)

  datatype Blob = Found(bytes: seq<byte>, size: int) | Absent | Broken

  datatype Validation = Validated(result: ActionResult, data: seq<byte>) | Unvalidated | Failure

  // ----- reading a blob -----

  type Files = map<string, seq<byte>>

  function Request(prefix: string, kind: Kind, hash: string, size: int64): Protocol.Request {
    Protocol.Get(prefix, kind, hash, size, 0, false)
  }

  function FromServed(served: Protocol.Served): Blob {
    match served
    case ServedHit(bytes, size) => Found(bytes, size)
    case ServedMiss => Absent
    case ServedCrash => Broken
  }

  // What reading a whole blob gives.
  function Read(env: Env, files: Files, es: seq<Entry>, prefix: string, kind: Kind, hash: string, size: int64): Blob {
    if |hash| != 64 then Broken
    else if kind == CAS && size <= 0 && hash == EMPTY_SHA256 then Found([], 0)
    else
      match Find(es, LookupKey(prefix, kind, hash))
      case None => Absent
      case Some(item) =>
        var path := Protocol.PathIn(Request(prefix, kind, hash, size), item);
        if Protocol.IsSizeMismatch(size, item.size) || path !in files then Absent
        else FromServed(Protocol.Serve(env.cfg, Request(prefix, kind, hash, size), item, files[path]))
  }

  // The keys looked up for it: one, or twice the same if the file is missing.
  function ReadKeys(files: Files, es: seq<Entry>, prefix: string, kind: Kind, hash: string, size: int64): seq<Key> {
    var key := LookupKey(prefix, kind, hash);
    if |hash| != 64 || (kind == CAS && size <= 0 && hash == EMPTY_SHA256) then []
    else
      match Find(es, key)
      case None => [key]
      case Some(item) =>
        if Protocol.IsSizeMismatch(size, item.size) ||
           Protocol.PathIn(Request(prefix, kind, hash, size), item) in files then [key]
        else [key, key]
  }

  // ----- what an action result needs -----

  function OfDigest(d: Option<Digest>): seq<Digest> {
    match d
    case Some(digest) => [digest]
    case None => []
  }

  // The digests of the output files that are not inlined.
  function FilesPending(files: seq<Option<OutputFile>>): seq<Digest> {
    if files == [] then [] else FilePending(files[0]) + FilesPending(files[1..])
  }

  function FilePending(f: Option<OutputFile>): seq<Digest> {
    if f.Some? && f.value.contents == [] then OfDigest(f.value.digest) else []
  }

  function SetDigests(ds: seq<Option<Digest>>): seq<Digest> {
    if ds == [] then [] else OfDigest(ds[0]) + SetDigests(ds[1..])
  }

  function ChildrenPending(children: seq<seq<Option<Digest>>>): seq<Digest> {
    if children == [] then [] else SetDigests(children[0]) + ChildrenPending(children[1..])
  }

  function TreePending(tree: Tree): seq<Digest> {
    SetDigests(tree.root) + ChildrenPending(tree.children)
  }

  // The digests the validation insists on, and the rest of its checks.
  predicate Sound(env: Env, ar: ActionResult) {
    && (forall i :: 0 <= i < |ar.outputFiles| ==> ar.outputFiles[i].Some? && ar.outputFiles[i].value.digest.Some?)
    && (forall i :: 0 <= i < |ar.outputDirectories| ==>
          ar.outputDirectories[i].Some? && ar.outputDirectories[i].value.treeDigest.Some?)
    && env.wellFormed(ar)
  }

  function TreeDigests(dirs: seq<Option<OutputDirectory>>): seq<Digest> {
    if dirs == [] then []
    else
      (match dirs[0]
       case Some(d) => OfDigest(d.treeDigest)
       case None => []) + TreeDigests(dirs[1..])
  }

  // Why a tree cannot be used, and what that means for the whole.
  datatype Stop = NotThere | Unreadable

  function Stopped(stop: Stop): Validation {
    match stop
    case NotThere => Unvalidated
    case Unreadable => Failure
  }

  // A tree blob that can be read and decoded.
  function ReadTree(env: Env, files: Files, es: seq<Entry>, prefix: string, d: Digest): Result<Tree, Stop> {
    match Read(env, files, es, prefix, CAS, d.hash, d.sizeBytes)
    case Absent => Err(NotThere)
    case Broken => Err(Unreadable)
    case Found(bytes, size) =>
      if size != d.sizeBytes then Err(Unreadable)
      else
        match env.decodeTree(bytes)
        case None => Err(Unreadable)
        case Some(tree) => Ok(tree)
  }

  // Reading the trees up to the first that cannot be read: the digests of their
  // files, and the keys looked up.
  datatype Gathered = Gathered(stop: Option<Stop>, pending: seq<Digest>, keys: seq<Key>)

  function Gather(env: Env, files: Files, es: seq<Entry>, prefix: string, trees: seq<Digest>): Gathered {
    if trees == [] then Gathered(None, [], [])
    else
      var keys := ReadKeys(files, es, prefix, CAS, trees[0].hash, trees[0].sizeBytes);
      match ReadTree(env, files, es, prefix, trees[0])
      case Err(v) => Gathered(Some(v), [], keys)
      case Ok(tree) =>
        var rest := Gather(env, files, es, prefix, trees[1..]);
        Gathered(rest.stop, TreePending(tree) + rest.pending, keys + rest.keys)
  }

  // ----- looking up what is needed -----

  function KeysOf(prefix: string, ds: seq<Digest>): seq<Key> {
    if ds == [] then []
    else (if IsEmptyBlob(ds[0]) then [] else [CasKey(prefix, ds[0].hash)]) + KeysOf(prefix, ds[1..])
  }

  const BATCH_SIZE := 20

  function FirstBatch(ds: seq<Digest>): nat {
    if |ds| <= BATCH_SIZE then |ds| else BATCH_SIZE
  }

  // The keys of the batches up to the first in which something is missing.
  function BatchKeys(es: seq<Entry>, prefix: string, ds: seq<Digest>): seq<Key>
    decreases |ds|
  {
    if ds == [] then []
    else
      var n := FirstBatch(ds);
      KeysOf(prefix, ds[..n]) +
      (if Unavailable(es, prefix, ds[..n]) == [] then BatchKeys(es, prefix, ds[n..]) else [])
  }

  predicate AllAvailable(es: seq<Entry>, prefix: string, ds: seq<Digest>) {
    forall i :: 0 <= i < |ds| ==> Available(es, prefix, ds[i])
  }

  // ----- the whole validation -----

  datatype Answer = Answer(v: Validation, keys: seq<Key>)

  function Pending(ar: ActionResult, treeFiles: seq<Digest>): seq<Digest> {
    FilesPending(ar.outputFiles) + treeFiles + OfDigest(ar.stdoutDigest) + OfDigest(ar.stderrDigest)
  }

  // The result of the validation and all keys looked up. Whether the accesses
  // are observed plays no role in it.
  function Validate(env: Env, files: Files, es: seq<Entry>, prefix: string, hash: string): Answer {
    var keys := ReadKeys(files, es, prefix, AC, hash, -1);
    match Read(env, files, es, prefix, AC, hash, -1)
    case Absent => Answer(Unvalidated, keys)
    case Broken => Answer(Failure, keys)
    case Found(data, size) =>
      if size <= 0 then Answer(Unvalidated, keys)
      else
        match env.decodeResult(data)
        case None => Answer(Failure, keys)
        case Some(ar) =>
          if !Sound(env, ar) then Answer(Failure, keys)
          else
            var needed := CheckNeeded(env, files, es, prefix, ar, data);
            Answer(needed.v, keys + needed.keys)
  }

  // The part after the action result itself has been read.
  function CheckNeeded(env: Env, files: Files, es: seq<Entry>, prefix: string, ar: ActionResult, data: seq<byte>): Answer {
    var g := Gather(env, files, es, prefix, TreeDigests(ar.outputDirectories));
    if g.stop.Some? then Answer(Stopped(g.stop.value), g.keys)
    else
      var pending := Pending(ar, g.pending);
      Answer(if AllAvailable(es, prefix, pending) then Validated(ar, data) else Unvalidated,
             g.keys + BatchKeys(es, prefix, pending))
  }

  // ----- what a validated result means -----

  // Every tree blob can be read, and every file of every tree is available.
  ghost predicate TreesComplete(env: Env, files: Files, es: seq<Entry>, prefix: string, trees: seq<Digest>) {
    forall i :: 0 <= i < |trees| ==>
      var t := ReadTree(env, files, es, prefix, trees[i]);
      t.Ok? && AllAvailable(es, prefix, TreePending(t.value))
  }

  // The stored action result, and everything it refers to, is there.
  ghost predicate Complete(env: Env, files: Files, es: seq<Entry>, prefix: string, hash: string,
                           ar: ActionResult, data: seq<byte>) {
    && Read(env, files, es, prefix, AC, hash, -1).Found?
    && Read(env, files, es, prefix, AC, hash, -1).bytes == data
    && Read(env, files, es, prefix, AC, hash, -1).size > 0
    && env.decodeResult(data) == Some(ar) && Sound(env, ar)
    && AllAvailable(es, prefix, FilesPending(ar.outputFiles))
    && TreesComplete(env, files, es, prefix, TreeDigests(ar.outputDirectories))
    && AllAvailable(es, prefix, OfDigest(ar.stdoutDigest))
    && AllAvailable(es, prefix, OfDigest(ar.stderrDigest))
  }

  lemma AllAvailableConcat(es: seq<Entry>, prefix: string, a: seq<Digest>, b: seq<Digest>)
    ensures AllAvailable(es, prefix, a + b) <==> AllAvailable(es, prefix, a) && AllAvailable(es, prefix, b)
  {
    assert forall i :: 0 <= i < |a| ==> (a + b)[i] == a[i];
    assert forall i :: 0 <= i < |b| ==> (a + b)[|a| + i] == b[i];
  }

  lemma {:induction false} GatherComplete(env: Env, files: Files, es: seq<Entry>, prefix: string, trees: seq<Digest>)
    ensures var g := Gather(env, files, es, prefix, trees);
      g.stop == None && AllAvailable(es, prefix, g.pending) <==> TreesComplete(env, files, es, prefix, trees)
  {
    if trees != [] {
      GatherComplete(env, files, es, prefix, trees[1..]);
      FirstTreeComplete(env, files, es, prefix, trees);
      var t := ReadTree(env, files, es, prefix, trees[0]);
      var rest := Gather(env, files, es, prefix, trees[1..]);
      if t.Ok? {
        AllAvailableConcat(es, prefix, TreePending(t.value), rest.pending);
      }
    }
  }

  lemma FirstTreeComplete(env: Env, files: Files, es: seq<Entry>, prefix: string, trees: seq<Digest>)
    requires trees != []
    ensures var t := ReadTree(env, files, es, prefix, trees[0]);
      TreesComplete(env, files, es, prefix, trees) <==>
      t.Ok? && AllAvailable(es, prefix, TreePending(t.value)) && TreesComplete(env, files, es, prefix, trees[1..])
  {
    assert forall i :: 0 < i < |trees| ==> trees[i] == trees[1..][i - 1];
    assert forall i :: 0 <= i < |trees| - 1 ==> trees[1..][i] == trees[i + 1];
  }

  // A result is returned exactly if it is complete.
  lemma ValidatedIsComplete(env: Env, files: Files, es: seq<Entry>, prefix: string, hash: string,
                            ar: ActionResult, data: seq<byte>)
    ensures Validate(env, files, es, prefix, hash).v == Validated(ar, data) <==>
            Complete(env, files, es, prefix, hash, ar, data)
  {
    var r := Read(env, files, es, prefix, AC, hash, -1);
    NeededIsComplete(env, files, es, prefix, ar, data);
  }

  lemma NeededIsComplete(env: Env, files: Files, es: seq<Entry>, prefix: string, ar: ActionResult, data: seq<byte>)
    ensures CheckNeeded(env, files, es, prefix, ar, data).v == Validated(ar, data) <==>
            && AllAvailable(es, prefix, FilesPending(ar.outputFiles))
            && TreesComplete(env, files, es, prefix, TreeDigests(ar.outputDirectories))
            && AllAvailable(es, prefix, OfDigest(ar.stdoutDigest))
            && AllAvailable(es, prefix, OfDigest(ar.stderrDigest))
    ensures var v := CheckNeeded(env, files, es, prefix, ar, data).v; v.Validated? ==> v == Validated(ar, data)
  {
    var trees := TreeDigests(ar.outputDirectories);
    var g := Gather(env, files, es, prefix, trees);
    var pending := FilesPending(ar.outputFiles);
    GatherComplete(env, files, es, prefix, trees);
    AllAvailableConcat(es, prefix, pending, g.pending);
    AllAvailableConcat(es, prefix, pending + g.pending, OfDigest(ar.stdoutDigest));
    AllAvailableConcat(es, prefix, pending + g.pending + OfDigest(ar.stdoutDigest), OfDigest(ar.stderrDigest));
  }

  // ----- what a validated result does to the recency order -----

  function TouchAll(l: Lru, keys: seq<Key>): Lru
    decreases |keys|
  {
    if keys == [] then l else TouchAll(LruSpec.Get(l, keys[0]), keys[1..])
  }

  lemma {:induction false} TouchAllKeeps(l: Lru, keys: seq<Key>)
    requires LruSpec.Valid(l)
    ensures LruSpec.Valid(TouchAll(l, keys)) && SameAnswers(l.entries, TouchAll(l, keys).entries)
    ensures TouchAll(l, keys).reserved == l.reserved && TouchAll(l, keys).maxSize == l.maxSize
    decreases |keys|
  {
    if keys != [] {
      GetValid(l, keys[0]);
      TouchAllKeeps(LruSpec.Get(l, keys[0]), keys[1..]);
    }
  }

  lemma {:induction false} TouchAllConcat(l: Lru, a: seq<Key>, b: seq<Key>)
    ensures TouchAll(l, a + b) == TouchAll(TouchAll(l, a), b)
    decreases |a|
  {
    if a == [] {
      assert a + b == b;
    } else {
      assert (a + b)[1..] == a[1..] + b;
      TouchAllConcat(LruSpec.Get(l, a[0]), a[1..], b);
    }
  }

  // ----- reading is the request protocol with one request -----

  // A request of the protocol that runs alone, for at most n steps.
  function Alone(cfg: Protocol.Config, l: Lru, files: Files, me: Protocol.Local, n: nat): (Lru, Protocol.Local)
    decreases n
  {
    if n == 0 || me.pc.CleanFile? || !Protocol.Enabled(cfg, files, me, Protocol.Go) then (l, me)
    else
      var e := Protocol.LocalStep(cfg, l, files, me, Protocol.Go);
      Alone(cfg, e.lru, e.files, e.me, n - 1)
  }

  function ReplyOf(b: Blob): Protocol.Reply {
    match b
    case Found(bytes, size) => Protocol.Hit(bytes, size)
    case Absent => Protocol.NotFound
    case Broken => Protocol.Failed
  }

  // Without a proxy and without other requests, a Get of the protocol gives
  // what Read says and looks up the keys that ReadKeys says.
  lemma ReadIsGet(env: Env, files: Files, l: Lru, prefix: string, kind: Kind, hash: string, size: int64)
    requires LruSpec.Valid(l) && env.cfg.proxy.None?
    ensures var (l', me) := Alone(env.cfg, l, files, Protocol.Fresh(Request(prefix, kind, hash, size)), 5);
      && me.pc.CleanFile? && me.reply == ReplyOf(Read(env, files, l.entries, prefix, kind, hash, size))
      && l' == TouchAll(l, ReadKeys(files, l.entries, prefix, kind, hash, size))
  {
    var req := Request(prefix, kind, hash, size);
    var me := Protocol.StartGet(env.cfg, Protocol.Fresh(req));
    assert Alone(env.cfg, l, files, Protocol.Fresh(req), 5) == Alone(env.cfg, l, files, me, 4);
    if me.pc.Looking? { LookingIsGet(env, files, l, me); }
  }

  lemma LookingIsGet(env: Env, files: Files, l: Lru, me: Protocol.Local)
    requires LruSpec.Valid(l) && env.cfg.proxy.None?
    requires me.pc.Looking? && me.req.Get? && me.req.offset == 0 && !me.req.zstd && |me.req.hash| == 64
    requires !(me.req.kind == CAS && me.req.size <= 0 && me.req.hash == EMPTY_SHA256)
    ensures var (l', me') := Alone(env.cfg, l, files, me, 4);
      && me'.pc.CleanFile?
      && me'.reply == ReplyOf(Read(env, files, l.entries, me.req.prefix, me.req.kind, me.req.hash, me.req.size))
      && l' == TouchAll(l, ReadKeys(files, l.entries, me.req.prefix, me.req.kind, me.req.hash, me.req.size))
  {
    var key := Protocol.KeyOf(me.req);
    var e := Protocol.Look(env.cfg, l, files, me);
    GetValid(l, key);
    assert TouchAll(l, [key]) == LruSpec.Get(l, key) && [key, key][1..] == [key];
    assert Alone(env.cfg, l, files, me, 4) == Alone(env.cfg, e.lru, files, e.me, 3);
    if e.me.pc.Opening? {
      OpeningIsGet(env, files, e.lru, e.me);
    } else if e.me.pc.Missing? {
      MissingIsMiss(env, files, e.lru, e.me, 3);
    }
  }

  lemma MissingIsMiss(env: Env, files: Files, l: Lru, me: Protocol.Local, n: nat)
    requires env.cfg.proxy.None? && me.pc.Missing? && me.req.Get? && me.req.offset == 0 && n > 0
    ensures Alone(env.cfg, l, files, me, n) == (l, Protocol.Finish(me, Protocol.NotFound))
  {
    var e := Protocol.TryProxy(env.cfg, l, files, me);
    assert Alone(env.cfg, l, files, me, n) == Alone(env.cfg, e.lru, files, e.me, n - 1);
  }

  lemma OpeningIsGet(env: Env, files: Files, l: Lru, me: Protocol.Local)
    requires LruSpec.Valid(l) && env.cfg.proxy.None? && Find(l.entries, Protocol.KeyOf(me.req)) == Some(me.item)
    requires me.pc.Opening? && me.req.Get? && me.req.offset == 0 && !me.req.zstd
    ensures var (l', me') := Alone(env.cfg, l, files, me, 3);
      var path := Protocol.PathIn(me.req, me.item);
      && me'.pc.CleanFile?
      && me'.reply == ReplyOf(if path in files then FromServed(Protocol.Serve(env.cfg, me.req, me.item, files[path])) else Absent)
      && l' == if path in files then l else LruSpec.Get(l, Protocol.KeyOf(me.req))
  {
    var me1 := Protocol.Open(env.cfg, files, me);
    assert Alone(env.cfg, l, files, me, 3) == Alone(env.cfg, l, files, me1, 2);
    if me1.pc.Missing? {
      MissingIsMiss(env, files, l, me1, 2);
    } else if me1.pc.Slow? {
      SlowIsMiss(env, files, l, me1);
    }
  }

  // The second lookup misses as well if the file is not there.
  lemma SlowIsMiss(env: Env, files: Files, l: Lru, me: Protocol.Local)
    requires env.cfg.proxy.None? && Find(l.entries, Protocol.KeyOf(me.req)) == Some(me.item)
    requires me.pc.Slow? && me.req.Get? && me.req.offset == 0 && Protocol.PathIn(me.req, me.item) !in files
    ensures Alone(env.cfg, l, files, me, 2) ==
            (LruSpec.Get(l, Protocol.KeyOf(me.req)), Protocol.Finish(me.(pc := Protocol.Missing), Protocol.NotFound))
  {
    var e := Protocol.LookAgain(env.cfg, l, files, me);
    assert Alone(env.cfg, l, files, me, 2) == Alone(env.cfg, e.lru, files, e.me, 1);
    MissingIsMiss(env, files, e.lru, e.me, 1);
  }

  // ----- the front of the list -----

  // The entries under other keys, in their order.
  function Others(es: seq<Entry>, keys: seq<Key>): seq<Entry> {
    if es == [] then []
    else if es[0].key in keys then Others(es[1..], keys)
    else [es[0]] + Others(es[1..], keys)
  }

  lemma {:induction false} OthersMembers(es: seq<Entry>, keys: seq<Key>)
    ensures forall e :: e in Others(es, keys) <==> e in es && e.key !in keys
    ensures keys == [] ==> Others(es, keys) == es
  {
    if es != [] {
      OthersMembers(es[1..], keys);
      assert es == [es[0]] + es[1..];
    }
  }

  lemma {:induction false} OthersNext(es: seq<Entry>, keys: seq<Key>, key: Key)
    requires Distinct(es)
    ensures Others(es, keys + [key]) == Without(Others(es, keys), key)
  {
    if es != [] {
      OthersNext(es[1..], keys, key);
      if es[0].key == key && key !in keys {
        NoOccurrence(es[1..], keys, key);
      }
      assert forall k :: k in keys + [key] <==> k in keys || k == key;
      if es[0].key !in keys {
        assert ([es[0]] + Others(es[1..], keys))[1..] == Others(es[1..], keys);
      }
    }
  }

  lemma {:induction false} NoOccurrence(es: seq<Entry>, keys: seq<Key>, key: Key)
    requires forall i :: 0 <= i < |es| ==> es[i].key != key
    ensures Without(Others(es, keys), key) == Others(es, keys)
  {
    if es != [] {
      NoOccurrence(es[1..], keys, key);
      if es[0].key !in keys {
        assert ([es[0]] + Others(es[1..], keys))[1..] == Others(es[1..], keys);
      }
    }
  }

  lemma {:induction false} WithoutConcat(a: seq<Entry>, b: seq<Entry>, key: Key)
    requires Distinct(a + b)
    ensures Without(a + b, key) == Without(a, key) + Without(b, key)
  {
    if a == [] {
      assert a + b == b;
    } else {
      var es := a + b;
      assert es[1..] == a[1..] + b && es[0] == a[0];
      if a[0].key == key {
        assert forall i :: 0 <= i < |b| ==> b[i] == es[|a| + i];
        WithoutAbsent(b, key);
      } else {
        assert Distinct(es[1..]);
        WithoutConcat(a[1..], b, key);
      }
    }
  }

  lemma {:induction false} WithoutAbsent(es: seq<Entry>, key: Key)
    requires forall i :: 0 <= i < |es| ==> es[i].key != key
    ensures Without(es, key) == es
  {
    if es != [] { WithoutAbsent(es[1..], key); }
  }

  // Touching keys moves their entries to the front and leaves the others in
  // their order.
  lemma {:induction false} FrontBlockFrom(es: seq<Entry>, done: seq<Key>, block: seq<Entry>, l: Lru, keys: seq<Key>)
    returns (block': seq<Entry>)
    requires Distinct(es) && LruSpec.Valid(l) && l.entries == block + Others(es, done)
    requires forall e :: e in block ==> e.key in done
    ensures TouchAll(l, keys).entries == block' + Others(es, done + keys)
    ensures forall e :: e in block' ==> e.key in done + keys
    decreases |keys|
  {
    if keys == [] {
      assert done + keys == done;
      block' := block;
    } else {
      var key := keys[0];
      var next := Occurrence(l.entries, key) + Without(block, key);
      WithoutConcat(block, Others(es, done), key);
      OthersNext(es, done, key);
      assert LruSpec.Get(l, key).entries == next + Others(es, done + [key]);
      GetValid(l, key);
      assert forall i :: 0 <= i < |block| ==> block[i] == l.entries[i];
      WithoutMembers(block, key);
      assert done + [key] + keys[1..] == done + keys;
      block' := FrontBlockFrom(es, done + [key], next, LruSpec.Get(l, key), keys[1..]);
    }
  }

  lemma FrontBlock(l: Lru, keys: seq<Key>) returns (block: seq<Entry>)
    requires LruSpec.Valid(l)
    ensures TouchAll(l, keys).entries == block + Others(l.entries, keys)
    ensures forall e :: e in block <==> e in l.entries && e.key in keys
  {
    OthersMembers(l.entries, []);
    block := FrontBlockFrom(l.entries, [], [], l, keys);
    assert [] + keys == keys;
    OthersMembers(l.entries, keys);
    TouchAllKeeps(l, keys);
    var es' := TouchAll(l, keys).entries;
    forall e: Entry ensures e in es' <==> e in l.entries {
      FindFacts(l.entries, e.key, e.item);
      FindFacts(es', e.key, e.item);
    }
  }

  lemma {:induction false} KeysOfConcat(prefix: string, a: seq<Digest>, b: seq<Digest>)
    ensures KeysOf(prefix, a + b) == KeysOf(prefix, a) + KeysOf(prefix, b)
  {
    if a == [] {
      assert a + b == b;
    } else {
      assert (a + b)[1..] == a[1..] + b;
      KeysOfConcat(prefix, a[1..], b);
    }
  }

  lemma {:induction false} UnavailableEmpty(es: seq<Entry>, prefix: string, ds: seq<Digest>)
    ensures Unavailable(es, prefix, ds) == [] <==> AllAvailable(es, prefix, ds)
  {
    if ds != [] {
      UnavailableEmpty(es, prefix, ds[1..]);
      assert forall i :: 0 < i < |ds| ==> ds[i] == ds[1..][i - 1];
      assert forall i :: 0 <= i < |ds| - 1 ==> ds[1..][i] == ds[i + 1];
    }
  }

  // When nothing is missing, every batch is looked up.
  lemma {:induction false} AllBatches(es: seq<Entry>, prefix: string, ds: seq<Digest>)
    requires AllAvailable(es, prefix, ds)
    ensures BatchKeys(es, prefix, ds) == KeysOf(prefix, ds)
    decreases |ds|
  {
    if ds != [] {
      var n := FirstBatch(ds);
      assert ds == ds[..n] + ds[n..];
      UnavailableEmpty(es, prefix, ds[..n]);
      AllBatches(es, prefix, ds[n..]);
      KeysOfConcat(prefix, ds[..n], ds[n..]);
    }
  }

  lemma {:induction false} KeysAreFound(es: seq<Entry>, prefix: string, ds: seq<Digest>)
    requires AllAvailable(es, prefix, ds)
    ensures forall k :: k in KeysOf(prefix, ds) ==> Find(es, k).Some?
  {
    if ds != [] {
      assert ds[0] in ds;
      assert forall i :: 0 <= i < |ds| - 1 ==> ds[1..][i] == ds[i + 1];
      KeysAreFound(es, prefix, ds[1..]);
    }
  }

  // The trees that were read are those that were looked up.
  lemma {:induction false} TreeKeys(env: Env, files: Files, es: seq<Entry>, prefix: string, trees: seq<Digest>)
    requires Gather(env, files, es, prefix, trees).stop == None
    ensures Gather(env, files, es, prefix, trees).keys == KeysOf(prefix, trees)
    ensures forall k :: k in KeysOf(prefix, trees) ==> Find(es, k).Some?
  {
    if trees != [] {
      TreeKeys(env, files, es, prefix, trees[1..]);
      OneTreeKey(env, files, es, prefix, trees[0]);
    }
  }

  lemma OneTreeKey(env: Env, files: Files, es: seq<Entry>, prefix: string, d: Digest)
    requires ReadTree(env, files, es, prefix, d).Ok?
    ensures ReadKeys(files, es, prefix, CAS, d.hash, d.sizeBytes) ==
            if IsEmptyBlob(d) then [] else [CasKey(prefix, d.hash)]
    ensures !IsEmptyBlob(d) ==> Find(es, CasKey(prefix, d.hash)).Some?
  {
    assert Read(env, files, es, prefix, CAS, d.hash, d.sizeBytes).Found?;
  }

  // A validated hit moves its closure: the entries of the action result, its
  // trees and everything they refer to form the front of the recency list, and
  // all other entries keep their order. Nothing is evicted.
  lemma HitMovesClosure(env: Env, files: Files, l: Lru, prefix: string, hash: string, ar: ActionResult, data: seq<byte>)
    returns (block: seq<Entry>)
    requires LruSpec.Valid(l) && Validate(env, files, l.entries, prefix, hash).v == Validated(ar, data)
    ensures var keys, trees := Validate(env, files, l.entries, prefix, hash).keys, TreeDigests(ar.outputDirectories);
      && TouchAll(l, keys).entries == block + Others(l.entries, keys)
      && (forall e :: e in block <==> e in l.entries && e.key in keys)
      && (forall k :: k in keys ==> Find(l.entries, k).Some?)
      && keys == [LookupKey(prefix, AC, hash)] + (KeysOf(prefix, trees) +
                 KeysOf(prefix, Pending(ar, Gather(env, files, l.entries, prefix, trees).pending)))
  {
    HitIsRead(env, files, l.entries, prefix, hash, ar, data);
    HitNeeds(env, files, l.entries, prefix, ar, data);
    block := FrontBlock(l, Validate(env, files, l.entries, prefix, hash).keys);
  }

  lemma HitIsRead(env: Env, files: Files, es: seq<Entry>, prefix: string, hash: string, ar: ActionResult, data: seq<byte>)
    requires Validate(env, files, es, prefix, hash).v == Validated(ar, data)
    ensures Find(es, LookupKey(prefix, AC, hash)).Some?
    ensures var needed := CheckNeeded(env, files, es, prefix, ar, data);
      needed.v == Validated(ar, data) &&
      Validate(env, files, es, prefix, hash).keys == [LookupKey(prefix, AC, hash)] + needed.keys
  {
    var r := Read(env, files, es, prefix, AC, hash, -1);
    assert r.Found?;
    FoundIsLookedUp(env, files, es, prefix, hash);
  }

  lemma FoundIsLookedUp(env: Env, files: Files, es: seq<Entry>, prefix: string, hash: string)
    requires Read(env, files, es, prefix, AC, hash, -1).Found?
    ensures Find(es, LookupKey(prefix, AC, hash)).Some?
    ensures ReadKeys(files, es, prefix, AC, hash, -1) == [LookupKey(prefix, AC, hash)]
  {
  }

  lemma HitNeeds(env: Env, files: Files, es: seq<Entry>, prefix: string, ar: ActionResult, data: seq<byte>)
    requires CheckNeeded(env, files, es, prefix, ar, data).v == Validated(ar, data)
    ensures var keys, trees := CheckNeeded(env, files, es, prefix, ar, data).keys, TreeDigests(ar.outputDirectories);
      && (forall k :: k in keys ==> Find(es, k).Some?)
      && keys == KeysOf(prefix, trees) + KeysOf(prefix, Pending(ar, Gather(env, files, es, prefix, trees).pending))
  {
    var trees := TreeDigests(ar.outputDirectories);
    var pending := Pending(ar, Gather(env, files, es, prefix, trees).pending);
    TreeKeys(env, files, es, prefix, trees);
    AllBatches(es, prefix, pending);
    KeysAreFound(es, prefix, pending);
  }
}
