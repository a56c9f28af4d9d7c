// The integrity of every answer: whatever is evicted, overwritten, filled from
// the proxy or found on the slow path, a Get that hits gives data that was
// stored under its key.
module Integrity {
  import opened Wrappers
  import opened Bytes
  import opened LruSpec
  import opened Names
  import opened Protocol
  import opened ProtocolSafety
  import opened ProtocolTheorems
  import BlobReaders
  import CasBlob
  import Z = Zstd

  // ----- genuine data -----

  // The request brings the data to the key: a Put whose body passes the checks
  // made while writing, or a Get whose blob the proxy has.
  predicate Supplies(cfg: Config, req: Request, key: Key, data: seq<byte>) {
    KeyOf(req) == key &&
    match req
    case Put(_, _, _, _, body, _) => WriteSucceeds(cfg, req) && body == data
    case Get(prefix, kind, hash, _, _, _) =>
      cfg.proxy.Some? && (prefix, kind, hash) in cfg.proxy.value && cfg.proxy.value[(prefix, kind, hash)] == data
  }

  ghost predicate Genuine(cfg: Config, locals: seq<Local>, key: Key, data: seq<byte>) {
    exists j :: 0 <= j < |locals| && Supplies(cfg, locals[j].req, key, data)
  }

  // The file of an entry holds such data.
  ghost predicate HoldsGenuine(cfg: Config, files: map<string, seq<byte>>, locals: seq<Local>, e: Entry) {
    PathOf(e) in files && exists data :: Contains(cfg, e, files[PathOf(e)], data) && Genuine(cfg, locals, e.key, data)
  }

  // The answer is the data from the offset on, compressed if so requested.
  ghost predicate GivesFrom(cfg: Config, get: Request, bytes: seq<byte>, data: seq<byte>)
    requires get.Get?
  {
    get.offset >= 0 ==>
      var tail := BlobReaders.Tail(data, get.offset);
      if get.zstd then cfg.z.dec(bytes) == Some(tail) else bytes == tail
  }

  predicate AsksForEmpty(get: Request) {
    get.Get? && get.kind == CAS && get.hash == EMPTY_SHA256
  }

  ghost predicate TrueAnswer(cfg: Config, locals: seq<Local>, get: Request, bytes: seq<byte>, size: int)
    requires get.Get?
  {
    exists data :: TrueData(cfg, locals, get, bytes, size, data)
  }

  ghost predicate TrueData(cfg: Config, locals: seq<Local>, get: Request, bytes: seq<byte>, size: int, data: seq<byte>)
    requires get.Get?
  {
    && |data| == size && GivesFrom(cfg, get, bytes, data)
    && (Genuine(cfg, locals, KeyOf(get), data) || (AsksForEmpty(get) && data == []))
  }

  // ----- the invariant -----

  function Looked(me: Local): Entry {
    Entry(KeyOf(me.req), me.item)
  }

  // A file about to be opened holds genuine data while it exists, and nobody is
  // writing it.
  ghost predicate OpensGenuine(cfg: Config, files: map<string, seq<byte>>, locals: seq<Local>, e: Entry) {
    && (forall j :: 0 <= j < |locals| ==> TempAt(PathOf(e))(locals[j]) == 0)
    && (PathOf(e) in files ==> HoldsGenuine(cfg, files, locals, e))
  }

  predicate BetweenChecksAndEnd(pc: Pc) {
    !pc.Start? && !pc.CleanFile? && !pc.CleanReserve? && !pc.Done?
  }

  ghost predicate LocalSound(cfg: Config, files: map<string, seq<byte>>, locals: seq<Local>, me: Local) {
    me.req.Get? ==>
      && (BetweenChecksAndEnd(me.pc) && me.req.zstd ==> me.req.kind == CAS)
      && (me.pc.Creating? || HasTemp(me.pc) ==> Supplies(cfg, me.req, KeyOf(me.req), Source(cfg, me.req)))
      && (me.pc.Opening? ==> OpensGenuine(cfg, files, locals, Looked(me)))
      && (me.reply.Hit? ==> TrueAnswer(cfg, locals, me.req, me.reply.bytes, me.reply.size))
  }

  ghost predicate Sound(cfg: Config, s: State) {
    && (forall e :: e in s.lru.entries ==> HoldsGenuine(cfg, s.files, s.locals, e))
    && (forall i :: 0 <= i < |s.locals| ==> LocalSound(cfg, s.files, s.locals, s.locals[i]))
  }

  // The codec decodes the constant frame that stands for the empty blob.
  ghost predicate EmptyFrameDecodes(cfg: Config) {
    cfg.z.dec(EMPTY_ZSTD_BLOB) == Some([])
  }

  // ----- what a file gives -----

  // Whatever a reader yields from the file of some data is the data from the
  // offset on.
  lemma ReadGives(z: Z.Zstd, data: seq<byte>, expected: int, offset: nat)
    requires Z.Lawful(z) && |data| < 0x8000_0000_0000_0000 && |CasBlob.FileBytes(z, data)| < 0x8000_0000_0000_0000
    ensures var r := BlobReaders.ReadUncompressed(z, CasBlob.FileBytes(z, data), expected, offset);
      r.Ok? ==> r.value == BlobReaders.Tail(data, offset)
    ensures var r := BlobReaders.ReadZstd(z, CasBlob.FileBytes(z, data), expected, offset);
      r.Ok? ==> z.dec(r.value) == Some(BlobReaders.Tail(data, offset))
  {
    var h := BlobReaders.CheckedHeader(CasBlob.FileBytes(z, data), expected);
    if data == [] {
      CasBlob.FileParts(z, data);
      assert h.Err?;
    } else {
      CasBlob.HeaderRoundTrip(z, data);
      if h.Ok? {
        BlobReaders.UncompressedRefines(z, data, expected, offset);
        BlobReaders.ZstdRefines(z, data, expected, offset);
      }
    }
  }

  // Whatever a Get is served from a file that contains some data is that data.
  lemma ServedGives(cfg: Config, get: Request, item: Item, bytes: seq<byte>, data: seq<byte>)
    requires ConfigOk(cfg) && get.Get? && RequestOk(get) && (get.zstd ==> get.kind == CAS) && get.offset >= 0
    requires Contains(cfg, Entry(KeyOf(get), item), bytes, data)
    ensures var r := Serve(cfg, get, item, bytes);
      r.ServedHit? ==> r.size == |data| && GivesFrom(cfg, get, r.bytes, data)
  {
    LookupKeyRoundTrip(get.prefix, get.kind, get.hash);
    if get.kind == CAS && !item.legacy {
      ReadGives(cfg.z, data, get.size, get.offset);
    } else if get.kind == CAS {
      Z.DecodeOne(cfg.z, BlobReaders.Tail(data, get.offset));
    }
  }

  lemma HitIsTrue(cfg: Config, files: map<string, seq<byte>>, locals: seq<Local>, get: Request, item: Item)
    requires ConfigOk(cfg) && get.Get? && RequestOk(get) && (get.zstd ==> get.kind == CAS) && get.offset >= 0
    requires HoldsGenuine(cfg, files, locals, Entry(KeyOf(get), item))
    ensures var r := Serve(cfg, get, item, files[PathOf(Entry(KeyOf(get), item))]);
      r.ServedHit? ==> TrueAnswer(cfg, locals, get, r.bytes, r.size)
  {
    var e := Entry(KeyOf(get), item);
    var bytes := files[PathOf(e)];
    var data :| Contains(cfg, e, bytes, data) && Genuine(cfg, locals, e.key, data);
    ServedGives(cfg, get, item, bytes, data);
    var r := Serve(cfg, get, item, bytes);
    if r.ServedHit? { assert TrueData(cfg, locals, get, r.bytes, r.size, data); }
  }

  // ----- the steps of a request -----

  // A step that gives no answer, opens nothing and goes no further.
  ghost predicate Calm(me: Local, me': Local) {
    && me'.req == me.req && (me'.reply == me.reply || !me'.reply.Hit?) && !me'.pc.Opening?
    && (BetweenChecksAndEnd(me'.pc) ==> BetweenChecksAndEnd(me.pc))
    && (me'.pc.Creating? || HasTemp(me'.pc) ==> me.pc.Creating? || HasTemp(me.pc))
  }

  lemma CalmSound(cfg: Config, files: map<string, seq<byte>>, locals: seq<Local>, me: Local, me': Local)
    requires LocalSound(cfg, files, locals, me) && Calm(me, me')
    ensures LocalSound(cfg, files, locals, me')
  {
  }

  // What a request has become is sound, in the state before its step.
  lemma OwnStepSound(cfg: Config, lru: Lru, files: map<string, seq<byte>>, locals: seq<Local>, me: Local, c: Choice)
    requires ConfigOk(cfg) && EmptyFrameDecodes(cfg) && LruSpec.Valid(lru) && me in locals
    requires LocalOk(cfg, files, me) && LocalSound(cfg, files, locals, me) && Enabled(cfg, files, me, c)
    requires forall e :: e in lru.entries ==> OpensGenuine(cfg, files, locals, e)
    ensures LocalSound(cfg, files, locals, LocalStep(cfg, lru, files, me, c).me)
  {
    if me.req.Get? {
      if c.Go? {
        GoSound(cfg, lru, files, locals, me);
      } else if me.pc.Creating? || me.pc.Writing? || me.pc.CleanFile? {
        QuietIsCalm(cfg, lru, files, me, c);
        CalmSound(cfg, files, locals, me, LocalStep(cfg, lru, files, me, c).me);
      } else {
        FaultIsCalm(cfg, lru, files, me, c);
        CalmSound(cfg, files, locals, me, LocalStep(cfg, lru, files, me, c).me);
      }
    } else {
      PutKeepsReq(cfg, lru, files, me, c);
    }
  }

  lemma PutKeepsReq(cfg: Config, lru: Lru, files: map<string, seq<byte>>, me: Local, c: Choice)
    requires Enabled(cfg, files, me, c) && me.req.Put?
    ensures LocalStep(cfg, lru, files, me, c).me.req == me.req
  {
    var e := LocalStep(cfg, lru, files, me, c);
  }

  lemma GoSound(cfg: Config, lru: Lru, files: map<string, seq<byte>>, locals: seq<Local>, me: Local)
    requires ConfigOk(cfg) && EmptyFrameDecodes(cfg) && LruSpec.Valid(lru) && me in locals && me.req.Get?
    requires LocalOk(cfg, files, me) && LocalSound(cfg, files, locals, me) && Enabled(cfg, files, me, Go)
    requires forall e :: e in lru.entries ==> OpensGenuine(cfg, files, locals, e)
    ensures LocalSound(cfg, files, locals, LocalStep(cfg, lru, files, me, Go).me)
  {
    var me' := LocalStep(cfg, lru, files, me, Go).me;
    match me.pc
    case Start => StartSound(cfg, files, locals, me);
    case Looking => LookSound(cfg, lru, files, locals, me);
    case Opening => OpenSound(cfg, files, locals, me);
    case Slow => LookAgainSound(cfg, lru, files, locals, me);
    case Missing => TryProxyIsCalm(cfg, lru, files, me); CalmSound(cfg, files, locals, me, me');
    case Fetching => FetchSound(cfg, files, locals, me);
    case Reopening => ReopenSound(cfg, files, locals, me);
    case _ => QuietIsCalm(cfg, lru, files, me, Go); CalmSound(cfg, files, locals, me, me');
  }

  lemma StartSound(cfg: Config, files: map<string, seq<byte>>, locals: seq<Local>, me: Local)
    requires EmptyFrameDecodes(cfg) && me.req.Get? && me.pc.Start? && LocalSound(cfg, files, locals, me)
    ensures LocalSound(cfg, files, locals, StartGet(cfg, me))
  {
    var r := StartGet(cfg, me);
    if r.reply.Hit? && r.reply != me.reply {
      assert TrueData(cfg, locals, me.req, r.reply.bytes, 0, []);
    }
  }

  lemma LookSound(cfg: Config, lru: Lru, files: map<string, seq<byte>>, locals: seq<Local>, me: Local)
    requires LruSpec.Valid(lru) && me.req.Get? && me.pc.Looking? && LocalSound(cfg, files, locals, me)
    requires forall e :: e in lru.entries ==> OpensGenuine(cfg, files, locals, e)
    ensures LocalSound(cfg, files, locals, Look(cfg, lru, files, me).me)
  {
    match Find(lru.entries, KeyOf(me.req))
    case Some(item) => FindFacts(lru.entries, KeyOf(me.req), item);
    case None =>
      TryProxyIsCalm(cfg, LruSpec.Get(lru, KeyOf(me.req)), files, me);
      CalmSound(cfg, files, locals, me, Look(cfg, lru, files, me).me);
  }

  lemma OpenSound(cfg: Config, files: map<string, seq<byte>>, locals: seq<Local>, me: Local)
    requires ConfigOk(cfg) && LocalOk(cfg, files, me) && LocalSound(cfg, files, locals, me)
    requires me.req.Get? && me.pc.Opening?
    ensures LocalSound(cfg, files, locals, Open(cfg, files, me))
  {
    PathInIsPathOf(me.req, me.item);
    if PathIn(me.req, me.item) in files {
      AnswerSound(cfg, files, locals, me, me.item);
    } else {
      CalmSound(cfg, files, locals, me, me.(pc := Slow));
    }
  }

  lemma AnswerSound(cfg: Config, files: map<string, seq<byte>>, locals: seq<Local>, me: Local, item: Item)
    requires ConfigOk(cfg) && RequestOk(me.req) && LocalSound(cfg, files, locals, me)
    requires me.req.Get? && me.req.offset >= 0 && (me.pc.Opening? || me.pc.Slow?)
    requires HoldsGenuine(cfg, files, locals, Entry(KeyOf(me.req), item))
    ensures LocalSound(cfg, files, locals, Answer(cfg, me, item, files[PathOf(Entry(KeyOf(me.req), item))]))
  {
    var bytes := files[PathOf(Entry(KeyOf(me.req), item))];
    HitIsTrue(cfg, files, locals, me.req, item);
    AnswerEnds(cfg, me, item, bytes);
    EndsSound(cfg, files, locals, me, Serve(cfg, me.req, item, bytes), Answer(cfg, me, item, bytes));
  }

  lemma EndsSound(cfg: Config, files: map<string, seq<byte>>, locals: seq<Local>, me: Local, served: Served, me': Local)
    requires LocalSound(cfg, files, locals, me) && me.req.Get? && BetweenChecksAndEnd(me.pc)
    requires served.ServedHit? ==> TrueAnswer(cfg, locals, me.req, served.bytes, served.size)
    requires EndsWith(me, served, me')
    ensures LocalSound(cfg, files, locals, me')
  {
    if served.ServedHit? {
      HitSound(cfg, files, locals, me, served.bytes, served.size);
    } else {
      CalmSound(cfg, files, locals, me, me');
    }
  }

  predicate EndsWith(me: Local, served: Served, me': Local) {
    me' == match served
      case ServedHit(bytes, size) => Finish(me, Hit(bytes, size))
      case ServedMiss => me.(pc := Missing)
      case ServedCrash => Finish(me, Failed)
  }

  lemma HitSound(cfg: Config, files: map<string, seq<byte>>, locals: seq<Local>, me: Local, bytes: seq<byte>, size: int)
    requires me.req.Get? && TrueAnswer(cfg, locals, me.req, bytes, size)
    ensures LocalSound(cfg, files, locals, Finish(me, Hit(bytes, size)))
  {
  }

  lemma AnswerEnds(cfg: Config, me: Local, item: Item, bytes: seq<byte>)
    requires me.req.Get? && me.req.offset >= 0
    ensures EndsWith(me, Serve(cfg, me.req, item, bytes), Answer(cfg, me, item, bytes))
  {
  }

  lemma LookAgainSound(cfg: Config, lru: Lru, files: map<string, seq<byte>>, locals: seq<Local>, me: Local)
    requires ConfigOk(cfg) && LruSpec.Valid(lru) && LocalOk(cfg, files, me) && LocalSound(cfg, files, locals, me)
    requires me.req.Get? && me.pc.Slow?
    requires forall e :: e in lru.entries ==> OpensGenuine(cfg, files, locals, e)
    ensures LocalSound(cfg, files, locals, LookAgain(cfg, lru, files, me).me)
  {
    match Find(lru.entries, KeyOf(me.req))
    case None => CalmSound(cfg, files, locals, me, me.(pc := Missing));
    case Some(item) =>
      FindFacts(lru.entries, KeyOf(me.req), item);
      PathInIsPathOf(me.req, item);
      assert OpensGenuine(cfg, files, locals, Entry(KeyOf(me.req), item));
      if PathIn(me.req, item) in files {
        AnswerSound(cfg, files, locals, me, item);
      } else {
        CalmSound(cfg, files, locals, me, me.(pc := Missing));
      }
  }

  lemma FetchSound(cfg: Config, files: map<string, seq<byte>>, locals: seq<Local>, me: Local)
    requires me.req.Get? && me.pc.Fetching? && LocalSound(cfg, files, locals, me)
    ensures LocalSound(cfg, files, locals, Fetch(cfg, me))
  {
  }

  // The answer of a Get filled from the proxy is the blob of the proxy.
  lemma ReopenSound(cfg: Config, files: map<string, seq<byte>>, locals: seq<Local>, me: Local)
    requires ConfigOk(cfg) && LocalOk(cfg, files, me) && LocalSound(cfg, files, locals, me)
    requires me.req.Get? && me.pc.Reopening? && me in locals
    ensures LocalSound(cfg, files, locals, Reopen(cfg, files, me))
  {
    var data, r := Source(cfg, me.req), Reopen(cfg, files, me);
    ReopenEnds(cfg, files, me);
    if me.req.kind == CAS && cfg.mode != Identity {
      ReadGives(cfg.z, data, me.foundSize, me.req.offset);
    } else {
      Z.DecodeOne(cfg.z, BlobReaders.Tail(data, me.req.offset));
    }
    if r.pc.Committing? {
      assert Genuine(cfg, locals, KeyOf(me.req), data);
      assert TrueData(cfg, locals, me.req, r.reply.bytes, r.reply.size, data);
    }
  }

  // The other steps keep the reply, or turn it into a failure.
  lemma QuietIsCalm(cfg: Config, lru: Lru, files: map<string, seq<byte>>, me: Local, c: Choice)
    requires Enabled(cfg, files, me, c) && me.req.Get?
    requires me.pc.Creating? || me.pc.Writing? || me.pc.Committing? || me.pc.CleanFile? || me.pc.CleanReserve? || me.pc.Done?
    ensures Calm(me, LocalStep(cfg, lru, files, me, c).me)
  {
    var e := LocalStep(cfg, lru, files, me, c);
    if me.pc.Committing? {
      CommitFinishes(cfg, lru, files, me);
      CommitReplies(cfg, lru, files, me);
    }
  }

  // So do failures.
  lemma FaultIsCalm(cfg: Config, lru: Lru, files: map<string, seq<byte>>, me: Local, c: Choice)
    requires Enabled(cfg, files, me, c) && !c.Go?
    requires me.pc.Opening? || me.pc.Slow? || me.pc.Fetching? || me.pc.Reopening?
    ensures Calm(me, LocalStep(cfg, lru, files, me, c).me)
  {
    var e := LocalStep(cfg, lru, files, me, c);
  }

  lemma TryProxyIsCalm(cfg: Config, lru: Lru, files: map<string, seq<byte>>, me: Local)
    requires me.pc.Looking? || me.pc.Missing?
    ensures Calm(me, TryProxy(cfg, lru, files, me).me)
  {
    var e := TryProxy(cfg, lru, files, me);
  }

  // ----- what other requests leave as it is -----

  // The same requests are there, and maybe more.
  ghost predicate KeepsReqs(locals: seq<Local>, locals': seq<Local>) {
    |locals| <= |locals'| && forall j :: 0 <= j < |locals| ==> locals'[j].req == locals[j].req
  }

  lemma GenuineStays(cfg: Config, locals: seq<Local>, locals': seq<Local>, key: Key, data: seq<byte>)
    requires KeepsReqs(locals, locals') && Genuine(cfg, locals, key, data)
    ensures Genuine(cfg, locals', key, data)
  {
    var j :| 0 <= j < |locals| && Supplies(cfg, locals[j].req, key, data);
    assert Supplies(cfg, locals'[j].req, key, data);
  }

  lemma HeldStays(cfg: Config, files: map<string, seq<byte>>, files': map<string, seq<byte>>,
                  locals: seq<Local>, locals': seq<Local>, e: Entry)
    requires KeepsReqs(locals, locals') && HoldsGenuine(cfg, files, locals, e)
    requires PathOf(e) in files' && files'[PathOf(e)] == files[PathOf(e)]
    ensures HoldsGenuine(cfg, files', locals', e)
  {
    var data :| Contains(cfg, e, files[PathOf(e)], data) && Genuine(cfg, locals, e.key, data);
    GenuineStays(cfg, locals, locals', e.key, data);
  }

  lemma AnswerStays(cfg: Config, locals: seq<Local>, locals': seq<Local>, get: Request, bytes: seq<byte>, size: int)
    requires get.Get? && KeepsReqs(locals, locals') && TrueAnswer(cfg, locals, get, bytes, size)
    ensures TrueAnswer(cfg, locals', get, bytes, size)
  {
    var data :| TrueData(cfg, locals, get, bytes, size, data);
    if Genuine(cfg, locals, KeyOf(get), data) { GenuineStays(cfg, locals, locals', KeyOf(get), data); }
    assert TrueData(cfg, locals', get, bytes, size, data);
  }

  // A transition leaves a file alone that nobody is writing, or removes it; and
  // nobody begins to write it.
  ghost predicate LeavesAlone(s: State, s': State, p: string) {
    && (p in s'.files ==> p in s.files && s'.files[p] == s.files[p])
    && forall j :: 0 <= j < |s'.locals| ==> TempAt(p)(s'.locals[j]) == 0
  }

  lemma LocalStays(cfg: Config, s: State, s': State, me: Local)
    requires KeepsReqs(s.locals, s'.locals) && LocalSound(cfg, s.files, s.locals, me)
    requires me.req.Get? && me.pc.Opening? ==> LeavesAlone(s, s', PathOf(Looked(me)))
    ensures LocalSound(cfg, s'.files, s'.locals, me)
  {
    if me.req.Get? {
      if me.pc.Opening? && PathOf(Looked(me)) in s'.files {
        HeldStays(cfg, s.files, s'.files, s.locals, s'.locals, Looked(me));
      }
      if me.reply.Hit? { AnswerStays(cfg, s.locals, s'.locals, me.req, me.reply.bytes, me.reply.size); }
    }
  }

  // The step creates a file at a path at which some Get is about to open one.
  ghost predicate Clashes(cfg: Config, s: State, step: Label) {
    && step.Step? && step.i < |s.locals| && step.choice.Name?
    && exists j :: 0 <= j < |s.locals| && ClashesWith(cfg, s.locals[step.i], step.choice.random, s.locals[j])
  }

  predicate ClashesWith(cfg: Config, me: Local, random: string, other: Local) {
    other.req.Get? && other.pc.Opening? && PathOf(Looked(other)) == TempName(cfg, me, random)
  }

  // Only a creation makes a file or gives a request a file to write.
  lemma OnlyCreates(cfg: Config, lru: Lru, files: map<string, seq<byte>>, me: Local, c: Choice, p: string)
    requires LocalOk(cfg, files, me) && Enabled(cfg, files, me, c) && TempAt(p)(me) == 0
    requires !(me.pc.Creating? && c.Name? && TempName(cfg, me, c.random) == p)
    ensures var e := LocalStep(cfg, lru, files, me, c);
      TempAt(p)(e.me) == 0 && (p in e.files ==> p in files && e.files[p] == files[p])
  {
    var e := LocalStep(cfg, lru, files, me, c);
    if me.pc.Creating? || me.pc.Writing? || me.pc.CleanFile? {
      OnlyCreatesFile(cfg, lru, files, me, c, p);
    } else if LeavesIndex(me.pc) {
      SteadySteps(cfg, lru, files, me, c);
    } else {
      IndexStepsCreateNothing(cfg, lru, files, me, c);
    }
  }

  lemma OnlyCreatesFile(cfg: Config, lru: Lru, files: map<string, seq<byte>>, me: Local, c: Choice, p: string)
    requires LocalOk(cfg, files, me) && Enabled(cfg, files, me, c) && TempAt(p)(me) == 0
    requires !(me.pc.Creating? && c.Name? && TempName(cfg, me, c.random) == p)
    requires me.pc.Creating? || me.pc.Writing? || me.pc.CleanFile?
    ensures var e := LocalStep(cfg, lru, files, me, c);
      TempAt(p)(e.me) == 0 && (p in e.files ==> p in files && e.files[p] == files[p])
  {
    var e := LocalStep(cfg, lru, files, me, c);
    if me.pc.Writing? && c.Go? { WritesOwnFile(cfg, files, me, p); }
  }

  lemma WritesOwnFile(cfg: Config, files: map<string, seq<byte>>, me: Local, p: string)
    requires me.removeTempfile && me.blobFile != p
    ensures var (files', me') := Write(cfg, files, me);
      TempAt(p)(me') == 0 && (p in files' ==> p in files && files'[p] == files[p])
  {
  }

  // The request has no file that it did not have before.
  predicate GainsNoFile(me: Local, me': Local) {
    (me'.removeTempfile ==> me.removeTempfile) && me'.blobFile == me.blobFile
  }

  lemma IndexStepsCreateNothing(cfg: Config, lru: Lru, files: map<string, seq<byte>>, me: Local, c: Choice)
    requires Enabled(cfg, files, me, c) && !LeavesIndex(me.pc)
    ensures var e := LocalStep(cfg, lru, files, me, c); e.files == files && GainsNoFile(me, e.me)
  {
    match me.pc
    case Looking => LookCreatesNothing(cfg, lru, files, me);
    case Slow => if c.Go? { LookAgainOnlyPromotes(cfg, lru, files, me); }
    case Committing => CommitFinishes(cfg, lru, files, me);
    case Reserving => var e := ReserveStep(lru, files, me);
    case Missing => TryProxyCreatesNothing(cfg, lru, files, me);
  }

  lemma TryProxyCreatesNothing(cfg: Config, lru: Lru, files: map<string, seq<byte>>, me: Local)
    ensures var e := TryProxy(cfg, lru, files, me); e.files == files && GainsNoFile(me, e.me)
  {
    var e := TryProxy(cfg, lru, files, me);
  }

  lemma LookCreatesNothing(cfg: Config, lru: Lru, files: map<string, seq<byte>>, me: Local)
    ensures var e := Look(cfg, lru, files, me); e.files == files && GainsNoFile(me, e.me)
  {
    TryProxyCreatesNothing(cfg, LruSpec.Get(lru, KeyOf(me.req)), files, me);
    var e := Look(cfg, lru, files, me);
  }

  // ----- every transition keeps the invariant -----

  lemma StepKeepsReq(cfg: Config, lru: Lru, files: map<string, seq<byte>>, me: Local, c: Choice)
    requires Enabled(cfg, files, me, c)
    ensures LocalStep(cfg, lru, files, me, c).me.req == me.req
  {
    if me.req.Put? {
      PutKeepsReq(cfg, lru, files, me, c);
    } else if LeavesIndex(me.pc) {
      GetKeepsReq(cfg, lru, files, me, c);
    } else if me.pc.Slow? && c.Go? {
      LookAgainKeepsReq(cfg, lru, files, me);
    } else {
      IndexKeepsReq(cfg, lru, files, me, c);
    }
  }

  lemma GetKeepsReq(cfg: Config, lru: Lru, files: map<string, seq<byte>>, me: Local, c: Choice)
    requires Enabled(cfg, files, me, c) && me.req.Get? && LeavesIndex(me.pc)
    ensures LocalStep(cfg, lru, files, me, c).me.req == me.req
  {
    var e := LocalStep(cfg, lru, files, me, c);
  }

  lemma LookAgainKeepsReq(cfg: Config, lru: Lru, files: map<string, seq<byte>>, me: Local)
    requires me.req.Get? && me.req.offset >= 0
    ensures LookAgain(cfg, lru, files, me).me.req == me.req
  {
    var e := LookAgain(cfg, lru, files, me);
  }

  lemma IndexKeepsReq(cfg: Config, lru: Lru, files: map<string, seq<byte>>, me: Local, c: Choice)
    requires Enabled(cfg, files, me, c) && me.req.Get? && !LeavesIndex(me.pc) && !(me.pc.Slow? && c.Go?)
    ensures LocalStep(cfg, lru, files, me, c).me.req == me.req
  {
    if me.pc.Committing? { CommitFinishes(cfg, lru, files, me); }
    var e := LocalStep(cfg, lru, files, me, c);
  }

  lemma NextKeepsReqs(cfg: Config, s: State, step: Label)
    requires Next(cfg, s, step).Some?
    ensures KeepsReqs(s.locals, Next(cfg, s, step).value.locals)
  {
    match step
    case Arrive(_) =>
    case Step(i, c) => StepKeepsReq(cfg, s.lru, s.files, s.locals[i], c);
    case RemoveFile(_, _) =>
  }

  predicate Creates(cfg: Config, s: State, step: Label, p: string) {
    && step.Step? && step.i < |s.locals| && s.locals[step.i].pc.Creating? && step.choice.Name?
    && TempName(cfg, s.locals[step.i], step.choice.random) == p
  }

  lemma NextLeavesAlone(cfg: Config, s: State, step: Label, p: string)
    requires forall j :: 0 <= j < |s.locals| ==> LocalOk(cfg, s.files, s.locals[j]) && TempAt(p)(s.locals[j]) == 0
    requires Next(cfg, s, step).Some? && !Creates(cfg, s, step, p)
    ensures LeavesAlone(s, Next(cfg, s, step).value, p)
  {
    match step
    case Arrive(_) =>
    case Step(i, c) => OnlyCreates(cfg, s.lru, s.files, s.locals[i], c, p);
    case RemoveFile(_, _) =>
  }

  lemma EntriesOpen(cfg: Config, s: State)
    requires Inv(cfg, s) && Sound(cfg, s)
    ensures forall e :: e in s.lru.entries ==> OpensGenuine(cfg, s.files, s.locals, e)
  {
    forall e | e in s.lru.entries ensures OpensGenuine(cfg, s.files, s.locals, e) {
      assert PathOwned(s, PathOf(e));
      EntryOwns(s, e);
    }
  }

  // What a request commits is genuine.
  lemma CommitsGenuine(cfg: Config, s: State, i: nat)
    requires Inv(cfg, s) && Sound(cfg, s) && i < |s.locals| && s.locals[i].pc.Committing?
    ensures HoldsGenuine(cfg, s.files, s.locals, NewEntry(cfg, s.locals[i]))
  {
    var me := s.locals[i];
    assert LocalOk(cfg, s.files, me) && LocalSound(cfg, s.files, s.locals, me);
    CommittedIsStored(cfg, s.files, me);
    TempPathIsFinal(cfg, me);
    assert Supplies(cfg, me.req, KeyOf(me.req), Source(cfg, me.req));
    assert Genuine(cfg, s.locals, KeyOf(me.req), Source(cfg, me.req));
  }

  lemma EntriesStaySound(cfg: Config, s: State, step: Label, e: Entry)
    requires Inv(cfg, s) && Sound(cfg, s) && Next(cfg, s, step).Some? && e in Next(cfg, s, step).value.lru.entries
    ensures var s' := Next(cfg, s, step).value; HoldsGenuine(cfg, s'.files, s'.locals, e)
  {
    var s' := Next(cfg, s, step).value;
    NextKeepsReqs(cfg, s, step);
    if e in s.lru.entries {
      EntryFileStays(cfg, s, step, e);
    } else {
      NewIsCommitted(cfg, s, step, e);
      CommitsGenuine(cfg, s, step.i);
    }
    HeldStays(cfg, s.files, s'.files, s.locals, s'.locals, e);
  }

  lemma NewIsCommitted(cfg: Config, s: State, step: Label, e: Entry)
    requires Inv(cfg, s) && Next(cfg, s, step).Some?
    requires e in Next(cfg, s, step).value.lru.entries && e !in s.lru.entries
    ensures step.Step? && step.i < |s.locals| && s.locals[step.i].pc.Committing?
    ensures e == NewEntry(cfg, s.locals[step.i]) && Next(cfg, s, step).value.files == s.files
  {
    if step.Step? {
      assert LocalOk(cfg, s.files, s.locals[step.i]);
      StepEntries(cfg, s.lru, s.files, s.locals[step.i], step.choice, e);
      CommitFinishes(cfg, s.lru, s.files, s.locals[step.i]);
    }
  }

  lemma LocalsStaySound(cfg: Config, s: State, step: Label, j: nat)
    requires Inv(cfg, s) && Sound(cfg, s) && EmptyFrameDecodes(cfg)
    requires Next(cfg, s, step).Some? && !Clashes(cfg, s, step) && j < |Next(cfg, s, step).value.locals|
    ensures var s' := Next(cfg, s, step).value; LocalSound(cfg, s'.files, s'.locals, s'.locals[j])
  {
    var s' := Next(cfg, s, step).value;
    var me' := s'.locals[j];
    NextKeepsReqs(cfg, s, step);
    WasSound(cfg, s, step, j);
    if me'.req.Get? && me'.pc.Opening? {
      NotCreated(cfg, s, step, j);
      NextLeavesAlone(cfg, s, step, PathOf(Looked(me')));
    }
    LocalStays(cfg, s, s', me');
  }

  // Measured by the state before, every request is sound after the step.
  lemma WasSound(cfg: Config, s: State, step: Label, j: nat)
    requires Inv(cfg, s) && Sound(cfg, s) && EmptyFrameDecodes(cfg)
    requires Next(cfg, s, step).Some? && j < |Next(cfg, s, step).value.locals|
    ensures LocalSound(cfg, s.files, s.locals, Next(cfg, s, step).value.locals[j])
  {
    var me' := Next(cfg, s, step).value.locals[j];
    if step.Step? && step.i == j {
      assert LocalOk(cfg, s.files, s.locals[j]) && LocalSound(cfg, s.files, s.locals, s.locals[j]);
      EntriesOpen(cfg, s);
      OwnStepSound(cfg, s.lru, s.files, s.locals, s.locals[j], step.choice);
    } else if j < |s.locals| {
      assert me' == s.locals[j];
    } else {
      assert me' == Fresh(step.req);
    }
  }

  // A Get about to open a file does not open one that is just created.
  lemma NotCreated(cfg: Config, s: State, step: Label, j: nat)
    requires Next(cfg, s, step).Some? && !Clashes(cfg, s, step) && j < |Next(cfg, s, step).value.locals|
    requires var me' := Next(cfg, s, step).value.locals[j]; me'.req.Get? && me'.pc.Opening?
    ensures !Creates(cfg, s, step, PathOf(Looked(Next(cfg, s, step).value.locals[j])))
  {
    if step.Step? && step.choice.Name? {
      NextLocals(cfg, s, step, j);
      if step.i == j {
        CreatedIsWriting(cfg, s.lru, s.files, s.locals[j], step.choice);
      } else {
        assert !ClashesWith(cfg, s.locals[step.i], step.choice.random, s.locals[j]);
      }
    }
  }

  lemma CreatedIsWriting(cfg: Config, lru: Lru, files: map<string, seq<byte>>, me: Local, c: Choice)
    requires Enabled(cfg, files, me, c) && c.Name?
    ensures LocalStep(cfg, lru, files, me, c).me.pc.Writing?
  {
  }

  lemma NextKeepsSound(cfg: Config, s: State, step: Label)
    requires Inv(cfg, s) && Sound(cfg, s) && EmptyFrameDecodes(cfg)
    requires Next(cfg, s, step).Some? && !Clashes(cfg, s, step)
    ensures Sound(cfg, Next(cfg, s, step).value)
  {
    var s' := Next(cfg, s, step).value;
    forall e | e in s'.lru.entries ensures HoldsGenuine(cfg, s'.files, s'.locals, e) {
      EntriesStaySound(cfg, s, step, e);
    }
    forall j | 0 <= j < |s'.locals| ensures LocalSound(cfg, s'.files, s'.locals, s'.locals[j]) {
      LocalsStaySound(cfg, s, step, j);
    }
  }

  // No step of the run clashes.
  ghost predicate NeverClashes(cfg: Config, s: State, labels: seq<Label>)
    decreases |labels|
  {
    labels != [] && Next(cfg, s, labels[0]).Some? ==>
      !Clashes(cfg, s, labels[0]) && NeverClashes(cfg, Next(cfg, s, labels[0]).value, labels[1..])
  }

  lemma {:induction false} RunKeepsSound(cfg: Config, s: State, labels: seq<Label>)
    requires Inv(cfg, s) && Sound(cfg, s) && EmptyFrameDecodes(cfg)
    requires Protocol.Run(cfg, s, labels).Some? && NeverClashes(cfg, s, labels)
    ensures Sound(cfg, Protocol.Run(cfg, s, labels).value)
    decreases |labels|
  {
    if labels != [] {
      NextKeepsSound(cfg, s, labels[0]);
      NextKeepsInv(cfg, s, labels[0]);
      RunKeepsSound(cfg, Next(cfg, s, labels[0]).value, labels[1..]);
    }
  }

  // ----- the answers of a run -----

  // Every hit of every run from the empty cache is true: its bytes are data of
  // the size given, from the offset on, that a request of the run has brought
  // to that key, or the empty blob.
  lemma AnswersAreTrue(cfg: Config, labels: seq<Label>, j: nat)
    requires ConfigOk(cfg) && EmptyFrameDecodes(cfg)
    requires Protocol.Run(cfg, Initial(cfg), labels).Some? && NeverClashes(cfg, Initial(cfg), labels)
    requires var s := Protocol.Run(cfg, Initial(cfg), labels).value;
      j < |s.locals| && s.locals[j].req.Get? && s.locals[j].reply.Hit?
    ensures var s := Protocol.Run(cfg, Initial(cfg), labels).value;
      TrueAnswer(cfg, s.locals, s.locals[j].req, s.locals[j].reply.bytes, s.locals[j].reply.size)
  {
    InitialInv(cfg);
    RunKeepsSound(cfg, Initial(cfg), labels);
    var s := Protocol.Run(cfg, Initial(cfg), labels).value;
    assert LocalSound(cfg, s.files, s.locals, s.locals[j]);
  }

  // The data has the hash that was asked for, or is what the proxy has for it.
  ghost predicate HashedAnswer(cfg: Config, get: Request, bytes: seq<byte>, size: int, data: seq<byte>)
    requires get.Get?
  {
    && |data| == size && GivesFrom(cfg, get, bytes, data)
    && (cfg.sha(data) == get.hash ||
        (cfg.proxy.Some? && (get.prefix, CAS, get.hash) in cfg.proxy.value &&
         cfg.proxy.value[(get.prefix, CAS, get.hash)] == data))
  }

  // In a cache that stores compressed blobs, every CAS blob that a Get is given
  // has the hash that it asked for, unless it comes from the proxy.
  lemma AnswersAreHashed(cfg: Config, labels: seq<Label>, j: nat) returns (data: seq<byte>)
    requires ConfigOk(cfg) && EmptyFrameDecodes(cfg) && cfg.mode == Zstandard && cfg.sha([]) == EMPTY_SHA256
    requires Protocol.Run(cfg, Initial(cfg), labels).Some? && NeverClashes(cfg, Initial(cfg), labels)
    requires var s := Protocol.Run(cfg, Initial(cfg), labels).value;
      j < |s.locals| && s.locals[j].req.Get? && s.locals[j].req.kind == CAS && s.locals[j].reply.Hit?
    ensures var me := Protocol.Run(cfg, Initial(cfg), labels).value.locals[j];
      HashedAnswer(cfg, me.req, me.reply.bytes, me.reply.size, data)
  {
    var s := Protocol.Run(cfg, Initial(cfg), labels).value;
    var me := s.locals[j];
    AnswersAreTrue(cfg, labels, j);
    InitialInv(cfg);
    RunKeepsInv(cfg, Initial(cfg), labels);
    data :| TrueData(cfg, s.locals, me.req, me.reply.bytes, me.reply.size, data);
    if Genuine(cfg, s.locals, KeyOf(me.req), data) {
      var k :| 0 <= k < |s.locals| && Supplies(cfg, s.locals[k].req, KeyOf(me.req), data);
      assert LocalOk(cfg, s.files, s.locals[k]) && LocalOk(cfg, s.files, me);
      SameKeySameBlob(s.locals[k].req, me.req);
    }
  }

  lemma SameKeySameBlob(a: Request, b: Request)
    requires RequestOk(a) && RequestOk(b) && KeyOf(a) == KeyOf(b) && b.kind != RAW
    ensures a.kind == b.kind && a.hash == b.hash && a.prefix == b.prefix
  {
    LookupKeyRoundTrip(a.prefix, a.kind, a.hash);
    LookupKeyRoundTrip(b.prefix, b.kind, b.hash);
  }
}
