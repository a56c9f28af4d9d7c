// Reading back what was put: from the commit of a Put to the reply of a Get,
// with any other requests in flight.
module ReadBack {
  import opened Wrappers
  import opened Int64
  import opened Sums
  import opened Bytes
  import opened LruSpec
  import opened Names
  import opened Protocol
  import opened ProtocolSafety
  import opened ProtocolTheorems
  import CasBlob
  import BlobReaders
  import Z = Zstd

  // ----- serving a file -----

  // A compressed blob can be read if the length of its header fits 32 bits.
  predicate Readable(kind: Kind, legacy: bool, data: seq<byte>) {
    kind == CAS && !legacy ==> CasBlob.TableFits(|CasBlob.Chunks(data)| + 1)
  }

  // The answer gives the data from the offset on, compressed if so requested.
  ghost predicate Gives(cfg: Config, get: Request, bytes: seq<byte>, data: seq<byte>)
    requires get.Get? && 0 <= get.offset <= |data|
  {
    if get.zstd then cfg.z.dec(bytes) == Some(data[get.offset..]) else bytes == data[get.offset..]
  }

  // From the file of an entry a Get answers with the data that it contains,
  // exactly if the file is readable.
  lemma ServesData(cfg: Config, get: Request, item: Item, bytes: seq<byte>, data: seq<byte>)
    requires ConfigOk(cfg) && get.Get? && RequestOk(get) && (get.zstd ==> get.kind == CAS)
    requires Contains(cfg, Entry(KeyOf(get), item), bytes, data)
    requires 0 <= get.offset <= |data| && (get.size == -1 || get.size == |data|)
    ensures var r := Serve(cfg, get, item, bytes);
      if Readable(get.kind, item.legacy, data) then
        r.ServedHit? && r.size == |data| && Gives(cfg, get, r.bytes, data)
      else r == ServedMiss
  {
    LookupKeyRoundTrip(get.prefix, get.kind, get.hash);
    if get.kind == CAS {
      if item.legacy {
        Z.DecodeOne(cfg.z, data[get.offset..]);
      } else {
        ServesCompressed(cfg, get, item, data);
      }
    }
  }

  lemma ServesCompressed(cfg: Config, get: Request, item: Item, data: seq<byte>)
    requires ConfigOk(cfg) && get.Get? && get.kind == CAS && !item.legacy && CasBlob.SizesFit(cfg.z, data)
    requires 0 <= get.offset <= |data| && (get.size == -1 || get.size == |data|) && item.size == |data|
    ensures var r := Serve(cfg, get, item, CasBlob.FileBytes(cfg.z, data));
      if Readable(CAS, false, data) then r.ServedHit? && r.size == |data| && Gives(cfg, get, r.bytes, data)
      else r == ServedMiss
  {
    CasBlob.HeaderRoundTrip(cfg.z, data);
    if Readable(CAS, false, data) {
      if get.zstd {
        BlobReaders.ZstdRefines(cfg.z, data, get.size, get.offset);
      } else {
        BlobReaders.UncompressedRefines(cfg.z, data, get.size, get.offset);
      }
    }
  }

  // What a Get that is filled from the proxy asks of a blob: to be readable.
  ghost predicate AsksToFill(cfg: Config, get: Request) {
    && get.Get? && 0 <= get.offset <= |Source(cfg, get)| && (get.zstd ==> get.kind == CAS)
    && Source(cfg, get) != [] && Readable(get.kind, Legacy(cfg, get.kind), Source(cfg, get))
  }

  ghost predicate RepliesWith(cfg: Config, get: Request, reply: Reply, data: seq<byte>)
    requires get.Get? && 0 <= get.offset <= |data|
  {
    reply.Hit? && reply.size == |data| && Gives(cfg, get, reply.bytes, data)
  }

  // It takes its answer, the blob of the proxy from the offset on, from the file
  // that it is about to commit.
  lemma ReopenServes(cfg: Config, files: map<string, seq<byte>>, me: Local)
    requires ConfigOk(cfg) && LocalOk(cfg, files, me) && me.pc.Reopening? && AsksToFill(cfg, me.req)
    ensures var r, data := Reopen(cfg, files, me), Source(cfg, me.req);
      && r.pc.Committing? && RepliesWith(cfg, me.req, r.reply, data)
      && me.blobFile in files
      && files[me.blobFile] == StoredBytes(cfg, me.req.kind, Legacy(cfg, me.req.kind), data)
  {
    var req, data := me.req, Source(cfg, me.req);
    if req.kind == CAS && cfg.mode != Identity {
      if req.zstd {
        BlobReaders.ZstdRefines(cfg.z, data, |data|, req.offset);
      } else {
        BlobReaders.UncompressedRefines(cfg.z, data, |data|, req.offset);
      }
    } else {
      Z.DecodeOne(cfg.z, data[req.offset..]);
    }
  }

  // A Get being filled is about to open its file, or has that answer, or has
  // failed.
  ghost predicate Filled(cfg: Config, me: Local, get: Request) {
    && me.req == get && AsksToFill(cfg, get)
    && (|| me.pc.Reopening?
        || (me.pc.Committing? && RepliesWith(cfg, get, me.reply, Source(cfg, get)))
        || ((me.pc.CleanFile? || me.pc.CleanReserve? || me.pc.Done?) &&
            (RepliesWith(cfg, get, me.reply, Source(cfg, get)) || me.reply == Failed)))
  }

  lemma FilledStep(cfg: Config, lru: Lru, files: map<string, seq<byte>>, me: Local, c: Choice)
    requires ConfigOk(cfg) && LocalOk(cfg, files, me) && Enabled(cfg, files, me, c) && Filled(cfg, me, me.req)
    ensures Filled(cfg, LocalStep(cfg, lru, files, me, c).me, me.req)
  {
    if me.pc.Reopening? && c.Go? {
      ReopenServes(cfg, files, me);
      ReopenEnds(cfg, files, me);
    } else if me.pc.Committing? {
      CommitFinishes(cfg, lru, files, me);
      CommitReplies(cfg, lru, files, me);
    } else {
      var e := LocalStep(cfg, lru, files, me, c);
    }
  }

  // Whatever fails and whatever runs beside it, a Get filled from the proxy ends
  // with the blob of the proxy from the offset on, or with a failure.
  lemma {:induction false} ProxyFillServes(cfg: Config, s: State, labels: seq<Label>, i: nat)
    requires Inv(cfg, s) && Protocol.Run(cfg, s, labels).Some?
    requires i < |s.locals| && Filled(cfg, s.locals[i], s.locals[i].req)
    ensures var s' := Protocol.Run(cfg, s, labels).value;
      && i < |s'.locals| && Filled(cfg, s'.locals[i], s.locals[i].req)
      && (s'.locals[i].pc.Done? ==>
            s'.locals[i].reply == Failed ||
            RepliesWith(cfg, s.locals[i].req, s'.locals[i].reply, Source(cfg, s.locals[i].req)))
    decreases |labels|
  {
    if labels != [] {
      var s1 := Next(cfg, s, labels[0]).value;
      NextLocals(cfg, s, labels[0], i);
      assert LocalOk(cfg, s.files, s.locals[i]);
      if labels[0].Step? && labels[0].i == i { FilledStep(cfg, s.lru, s.files, s.locals[i], labels[0].choice); }
      NextKeepsInv(cfg, s, labels[0]);
      ProxyFillServes(cfg, s1, labels[1..], i);
    }
  }

  // ----- a Get during a run -----

  // The request asks for the data under the key of the entry, in a way that the
  // program accepts, and not for the empty blob, which is never stored.
  ghost predicate Asks(get: Request, key: Key, data: seq<byte>) {
    && get.Get? && RequestOk(get) && KeyOf(get) == key
    && (get.zstd ==> get.kind == CAS)
    && 0 <= get.offset <= |data| && (get.size == -1 || get.size == |data|)
    && (get.size > 0 ==> get.offset < get.size)
    && !(get.kind == CAS && get.size <= 0 && get.hash == EMPTY_SHA256)
  }

  // The request has not looked yet, has found the item, or has the data.
  ghost predicate Answering(cfg: Config, me: Local, get: Request, item: Item, data: seq<byte>)
    requires get.Get? && 0 <= get.offset <= |data|
  {
    && me.req == get && !me.unreserve
    && (me.pc.Start? || me.pc.Looking? || (me.pc.Opening? && me.item == item) || Answered(cfg, me, get, data))
  }

  ghost predicate Answered(cfg: Config, me: Local, get: Request, data: seq<byte>)
    requires get.Get? && 0 <= get.offset <= |data|
  {
    (me.pc.CleanFile? || me.pc.CleanReserve? || me.pc.Done?) && RepliesWith(cfg, get, me.reply, data)
  }

  // The file of an entry holds the data.
  ghost predicate Holds(cfg: Config, files: map<string, seq<byte>>, e: Entry, data: seq<byte>) {
    PathOf(e) in files && Contains(cfg, e, files[PathOf(e)], data)
  }

  // The step of the request itself, while its key is mapped to the item and the
  // file of the item holds the data.
  lemma OwnStepAnswers(cfg: Config, lru: Lru, files: map<string, seq<byte>>, me: Local, item: Item, data: seq<byte>)
    requires ConfigOk(cfg) && Asks(me.req, KeyOf(me.req), data) && Readable(me.req.kind, item.legacy, data)
    requires Answering(cfg, me, me.req, item, data) && Enabled(cfg, files, me, Go)
    requires Find(lru.entries, KeyOf(me.req)) == Some(item) && Holds(cfg, files, Entry(KeyOf(me.req), item), data)
    ensures Answering(cfg, LocalStep(cfg, lru, files, me, Go).me, me.req, item, data)
  {
    match me.pc
    case Start => StartAnswers(cfg, me, data);
    case Looking => LookingAnswers(cfg, lru, files, me, item);
    case Opening => OpeningAnswers(cfg, files, me, data);
    case _ => CleanupAnswers(cfg, lru, files, me, data);
  }

  lemma StartAnswers(cfg: Config, me: Local, data: seq<byte>)
    requires Asks(me.req, KeyOf(me.req), data)
    ensures StartGet(cfg, me) == me.(pc := Looking)
  {
  }

  lemma LookingAnswers(cfg: Config, lru: Lru, files: map<string, seq<byte>>, me: Local, item: Item)
    requires Find(lru.entries, KeyOf(me.req)) == Some(item) && (me.req.size == -1 || me.req.size == item.size)
    ensures Look(cfg, lru, files, me).me == me.(item := item, pc := Opening)
  {
  }

  lemma OpeningAnswers(cfg: Config, files: map<string, seq<byte>>, me: Local, data: seq<byte>)
    requires ConfigOk(cfg) && Asks(me.req, KeyOf(me.req), data) && Readable(me.req.kind, me.item.legacy, data)
    requires Holds(cfg, files, Entry(KeyOf(me.req), me.item), data)
    ensures var r := Open(cfg, files, me);
      Answered(cfg, r, me.req, data) && r.req == me.req && r.unreserve == me.unreserve
  {
    PathInIsPathOf(me.req, me.item);
    ServesData(cfg, me.req, me.item, files[PathOf(Entry(KeyOf(me.req), me.item))], data);
  }

  lemma CleanupAnswers(cfg: Config, lru: Lru, files: map<string, seq<byte>>, me: Local, data: seq<byte>)
    requires Asks(me.req, KeyOf(me.req), data) && Answered(cfg, me, me.req, data) && !me.unreserve
    requires Enabled(cfg, files, me, Go)
    ensures var r := LocalStep(cfg, lru, files, me, Go).me;
      Answered(cfg, r, me.req, data) && r.req == me.req && !r.unreserve
  {
    var e := LocalStep(cfg, lru, files, me, Go);
    assert e.me.reply == me.reply;
  }

  // The j-th request is the given Get and on its way to the data.
  ghost predicate Serving(cfg: Config, s: State, j: nat, get: Request, item: Item, data: seq<byte>)
    requires get.Get? && 0 <= get.offset <= |data|
  {
    j < |s.locals| && Answering(cfg, s.locals[j], get, item, data)
  }

  // Every step of the j-th request succeeds: none of its operations fails.
  predicate Undisturbed(labels: seq<Label>, j: nat) {
    forall k :: 0 <= k < |labels| ==> labels[k].Step? && labels[k].i == j ==> labels[k].choice == Go
  }

  lemma NextServes(cfg: Config, s: State, step: Label, j: nat, get: Request, item: Item, data: seq<byte>)
    requires Inv(cfg, s) && Next(cfg, s, step).Some?
    requires Asks(get, KeyOf(get), data) && Readable(get.kind, item.legacy, data)
    requires Serving(cfg, s, j, get, item, data) && Undisturbed([step], j)
    requires Find(s.lru.entries, KeyOf(get)) == Some(item) && Holds(cfg, s.files, Entry(KeyOf(get), item), data)
    ensures var s' := Next(cfg, s, step).value;
      Serving(cfg, s', j, get, item, data) && Holds(cfg, s'.files, Entry(KeyOf(get), item), data)
  {
    FindFacts(s.lru.entries, KeyOf(get), item);
    EntryFileStays(cfg, s, step, Entry(KeyOf(get), item));
    NextLocals(cfg, s, step, j);
    if step.Step? && step.i == j {
      assert [step][0] == step;
      OwnStepAnswers(cfg, s.lru, s.files, s.locals[j], item, data);
    }
  }

  // Whatever other requests do meanwhile, a Get is on its way to the data, or
  // has it, in every state of a run in which its key stays mapped.
  lemma {:induction false} GetAnswers(cfg: Config, s: State, labels: seq<Label>, j: nat, get: Request, item: Item,
                                      data: seq<byte>)
    requires Inv(cfg, s) && Protocol.Run(cfg, s, labels).Some? && AlwaysMapped(cfg, s, labels, KeyOf(get), item)
    requires Asks(get, KeyOf(get), data) && Readable(get.kind, item.legacy, data)
    requires Holds(cfg, s.files, Entry(KeyOf(get), item), data)
    requires Serving(cfg, s, j, get, item, data) && Undisturbed(labels, j)
    ensures Serving(cfg, Protocol.Run(cfg, s, labels).value, j, get, item, data)
    decreases |labels|
  {
    if labels != [] {
      assert labels[0] in labels;
      NextServes(cfg, s, labels[0], j, get, item, data);
      NextKeepsInv(cfg, s, labels[0]);
      GetAnswers(cfg, Next(cfg, s, labels[0]).value, labels[1..], j, get, item, data);
    }
  }

  // ----- from Put to Get -----

  // The state in which a Put has just committed successfully.
  ghost predicate PutCommits(cfg: Config, s: State, i: nat) {
    && i < |s.locals| && s.locals[i].req.Put? && s.locals[i].pc.Committing?
    && Next(cfg, s, Step(i, Go)).Some? && Next(cfg, s, Step(i, Go)).value.locals[i].reply == PutOk
  }

  // The committed item is then live, unless it was an overwrite that does not
  // fit beside the remaining reservations.
  lemma CommittedIsLive(cfg: Config, s: State, i: nat)
    requires Inv(cfg, s) && PutCommits(cfg, s, i)
    ensures var me := s.locals[i];
      Find(Next(cfg, s, Step(i, Go)).value.lru.entries, KeyOf(me.req)) == Some(ItemOf(cfg, me)) <==>
      s.lru.reserved - me.req.size + RoundUp(me.sizeOnDisk) <= cfg.maxSize
  {
    var me := s.locals[i];
    assert LocalOk(cfg, s.files, me);
    HoldingIsReserved(cfg, s, i);
    UnreserveValid(s.lru, me);
    var lru := if me.req.size > 0 then Unreserve(s.lru, me.req.size).lru else s.lru;
    AddedValue(lru, KeyOf(me.req), ItemOf(cfg, me));
  }

  // In particular it is live if the file is no larger than the declared size, as
  // it always is without compression.
  lemma UnexpandedIsLive(cfg: Config, s: State, i: nat)
    requires Inv(cfg, s) && PutCommits(cfg, s, i)
    requires var req := s.locals[i].req;
      && req.size > 0
      && (req.kind != CAS || cfg.mode == Identity || |StoredBytes(cfg, req.kind, false, req.body)| <= req.size)
    ensures Find(Next(cfg, s, Step(i, Go)).value.lru.entries, KeyOf(s.locals[i].req)) ==
            Some(ItemOf(cfg, s.locals[i]))
  {
    var me := s.locals[i];
    assert LocalOk(cfg, s.files, me);
    assert me.sizeOnDisk <= me.req.size;
    HoldingIsReserved(cfg, s, i);
    UnreserveValid(s.lru, me);
    AcceptedFits(Unreserve(s.lru, me.req.size).lru, KeyOf(me.req), ItemOf(cfg, me), me.req.size);
    CommittedIsLive(cfg, s, i);
  }

  // A value that is accepted where its size has just been reserved fits beside
  // the other reservations even if it replaces another one.
  lemma AcceptedFits(l: Lru, key: Key, item: Item, reserved: int)
    requires LruSpec.Valid(l) && ItemOk(item) && AddAccepts(l, key, item)
    requires item.sizeOnDisk <= reserved && Total(l) + reserved <= l.maxSize
    ensures l.reserved + RoundUp(item.sizeOnDisk) <= l.maxSize
  {
    var replaced := Occurrence(l.entries, key);
    OccurrenceMembers(l.entries, key);
    WithoutSum(l.entries, key, DiskOf);
    WithoutMembers(l.entries, key);
    DiskNonNegative(Without(l.entries, key));
    if replaced != [] {
      SumSingle(replaced[0], DiskOf);
      assert replaced[0] in l.entries;
    }
  }

  // The committed file holds the body, whose hash has been checked for a
  // compressed blob.
  lemma CommitHolds(cfg: Config, s: State, i: nat)
    requires Inv(cfg, s) && PutCommits(cfg, s, i)
    ensures var me, s' := s.locals[i], Next(cfg, s, Step(i, Go)).value;
      && Inv(cfg, s') && Holds(cfg, s'.files, NewEntry(cfg, me), me.req.body)
      && (me.req.kind == CAS && cfg.mode != Identity ==> cfg.sha(me.req.body) == me.req.hash)
  {
    var me := s.locals[i];
    assert LocalOk(cfg, s.files, me);
    CommittedIsStored(cfg, s.files, me);
    TempPathIsFinal(cfg, me);
    CommitKeepsFiles(cfg, s, i);
    StepKeepsInv(cfg, s, i, Go);
  }

  lemma CommitKeepsFiles(cfg: Config, s: State, i: nat)
    requires i < |s.locals| && s.locals[i].pc.Committing? && Next(cfg, s, Step(i, Go)).Some?
    ensures Next(cfg, s, Step(i, Go)).value.files == s.files
  {
  }

  // The run of a Get that arrives some time after the Put has committed.
  ghost predicate GetRuns(cfg: Config, s1: State, before: seq<Label>, get: Request, after: seq<Label>, key: Key, item: Item) {
    && Protocol.Run(cfg, s1, before).Some? && AlwaysMapped(cfg, s1, before, key, item)
    && var s2 := Protocol.Run(cfg, s1, before).value;
    && Next(cfg, s2, Arrive(get)).Some?
    && var s3 := Next(cfg, s2, Arrive(get)).value;
    && Protocol.Run(cfg, s3, after).Some? && AlwaysMapped(cfg, s3, after, key, item)
    && Undisturbed(after, |s2.locals|)
  }

  // The Get after that run.
  function GetAfter(cfg: Config, s1: State, before: seq<Label>, get: Request, after: seq<Label>): Option<Local> {
    match Protocol.Run(cfg, s1, before)
    case None => None
    case Some(s2) =>
      match Next(cfg, s2, Arrive(get))
      case None => None
      case Some(s3) =>
        match Protocol.Run(cfg, s3, after)
        case None => None
        case Some(s4) => if |s2.locals| < |s4.locals| then Some(s4.locals[|s2.locals|]) else None
  }

  // If a Put returns nil then, with any requests running before, meanwhile and
  // after, until its key is overwritten or evicted, a Get answers with exactly
  // the body from the offset on: in every state it has not yet looked, has
  // found the item, or has that answer.
  lemma PutThenGet(cfg: Config, s: State, i: nat, before: seq<Label>, get: Request, after: seq<Label>)
    requires Inv(cfg, s) && PutCommits(cfg, s, i)
    requires var put, item := s.locals[i].req, ItemOf(cfg, s.locals[i]);
      && Asks(get, KeyOf(put), put.body) && Readable(get.kind, item.legacy, put.body)
      && GetRuns(cfg, Next(cfg, s, Step(i, Go)).value, before, get, after, KeyOf(put), item)
    ensures var put, item := s.locals[i].req, ItemOf(cfg, s.locals[i]);
      var me := GetAfter(cfg, Next(cfg, s, Step(i, Go)).value, before, get, after);
      && me.Some? && Answering(cfg, me.value, get, item, put.body)
      && (me.value.pc.Done? ==> Answered(cfg, me.value, get, put.body))
  {
    var put, item := s.locals[i].req, ItemOf(cfg, s.locals[i]);
    var s1 := Next(cfg, s, Step(i, Go)).value;
    CommitHolds(cfg, s, i);
    GetAnswersLater(cfg, s1, before, get, after, KeyOf(put), item, put.body);
  }

  lemma GetAnswersLater(cfg: Config, s1: State, before: seq<Label>, get: Request, after: seq<Label>, key: Key, item: Item,
                        data: seq<byte>)
    requires Inv(cfg, s1) && Asks(get, key, data) && Readable(get.kind, item.legacy, data)
    requires Holds(cfg, s1.files, Entry(key, item), data) && GetRuns(cfg, s1, before, get, after, key, item)
    ensures var me := GetAfter(cfg, s1, before, get, after);
      me.Some? && Answering(cfg, me.value, get, item, data)
  {
    MappedFileStays(cfg, s1, before, key, item);
    ArrivalAnswers(cfg, Protocol.Run(cfg, s1, before).value, get, after, item, data);
  }

  lemma ArrivalAnswers(cfg: Config, s2: State, get: Request, after: seq<Label>, item: Item, data: seq<byte>)
    requires Inv(cfg, s2) && Next(cfg, s2, Arrive(get)).Some? && Undisturbed(after, |s2.locals|)
    requires var s3 := Next(cfg, s2, Arrive(get)).value;
      Protocol.Run(cfg, s3, after).Some? && AlwaysMapped(cfg, s3, after, KeyOf(get), item)
    requires Asks(get, KeyOf(get), data) && Readable(get.kind, item.legacy, data)
    requires Holds(cfg, s2.files, Entry(KeyOf(get), item), data)
    ensures var s3 := Next(cfg, s2, Arrive(get)).value;
      Serving(cfg, Protocol.Run(cfg, s3, after).value, |s2.locals|, get, item, data)
  {
    var s3 := Next(cfg, s2, Arrive(get)).value;
    NextKeepsInv(cfg, s2, Arrive(get));
    assert s3.locals[|s2.locals|] == Fresh(get);
    GetAnswers(cfg, s3, after, |s2.locals|, get, item, data);
  }

  // ----- a Put with room succeeds -----

  // The steps of the request that arrived last.
  lemma LastSteps(cfg: Config, s: State, me: Local, c: Choice)
    requires Enabled(cfg, s.files, me, c)
    ensures var e := LocalStep(cfg, s.lru, s.files, me, c);
      Next(cfg, s.(locals := s.locals + [me]), Step(|s.locals|, c)) ==
      Some(State(e.lru, e.files, s.pending + e.evicted, s.locals + [e.me]))
  {
    var e := LocalStep(cfg, s.lru, s.files, me, c);
    assert (s.locals + [me])[|s.locals| := e.me] == s.locals + [e.me];
  }

  // What a Put needs to succeed: acceptable data, a file name that is not taken,
  // and room for it beside the reservations, before and after compression.
  ghost predicate PutFits(cfg: Config, s: State, req: Request, random: string) {
    && req.Put? && RequestOk(req) && 0 < req.size <= cfg.maxBlobSize && WriteSucceeds(cfg, req)
    && var bs := StoredBytes(cfg, req.kind, Legacy(cfg, req.kind), req.body);
    && |bs| <= MAX_ROUNDABLE
    && s.lru.reserved + req.size <= cfg.maxSize && s.lru.reserved + RoundUp(|bs|) <= cfg.maxSize
    && IsRandom(random) && TempName(cfg, Fresh(req).(foundSize := req.size), random) !in s.files
  }

  // The Put at the points of its way up to its commit.
  function AtReserving(req: Request): Local {
    Fresh(req).(pc := Reserving, foundSize := req.size)
  }

  function AtCreating(req: Request): Local {
    AtReserving(req).(unreserve := true, pc := Creating)
  }

  function AtWriting(cfg: Config, req: Request, random: string): Local {
    AtCreating(req).(blobFile := TempName(cfg, AtCreating(req), random), random := random,
                     removeTempfile := true, pc := Writing)
  }

  function BeforeCommit(cfg: Config, req: Request, random: string): Local
    requires req.Put? && |StoredBytes(cfg, req.kind, Legacy(cfg, req.kind), req.body)| <= MAX_ROUNDABLE
  {
    AtWriting(cfg, req, random).(pc := Committing,
                                 sizeOnDisk := |StoredBytes(cfg, req.kind, Legacy(cfg, req.kind), req.body)|)
  }

  // The state once the bytes of a Put are reserved.
  function WithReserved(s: State, size: int): State {
    var o := Reserve(s.lru, size);
    State(o.lru, s.files, s.pending + o.evicted, s.locals)
  }

  lemma PutStarts(cfg: Config, s: State, req: Request, random: string)
    requires PutFits(cfg, s, req, random)
    ensures Next(cfg, With(s, Fresh(req)), Step(|s.locals|, Go)) == Some(With(s, AtReserving(req)))
  {
    LastSteps(cfg, s, Fresh(req), Go);
    assert s.pending + [] == s.pending;
  }

  lemma PutReserves(cfg: Config, s: State, req: Request, random: string)
    requires LruSpec.Valid(s.lru) && s.lru.maxSize == cfg.maxSize && PutFits(cfg, s, req, random)
    ensures Reserve(s.lru, req.size).ok
    ensures Next(cfg, With(s, AtReserving(req)), Step(|s.locals|, Go)) ==
            Some(With(WithReserved(s, req.size), AtCreating(req)))
  {
    LastSteps(cfg, s, AtReserving(req), Go);
  }

  lemma PutCreates(cfg: Config, s: State, req: Request, random: string)
    requires IsRandom(random) && TempName(cfg, AtCreating(req), random) !in s.files
    ensures Next(cfg, With(s, AtCreating(req)), Step(|s.locals|, Name(random))) ==
            Some(With(s.(files := s.files[TempName(cfg, AtCreating(req), random) := []]), AtWriting(cfg, req, random)))
  {
    LastSteps(cfg, s, AtCreating(req), Name(random));
    assert s.pending + [] == s.pending;
  }

  lemma PutWrites(cfg: Config, s: State, req: Request, random: string)
    requires req.Put? && WriteSucceeds(cfg, req)
    requires |StoredBytes(cfg, req.kind, Legacy(cfg, req.kind), req.body)| <= MAX_ROUNDABLE
    ensures Next(cfg, With(s, AtWriting(cfg, req, random)), Step(|s.locals|, Go)) ==
            Some(With(s.(files := s.files[AtWriting(cfg, req, random).blobFile :=
                                          StoredBytes(cfg, req.kind, Legacy(cfg, req.kind), req.body)]),
                      BeforeCommit(cfg, req, random)))
  {
    LastSteps(cfg, s, AtWriting(cfg, req, random), Go);
    assert s.pending + [] == s.pending;
  }

  function PutLabels(i: nat, req: Request, random: string): seq<Label> {
    [Arrive(req), Step(i, Go), Step(i, Go), Step(i, Name(random)), Step(i, Go)]
  }

  // From any state with room, a Put of acceptable data that is not disturbed
  // reserves, creates its file, writes it and commits.
  lemma PutReachesCommit(cfg: Config, s: State, req: Request, random: string)
    requires Inv(cfg, s) && PutFits(cfg, s, req, random)
    ensures var i := |s.locals|;
      var r := Protocol.Run(cfg, s, PutLabels(i, req, random));
      && Reserve(s.lru, req.size).ok && r == Some(ReadyToCommit(cfg, s, req, random))
  {
    var i, me := |s.locals|, AtWriting(cfg, req, random);
    var s2 := WithReserved(s, req.size);
    var s3 := s2.(files := s.files[me.blobFile := []]);
    PutReserves(cfg, s, req, random);
    assert Next(cfg, s, Arrive(req)) == Some(With(s, Fresh(req)));
    PutStarts(cfg, s, req, random);
    PutCreates(cfg, s2, req, random);
    PutWrites(cfg, s3, req, random);
    SecondUpdate(s.files, me.blobFile, [], StoredBytes(cfg, req.kind, Legacy(cfg, req.kind), req.body));
    RunOfFour(cfg, With(s, Fresh(req)), With(s, AtReserving(req)), With(s2, AtCreating(req)), With(s3, me),
              ReadyToCommit(cfg, s, req, random), PutLabels(i, req, random)[1..]);
  }

  lemma SecondUpdate<A, B>(m: map<A, B>, a: A, b: B, c: B)
    ensures m[a := b][a := c] == m[a := c]
  {
  }

  // Its bytes reserved, its file written, and the evicted files to be removed.
  function ReadyToCommit(cfg: Config, s: State, req: Request, random: string): State
    requires req.Put? && |StoredBytes(cfg, req.kind, Legacy(cfg, req.kind), req.body)| <= MAX_ROUNDABLE
  {
    var me := BeforeCommit(cfg, req, random);
    With(WithReserved(s, req.size).(
         files := s.files[me.blobFile := StoredBytes(cfg, req.kind, Legacy(cfg, req.kind), req.body)]), me)
  }

  lemma RunOfFour(cfg: Config, s0: State, s1: State, s2: State, s3: State, s4: State, labels: seq<Label>)
    requires |labels| == 4
    requires Next(cfg, s0, labels[0]) == Some(s1) && Next(cfg, s1, labels[1]) == Some(s2)
    requires Next(cfg, s2, labels[2]) == Some(s3) && Next(cfg, s3, labels[3]) == Some(s4)
    ensures Protocol.Run(cfg, s0, labels) == Some(s4)
  {
    RunOn(cfg, s3, labels[3..], s4);
    RunOn(cfg, s2, labels[2..], s3);
    RunOn(cfg, s1, labels[1..], s2);
    RunOn(cfg, s0, labels, s1);
    assert labels[1..][1..] == labels[2..] && labels[2..][1..] == labels[3..];
  }

  lemma RunOn(cfg: Config, s: State, labels: seq<Label>, s': State)
    requires labels != [] && Next(cfg, s, labels[0]) == Some(s')
    ensures Protocol.Run(cfg, s, labels) == Protocol.Run(cfg, s', labels[1..])
  {
  }

  function With(s: State, me: Local): State {
    s.(locals := s.locals + [me])
  }

  // The commit then succeeds, and the item is live.
  lemma PutSucceeds(cfg: Config, s: State, req: Request, random: string)
    requires Inv(cfg, s) && PutFits(cfg, s, req, random)
    ensures var i := |s.locals|;
      var r := Protocol.Run(cfg, s, PutLabels(i, req, random));
      && r.Some? && PutCommits(cfg, r.value, i)
      && Find(Next(cfg, r.value, Step(i, Go)).value.lru.entries, KeyOf(req)) ==
         Some(ItemOf(cfg, BeforeCommit(cfg, req, random)))
  {
    var i, me := |s.locals|, BeforeCommit(cfg, req, random);
    var labels := PutLabels(i, req, random);
    PutReachesCommit(cfg, s, req, random);
    RunKeepsInv(cfg, s, labels);
    var s' := Protocol.Run(cfg, s, labels).value;
    ReserveValid(s.lru, req.size);
    RoomMeansCommit(cfg, s', i);
  }

  // A Put that is about to commit does so, and its item is live, if the item
  // fits beside the other reservations.
  lemma RoomMeansCommit(cfg: Config, s: State, i: nat)
    requires Inv(cfg, s) && i < |s.locals| && s.locals[i].req.Put? && s.locals[i].pc.Committing?
    requires s.locals[i].req.size > 0
    requires s.lru.reserved - s.locals[i].req.size + RoundUp(s.locals[i].sizeOnDisk) <= cfg.maxSize
    ensures PutCommits(cfg, s, i)
    ensures Find(Next(cfg, s, Step(i, Go)).value.lru.entries, KeyOf(s.locals[i].req)) ==
            Some(ItemOf(cfg, s.locals[i]))
  {
    var me := s.locals[i];
    assert LocalOk(cfg, s.files, me);
    HoldingIsReserved(cfg, s, i);
    UnreserveNeverFails(cfg, s, i);
    CommitWithRoom(cfg, s.lru, s.files, me);
    var e := Commit(cfg, s.lru, s.files, me);
    assert Next(cfg, s, Step(i, Go)) == Some(State(e.lru, e.files, s.pending + e.evicted, s.locals[i := e.me]));
    CommittedIsLive(cfg, s, i);
  }

  lemma CommitWithRoom(cfg: Config, lru: Lru, files: map<string, seq<byte>>, me: Local)
    requires LruSpec.Valid(lru) && lru.maxSize == cfg.maxSize && me.req.Put? && me.req.size > 0
    requires Unreserve(lru, me.req.size).ok && lru.reserved >= me.req.size && ItemOk(ItemOf(cfg, me))
    requires lru.reserved - me.req.size + RoundUp(me.sizeOnDisk) <= cfg.maxSize
    ensures Commit(cfg, lru, files, me).me.reply == PutOk
  {
    var u := Unreserve(lru, me.req.size);
    DiskNonNegative(lru.entries);
    OccurrenceMembers(lru.entries, KeyOf(me.req));
    DiskNonNegative(Occurrence(lru.entries, KeyOf(me.req)));
  }
}
