// What every interleaving of requests keeps: reservations add up, every path
// has at most one owner, whose file exists, and the file of every index entry
// is completely written.
module ProtocolSafety {
  import opened Int64
  import opened Sums
  import opened Bytes
  import opened LruSpec
  import opened Names
  import opened Protocol
  import CasBlob

  // ----- the invariant -----

  // The bytes that a request has reserved and not yet given back.
  function HeldBy(me: Local): int {
    if me.unreserve then me.req.size else 0
  }

  function AtPath(p: string): Entry -> int {
    (e: Entry) => if PathOf(e) == p then 1 else 0
  }

  function TempAt(p: string): Local -> int {
    (me: Local) => if me.removeTempfile && me.blobFile == p then 1 else 0
  }

  // How many index entries, scheduled removals and unfinished requests lay
  // claim to the file at p.
  function Owners(s: State, p: string): int {
    Sum(s.lru.entries, AtPath(p)) + Sum(s.pending, AtPath(p)) + Sum(s.locals, TempAt(p))
  }

  // The file contents are the complete stored form of some data, which has the
  // size that the entry records.
  ghost predicate Contains(cfg: Config, e: Entry, bytes: seq<byte>, data: seq<byte>) {
    var (kind, hash, prefix) := LookupKeyParts(e.key);
    && IsHash(hash) && PrefixOk(prefix) && e.key == LookupKey(prefix, kind, hash)
    && IsRandom(e.item.random) && ItemOk(e.item) && Storable(kind, e.item)
    && |data| == e.item.size && |bytes| == e.item.sizeOnDisk
    && bytes == StoredBytes(cfg, kind, e.item.legacy, data)
  }

  ghost predicate Stored(cfg: Config, files: map<string, seq<byte>>, e: Entry) {
    PathOf(e) in files && exists data :: Contains(cfg, e, files[PathOf(e)], data)
  }

  predicate BeforeReserve(pc: Pc) {
    pc.Start? || pc.Reserving? || pc.Looking? || pc.Opening? || pc.Slow? || pc.Missing?
  }

  predicate HasTemp(pc: Pc) {
    pc.Writing? || pc.Reopening? || pc.Committing?
  }

  predicate Reserved(pc: Pc) {
    pc.Fetching? || pc.Creating? || HasTemp(pc)
  }

  function NewEntry(cfg: Config, me: Local): Entry {
    Entry(KeyOf(me.req), ItemOf(cfg, me))
  }

  // The path that eviction will compute for that entry, whatever its size on disk.
  function TempPath(cfg: Config, me: Local): string {
    ElementPath(KeyOf(me.req), Item(me.foundSize, 0, me.random, Legacy(cfg, me.req.kind)))
  }

  lemma TempPathIsFinal(cfg: Config, me: Local)
    ensures PathOf(NewEntry(cfg, me)) == TempPath(cfg, me)
  {
  }

  // All the data is in the temporary file.
  predicate Written(cfg: Config, files: map<string, seq<byte>>, me: Local) {
    && me.blobFile in files
    && files[me.blobFile] == StoredBytes(cfg, me.req.kind, Legacy(cfg, me.req.kind), Source(cfg, me.req))
    && |files[me.blobFile]| == me.sizeOnDisk <= MAX_ROUNDABLE
  }

  predicate LocalOk(cfg: Config, files: map<string, seq<byte>>, me: Local) {
    && RequestOk(me.req) && Placed(me)
    && (me.unreserve ==> me.req.size > 0 && !BeforeReserve(me.pc) && !me.pc.Done?)
    && (Reserved(me.pc) && me.req.size > 0 ==> me.unreserve)
    && (HasTemp(me.pc) ==> me.removeTempfile)
    && (me.removeTempfile ==> (HasTemp(me.pc) || me.pc.CleanFile?)
                              && IsRandom(me.random) && me.blobFile == TempPath(cfg, me))
    && (me.req.Get? && (me.pc.Creating? || HasTemp(me.pc)) ==> me.req.offset >= 0)
    && (me.pc.Reserving? ==> me.req.Put? && me.foundSize == me.req.size > 0)
    && (me.pc.Creating? || HasTemp(me.pc) ==>
          0 <= me.foundSize && (me.req.Put? ==> me.foundSize == me.req.size)
          && (me.req.Get? ==> me.foundSize == |Source(cfg, me.req)|))
    && (me.pc.Reopening? || me.pc.Committing? ==>
          Written(cfg, files, me) && |Source(cfg, me.req)| == me.foundSize && WriteSucceeds(cfg, me.req))
    && (me.pc.Committing? && me.req.kind == CAS && !Legacy(cfg, CAS) ==> me.foundSize > 0)
  }

  ghost predicate PathOwned(s: State, p: string) {
    Owners(s, p) <= 1 && (Owners(s, p) == 1 ==> p in s.files)
  }

  ghost predicate Inv(cfg: Config, s: State) {
    && ConfigOk(cfg) && LruSpec.Valid(s.lru) && s.lru.maxSize == cfg.maxSize
    && s.lru.reserved == Sum(s.locals, HeldBy)
    && (forall i :: 0 <= i < |s.locals| ==> LocalOk(cfg, s.files, s.locals[i]))
    && (forall p :: PathOwned(s, p))
    && (forall e :: e in s.lru.entries ==> Stored(cfg, s.files, e))
  }

  lemma InitialInv(cfg: Config)
    requires ConfigOk(cfg)
    ensures Inv(cfg, Initial(cfg))
  {
  }

  // ----- reservations -----

  // The bytes that reservations take change by what the request's own holding
  // changes, in every kind of step and with every outcome.
  lemma StepAccounts(cfg: Config, lru: Lru, files: map<string, seq<byte>>, me: Local, c: Choice)
    requires LruSpec.Valid(lru) && LocalOk(cfg, files, me) && HeldBy(me) <= lru.reserved
    requires Enabled(cfg, files, me, c)
    ensures var e := LocalStep(cfg, lru, files, me, c);
      && LruSpec.Valid(e.lru) && e.lru.maxSize == lru.maxSize
      && e.lru.reserved - HeldBy(e.me) == lru.reserved - HeldBy(me)
  {
    var e := LocalStep(cfg, lru, files, me, c);
    match me.pc
    case Reserving => ReserveAccounts(lru, files, me);
    case Looking => LookAccounts(cfg, lru, files, me);
    case Slow => GetValid(lru, KeyOf(me.req));
    case Missing => TryProxyAccounts(cfg, lru, files, me);
    case Committing => CommitAccounts(cfg, lru, files, me);
    case CleanReserve => UnreserveValid(lru, me);
    case _ => QuietAccounts(cfg, lru, files, me, c);
  }

  // Steps that leave the index alone.
  lemma QuietAccounts(cfg: Config, lru: Lru, files: map<string, seq<byte>>, me: Local, c: Choice)
    requires Enabled(cfg, files, me, c)
    requires !me.pc.Reserving? && !me.pc.Looking? && !me.pc.Slow? && !me.pc.Missing? && !me.pc.Committing? &&
             !me.pc.CleanReserve?
    ensures var e := LocalStep(cfg, lru, files, me, c);
      e.lru == lru && e.evicted == [] && HeldBy(e.me) == HeldBy(me)
  {
    var e := LocalStep(cfg, lru, files, me, c);
  }

  lemma ReserveAccounts(lru: Lru, files: map<string, seq<byte>>, me: Local)
    requires LruSpec.Valid(lru) && !me.unreserve
    ensures var e := ReserveStep(lru, files, me);
      && LruSpec.Valid(e.lru) && e.lru.maxSize == lru.maxSize
      && e.lru.reserved - HeldBy(e.me) == lru.reserved - HeldBy(me)
  {
    ReserveValid(lru, me.req.size);
  }

  lemma TryProxyAccounts(cfg: Config, lru: Lru, files: map<string, seq<byte>>, me: Local)
    requires LruSpec.Valid(lru) && !me.unreserve
    ensures var e := TryProxy(cfg, lru, files, me);
      && LruSpec.Valid(e.lru) && e.lru.maxSize == lru.maxSize
      && e.lru.reserved - HeldBy(e.me) == lru.reserved - HeldBy(me)
  {
    ReserveValid(lru, me.req.size);
  }

  lemma LookAccounts(cfg: Config, lru: Lru, files: map<string, seq<byte>>, me: Local)
    requires LruSpec.Valid(lru) && !me.unreserve
    ensures var e := Look(cfg, lru, files, me);
      && LruSpec.Valid(e.lru) && e.lru.maxSize == lru.maxSize
      && e.lru.reserved - HeldBy(e.me) == lru.reserved - HeldBy(me)
  {
    GetValid(lru, KeyOf(me.req));
    TryProxyAccounts(cfg, LruSpec.Get(lru, KeyOf(me.req)), files, me);
  }

  lemma UnreserveValid(lru: Lru, me: Local)
    requires LruSpec.Valid(lru) && HeldBy(me) <= lru.reserved && (me.unreserve ==> me.req.size > 0)
    ensures me.unreserve ==> var u := Unreserve(lru, me.req.size);
      u.ok && LruSpec.Valid(u.lru) && u.lru == lru.(reserved := lru.reserved - me.req.size)
  {
    DiskNonNegative(lru.entries);
  }

  lemma CommitAccounts(cfg: Config, lru: Lru, files: map<string, seq<byte>>, me: Local)
    requires LruSpec.Valid(lru) && LocalOk(cfg, files, me) && HeldBy(me) <= lru.reserved && me.pc.Committing?
    ensures var e := Commit(cfg, lru, files, me);
      && LruSpec.Valid(e.lru) && e.lru.maxSize == lru.maxSize
      && e.lru.reserved - HeldBy(e.me) == lru.reserved - HeldBy(me)
      && !e.me.unreserve
  {
    UnreserveValid(lru, me);
    var lru1 := if me.req.size > 0 then Unreserve(lru, me.req.size).lru else lru;
    AddValid(lru1, KeyOf(me.req), ItemOf(cfg, me));
    var o := Add(lru1, KeyOf(me.req), ItemOf(cfg, me));
  }

  // ----- ownership of files -----

  // The owners of p that a step can change: index entries, entries it evicts,
  // and the request itself.
  function OwnersIn(lru: Lru, evicted: seq<Entry>, me: Local, p: string): int {
    Sum(lru.entries, AtPath(p)) + Sum(evicted, AtPath(p)) + TempAt(p)(me)
  }

  // A step leaves the number of owners of a path as it is, except that it may
  // take ownership of a file it creates, and give it up for a file it removes.
  // Only a failing removal leaves a file without its owner.
  lemma StepOwns(cfg: Config, lru: Lru, files: map<string, seq<byte>>, me: Local, c: Choice, p: string)
    requires LocalOk(cfg, files, me) && Enabled(cfg, files, me, c)
    ensures var e := LocalStep(cfg, lru, files, me, c);
      OwnersChange(files, e.files, p, OwnersIn(lru, [], me, p), OwnersIn(e.lru, e.evicted, e.me, p), Tidy(me, c))
  {
    if LeavesIndex(me.pc) {
      QuietOwns(cfg, lru, files, me, c, p);
    } else {
      IndexOwns(cfg, lru, files, me, c, p);
    }
  }

  predicate LeavesIndex(pc: Pc) {
    !pc.Reserving? && !pc.Looking? && !pc.Slow? && !pc.Missing? && !pc.Committing?
  }

  // Steps that may change the index entries leave the files alone.
  lemma IndexOwns(cfg: Config, lru: Lru, files: map<string, seq<byte>>, me: Local, c: Choice, p: string)
    requires LocalOk(cfg, files, me) && Enabled(cfg, files, me, c) && !LeavesIndex(me.pc)
    ensures var e := LocalStep(cfg, lru, files, me, c);
      e.files == files && OwnersIn(e.lru, e.evicted, e.me, p) == OwnersIn(lru, [], me, p)
  {
    match me.pc
    case Reserving => ReserveOwns(lru, files, me, p);
    case Looking => LookOwns(cfg, lru, files, me, p);
    case Slow => SlowOwns(cfg, lru, files, me, c, p);
    case Missing => TryProxyOwns(cfg, lru, files, me, p);
    case Committing => CommitOwns(cfg, lru, files, me, p);
  }

  lemma SlowOwns(cfg: Config, lru: Lru, files: map<string, seq<byte>>, me: Local, c: Choice, p: string)
    requires Enabled(cfg, files, me, c) && me.pc.Slow?
    ensures var e := LocalStep(cfg, lru, files, me, c);
      e.files == files && OwnersIn(e.lru, e.evicted, e.me, p) == OwnersIn(lru, [], me, p)
  {
    PromoteSum(lru.entries, KeyOf(me.req), AtPath(p));
    LookAgainOnlyPromotes(cfg, lru, files, me);
    var e := LocalStep(cfg, lru, files, me, c);
  }

  lemma LookAgainOnlyPromotes(cfg: Config, lru: Lru, files: map<string, seq<byte>>, me: Local)
    requires me.req.Get? && me.req.offset >= 0
    ensures var e := LookAgain(cfg, lru, files, me);
      && e.lru == LruSpec.Get(lru, KeyOf(me.req)) && e.evicted == [] && e.files == files
      && e.me.removeTempfile == me.removeTempfile && e.me.blobFile == me.blobFile
  {
    var e := LookAgain(cfg, lru, files, me);
    match Find(lru.entries, KeyOf(me.req))
    case Some(item) =>
      var path := PathIn(me.req, item);
      if path in files { AnswerKeepsFile(cfg, me, item, files[path]); }
    case None =>
  }

  lemma AnswerKeepsFile(cfg: Config, me: Local, item: Item, bytes: seq<byte>)
    requires me.req.Get? && me.req.offset >= 0
    ensures var me' := Answer(cfg, me, item, bytes);
      me'.removeTempfile == me.removeTempfile && me'.blobFile == me.blobFile
  {
  }

  predicate Tidy(me: Local, c: Choice) {
    me.pc.CleanFile? ==> !c.Fault?
  }

  ghost predicate OwnersChange(files: map<string, seq<byte>>, files': map<string, seq<byte>>, p: string,
                               before: int, after: int, tidy: bool) {
    if p in files then
      if p in files' then after <= before && (tidy ==> after == before) else after == before - 1
    else
      if p in files' then after <= before + 1 && (tidy ==> after >= 1) else after <= before
  }

  // A step that changes neither the index entries nor the files, nor which
  // file the request has.
  ghost predicate Steady(lru: Lru, files: map<string, seq<byte>>, me: Local, e: Effect) {
    && e.lru.entries == lru.entries && e.evicted == [] && e.files == files
    && e.me.removeTempfile == me.removeTempfile && e.me.blobFile == me.blobFile
  }

  lemma SteadySteps(cfg: Config, lru: Lru, files: map<string, seq<byte>>, me: Local, c: Choice)
    requires Enabled(cfg, files, me, c)
    requires me.pc.Start? || me.pc.Opening? || me.pc.Fetching? || me.pc.Reopening? || me.pc.CleanReserve? || me.pc.Done?
    ensures Steady(lru, files, me, LocalStep(cfg, lru, files, me, c))
  {
    var e := LocalStep(cfg, lru, files, me, c);
    match me.pc
    case Opening => OpenIsSteady(cfg, files, me);
    case Reopening => ReopenIsSteady(cfg, files, me);
    case _ =>
  }

  lemma OpenIsSteady(cfg: Config, files: map<string, seq<byte>>, me: Local)
    requires me.req.Get? && me.req.offset >= 0
    ensures var me' := Open(cfg, files, me); me'.removeTempfile == me.removeTempfile && me'.blobFile == me.blobFile
  {
  }

  lemma ReopenIsSteady(cfg: Config, files: map<string, seq<byte>>, me: Local)
    requires me.req.Get? && me.req.offset >= 0
    ensures var me' := Reopen(cfg, files, me); me'.removeTempfile == me.removeTempfile && me'.blobFile == me.blobFile
  {
  }

  // Steps that leave the index entries alone.
  lemma QuietOwns(cfg: Config, lru: Lru, files: map<string, seq<byte>>, me: Local, c: Choice, p: string)
    requires LocalOk(cfg, files, me) && Enabled(cfg, files, me, c) && LeavesIndex(me.pc)
    ensures var e := LocalStep(cfg, lru, files, me, c);
      OwnersChange(files, e.files, p, OwnersIn(lru, [], me, p), OwnersIn(e.lru, e.evicted, e.me, p), Tidy(me, c))
  {
    var e := LocalStep(cfg, lru, files, me, c);
    if me.pc.Creating? || me.pc.Writing? || me.pc.CleanFile? {
      FileSteps(cfg, lru, files, me, c, p);
      SumNonNegative(lru.entries, AtPath(p));
    } else {
      SteadySteps(cfg, lru, files, me, c);
    }
  }

  // Steps on the request's own file.
  lemma FileSteps(cfg: Config, lru: Lru, files: map<string, seq<byte>>, me: Local, c: Choice, p: string)
    requires LocalOk(cfg, files, me) && Enabled(cfg, files, me, c)
    requires me.pc.Creating? || me.pc.Writing? || me.pc.CleanFile?
    ensures var e := LocalStep(cfg, lru, files, me, c);
      && e.lru == lru && e.evicted == []
      && OwnersChange(files, e.files, p, TempAt(p)(me), TempAt(p)(e.me), Tidy(me, c))
  {
    var e := LocalStep(cfg, lru, files, me, c);
    if me.pc.Creating? && c.Name? {
      CreateStep(cfg, files, me, c, p);
    } else if me.pc.Writing? && c.Go? {
      WriteStep(cfg, files, me, p);
    }
  }

  lemma CreateStep(cfg: Config, files: map<string, seq<byte>>, me: Local, c: Choice, p: string)
    requires Enabled(cfg, files, me, c) && me.pc.Creating? && c.Name? && !me.removeTempfile
    ensures var (files', me') := Create(cfg, files, me, c.random);
      OwnersChange(files, files', p, TempAt(p)(me), TempAt(p)(me'), true)
  {
    var name := TempName(cfg, me, c.random);
    var me' := Create(cfg, files, me, c.random).1;
    assert TempAt(p)(me') == if p == name then 1 else 0;
  }

  lemma WriteStep(cfg: Config, files: map<string, seq<byte>>, me: Local, p: string)
    requires me.removeTempfile
    ensures var (files', me') := Write(cfg, files, me);
      && me'.removeTempfile && me'.blobFile == me.blobFile
      && files'.Keys <= files.Keys + {me.blobFile} && files.Keys <= files'.Keys
  {
  }

  lemma ReserveOwns(lru: Lru, files: map<string, seq<byte>>, me: Local, p: string)
    ensures var e := ReserveStep(lru, files, me);
      e.files == files && OwnersIn(e.lru, e.evicted, e.me, p) == OwnersIn(lru, [], me, p)
  {
    var e := ReserveStep(lru, files, me);
    ReserveBalances(lru, me.req.size, AtPath(p));
  }

  lemma TryProxyOwns(cfg: Config, lru: Lru, files: map<string, seq<byte>>, me: Local, p: string)
    ensures var e := TryProxy(cfg, lru, files, me);
      e.files == files && OwnersIn(e.lru, e.evicted, e.me, p) == OwnersIn(lru, [], me, p)
  {
    var e := TryProxy(cfg, lru, files, me);
    ReserveBalances(lru, me.req.size, AtPath(p));
  }

  lemma LookOwns(cfg: Config, lru: Lru, files: map<string, seq<byte>>, me: Local, p: string)
    ensures var e := Look(cfg, lru, files, me);
      e.files == files && OwnersIn(e.lru, e.evicted, e.me, p) == OwnersIn(lru, [], me, p)
  {
    var e := Look(cfg, lru, files, me);
    PromoteSum(lru.entries, KeyOf(me.req), AtPath(p));
    TryProxyOwns(cfg, LruSpec.Get(lru, KeyOf(me.req)), files, me, p);
  }

  lemma CommitOwns(cfg: Config, lru: Lru, files: map<string, seq<byte>>, me: Local, p: string)
    requires LocalOk(cfg, files, me) && me.pc.Committing?
    ensures var e := Commit(cfg, lru, files, me);
      e.files == files && OwnersIn(e.lru, e.evicted, e.me, p) == OwnersIn(lru, [], me, p)
  {
    TempBecomesEntry(cfg, files, me, p);
    CommitMoves(cfg, lru, files, me, p);
  }

  lemma TempBecomesEntry(cfg: Config, files: map<string, seq<byte>>, me: Local, p: string)
    requires LocalOk(cfg, files, me) && me.pc.Committing?
    ensures TempAt(p)(me) == AtPath(p)(NewEntry(cfg, me))
  {
    TempPathIsFinal(cfg, me);
  }

  lemma CommitMoves(cfg: Config, lru: Lru, files: map<string, seq<byte>>, me: Local, p: string)
    requires TempAt(p)(me) == AtPath(p)(NewEntry(cfg, me))
    ensures var e := Commit(cfg, lru, files, me);
      e.files == files && OwnersIn(e.lru, e.evicted, e.me, p) == OwnersIn(lru, [], me, p)
  {
    var e := Commit(cfg, lru, files, me);
    var u := if me.req.size > 0 then Unreserve(lru, me.req.size) else Outcome(lru, true, []);
    if u.ok {
      assert u.lru.entries == lru.entries;
      AddedOwns(u.lru, KeyOf(me.req), ItemOf(cfg, me), p);
    }
  }

  lemma AddedOwns(lru: Lru, key: Key, item: Item, p: string)
    ensures var o := Add(lru, key, item);
      Sum(o.lru.entries, AtPath(p)) + Sum(o.evicted, AtPath(p)) ==
      Sum(lru.entries, AtPath(p)) + (if o.ok then AtPath(p)(Entry(key, item)) else 0)
  {
    AddBalances(lru, key, item, AtPath(p));
    SumSingle(Entry(key, item), AtPath(p));
  }

  // A step touches no file but the request's own.
  lemma StepFrame(cfg: Config, lru: Lru, files: map<string, seq<byte>>, me: Local, c: Choice, q: string)
    requires LocalOk(cfg, files, me) && Enabled(cfg, files, me, c)
    requires q in files && TempAt(q)(me) == 0
    ensures var e := LocalStep(cfg, lru, files, me, c);
      q in e.files && e.files[q] == files[q]
  {
    var e := LocalStep(cfg, lru, files, me, c);
    match me.pc
    case Looking => LookOwns(cfg, lru, files, me, q);
    case _ =>
  }

  lemma StepLocalOk(cfg: Config, lru: Lru, files: map<string, seq<byte>>, me: Local, c: Choice)
    requires ConfigOk(cfg) && LocalOk(cfg, files, me) && Enabled(cfg, files, me, c)
    ensures var e := LocalStep(cfg, lru, files, me, c);
      LocalOk(cfg, e.files, e.me)
  {
    match me.pc
    case Creating => if c.Name? { CreateLocalOk(cfg, files, me, c.random); } else { QuitLocalOk(cfg, files, me, Failed); }
    case Writing =>
      if c.Go? { WriteLocalOk(cfg, files, me); }
      else if c.Fault? { QuitLocalOk(cfg, files, me, Failed); }
      else { assert LocalOk(cfg, files[me.blobFile := c.bs], me); }
    case Reopening => if c.Go? { ReopenLocalOk(cfg, files, me); } else { QuitLocalOk(cfg, files, me, Failed); }
    case Committing => CommitLocalOk(cfg, lru, files, me);
    case CleanFile => CleanLocalOk(cfg, files, me, c.Fault?);
    case _ => EarlyLocalOk(cfg, lru, files, me, c);
  }

  // Giving up goes to the cleanup with whatever is held.
  lemma QuitLocalOk(cfg: Config, files: map<string, seq<byte>>, me: Local, reply: Reply)
    requires LocalOk(cfg, files, me) && !me.pc.Done? && !me.pc.CleanReserve?
    ensures LocalOk(cfg, files, Finish(me, reply))
  {
  }

  lemma CleanLocalOk(cfg: Config, files: map<string, seq<byte>>, me: Local, fails: bool)
    requires LocalOk(cfg, files, me) && me.pc.CleanFile?
    ensures var (files', me') := CleanupFile(files, me, fails); LocalOk(cfg, files', me')
  {
  }

  // Steps of a request that has no temporary file and does not create one.
  lemma EarlyLocalOk(cfg: Config, lru: Lru, files: map<string, seq<byte>>, me: Local, c: Choice)
    requires LocalOk(cfg, files, me) && Enabled(cfg, files, me, c)
    requires !me.pc.Creating? && !HasTemp(me.pc) && !me.pc.CleanFile?
    ensures var e := LocalStep(cfg, lru, files, me, c);
      e.files == files && LocalOk(cfg, files, e.me)
  {
    var e := LocalStep(cfg, lru, files, me, c);
    match me.pc
    case Start => StartLocalOk(cfg, files, me);
    case Looking => LookLocalOk(cfg, lru, files, me);
    case Opening => OpenLocalOk(cfg, files, me);
    case Slow =>
      if c.Go? { LookAgainLocalOk(cfg, lru, files, me); } else { LookAgainFailsLocalOk(cfg, lru, files, me, c.StatFault?); }
    case Missing => TryProxyLocalOk(cfg, lru, files, me);
    case Fetching => FetchLocalOk(cfg, files, me);
    case _ =>
  }

  lemma StartLocalOk(cfg: Config, files: map<string, seq<byte>>, me: Local)
    requires LocalOk(cfg, files, me) && me.pc.Start?
    ensures LocalOk(cfg, files, if me.req.Put? then StartPut(cfg, me) else StartGet(cfg, me))
  {
  }

  lemma TryProxyLocalOk(cfg: Config, lru: Lru, files: map<string, seq<byte>>, me: Local)
    requires LocalOk(cfg, files, me) && (me.pc.Looking? || me.pc.Missing?)
    ensures var e := TryProxy(cfg, lru, files, me); e.files == files && LocalOk(cfg, files, e.me)
  {
  }

  lemma LookLocalOk(cfg: Config, lru: Lru, files: map<string, seq<byte>>, me: Local)
    requires LocalOk(cfg, files, me) && me.pc.Looking?
    ensures var e := Look(cfg, lru, files, me); e.files == files && LocalOk(cfg, files, e.me)
  {
    TryProxyLocalOk(cfg, LruSpec.Get(lru, KeyOf(me.req)), files, me);
  }

  // Answering a request finishes it or counts as a miss.
  lemma AnswerLocalOk(cfg: Config, files: map<string, seq<byte>>, me: Local, item: Item, bytes: seq<byte>)
    requires LocalOk(cfg, files, me) && (me.pc.Opening? || me.pc.Slow?)
    ensures LocalOk(cfg, files, Answer(cfg, me, item, bytes))
  {
    var served := Serve(cfg, me.req, item, bytes);
    var me' := Answer(cfg, me, item, bytes);
    assert me' == me.(pc := Missing) || me' == Finish(me, me'.reply);
  }

  lemma OpenLocalOk(cfg: Config, files: map<string, seq<byte>>, me: Local)
    requires LocalOk(cfg, files, me) && me.pc.Opening?
    ensures LocalOk(cfg, files, Open(cfg, files, me))
  {
    var path := PathIn(me.req, me.item);
    if path in files { AnswerLocalOk(cfg, files, me, me.item, files[path]); }
  }

  lemma LookAgainLocalOk(cfg: Config, lru: Lru, files: map<string, seq<byte>>, me: Local)
    requires LocalOk(cfg, files, me) && me.pc.Slow?
    ensures var e := LookAgain(cfg, lru, files, me); e.files == files && LocalOk(cfg, files, e.me)
  {
    var found := Find(lru.entries, KeyOf(me.req));
    if found.Some? {
      var path := PathIn(me.req, found.value);
      if path in files { AnswerLocalOk(cfg, files, me, found.value, files[path]); }
    }
  }

  lemma LookAgainFailsLocalOk(cfg: Config, lru: Lru, files: map<string, seq<byte>>, me: Local, statFails: bool)
    requires LocalOk(cfg, files, me) && me.pc.Slow?
    ensures var e := LookAgainFails(lru, files, me, statFails); e.files == files && LocalOk(cfg, files, e.me)
  {
  }

  lemma FetchLocalOk(cfg: Config, files: map<string, seq<byte>>, me: Local)
    requires LocalOk(cfg, files, me) && me.pc.Fetching?
    ensures LocalOk(cfg, files, Fetch(cfg, me))
  {
  }

  lemma CreateLocalOk(cfg: Config, files: map<string, seq<byte>>, me: Local, random: string)
    requires LocalOk(cfg, files, me) && me.pc.Creating? && IsRandom(random)
    ensures var (files', me') := Create(cfg, files, me, random); LocalOk(cfg, files', me')
  {
    CreatedIsEvicted(me.req.prefix, me.req.kind, me.req.hash,
      Item(me.foundSize, 0, random, Legacy(cfg, me.req.kind)));
  }

  lemma WriteLocalOk(cfg: Config, files: map<string, seq<byte>>, me: Local)
    requires LocalOk(cfg, files, me) && me.pc.Writing?
    ensures var (files', me') := Write(cfg, files, me); LocalOk(cfg, files', me')
  {
    var (files', me') := Write(cfg, files, me);
    var bs := StoredBytes(cfg, me.req.kind, Legacy(cfg, me.req.kind), Source(cfg, me.req));
    if WriteSucceeds(cfg, me.req) && |bs| <= MAX_ROUNDABLE {
      WrittenLocalOk(cfg, files, me, bs);
    } else {
      QuitLocalOk(cfg, files, me, Failed);
    }
  }

  lemma WrittenLocalOk(cfg: Config, files: map<string, seq<byte>>, me: Local, bs: seq<byte>)
    requires LocalOk(cfg, files, me) && me.pc.Writing? && WriteSucceeds(cfg, me.req) && |bs| <= MAX_ROUNDABLE
    requires bs == StoredBytes(cfg, me.req.kind, Legacy(cfg, me.req.kind), Source(cfg, me.req))
    ensures LocalOk(cfg, files[me.blobFile := bs],
                    me.(sizeOnDisk := |bs|, pc := if me.req.Get? then Reopening else Committing))
  {
  }

  lemma CommitLocalOk(cfg: Config, lru: Lru, files: map<string, seq<byte>>, me: Local)
    requires LocalOk(cfg, files, me) && me.pc.Committing?
    ensures var e := Commit(cfg, lru, files, me); LocalOk(cfg, e.files, e.me)
  {
    var e := Commit(cfg, lru, files, me);
    CommitFinishes(cfg, lru, files, me);
    CommittedLocalOk(cfg, files, me, e.me.unreserve, e.me.removeTempfile, e.me.reply);
  }

  lemma CommitFinishes(cfg: Config, lru: Lru, files: map<string, seq<byte>>, me: Local)
    ensures var e := Commit(cfg, lru, files, me);
      && e.files == files && (e.me.unreserve ==> me.req.size > 0) && (e.me.removeTempfile ==> me.removeTempfile)
      && e.me == Finish(me.(unreserve := e.me.unreserve, removeTempfile := e.me.removeTempfile), e.me.reply)
  {
    var e := Commit(cfg, lru, files, me);
  }

  lemma CommitReplies(cfg: Config, lru: Lru, files: map<string, seq<byte>>, me: Local)
    requires me.req.Get?
    ensures var r := Commit(cfg, lru, files, me).me.reply; r == me.reply || r == Failed
  {
    var e := Commit(cfg, lru, files, me);
  }

  lemma CommittedLocalOk(cfg: Config, files: map<string, seq<byte>>, me: Local, unreserve: bool, removeTempfile: bool,
                         reply: Reply)
    requires LocalOk(cfg, files, me) && me.pc.Committing?
    requires (unreserve ==> me.req.size > 0) && (removeTempfile ==> me.removeTempfile)
    ensures LocalOk(cfg, files, Finish(me.(unreserve := unreserve, removeTempfile := removeTempfile), reply))
  {
  }

  lemma ReopenLocalOk(cfg: Config, files: map<string, seq<byte>>, me: Local)
    requires LocalOk(cfg, files, me) && me.pc.Reopening? && me.req.Get? && me.req.offset >= 0
    ensures LocalOk(cfg, files, Reopen(cfg, files, me))
  {
    var me' := Reopen(cfg, files, me);
    ReopenEnds(cfg, files, me);
    if me.req.kind == CAS && cfg.mode != Identity && me.foundSize == 0 {
      EmptyHasNoHeader(cfg, Source(cfg, me.req));
    }
    if me'.pc.Committing? {
      ReopenedLocalOk(cfg, files, me, me'.reply);
    } else {
      QuitLocalOk(cfg, files, me, Failed);
    }
  }

  // Reopening fails, or goes on to the commit with an answer.
  lemma ReopenEnds(cfg: Config, files: map<string, seq<byte>>, me: Local)
    requires me.req.Get? && me.req.offset >= 0
    ensures var me' := Reopen(cfg, files, me);
      me' == Finish(me, Failed) ||
      (me' == me.(pc := Committing, reply := me'.reply) && me.blobFile in files &&
       (me.req.kind == CAS && cfg.mode != Identity ==> CasBlob.ParseHeader(files[me.blobFile]).Ok?))
  {
  }

  lemma ReopenedLocalOk(cfg: Config, files: map<string, seq<byte>>, me: Local, reply: Reply)
    requires LocalOk(cfg, files, me) && me.pc.Reopening?
    requires me.req.kind == CAS && cfg.mode != Identity ==> me.foundSize != 0
    ensures LocalOk(cfg, files, me.(pc := Committing, reply := reply))
  {
  }

  // No data makes no readable file, so a compressed blob that is committed is
  // not empty.
  lemma EmptyHasNoHeader(cfg: Config, data: seq<byte>)
    requires data == []
    ensures CasBlob.ParseHeader(CasBlob.FileBytes(cfg.z, data)).Err?
  {
    CasBlob.FileParts(cfg.z, data);
  }

  // The entries after a step were there before, or are the one committed.
  lemma StepEntries(cfg: Config, lru: Lru, files: map<string, seq<byte>>, me: Local, c: Choice, x: Entry)
    requires LruSpec.Valid(lru) && LocalOk(cfg, files, me) && Enabled(cfg, files, me, c)
    requires x in LocalStep(cfg, lru, files, me, c).lru.entries
    ensures x in lru.entries || (me.pc.Committing? && x == NewEntry(cfg, me))
  {
    match me.pc
    case Reserving =>
      var e := ReserveStep(lru, files, me);
    case Looking =>
      PromoteMembers(lru.entries, KeyOf(me.req));
      var e := Look(cfg, lru, files, me);
    case Slow =>
      PromoteMembers(lru.entries, KeyOf(me.req));
      var e := if c.Go? then LookAgain(cfg, lru, files, me) else LookAgainFails(lru, files, me, c.StatFault?);
    case Missing =>
      var e := TryProxy(cfg, lru, files, me);
    case Committing => CommitEntries(cfg, lru, files, me, x);
    case CleanReserve =>
      var e := CleanupReserve(lru, files, me);
    case _ => QuietAccounts(cfg, lru, files, me, c);
  }

  lemma CommitEntries(cfg: Config, lru: Lru, files: map<string, seq<byte>>, me: Local, x: Entry)
    requires LruSpec.Valid(lru) && x in Commit(cfg, lru, files, me).lru.entries
    ensures x in lru.entries || x == NewEntry(cfg, me)
  {
    var e := Commit(cfg, lru, files, me);
    WithoutMembers(lru.entries, KeyOf(me.req));
    var u := if me.req.size > 0 then Unreserve(lru, me.req.size) else Outcome(lru, true, []);
    assert u.lru.entries == lru.entries;
  }

  // What a request commits is stored.
  lemma CommittedIsStored(cfg: Config, files: map<string, seq<byte>>, me: Local)
    requires LocalOk(cfg, files, me) && me.pc.Committing?
    ensures Contains(cfg, NewEntry(cfg, me), files[me.blobFile], Source(cfg, me.req))
    ensures Stored(cfg, files, NewEntry(cfg, me))
  {
    var req, e := me.req, NewEntry(cfg, me);
    LookupKeyRoundTrip(req.prefix, req.kind, req.hash);
    DirIgnoresRawPrefix(req.prefix, req.kind, req.hash);
    TempPathIsFinal(cfg, me);
    assert Contains(cfg, e, files[me.blobFile], Source(cfg, req));
  }

  // ----- every transition keeps the invariant -----

  lemma ClaimsNonNegative(s: State, p: string)
    ensures Sum(s.lru.entries, AtPath(p)) >= 0 && Sum(s.pending, AtPath(p)) >= 0 && Sum(s.locals, TempAt(p)) >= 0
  {
    SumNonNegative(s.lru.entries, AtPath(p));
    SumNonNegative(s.pending, AtPath(p));
    SumNonNegative(s.locals, TempAt(p));
  }

  // An index entry is the only owner of its file.
  lemma EntryOwns(s: State, e: Entry)
    requires e in s.lru.entries && PathOwned(s, PathOf(e))
    ensures Sum(s.pending, AtPath(PathOf(e))) == 0
    ensures forall i :: 0 <= i < |s.locals| ==> TempAt(PathOf(e))(s.locals[i]) == 0
  {
    var p := PathOf(e);
    ClaimsNonNegative(s, p);
    SumMember(s.lru.entries, e, AtPath(p));
    assert AtPath(p)(e) == 1;
    forall i | 0 <= i < |s.locals| ensures TempAt(p)(s.locals[i]) == 0 {
      SumBounds(s.locals, i, TempAt(p));
    }
  }

  // A request is the only owner of its temporary file.
  lemma TempOwns(s: State, i: nat)
    requires i < |s.locals| && s.locals[i].removeTempfile && PathOwned(s, s.locals[i].blobFile)
    ensures var p := s.locals[i].blobFile;
      && p in s.files && Owners(s, p) == 1
      && Sum(s.pending, AtPath(p)) == 0
      && forall j :: 0 <= j < |s.locals| && j != i ==> TempAt(p)(s.locals[j]) == 0
  {
    var p := s.locals[i].blobFile;
    ClaimsNonNegative(s, p);
    SumBounds(s.locals, i, TempAt(p));
    forall j | 0 <= j < |s.locals| && j != i ensures TempAt(p)(s.locals[j]) == 0 {
      SumRemove(s.locals, i, TempAt(p));
      var others := s.locals[..i] + s.locals[i + 1..];
      SumBounds(others, if j < i then j else j - 1, TempAt(p));
    }
  }

  lemma StepOwnership(cfg: Config, s: State, i: nat, c: Choice, p: string)
    requires Inv(cfg, s) && i < |s.locals| && Enabled(cfg, s.files, s.locals[i], c)
    ensures PathOwned(Next(cfg, s, Step(i, c)).value, p)
  {
    var me, e := s.locals[i], LocalStep(cfg, s.lru, s.files, s.locals[i], c);
    var s' := Next(cfg, s, Step(i, c)).value;
    assert PathOwned(s, p);
    StepOwns(cfg, s.lru, s.files, me, c, p);
    SumUpdate(s.locals, i, e.me, TempAt(p));
    SumConcat(s.pending, e.evicted, AtPath(p));
    ClaimsNonNegative(s, p);
    ClaimsNonNegative(s', p);
  }

  lemma OtherLocalOk(cfg: Config, s: State, i: nat, c: Choice, j: nat)
    requires Inv(cfg, s) && i < |s.locals| && Enabled(cfg, s.files, s.locals[i], c) && j < |s.locals| && j != i
    ensures LocalOk(cfg, LocalStep(cfg, s.lru, s.files, s.locals[i], c).files, s.locals[j])
  {
    var other := s.locals[j];
    assert LocalOk(cfg, s.files, other);
    if other.removeTempfile {
      assert PathOwned(s, other.blobFile);
      TempOwns(s, j);
      StepFrame(cfg, s.lru, s.files, s.locals[i], c, other.blobFile);
    }
  }

  lemma EntryStaysStored(cfg: Config, s: State, i: nat, c: Choice, x: Entry)
    requires Inv(cfg, s) && i < |s.locals| && Enabled(cfg, s.files, s.locals[i], c)
    requires x in LocalStep(cfg, s.lru, s.files, s.locals[i], c).lru.entries
    ensures Stored(cfg, LocalStep(cfg, s.lru, s.files, s.locals[i], c).files, x)
  {
    var me := s.locals[i];
    StepEntries(cfg, s.lru, s.files, me, c, x);
    if x in s.lru.entries {
      assert PathOwned(s, PathOf(x));
      EntryOwns(s, x);
      assert Stored(cfg, s.files, x);
      StepFrame(cfg, s.lru, s.files, me, c, PathOf(x));
    } else {
      CommittedIsStored(cfg, s.files, me);
    }
  }

  lemma StepKeepsInv(cfg: Config, s: State, i: nat, c: Choice)
    requires Inv(cfg, s) && i < |s.locals| && Enabled(cfg, s.files, s.locals[i], c)
    ensures Inv(cfg, Next(cfg, s, Step(i, c)).value)
  {
    var me, e := s.locals[i], LocalStep(cfg, s.lru, s.files, s.locals[i], c);
    var s' := Next(cfg, s, Step(i, c)).value;
    HoldingIsReserved(cfg, s, i);
    StepAccounts(cfg, s.lru, s.files, me, c);
    SumUpdate(s.locals, i, e.me, HeldBy);
    StepLocalOk(cfg, s.lru, s.files, me, c);
    forall j | 0 <= j < |s'.locals| ensures LocalOk(cfg, s'.files, s'.locals[j]) {
      if j != i { OtherLocalOk(cfg, s, i, c, j); }
    }
    forall p ensures PathOwned(s', p) { StepOwnership(cfg, s, i, c, p); }
    forall x | x in s'.lru.entries ensures Stored(cfg, s'.files, x) { EntryStaysStored(cfg, s, i, c, x); }
  }

  // What a request holds is part of what is reserved.
  lemma HoldingIsReserved(cfg: Config, s: State, i: nat)
    requires Inv(cfg, s) && i < |s.locals|
    ensures 0 <= HeldBy(s.locals[i]) <= s.lru.reserved
  {
    forall x | x in s.locals ensures HeldBy(x) >= 0 {
      var j :| 0 <= j < |s.locals| && s.locals[j] == x;
      assert LocalOk(cfg, s.files, s.locals[j]);
    }
    SumBounds(s.locals, i, HeldBy);
  }

  lemma ArriveKeepsInv(cfg: Config, s: State, req: Request)
    requires Inv(cfg, s) && RequestOk(req)
    ensures Inv(cfg, Next(cfg, s, Arrive(req)).value)
  {
    var s' := Next(cfg, s, Arrive(req)).value;
    SumConcat(s.locals, [Fresh(req)], HeldBy);
    SumSingle(Fresh(req), HeldBy);
    forall p ensures PathOwned(s', p) {
      assert PathOwned(s, p);
      SumConcat(s.locals, [Fresh(req)], TempAt(p));
      SumSingle(Fresh(req), TempAt(p));
    }
  }

  // A removal deletes a file that exists and that nobody else has a claim to:
  // in particular not one that a later request has created.
  lemma RemovalIsExclusive(cfg: Config, s: State, k: nat)
    requires Inv(cfg, s) && k < |s.pending|
    ensures var q := PathOf(s.pending[k]);
      && q in s.files && Owners(s, q) == 1
      && (forall e :: e in s.lru.entries ==> PathOf(e) != q)
      && (forall i :: 0 <= i < |s.locals| && s.locals[i].removeTempfile ==> s.locals[i].blobFile != q)
  {
    var q := PathOf(s.pending[k]);
    assert PathOwned(s, q);
    ClaimsNonNegative(s, q);
    SumBounds(s.pending, k, AtPath(q));
    forall e | e in s.lru.entries ensures PathOf(e) != q {
      if PathOf(e) == q { EntryOwns(s, e); }
    }
    forall i | 0 <= i < |s.locals| && s.locals[i].removeTempfile ensures s.locals[i].blobFile != q {
      if s.locals[i].blobFile == q { TempOwns(s, i); }
    }
  }

  lemma RemovalOwnership(s: State, k: nat, path: string, ok: bool, p: string)
    requires k < |s.pending| && PathOwned(s, p)
    requires AtPath(path)(s.pending[k]) == 1 && Owners(s, path) == 1
    ensures PathOwned(Removed(s, k, path, ok), p)
  {
    var s' := Removed(s, k, path, ok);
    SumRemove(s.pending, k, AtPath(p));
    var d := AtPath(p)(s.pending[k]);
    assert d == (if p == path then 1 else 0);
    assert Owners(s', p) == Owners(s, p) - d;
  }

  lemma RemovalKeepsInv(cfg: Config, s: State, k: nat, ok: bool)
    requires Inv(cfg, s) && k < |s.pending|
    ensures Inv(cfg, Next(cfg, s, RemoveFile(k, ok)).value)
  {
    var s' := Next(cfg, s, RemoveFile(k, ok)).value;
    RemovalIsExclusive(cfg, s, k);
    var q := PathOf(s.pending[k]);
    assert s' == Removed(s, k, q, ok);
    forall p ensures PathOwned(s', p) {
      assert PathOwned(s, p);
      RemovalOwnership(s, k, q, ok, p);
    }
    forall e | e in s'.lru.entries ensures Stored(cfg, s'.files, e) { RemovalKeepsStored(cfg, s, q, ok, e); }
    forall i | 0 <= i < |s'.locals| ensures LocalOk(cfg, s'.files, s'.locals[i]) {
      RemovalKeepsLocal(cfg, s, q, ok, i);
    }
  }

  lemma RemovalKeepsStored(cfg: Config, s: State, q: string, ok: bool, e: Entry)
    requires Stored(cfg, s.files, e) && PathOf(e) != q
    ensures Stored(cfg, if ok then s.files - {q} else s.files, e)
  {
    var data :| Contains(cfg, e, s.files[PathOf(e)], data);
    var files := if ok then s.files - {q} else s.files;
    assert files[PathOf(e)] == s.files[PathOf(e)];
  }

  lemma RemovalKeepsLocal(cfg: Config, s: State, q: string, ok: bool, i: nat)
    requires i < |s.locals| && LocalOk(cfg, s.files, s.locals[i])
    requires s.locals[i].removeTempfile ==> s.locals[i].blobFile != q
    ensures LocalOk(cfg, if ok then s.files - {q} else s.files, s.locals[i])
  {
  }

  // In every run, from every state that satisfies it, the invariant holds.
  lemma {:induction false} RunKeepsInv(cfg: Config, s: State, labels: seq<Label>)
    requires Inv(cfg, s) && Protocol.Run(cfg, s, labels).Some?
    ensures Inv(cfg, Protocol.Run(cfg, s, labels).value)
    decreases |labels|
  {
    if labels != [] {
      NextKeepsInv(cfg, s, labels[0]);
      RunKeepsInv(cfg, Next(cfg, s, labels[0]).value, labels[1..]);
    }
  }

  lemma NextKeepsInv(cfg: Config, s: State, step: Label)
    requires Inv(cfg, s) && Next(cfg, s, step).Some?
    ensures Inv(cfg, Next(cfg, s, step).value)
  {
    match step
    case Arrive(req) => ArriveKeepsInv(cfg, s, req);
    case Step(i, c) => StepKeepsInv(cfg, s, i, c);
    case RemoveFile(k, ok) => RemovalKeepsInv(cfg, s, k, ok);
  }
}
