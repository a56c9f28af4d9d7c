// The request protocol of the disk cache (cache/disk/disk.go) as a state
// machine: any number of Put and Get requests in flight, each mutex section
// one atomic step, file operations and asynchronous removals steps of their
// own, and a failure possible wherever the program handles one.
module Protocol {
  import opened Wrappers
  import opened Int64
  import opened Bytes
  import opened LruSpec
  import opened Names
  import CasBlob
  import BlobReaders
  import Z = Zstd

  const EMPTY_ZSTD_BLOB: seq<byte> := [40, 181, 47, 253, 32, 0, 1, 0, 0]

  datatype Mode = Identity | Zstandard

  // The proxy backend: the blobs it has, by storage prefix, kind and hash.
  type Proxy = map<(string, Kind, string), seq<byte>>

  datatype Config = Config(z: Z.Zstd, sha: seq<byte> -> string, mode: Mode, maxSize: int64, maxBlobSize: int64,
                           proxy: Option<Proxy>, maxProxyBlobSize: int64)

  ghost predicate ConfigOk(cfg: Config) {
    0 <= cfg.maxSize && Z.Lawful(cfg.z)
  }

  datatype Request =
    | Put(prefix: string, kind: Kind, hash: string, size: int64, body: seq<byte>, bodyFails: bool)
    | Get(prefix: string, kind: Kind, hash: string, size: int64, offset: int64, zstd: bool)

  // What the servers check before they call the cache.
  predicate RequestOk(req: Request) {
    IsHash(req.hash) && PrefixOk(req.prefix)
  }

  datatype Reply = NoReply | PutOk | Hit(bytes: seq<byte>, size: int) | NotFound | Failed

  // Where a request is. Looking and Slow are the two locked lookups of a Get,
  // CleanFile and CleanReserve the deferred cleanup.
  datatype Pc = Start | Reserving | Looking | Opening | Slow | Missing | Fetching |
                Creating | Writing | Reopening | Committing | CleanFile | CleanReserve | Done

  // A request with its local variables.
  datatype Local = Local(req: Request, pc: Pc, unreserve: bool, removeTempfile: bool, blobFile: string,
                         random: string, foundSize: int64, sizeOnDisk: int64, item: Item, reply: Reply)

  // Pending holds the evicted entries whose files are still to be removed.
  datatype State = State(lru: Lru, files: map<string, seq<byte>>, pending: seq<Entry>, locals: seq<Local>)

  // What the environment decides in a step: nothing, that an operation fails,
  // that an opened file cannot be examined, the random part of a file name, or
  // what of a file has been written so far.
  datatype Choice = Go | Fault | StatFault | Name(random: string) | Partial(bs: seq<byte>)

  datatype Label = Arrive(req: Request) | Step(i: nat, choice: Choice) | RemoveFile(k: nat, ok: bool)

  // ----- pure parts -----

  predicate IsSizeMismatch(requested: int, found: int) {
    requested > -1 && found > -1 && requested != found
  }

  function KeyOf(req: Request): Key {
    LookupKey(req.prefix, req.kind, req.hash)
  }

  // Raw CAS files are stored in uncompressed mode.
  predicate Legacy(cfg: Config, kind: Kind) {
    kind == CAS && cfg.mode == Identity
  }

  // The file contents for some data, in the format of an item.
  function StoredBytes(cfg: Config, kind: Kind, legacy: bool, data: seq<byte>): seq<byte> {
    if kind == CAS && !legacy then CasBlob.FileBytes(cfg.z, data) else data
  }

  // The item that a request commits.
  function ItemOf(cfg: Config, me: Local): Item {
    Item(me.foundSize, me.sizeOnDisk, me.random, Legacy(cfg, me.req.kind))
  }

  // The data that a request writes: the body of a Put, what the proxy has for a Get.
  function Source(cfg: Config, req: Request): seq<byte> {
    match req
    case Put(_, _, _, _, body, _) => body
    case Get(prefix, kind, hash, _, _, _) =>
      if cfg.proxy.Some? && (prefix, kind, hash) in cfg.proxy.value then cfg.proxy.value[(prefix, kind, hash)] else []
  }

  // Whether all the data can be read and passes the checks made while writing.
  predicate WriteSucceeds(cfg: Config, req: Request) {
    match req
    case Put(_, kind, hash, size, body, bodyFails) =>
      if kind == CAS && cfg.mode != Identity then
        size > 0 && |body| == size && !bodyFails && cfg.sha(body) == hash
      else
        !bodyFails && |body| == size
    case Get(_, _, _, _, _, _) => true
  }

  datatype Served = ServedHit(bytes: seq<byte>, size: int) | ServedMiss | ServedCrash

  function FromReader(r: Result<seq<byte>, BlobReaders.ReadError>, size: int): Served {
    match r
    case Ok(bytes) => ServedHit(bytes, size)
    case Err(RuntimePanic) => ServedCrash
    case Err(_) => ServedMiss
  }

  // What a Get answers from an opened file.
  function Serve(cfg: Config, req: Request, item: Item, bytes: seq<byte>): Served
    requires req.Get? && req.offset >= 0
  {
    if req.kind == CAS then
      if item.legacy then
        var tail := BlobReaders.Tail(bytes, req.offset);
        ServedHit(if req.zstd then cfg.z.enc(tail) else tail, item.size)
      else if req.zstd then
        FromReader(BlobReaders.ReadZstd(cfg.z, bytes, req.size, req.offset), item.size)
      else
        FromReader(BlobReaders.ReadUncompressed(cfg.z, bytes, req.size, req.offset), item.size)
    else if IsSizeMismatch(req.size, |bytes|) then ServedMiss
    else ServedHit(BlobReaders.Tail(bytes, req.offset), |bytes|)
  }

  // ----- the steps of a request -----

  // The outcome of a step: the index and the entries evicted from it, the
  // files, and the request itself.
  datatype Effect = Effect(lru: Lru, evicted: seq<Entry>, files: map<string, seq<byte>>, me: Local)

  function Finish(me: Local, reply: Reply): Local {
    me.(pc := CleanFile, reply := reply)
  }

  function StartPut(cfg: Config, me: Local): Local
    requires me.req.Put?
  {
    var req := me.req;
    if req.size < 0 || req.size > cfg.maxBlobSize || |req.hash| != 64 then Finish(me, Failed)
    else if req.kind == CAS && req.size == 0 && req.hash == EMPTY_SHA256 then Finish(me, PutOk)
    else me.(pc := if req.size > 0 then Reserving else Creating, foundSize := req.size)
  }

  function StartGet(cfg: Config, me: Local): Local
    requires me.req.Get?
  {
    var req := me.req;
    if |req.hash| != 64 then Finish(me, Failed)
    else if req.kind == CAS && req.size <= 0 && req.hash == EMPTY_SHA256 then
      Finish(me, Hit(if req.zstd then EMPTY_ZSTD_BLOB else [], 0))
    else if req.kind != CAS && req.zstd then Finish(me, Failed)
    else if req.offset < 0 || (req.size > 0 && req.offset >= req.size) then Finish(me, Failed)
    else me.(pc := Looking)
  }

  // Reserve in Put.
  function ReserveStep(lru: Lru, files: map<string, seq<byte>>, me: Local): Effect {
    var o := Reserve(lru, me.req.size);
    Effect(o.lru, o.evicted, files, if o.ok then me.(unreserve := true, pc := Creating) else Finish(me, Failed))
  }

  // The end of availableOrTryProxy: reserve if the proxy is to be asked for a
  // blob of known size.
  function TryProxy(cfg: Config, lru: Lru, files: map<string, seq<byte>>, me: Local): Effect {
    if cfg.proxy.None? || me.req.size > cfg.maxProxyBlobSize then Effect(lru, [], files, Finish(me, NotFound))
    else if me.req.size <= 0 then Effect(lru, [], files, me.(pc := Fetching))
    else
      var o := Reserve(lru, me.req.size);
      Effect(o.lru, o.evicted, files, if o.ok then me.(unreserve := true, pc := Fetching) else Finish(me, Failed))
  }

  // The first lookup; on a miss the lock is kept until the proxy is to be tried.
  function Look(cfg: Config, lru: Lru, files: map<string, seq<byte>>, me: Local): Effect {
    match Find(lru.entries, KeyOf(me.req))
    case Some(item) =>
      Effect(LruSpec.Get(lru, KeyOf(me.req)), [], files,
             me.(item := item, pc := if IsSizeMismatch(me.req.size, item.size) then Missing else Opening))
    case None => TryProxy(cfg, LruSpec.Get(lru, KeyOf(me.req)), files, me)
  }

  function Answer(cfg: Config, me: Local, item: Item, bytes: seq<byte>): Local
    requires me.req.Get? && me.req.offset >= 0
  {
    match Serve(cfg, me.req, item, bytes)
    case ServedHit(b, size) => Finish(me, Hit(b, size))
    case ServedMiss => me.(pc := Missing)
    case ServedCrash => Finish(me, Failed)
  }

  function PathIn(req: Request, item: Item): string {
    FileLocation(req.prefix, req.kind, item.legacy, req.hash, item.size, item.random)
  }

  function Open(cfg: Config, files: map<string, seq<byte>>, me: Local): Local
    requires me.req.Get? && me.req.offset >= 0
  {
    var path := PathIn(me.req, me.item);
    if path in files then Answer(cfg, me, me.item, files[path]) else me.(pc := Slow)
  }

  // The second lookup, which opens the file while the lock is held.
  function LookAgain(cfg: Config, lru: Lru, files: map<string, seq<byte>>, me: Local): Effect
    requires me.req.Get? && me.req.offset >= 0
  {
    var lru' := LruSpec.Get(lru, KeyOf(me.req));
    match Find(lru.entries, KeyOf(me.req))
    case Some(item) =>
      var path := PathIn(me.req, item);
      Effect(lru', [], files, if path in files then Answer(cfg, me, item, files[path]) else me.(pc := Missing))
    case None => Effect(lru', [], files, me.(pc := Missing))
  }

  // The second lookup when the file cannot be opened, or not be examined.
  function LookAgainFails(lru: Lru, files: map<string, seq<byte>>, me: Local, statFails: bool): Effect {
    var found := Find(lru.entries, KeyOf(me.req));
    Effect(LruSpec.Get(lru, KeyOf(me.req)), [], files,
           if statFails && found.Some? && PathIn(me.req, found.value) in files then Finish(me, Failed)
           else me.(pc := Missing))
  }

  function Fetch(cfg: Config, me: Local): Local
    requires me.req.Get?
  {
    if cfg.proxy.None? || (me.req.prefix, me.req.kind, me.req.hash) !in cfg.proxy.value then Finish(me, NotFound)
    else
      var found := |Source(cfg, me.req)|;
      if found > cfg.maxProxyBlobSize || IsSizeMismatch(me.req.size, found) then Finish(me, NotFound)
      else me.(pc := Creating, foundSize := found)
  }

  function TempName(cfg: Config, me: Local, random: string): string {
    CreateName(FileLocationBase(me.req.prefix, me.req.kind, Legacy(cfg, me.req.kind), me.req.hash, me.foundSize),
               random, Legacy(cfg, me.req.kind))
  }

  // Write all the data. A file too long to be accounted for does not fit a disk.
  function Write(cfg: Config, files: map<string, seq<byte>>, me: Local): (map<string, seq<byte>>, Local) {
    var bs := StoredBytes(cfg, me.req.kind, Legacy(cfg, me.req.kind), Source(cfg, me.req));
    if WriteSucceeds(cfg, me.req) && |bs| <= MAX_ROUNDABLE then
      (files[me.blobFile := bs],
       me.(sizeOnDisk := |bs|, pc := if me.req.Get? then Reopening else Committing))
    else (files, Finish(me, Failed))
  }

  // Open the file just filled from the proxy, for the answer.
  function Reopen(cfg: Config, files: map<string, seq<byte>>, me: Local): Local
    requires me.req.Get? && me.req.offset >= 0
  {
    if me.blobFile !in files then Finish(me, Failed)
    else
      var bytes, req := files[me.blobFile], me.req;
      if req.kind != CAS || cfg.mode == Identity then
        var tail := BlobReaders.Tail(bytes, req.offset);
        me.(pc := Committing, reply := Hit(if req.zstd then cfg.z.enc(tail) else tail, me.foundSize))
      else
        var r := if req.zstd then BlobReaders.ReadZstd(cfg.z, bytes, me.foundSize, req.offset)
                 else BlobReaders.ReadUncompressed(cfg.z, bytes, me.foundSize, req.offset);
        match r
        case Ok(b) => me.(pc := Committing, reply := Hit(b, me.foundSize))
        case Err(_) => Finish(me, Failed)
  }

  // Unreserve and add, under one lock.
  function Commit(cfg: Config, lru: Lru, files: map<string, seq<byte>>, me: Local): Effect {
    var u := if me.req.size > 0 then Unreserve(lru, me.req.size) else Outcome(lru, true, []);
    if !u.ok then Effect(lru, [], files, Finish(me.(unreserve := true), Failed))
    else
      var o := Add(u.lru, KeyOf(me.req), ItemOf(cfg, me));
      Effect(o.lru, o.evicted, files,
             if o.ok then Finish(me.(unreserve := false, removeTempfile := false), if me.req.Put? then PutOk else me.reply)
             else Finish(me.(unreserve := false), Failed))
  }

  function CleanupFile(files: map<string, seq<byte>>, me: Local, fails: bool): (map<string, seq<byte>>, Local) {
    (if me.removeTempfile && !fails then files - {me.blobFile} else files,
     me.(removeTempfile := false, pc := CleanReserve))
  }

  function CleanupReserve(lru: Lru, files: map<string, seq<byte>>, me: Local): Effect {
    if me.unreserve then
      var u := Unreserve(lru, me.req.size);
      Effect(u.lru, [], files, me.(unreserve := false, pc := Done, reply := if u.ok then me.reply else Failed))
    else Effect(lru, [], files, me.(pc := Done))
  }

  function Create(cfg: Config, files: map<string, seq<byte>>, me: Local, random: string)
    : (map<string, seq<byte>>, Local)
  {
    var name := TempName(cfg, me, random);
    (files[name := []], me.(blobFile := name, random := random, removeTempfile := true, pc := Writing))
  }

  // The steps of a Get beyond its checks are taken by Gets with a valid offset.
  predicate Placed(me: Local) {
    me.pc.Looking? || me.pc.Opening? || me.pc.Slow? || me.pc.Missing? || me.pc.Fetching? || me.pc.Reopening? ==>
      me.req.Get? && me.req.offset >= 0
  }

  // Whether a choice of the environment applies to a request.
  predicate Enabled(cfg: Config, files: map<string, seq<byte>>, me: Local, c: Choice) {
    Placed(me) &&
    match c
    case Go => !me.pc.Creating? && !me.pc.Done?
    case Fault => me.pc.Opening? || me.pc.Slow? || me.pc.Fetching? || me.pc.Creating? || me.pc.Writing? ||
                  me.pc.Reopening? || me.pc.CleanFile?
    case StatFault => (me.pc.Opening? || me.pc.Slow?) && me.req.kind != CAS
    case Name(random) => me.pc.Creating? && IsRandom(random) && TempName(cfg, me, random) !in files
    case Partial(_) => me.pc.Writing?
  }

  // One step of a request.
  function LocalStep(cfg: Config, lru: Lru, files: map<string, seq<byte>>, me: Local, c: Choice): Effect
    requires Enabled(cfg, files, me, c)
  {
    match me.pc
    case Start => Effect(lru, [], files, if me.req.Put? then StartPut(cfg, me) else StartGet(cfg, me))
    case Reserving => ReserveStep(lru, files, me)
    case Looking => Look(cfg, lru, files, me)
    case Opening =>
      Effect(lru, [], files, if c.Go? then Open(cfg, files, me)
                             else if c.Fault? then me.(pc := Missing) else Finish(me, Failed))
    case Slow =>
      if c.Go? then LookAgain(cfg, lru, files, me) else LookAgainFails(lru, files, me, c.StatFault?)
    case Missing => TryProxy(cfg, lru, files, me)
    case Fetching => Effect(lru, [], files, if c.Go? then Fetch(cfg, me) else Finish(me, Failed))
    case Creating =>
      if c.Fault? then Effect(lru, [], files, Finish(me, Failed))
      else
        var (files', me') := Create(cfg, files, me, c.random);
        Effect(lru, [], files', me')
    case Writing =>
      if c.Partial? then Effect(lru, [], files[me.blobFile := c.bs], me)
      else if c.Fault? then Effect(lru, [], files, Finish(me, Failed))
      else
        var (files', me') := Write(cfg, files, me);
        Effect(lru, [], files', me')
    case Reopening => Effect(lru, [], files, if c.Go? then Reopen(cfg, files, me) else Finish(me, Failed))
    case Committing => Commit(cfg, lru, files, me)
    case CleanFile =>
      var (files', me') := CleanupFile(files, me, c.Fault?);
      Effect(lru, [], files', me')
    case CleanReserve => CleanupReserve(lru, files, me)
    case Done => Effect(lru, [], files, me)
  }

  function Fresh(req: Request): Local {
    Local(req, Start, false, false, "", "", 0, 0, Item(0, 0, "", false), NoReply)
  }

  // The next state, or None if the label is not enabled.
  function Next(cfg: Config, s: State, step: Label): Option<State> {
    match step
    case Arrive(req) =>
      if RequestOk(req) then Some(s.(locals := s.locals + [Fresh(req)])) else None
    case Step(i, c) =>
      if i >= |s.locals| || !Enabled(cfg, s.files, s.locals[i], c) then None
      else
        var e := LocalStep(cfg, s.lru, s.files, s.locals[i], c);
        Some(State(e.lru, e.files, s.pending + e.evicted, s.locals[i := e.me]))
    case RemoveFile(k, ok) =>
      if k >= |s.pending| then None
      else
        Some(Removed(s, k, PathOf(s.pending[k]), ok))
  }

  function Removed(s: State, k: nat, path: string, ok: bool): State
    requires k < |s.pending|
  {
    s.(pending := s.pending[..k] + s.pending[k + 1..], files := if ok then s.files - {path} else s.files)
  }

  function PathOf(e: Entry): string {
    ElementPath(e.key, e.item)
  }

  // The state after a run, or None if some label is not enabled.
  function Run(cfg: Config, s: State, labels: seq<Label>): Option<State>
    decreases |labels|
  {
    if labels == [] then Some(s)
    else
      match Next(cfg, s, labels[0])
      case None => None
      case Some(s') => Run(cfg, s', labels[1..])
  }

  function Initial(cfg: Config): State {
    State(Empty(cfg.maxSize), map[], [], [])
  }
}
