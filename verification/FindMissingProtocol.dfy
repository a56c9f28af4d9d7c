// Concurrent FindMissing requests (cache/disk/findmissing.go) as a state
// machine: each request looks up its digests in batches and starts a check
// against the proxy for every miss; all checks of all requests share one
// semaphore. A locked section, a channel operation and a use of the semaphore
// are one step each.
module FindMissingProtocol {
  import opened Wrappers
  import opened Int64
  import opened LruSpec
  import opened Messages
  import FindMissing

  const BATCH_SIZE := 20
  const MAX_CHECKS := 512

  // The proxy is a fixed set of blobs.
  datatype Config = Config(proxy: Option<Digest -> bool>, maxProxyBlobSize: int64)

  predicate ProxyHas(cfg: Config, d: Digest) {
    cfg.proxy.Some? && cfg.proxy.value(d)
  }

  datatype Lookup = NotYet | Hit | Miss

  // Where the check of a slot is: Begin before it looks at its context, Asking
  // before the answer of the proxy, Flagging and Cancelling in the callback for
  // a miss, Finishing before it leaves the wait group and Releasing before it
  // leaves the semaphore.
  datatype Check = Idle | Begin | Asking | Flagging | Cancelling | Finishing | Releasing | Ended

  // A slot of the request. Found slots are nil. The outcome of the local lookup
  // and the answer of the proxy are kept for reference.
  datatype Slot = Slot(digest: Digest, found: bool, looked: Lookup, check: Check, answer: Answer)

  datatype Answer = Unanswered | Yes | No

  datatype Error = MissingBlob | RequestCancelled

  datatype Pc = Top | Chunk | Launching | Waiting | Returned(err: Option<Error>)

  // A request: pos slots have been looked up and next slots dealt with. Flag is
  // cancelledDueToFailFast; the context is done once it is cancelled by the
  // request itself or from outside.
  datatype Caller = Caller(prefix: string, failFast: bool, slots: seq<Slot>, pos: nat, next: nat, pc: Pc,
                           wg: int, flag: bool, cancelled: bool, external: bool)

  datatype State = State(lru: Lru, callers: seq<Caller>, held: int)

  // Index stands for whatever other requests do to the cache meanwhile.
  datatype Label =
    | Call(prefix: string, digests: seq<Digest>, failFast: bool)
    | Cancel(i: nat)
    | Index(lru: Lru)
    | Main(i: nat, giveUp: bool)
    | Checking(i: nat, k: nat, answer: bool)

  predicate CtxDone(c: Caller) {
    c.cancelled || c.external
  }

  function Return(cfg: Config, c: Caller, err: Option<Error>): Caller {
    c.(pc := Returned(err), cancelled := c.cancelled || (c.failFast && cfg.proxy.Some?))
  }

  function GiveUp(cfg: Config, c: Caller): Caller {
    Return(cfg, c, Some(if c.flag then MissingBlob else RequestCancelled))
  }

  function ChunkEnd(c: Caller): nat {
    if |c.slots| <= c.pos + BATCH_SIZE then |c.slots| else c.pos + BATCH_SIZE
  }

  function LookUp(es: seq<Entry>, prefix: string, s: Slot): Slot {
    if FindMissing.Available(es, prefix, s.digest) then s.(looked := Hit, found := true) else s.(looked := Miss)
  }

  function LookUpChunk(es: seq<Entry>, c: Caller): seq<Slot> {
    seq(|c.slots|, k requires 0 <= k < |c.slots| =>
      if c.pos <= k < ChunkEnd(c) then LookUp(es, c.prefix, c.slots[k]) else c.slots[k])
  }

  function DigestsOf(slots: seq<Slot>): seq<Digest> {
    seq(|slots|, k requires 0 <= k < |slots| => slots[k].digest)
  }

  // The locked lookup of a batch, and how the request goes on after it.
  function AfterChunk(cfg: Config, es: seq<Entry>, c: Caller): Caller {
    var hi := ChunkEnd(c);
    var c' := c.(slots := LookUpChunk(es, c), pos := hi);
    if forall k :: c.pos <= k < hi && k < |c'.slots| ==> c'.slots[k].found then c'.(pc := Top, next := hi)
    else if cfg.proxy.None? && c.failFast then Return(cfg, c', Some(MissingBlob))
    else if cfg.proxy.Some? then c'.(pc := Launching)
    else c'.(pc := Top, next := hi)
  }

  // A step of the request itself, with the semaphore's count. When it may go
  // two ways, giveUp says whether it takes the branch of a done context. The
  // semaphore is never acquired once the context is done.
  function MainStep(cfg: Config, es: seq<Entry>, held: int, c: Caller, giveUp: bool): Option<(int, Caller)> {
    match c.pc
    case Top =>
      if giveUp then None
      else if c.pos >= |c.slots| then
        Some((held, if cfg.proxy.Some? then c.(pc := Waiting) else Return(cfg, c, None)))
      else Some((held, if CtxDone(c) then GiveUp(cfg, c) else c.(pc := Chunk)))
    case Chunk =>
      if giveUp || c.pos > |c.slots| then None else Some((held, AfterChunk(cfg, es, c)))
    case Launching =>
      if c.next >= c.pos || c.next >= |c.slots| then if giveUp then None else Some((held, c.(pc := Top)))
      else
        var s := c.slots[c.next];
        if s.found then if giveUp then None else Some((held, c.(next := c.next + 1)))
        else if s.digest.sizeBytes > cfg.maxProxyBlobSize then
          if giveUp then None
          else Some((held, if c.failFast then Return(cfg, c, Some(MissingBlob)) else c.(next := c.next + 1)))
        else if giveUp then if CtxDone(c) then Some((held, GiveUp(cfg, c))) else None
        else if held < MAX_CHECKS && !CtxDone(c) then
          Some((held + 1, c.(slots := c.slots[c.next := s.(check := Begin)], next := c.next + 1, wg := c.wg + 1)))
        else None
    case Waiting =>
      if giveUp then if CtxDone(c) then Some((held, GiveUp(cfg, c))) else None
      else if c.wg == 0 then Some((held, Return(cfg, c, None)))
      else None
    case Returned(_) => None
  }

  // A proxy may answer no to a request whose context is done.
  predicate MayAnswer(cfg: Config, c: Caller, d: Digest, answer: bool) {
    answer == ProxyHas(cfg, d) || (!answer && CtxDone(c))
  }

  // A step of the check of slot k.
  function CheckStep(cfg: Config, held: int, c: Caller, k: nat, answer: bool): Option<(int, Caller)>
    requires k < |c.slots|
  {
    var s := c.slots[k];
    match s.check
    case Begin => Some((held, c.(slots := c.slots[k := s.(check := if CtxDone(c) then Finishing else Asking)])))
    case Asking =>
      if !MayAnswer(cfg, c, s.digest, answer) then None
      else
        Some((held, c.(slots := c.slots[k := s.(answer := if answer then Yes else No, found := answer,
                                               check := if !answer && c.failFast then Flagging else Finishing)])))
    case Flagging => Some((held, c.(flag := true, slots := c.slots[k := s.(check := Cancelling)])))
    case Cancelling => Some((held, c.(cancelled := true, slots := c.slots[k := s.(check := Finishing)])))
    case Finishing => Some((held, c.(wg := c.wg - 1, slots := c.slots[k := s.(check := Releasing)])))
    case Releasing => Some((held - 1, c.(slots := c.slots[k := s.(check := Ended)])))
    case _ => None
  }

  function NewSlots(digests: seq<Digest>): seq<Slot> {
    seq(|digests|, k requires 0 <= k < |digests| => Slot(digests[k], false, NotYet, Idle, Unanswered))
  }

  function NewCaller(prefix: string, digests: seq<Digest>, failFast: bool): Caller {
    Caller(prefix, failFast, NewSlots(digests), 0, 0, Top, 0, false, false, false)
  }

  // The index after a step of the request itself.
  function Touched(lru: Lru, c: Caller): Lru {
    if c.pc.Chunk? && c.pos <= |c.slots| then
      FindMissing.Touch(lru, c.prefix, DigestsOf(c.slots[c.pos..ChunkEnd(c)]))
    else lru
  }

  function Next(cfg: Config, s: State, step: Label): Option<State> {
    match step
    case Call(prefix, digests, failFast) => Some(s.(callers := s.callers + [NewCaller(prefix, digests, failFast)]))
    case Cancel(i) =>
      if i < |s.callers| then Some(s.(callers := s.callers[i := s.callers[i].(external := true)])) else None
    case Index(lru) => Some(s.(lru := lru))
    case Main(i, giveUp) =>
      if i >= |s.callers| then None
      else
        match MainStep(cfg, s.lru.entries, s.held, s.callers[i], giveUp) {
        case Some((held, c)) => Some(State(Touched(s.lru, s.callers[i]), s.callers[i := c], held))
        case None => None
        }
    case Checking(i, k, answer) =>
      if i >= |s.callers| || k >= |s.callers[i].slots| then None
      else
        match CheckStep(cfg, s.held, s.callers[i], k, answer)
        case Some((held, c)) => Some(s.(callers := s.callers[i := c], held := held))
        case None => None
  }

  function Run(cfg: Config, s: State, labels: seq<Label>): Option<State>
    decreases |labels|
  {
    if labels == [] then Some(s)
    else
      match Next(cfg, s, labels[0])
      case None => None
      case Some(s') => Run(cfg, s', labels[1..])
  }

  function Initial(lru: Lru): State {
    State(lru, [], 0)
  }
}
