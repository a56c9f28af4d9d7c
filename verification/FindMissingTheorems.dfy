// What every interleaving of FindMissing requests keeps, and what their results
// mean.
module FindMissingTheorems {
  import opened Wrappers
  import opened Sums
  import opened LruSpec
  import opened Messages
  import FindMissing
  import opened FindMissingProtocol

  // ----- the invariant -----

  // In the semaphore, and in the wait group.
  function Unreleased(s: Slot): int {
    if s.check.Idle? || s.check.Ended? then 0 else 1
  }

  function Unfinished(s: Slot): int {
    if s.check.Idle? || s.check.Releasing? || s.check.Ended? then 0 else 1
  }

  // The checks that a request has in the semaphore.
  function HeldBy(c: Caller): int {
    Sum(c.slots, Unreleased)
  }

  // Some blob is neither indexed nor in the proxy.
  ghost predicate Lacking(cfg: Config, c: Caller) {
    exists k :: 0 <= k < |c.slots| && Refused(c.slots[k]) && !ProxyHas(cfg, c.slots[k].digest)
  }

  // The proxy has answered no.
  predicate Refused(s: Slot) {
    s.answer.No?
  }

  // The context is done, or will be: checks may go unanswered.
  ghost predicate Doomed(cfg: Config, c: Caller) {
    c.external || (c.failFast && (Lacking(cfg, c) || (c.pc.Returned? && c.pc.err.Some?)))
  }

  // The slot has been given a check.
  predicate Checked(cfg: Config, c: Caller, k: nat)
    requires k < |c.slots|
  {
    var s := c.slots[k];
    k < c.next && s.looked.Miss? && cfg.proxy.Some? && s.digest.sizeBytes <= cfg.maxProxyBlobSize
  }

  ghost predicate SlotOk(cfg: Config, c: Caller, k: nat)
    requires k < |c.slots|
  {
    var s := c.slots[k];
    && (s.looked.NotYet? <==> k >= c.pos)
    && (s.found <==> s.looked.Hit? || s.answer.Yes?)
    && (s.check.Idle? <==> !Checked(cfg, c, k))
    && (s.check.Idle? || s.check.Begin? || s.check.Asking? ==> s.answer.Unanswered?)
    && (s.check.Flagging? || s.check.Cancelling? ==> Refused(s) && c.failFast)
    && ((s.check.Finishing? || s.check.Releasing? || s.check.Ended?) && s.answer.Unanswered? ==> Doomed(cfg, c))
    && (s.answer.Yes? ==> ProxyHas(cfg, s.digest))
    && (Refused(s) ==> !ProxyHas(cfg, s.digest) || Doomed(cfg, c))
    && (c.failFast && Refused(s) && !s.check.Flagging? ==> c.flag)
    && (c.failFast && k < c.next && s.looked.Miss? ==> Checked(cfg, c, k))
  }

  // Why a request may answer that a blob is missing.
  predicate Evidence(cfg: Config, c: Caller, s: Slot) {
    s.looked.Miss? &&
    if cfg.proxy.None? then c.failFast
    else Refused(s) || (c.failFast && s.digest.sizeBytes > cfg.maxProxyBlobSize)
  }

  ghost predicate Proven(cfg: Config, c: Caller) {
    exists k :: 0 <= k < |c.slots| && Evidence(cfg, c, c.slots[k])
  }

  // An error has its reason.
  ghost predicate ErrorOk(cfg: Config, c: Caller, e: Error) {
    match e
    case MissingBlob => c.failFast && Proven(cfg, c)
    case RequestCancelled => c.external
  }

  ghost predicate ControlOk(cfg: Config, c: Caller) {
    && c.next <= c.pos <= |c.slots|
    && (c.flag ==> c.failFast && cfg.proxy.Some? && Doomed(cfg, c) && Proven(cfg, c))
    && (c.cancelled ==> c.failFast && cfg.proxy.Some? && (c.flag || c.pc.Returned?))
    && (c.pc.Top? || c.pc.Chunk? || c.pc.Waiting? ==> c.next == c.pos)
    && (c.pc.Chunk? ==> c.pos < |c.slots|)
    && (c.pc.Launching? || c.pc.Waiting? ==> cfg.proxy.Some?)
    && (c.pc.Waiting? ==> c.pos == |c.slots|)
    && (c.pc == Returned(None) ==> c.next == c.pos == |c.slots| && c.wg == 0)
    && (c.pc.Returned? && c.pc.err.Some? ==> ErrorOk(cfg, c, c.pc.err.value))
  }

  ghost predicate CallerOk(cfg: Config, c: Caller) {
    && ControlOk(cfg, c)
    && (forall k :: 0 <= k < |c.slots| ==> SlotOk(cfg, c, k))
    && c.wg == Sum(c.slots, Unfinished)
  }

  ghost predicate Inv(cfg: Config, s: State) {
    && LruSpec.Valid(s.lru)
    && (forall i :: 0 <= i < |s.callers| ==> CallerOk(cfg, s.callers[i]))
    && s.held == Sum(s.callers, HeldBy) <= MAX_CHECKS
  }

  // ----- every step keeps it -----

  lemma {:induction false} NewSlotsIdle(digests: seq<Digest>, f: Slot -> int)
    requires forall s: Slot :: s.check.Idle? ==> f(s) == 0
    ensures Sum(NewSlots(digests), f) == 0
  {
    if digests != [] {
      assert NewSlots(digests)[1..] == NewSlots(digests[1..]);
      NewSlotsIdle(digests[1..], f);
    }
  }

  lemma NewCallerOk(cfg: Config, prefix: string, digests: seq<Digest>, failFast: bool)
    ensures CallerOk(cfg, NewCaller(prefix, digests, failFast))
    ensures HeldBy(NewCaller(prefix, digests, failFast)) == 0
  {
    NewSlotsIdle(digests, Unfinished);
    NewSlotsIdle(digests, Unreleased);
  }

  // Steps that change no slot.
  lemma SameSlots(cfg: Config, c: Caller, c': Caller)
    requires CallerOk(cfg, c) && ControlOk(cfg, c')
    requires c'.slots == c.slots && c'.pos == c.pos && c'.next == c.next && c'.wg == c.wg
    requires c'.failFast == c.failFast && c'.flag == c.flag && (c.external ==> c'.external)
    requires c.pc.Returned? ==> c'.pc == c.pc
    ensures CallerOk(cfg, c')
  {
    forall k | 0 <= k < |c'.slots| ensures SlotOk(cfg, c', k) {
      assert SlotOk(cfg, c, k);
    }
  }

  lemma GiveUpOk(cfg: Config, c: Caller)
    requires CallerOk(cfg, c) && CtxDone(c) && !c.pc.Returned?
    ensures CallerOk(cfg, GiveUp(cfg, c))
  {
    SameSlots(cfg, c, GiveUp(cfg, c));
  }

  lemma {:induction false} SameSum(slots: seq<Slot>, slots': seq<Slot>, f: Slot -> int)
    requires |slots'| == |slots| && forall k :: 0 <= k < |slots| ==> f(slots'[k]) == f(slots[k])
    ensures Sum(slots', f) == Sum(slots, f)
  {
    if slots != [] { SameSum(slots[1..], slots'[1..], f); }
  }

  // Answers and misses are not taken back.
  ghost predicate Grows(c: Caller, c': Caller) {
    && |c'.slots| == |c.slots| && c'.failFast == c.failFast && (c.external ==> c'.external)
    && (c.pc.Returned? ==> c'.pc == c.pc)
    && forall k :: 0 <= k < |c.slots| ==> SlotGrows(c.slots[k], c'.slots[k])
  }

  predicate SlotGrows(s: Slot, s': Slot) {
    s'.digest == s.digest && (Refused(s) ==> Refused(s')) && (s.looked.Miss? ==> s'.looked.Miss?)
  }

  lemma StaysProven(cfg: Config, c: Caller, c': Caller)
    requires Grows(c, c')
    ensures Proven(cfg, c) ==> Proven(cfg, c')
    ensures Doomed(cfg, c) ==> Doomed(cfg, c')
  {
    if Proven(cfg, c) {
      var k :| 0 <= k < |c.slots| && Evidence(cfg, c, c.slots[k]);
      assert SlotGrows(c.slots[k], c'.slots[k]);
      assert Evidence(cfg, c', c'.slots[k]);
    }
    if Lacking(cfg, c) {
      var k :| 0 <= k < |c.slots| && Refused(c.slots[k]) && !ProxyHas(cfg, c.slots[k].digest);
      assert SlotGrows(c.slots[k], c'.slots[k]);
      assert Refused(c'.slots[k]);
    }
  }

  lemma AfterChunkOk(cfg: Config, es: seq<Entry>, c: Caller)
    requires CallerOk(cfg, c) && c.pc.Chunk?
    ensures CallerOk(cfg, AfterChunk(cfg, es, c)) && HeldBy(AfterChunk(cfg, es, c)) == HeldBy(c)
  {
    var c' := AfterChunk(cfg, es, c);
    ChunkGrows(cfg, es, c);
    StaysProven(cfg, c, c');
    forall k | 0 <= k < |c.slots| ensures SlotOk(cfg, c', k) && c'.slots[k].check == c.slots[k].check {
      ChunkSlotOk(cfg, es, c, k);
    }
    ChunkControlOk(cfg, es, c);
    SameSum(c.slots, c'.slots, Unfinished);
    SameSum(c.slots, c'.slots, Unreleased);
  }

  lemma ChunkSlotOk(cfg: Config, es: seq<Entry>, c: Caller, k: nat)
    requires ControlOk(cfg, c) && c.pc.Chunk? && k < |c.slots| && SlotOk(cfg, c, k)
    requires Doomed(cfg, c) ==> Doomed(cfg, AfterChunk(cfg, es, c))
    ensures SlotOk(cfg, AfterChunk(cfg, es, c), k) && AfterChunk(cfg, es, c).slots[k].check == c.slots[k].check
  {
    var c' := AfterChunk(cfg, es, c);
    assert c'.slots[k] == if c.pos <= k < ChunkEnd(c) then LookUp(es, c.prefix, c.slots[k]) else c.slots[k];
  }

  lemma ChunkGrows(cfg: Config, es: seq<Entry>, c: Caller)
    requires CallerOk(cfg, c) && c.pc.Chunk?
    ensures Grows(c, AfterChunk(cfg, es, c))
  {
    var c' := AfterChunk(cfg, es, c);
    forall k | 0 <= k < |c.slots| ensures SlotGrows(c.slots[k], c'.slots[k]) {
      assert SlotOk(cfg, c, k);
    }
  }

  lemma ChunkControlOk(cfg: Config, es: seq<Entry>, c: Caller)
    requires ControlOk(cfg, c) && c.pc.Chunk? && Grows(c, AfterChunk(cfg, es, c))
    ensures ControlOk(cfg, AfterChunk(cfg, es, c))
  {
    var c' := AfterChunk(cfg, es, c);
    StaysProven(cfg, c, c');
    ChunkEvidence(cfg, es, c);
  }

  // A request returns after its lookups only with a miss to show for it.
  lemma ChunkEvidence(cfg: Config, es: seq<Entry>, c: Caller)
    requires c.pc.Chunk? && c.pos <= |c.slots|
    ensures var c' := AfterChunk(cfg, es, c);
      c'.pc.Returned? ==> c'.pc == Returned(Some(MissingBlob)) && ErrorOk(cfg, c', MissingBlob)
  {
    var c' := AfterChunk(cfg, es, c);
    if c'.pc.Returned? {
      var k :| c.pos <= k < ChunkEnd(c) && k < |c'.slots| && !c'.slots[k].found;
      assert Evidence(cfg, c', c'.slots[k]);
    }
  }

  lemma {:induction false} NothingOf(slots: seq<Slot>, f: Slot -> int)
    requires forall k :: 0 <= k < |slots| ==> f(slots[k]) == 0
    ensures Sum(slots, f) == 0
  {
    if slots != [] { NothingOf(slots[1..], f); }
  }

  // Without a proxy there are no checks.
  lemma NoProxyNoChecks(cfg: Config, c: Caller)
    requires CallerOk(cfg, c) && cfg.proxy.None?
    ensures c.wg == 0
  {
    forall k | 0 <= k < |c.slots| ensures Unfinished(c.slots[k]) == 0 {
      assert SlotOk(cfg, c, k);
    }
    NothingOf(c.slots, Unfinished);
  }

  // A slot that needs no check is passed over.
  lemma SkipOk(cfg: Config, c: Caller)
    requires CallerOk(cfg, c) && c.pc.Launching? && c.next < c.pos
    requires c.slots[c.next].found || (c.slots[c.next].digest.sizeBytes > cfg.maxProxyBlobSize && !c.failFast)
    ensures CallerOk(cfg, c.(next := c.next + 1))
  {
    var c' := c.(next := c.next + 1);
    forall k | 0 <= k < |c.slots| ensures SlotOk(cfg, c', k) {
      assert SlotOk(cfg, c, k);
    }
  }

  lemma AcquireOk(cfg: Config, c: Caller, c': Caller)
    requires CallerOk(cfg, c) && c.pc.Launching? && c.next < c.pos
    requires var s := c.slots[c.next];
      && !s.found && s.digest.sizeBytes <= cfg.maxProxyBlobSize
      && c' == c.(slots := c.slots[c.next := s.(check := Begin)], next := c.next + 1, wg := c.wg + 1)
    ensures CallerOk(cfg, c') && HeldBy(c') == HeldBy(c) + 1
  {
    var s := c.slots[c.next];
    assert SlotOk(cfg, c, c.next);
    SumUpdate(c.slots, c.next, s.(check := Begin), Unfinished);
    SumUpdate(c.slots, c.next, s.(check := Begin), Unreleased);
    StaysProven(cfg, c, c');
    forall k | 0 <= k < |c.slots| ensures SlotOk(cfg, c', k) {
      assert SlotOk(cfg, c, k);
    }
  }

  lemma LaunchOk(cfg: Config, es: seq<Entry>, held: int, c: Caller, giveUp: bool)
    requires CallerOk(cfg, c) && c.pc.Launching? && MainStep(cfg, es, held, c, giveUp).Some? && held <= MAX_CHECKS
    ensures var (held', c') := MainStep(cfg, es, held, c, giveUp).value;
      CallerOk(cfg, c') && held' - HeldBy(c') == held - HeldBy(c) && held' <= MAX_CHECKS
  {
    var (held', c') := MainStep(cfg, es, held, c, giveUp).value;
    if c.next >= c.pos {
      SameSlots(cfg, c, c.(pc := Top));
    } else {
      var s := c.slots[c.next];
      assert SlotOk(cfg, c, c.next);
      if s.found {
        SkipOk(cfg, c);
      } else if s.digest.sizeBytes > cfg.maxProxyBlobSize {
        if c.failFast {
          assert Evidence(cfg, c, s);
          SameSlots(cfg, c, c');
        } else {
          SkipOk(cfg, c);
        }
      } else if giveUp {
        GiveUpOk(cfg, c);
      } else {
        AcquireOk(cfg, c, c');
      }
    }
  }

  lemma MainStepOk(cfg: Config, es: seq<Entry>, held: int, c: Caller, giveUp: bool)
    requires CallerOk(cfg, c) && MainStep(cfg, es, held, c, giveUp).Some? && held <= MAX_CHECKS
    ensures var (held', c') := MainStep(cfg, es, held, c, giveUp).value;
      CallerOk(cfg, c') && held' - HeldBy(c') == held - HeldBy(c) && held' <= MAX_CHECKS
  {
    match c.pc
    case Top =>
      if cfg.proxy.None? { NoProxyNoChecks(cfg, c); }
      SameSlots(cfg, c, MainStep(cfg, es, held, c, giveUp).value.1);
    case Chunk => AfterChunkOk(cfg, es, c);
    case Launching => LaunchOk(cfg, es, held, c, giveUp);
    case Waiting => SameSlots(cfg, c, MainStep(cfg, es, held, c, giveUp).value.1);
  }

  // One slot and the flags change.
  lemma OneSlotOk(cfg: Config, c: Caller, c': Caller, k: nat, s: Slot)
    requires CallerOk(cfg, c) && k < |c.slots| && Grows(c, c')
    requires c' == c.(slots := c.slots[k := s], wg := c'.wg, flag := c'.flag, cancelled := c'.cancelled)
    requires ControlOk(cfg, c') && (c.flag ==> c'.flag) && SlotOk(cfg, c', k)
    requires c'.wg == c.wg - Unfinished(c.slots[k]) + Unfinished(s)
    ensures CallerOk(cfg, c') && HeldBy(c') == HeldBy(c) - Unreleased(c.slots[k]) + Unreleased(s)
  {
    SumUpdate(c.slots, k, s, Unfinished);
    SumUpdate(c.slots, k, s, Unreleased);
    StaysProven(cfg, c, c');
    forall j | 0 <= j < |c.slots| ensures SlotOk(cfg, c', j) {
      assert SlotOk(cfg, c, j);
    }
  }

  lemma CheckStepOk(cfg: Config, held: int, c: Caller, k: nat, answer: bool)
    requires CallerOk(cfg, c) && k < |c.slots| && CheckStep(cfg, held, c, k, answer).Some? && held <= MAX_CHECKS
    ensures var (held', c') := CheckStep(cfg, held, c, k, answer).value;
      CallerOk(cfg, c') && held' - HeldBy(c') == held - HeldBy(c) && held' <= MAX_CHECKS
  {
    var (held', c') := CheckStep(cfg, held, c, k, answer).value;
    assert SlotOk(cfg, c, k);
    StillUnfinished(c, k);
    CheckGrows(cfg, held, c, k, answer);
    StaysProven(cfg, c, c');
    CheckControlOk(cfg, held, c, k, answer);
    CheckSlotOk(cfg, held, c, k, answer);
    CheckChangesOne(cfg, held, c, k, answer);
    CheckCounts(cfg, held, c, k, answer);
    OneSlotOk(cfg, c, c', k, c'.slots[k]);
  }

  // The semaphore and the wait group follow the state of the check.
  lemma CheckCounts(cfg: Config, held: int, c: Caller, k: nat, answer: bool)
    requires k < |c.slots| && CheckStep(cfg, held, c, k, answer).Some?
    ensures var (held', c') := CheckStep(cfg, held, c, k, answer).value;
      && |c'.slots| == |c.slots| && (c.flag ==> c'.flag)
      && c'.wg == c.wg - Unfinished(c.slots[k]) + Unfinished(c'.slots[k])
      && held' == held - Unreleased(c.slots[k]) + Unreleased(c'.slots[k]) <= held
  {
    var o := CheckStep(cfg, held, c, k, answer);
  }

  lemma CheckGrows(cfg: Config, held: int, c: Caller, k: nat, answer: bool)
    requires k < |c.slots| && SlotOk(cfg, c, k) && CheckStep(cfg, held, c, k, answer).Some?
    ensures Grows(c, CheckStep(cfg, held, c, k, answer).value.1)
  {
    var c' := CheckStep(cfg, held, c, k, answer).value.1;
  }

  lemma CheckControlOk(cfg: Config, held: int, c: Caller, k: nat, answer: bool)
    requires k < |c.slots| && SlotOk(cfg, c, k) && ControlOk(cfg, c) && CheckStep(cfg, held, c, k, answer).Some?
    requires Unfinished(c.slots[k]) == 1 ==> c.wg >= 1
    requires Grows(c, CheckStep(cfg, held, c, k, answer).value.1)
    ensures ControlOk(cfg, CheckStep(cfg, held, c, k, answer).value.1)
  {
    var c' := CheckStep(cfg, held, c, k, answer).value.1;
    StaysProven(cfg, c, c');
    if c.slots[k].check.Flagging? {
      assert Evidence(cfg, c', c'.slots[k]);
      RefusalDooms(cfg, c', k);
    }
  }

  // A refusal proves that a blob is lacking, or was made for a done context.
  lemma RefusalDooms(cfg: Config, c: Caller, k: nat)
    requires c.failFast && k < |c.slots| && Refused(c.slots[k]) && (ProxyHas(cfg, c.slots[k].digest) ==> Doomed(cfg, c))
    ensures Doomed(cfg, c)
  {
  }

  lemma CheckSlotOk(cfg: Config, held: int, c: Caller, k: nat, answer: bool)
    requires k < |c.slots| && SlotOk(cfg, c, k) && ControlOk(cfg, c) && CheckStep(cfg, held, c, k, answer).Some?
    requires Unfinished(c.slots[k]) == 1 ==> c.wg >= 1
    requires Doomed(cfg, c) ==> Doomed(cfg, CheckStep(cfg, held, c, k, answer).value.1)
    ensures SlotOk(cfg, CheckStep(cfg, held, c, k, answer).value.1, k)
  {
    var c' := CheckStep(cfg, held, c, k, answer).value.1;
    assert c.slots[k].check.Begin? || c.slots[k].check.Asking? ==> CtxDone(c) ==> Doomed(cfg, c);
  }

  // A request that returned nil has no unfinished check.
  lemma StillUnfinished(c: Caller, k: nat)
    requires k < |c.slots| && c.wg == Sum(c.slots, Unfinished)
    ensures Unfinished(c.slots[k]) == 1 ==> c.wg >= 1
  {
    SumBounds(c.slots, k, Unfinished);
  }

  lemma ReplaceCaller(cfg: Config, s: State, i: nat, c: Caller, held: int, lru: Lru)
    requires Inv(cfg, s) && i < |s.callers| && CallerOk(cfg, c) && LruSpec.Valid(lru)
    requires held - HeldBy(c) == s.held - HeldBy(s.callers[i]) && held <= MAX_CHECKS
    ensures Inv(cfg, State(lru, s.callers[i := c], held))
  {
    SumUpdate(s.callers, i, c, HeldBy);
  }

  lemma NextKeepsInv(cfg: Config, s: State, step: Label)
    requires Inv(cfg, s) && Next(cfg, s, step).Some? && (step.Index? ==> LruSpec.Valid(step.lru))
    ensures Inv(cfg, Next(cfg, s, step).value)
  {
    match step
    case Call(prefix, digests, failFast) =>
      NewCallerOk(cfg, prefix, digests, failFast);
      SumConcat(s.callers, [NewCaller(prefix, digests, failFast)], HeldBy);
      SumSingle(NewCaller(prefix, digests, failFast), HeldBy);
    case Cancel(i) =>
      var c := s.callers[i].(external := true);
      SameSlots(cfg, s.callers[i], c);
      ReplaceCaller(cfg, s, i, c, s.held, s.lru);
    case Index(_) =>
    case Main(i, giveUp) =>
      MainStepOk(cfg, s.lru.entries, s.held, s.callers[i], giveUp);
      TouchedKeeps(s.lru, s.callers[i]);
      var (held, c) := MainStep(cfg, s.lru.entries, s.held, s.callers[i], giveUp).value;
      ReplaceCaller(cfg, s, i, c, held, FindMissingProtocol.Touched(s.lru, s.callers[i]));
    case Checking(i, k, answer) =>
      CheckStepOk(cfg, s.held, s.callers[i], k, answer);
      var (held, c) := CheckStep(cfg, s.held, s.callers[i], k, answer).value;
      ReplaceCaller(cfg, s, i, c, held, s.lru);
  }

  lemma TouchedKeeps(lru: Lru, c: Caller)
    requires LruSpec.Valid(lru)
    ensures LruSpec.Valid(FindMissingProtocol.Touched(lru, c)) && FindMissing.SameAnswers(lru.entries, FindMissingProtocol.Touched(lru, c).entries)
  {
    if c.pc.Chunk? && c.pos <= |c.slots| {
      FindMissing.TouchKeeps(lru, c.prefix, DigestsOf(c.slots[c.pos..ChunkEnd(c)]));
    }
  }

  ghost predicate LabelsOk(labels: seq<Label>) {
    forall k :: 0 <= k < |labels| ==> labels[k].Index? ==> LruSpec.Valid(labels[k].lru)
  }

  // In every run: every request's counters match its checks, and the semaphore
  // holds exactly the checks that have not been released, never too many.
  lemma {:induction false} RunKeepsInv(cfg: Config, s: State, labels: seq<Label>)
    requires Inv(cfg, s) && LabelsOk(labels) && FindMissingProtocol.Run(cfg, s, labels).Some?
    ensures Inv(cfg, FindMissingProtocol.Run(cfg, s, labels).value)
    decreases |labels|
  {
    if labels != [] {
      NextKeepsInv(cfg, s, labels[0]);
      RunKeepsInv(cfg, Next(cfg, s, labels[0]).value, labels[1..]);
    }
  }

  // ----- the semaphore -----

  lemma {:induction false} NothingHeld(callers: seq<Caller>)
    requires forall i, k :: 0 <= i < |callers| && 0 <= k < |callers[i].slots| ==> Unreleased(callers[i].slots[k]) == 0
    ensures Sum(callers, HeldBy) == 0
  {
    if callers != [] {
      NothingOf(callers[0].slots, Unreleased);
      NothingHeld(callers[1..]);
    }
  }

  // Once every check has ended, everything that was acquired is released.
  lemma AllReleased(cfg: Config, s: State)
    requires Inv(cfg, s)
    requires forall i, k :: 0 <= i < |s.callers| && 0 <= k < |s.callers[i].slots| ==>
               s.callers[i].slots[k].check.Idle? || s.callers[i].slots[k].check.Ended?
    ensures s.held == 0
  {
    NothingHeld(s.callers);
  }

  lemma {:induction false} SomeSlot(slots: seq<Slot>, f: Slot -> int) returns (k: nat)
    requires Sum(slots, f) != 0
    ensures k < |slots| && f(slots[k]) != 0
  {
    if f(slots[0]) != 0 {
      k := 0;
    } else {
      k := SomeSlot(slots[1..], f);
      k := k + 1;
    }
  }

  lemma {:induction false} SomeHolder(callers: seq<Caller>) returns (i: nat)
    requires Sum(callers, HeldBy) != 0
    ensures i < |callers| && HeldBy(callers[i]) != 0
  {
    if HeldBy(callers[0]) != 0 {
      i := 0;
    } else {
      i := SomeHolder(callers[1..]);
      i := i + 1;
    }
  }

  lemma CheckCanStep(cfg: Config, s: State, i: nat, k: nat)
    requires i < |s.callers| && k < |s.callers[i].slots| && Unreleased(s.callers[i].slots[k]) == 1
    ensures Next(cfg, s, Checking(i, k, ProxyHas(cfg, s.callers[i].slots[k].digest))).Some?
  {
  }

  // No deadlock: while a request has not returned, it or some check can go on,
  // even when the semaphore is exhausted.
  lemma NoDeadlock(cfg: Config, s: State, i: nat) returns (step: Label)
    requires Inv(cfg, s) && i < |s.callers| && !s.callers[i].pc.Returned?
    ensures Next(cfg, s, step).Some?
    ensures (step.Main? && step.i == i) || (step.Checking? && HeldBy(s.callers[step.i]) != 0)
  {
    var c := s.callers[i];
    assert CallerOk(cfg, c);
    if MainStep(cfg, s.lru.entries, s.held, c, false).Some? {
      step := Main(i, false);
    } else if MainStep(cfg, s.lru.entries, s.held, c, true).Some? {
      step := Main(i, true);
    } else if c.pc.Waiting? {
      var k := SomeSlot(c.slots, Unfinished);
      step := HolderSteps(cfg, s, i, k);
    } else {
      var j := SomeHolder(s.callers);
      var k := SomeSlot(s.callers[j].slots, Unreleased);
      step := HolderSteps(cfg, s, j, k);
    }
  }

  // A check in the semaphore can always go on.
  lemma HolderSteps(cfg: Config, s: State, i: nat, k: nat) returns (step: Label)
    requires i < |s.callers| && k < |s.callers[i].slots| && Unreleased(s.callers[i].slots[k]) == 1
    ensures step.Checking? && step.i == i && Next(cfg, s, step).Some? && HeldBy(s.callers[i]) != 0
  {
    CheckCanStep(cfg, s, i, k);
    SumBounds(s.callers[i].slots, k, Unreleased);
    step := Checking(i, k, ProxyHas(cfg, s.callers[i].slots[k].digest));
  }

  // ----- termination -----

  function CheckRank(s: Slot): int {
    match s.check
    case Idle => 7
    case Begin => 6
    case Asking => 5
    case Flagging => 4
    case Cancelling => 3
    case Finishing => 2
    case Releasing => 1
    case Ended => 0
  }

  function PcRank(pc: Pc): int {
    match pc
    case Top => 2
    case Chunk => 1
    case Launching => 3
    case Waiting => 1
    case Returned(_) => 0
  }

  function Rank(c: Caller): int {
    4 * (|c.slots| - c.pos) + 2 * (|c.slots| - c.next) + PcRank(c.pc) + Sum(c.slots, CheckRank)
  }

  function TotalRank(s: State): int {
    Sum(s.callers, Rank)
  }

  lemma RankNonNegative(cfg: Config, c: Caller)
    requires CallerOk(cfg, c)
    ensures Rank(c) >= 0
  {
    SumNonNegative(c.slots, CheckRank);
  }

  lemma {:induction false} TotalRankNonNegative(cfg: Config, callers: seq<Caller>)
    requires forall i :: 0 <= i < |callers| ==> CallerOk(cfg, callers[i])
    ensures Sum(callers, Rank) >= 0
  {
    if callers != [] {
      RankNonNegative(cfg, callers[0]);
      TotalRankNonNegative(cfg, callers[1..]);
    }
  }

  lemma MainDescends(cfg: Config, es: seq<Entry>, held: int, c: Caller, giveUp: bool)
    requires CallerOk(cfg, c) && MainStep(cfg, es, held, c, giveUp).Some?
    ensures Rank(MainStep(cfg, es, held, c, giveUp).value.1) < Rank(c)
  {
    match c.pc
    case Chunk => ChunkDescends(cfg, es, c);
    case Launching =>
      if c.next < c.pos { assert SlotOk(cfg, c, c.next); }
      LaunchDescends(cfg, es, held, c, giveUp);
    case _ => var o := MainStep(cfg, es, held, c, giveUp);
  }

  lemma ChunkDescends(cfg: Config, es: seq<Entry>, c: Caller)
    requires ControlOk(cfg, c) && c.pc.Chunk?
    ensures Rank(AfterChunk(cfg, es, c)) < Rank(c)
  {
    var c' := AfterChunk(cfg, es, c);
    ChunkKeepsChecks(cfg, es, c);
    SameSum(c.slots, c'.slots, CheckRank);
  }

  lemma ChunkKeepsChecks(cfg: Config, es: seq<Entry>, c: Caller)
    requires c.pc.Chunk? && c.next <= c.pos < |c.slots|
    ensures var c' := AfterChunk(cfg, es, c);
      && |c'.slots| == |c.slots| && c.pos < c'.pos && c.next <= c'.next && PcRank(c'.pc) <= 3
      && forall k :: 0 <= k < |c.slots| ==> c'.slots[k].check == c.slots[k].check
  {
  }

  lemma LaunchDescends(cfg: Config, es: seq<Entry>, held: int, c: Caller, giveUp: bool)
    requires ControlOk(cfg, c) && c.pc.Launching? && MainStep(cfg, es, held, c, giveUp).Some?
    requires c.next < c.pos ==> c.slots[c.next].check.Idle?
    ensures Rank(MainStep(cfg, es, held, c, giveUp).value.1) < Rank(c)
  {
    var o := MainStep(cfg, es, held, c, giveUp);
    var c' := o.value.1;
    if c.next < c.pos && c'.slots != c.slots {
      LaunchedRank(c, c');
    }
  }

  lemma LaunchedRank(c: Caller, c': Caller)
    requires c.pc.Launching? && c.next < c.pos <= |c.slots| && c.slots[c.next].check.Idle?
    requires c' == c.(slots := c.slots[c.next := c.slots[c.next].(check := Begin)], next := c.next + 1, wg := c.wg + 1)
    ensures Rank(c') < Rank(c)
  {
    SumUpdate(c.slots, c.next, c.slots[c.next].(check := Begin), CheckRank);
  }

  // A check moves on, and changes nothing but its own slot, the flags and the
  // count of the wait group.
  lemma CheckChangesOne(cfg: Config, held: int, c: Caller, k: nat, answer: bool)
    requires k < |c.slots| && CheckStep(cfg, held, c, k, answer).Some?
    ensures var c' := CheckStep(cfg, held, c, k, answer).value.1;
      && c' == c.(slots := c'.slots, wg := c'.wg, flag := c'.flag, cancelled := c'.cancelled)
      && |c'.slots| == |c.slots| && c'.slots == c.slots[k := c'.slots[k]]
      && c'.slots[k].digest == c.slots[k].digest && c'.slots[k].looked == c.slots[k].looked
      && CheckRank(c'.slots[k]) < CheckRank(c.slots[k])
  {
    var o, s := CheckStep(cfg, held, c, k, answer), c.slots[k];
    match s.check
    case Begin => ReplacesSlot(c, o.value.1, k, s.(check := if CtxDone(c) then Finishing else Asking));
    case Asking =>
      ReplacesSlot(c, o.value.1, k, s.(answer := if answer then Yes else No, found := answer,
                                       check := if !answer && c.failFast then Flagging else Finishing));
    case Flagging => ReplacesSlot(c, o.value.1, k, s.(check := Cancelling));
    case Cancelling => ReplacesSlot(c, o.value.1, k, s.(check := Finishing));
    case Finishing => ReplacesSlot(c, o.value.1, k, s.(check := Releasing));
    case Releasing => ReplacesSlot(c, o.value.1, k, s.(check := Ended));
  }

  lemma ReplacesSlot(c: Caller, c': Caller, k: nat, s: Slot)
    requires k < |c.slots| && c'.slots == c.slots[k := s]
    ensures |c'.slots| == |c.slots| && c'.slots[k] == s && c'.slots == c.slots[k := c'.slots[k]]
  {
  }

  lemma CheckDescends(cfg: Config, held: int, c: Caller, k: nat, answer: bool)
    requires k < |c.slots| && CheckStep(cfg, held, c, k, answer).Some?
    ensures Rank(CheckStep(cfg, held, c, k, answer).value.1) < Rank(c)
  {
    var c' := CheckStep(cfg, held, c, k, answer).value.1;
    CheckChangesOne(cfg, held, c, k, answer);
    SumUpdate(c.slots, k, c'.slots[k], CheckRank);
  }

  // Every call returns: each step of a request or of a check brings the system
  // closer to the end, so without new calls only finitely many can be taken.
  lemma StepsDescend(cfg: Config, s: State, step: Label)
    requires Inv(cfg, s) && Next(cfg, s, step).Some? && (step.Main? || step.Checking?)
    ensures 0 <= TotalRank(Next(cfg, s, step).value) < TotalRank(s)
  {
    var s' := Next(cfg, s, step).value;
    NextKeepsInv(cfg, s, step);
    TotalRankNonNegative(cfg, s'.callers);
    var i := step.i;
    SumUpdate(s.callers, i, s'.callers[i], Rank);
    if step.Main? {
      MainDescends(cfg, s.lru.entries, s.held, s.callers[i], step.giveUp);
    } else {
      CheckDescends(cfg, s.held, s.callers[i], step.k, step.answer);
    }
  }

  // ----- what the results mean -----

  // The proxy is asked for a blob and has it.
  predicate Confirmed(cfg: Config, d: Digest) {
    ProxyHas(cfg, d) && d.sizeBytes <= cfg.maxProxyBlobSize
  }

  predicate SlotFound(cfg: Config, s: Slot) {
    s.looked.Hit? || Confirmed(cfg, s.digest)
  }

  // With fail-fast off and no cancellation a request returns no error, and its
  // slots are nil exactly for the blobs found here or confirmed by the proxy.
  lemma AnswersAreExact(cfg: Config, c: Caller, k: nat)
    requires CallerOk(cfg, c) && c.pc.Returned? && !c.failFast && !c.external && k < |c.slots|
    ensures c.pc == Returned(None)
    ensures c.slots[k].found <==> SlotFound(cfg, c.slots[k])
  {
    assert SlotOk(cfg, c, k);
    StillUnfinished(c, k);
  }
}
