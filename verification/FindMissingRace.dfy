// When a fail-fast FindMissing request with a proxy can return nil although a
// blob is missing: the last select may take the finished wait group when the
// context is done as well.
module FindMissingRace {
  import opened Wrappers
  import opened Sums
  import opened LruSpec
  import opened Messages
  import opened FindMissing
  import opened FindMissingProtocol
  import opened FindMissingTheorems
  import opened FindMissingResults

  lemma {:induction false} RunConcat(cfg: Config, s: State, a: seq<Label>, b: seq<Label>)
    requires FindMissingProtocol.Run(cfg, s, a).Some?
    ensures FindMissingProtocol.Run(cfg, s, a + b) ==
            FindMissingProtocol.Run(cfg, FindMissingProtocol.Run(cfg, s, a).value, b)
    decreases |a|
  {
    if a == [] {
      assert a + b == b;
    } else {
      assert (a + b)[1..] == a[1..] + b;
      RunConcat(cfg, Next(cfg, s, a[0]).value, a[1..], b);
    }
  }

  lemma RunCons(cfg: Config, s: State, step: Label, labels: seq<Label>)
    requires Next(cfg, s, step).Some?
    ensures FindMissingProtocol.Run(cfg, s, [step] + labels) ==
            FindMissingProtocol.Run(cfg, Next(cfg, s, step).value, labels)
  {
    assert ([step] + labels)[1..] == labels;
  }

  // ----- blobs that are nowhere -----

  // The blob is neither here nor in the proxy, so that its check fails the
  // request before it leaves the semaphore.
  predicate Lost(cfg: Config, es: seq<Entry>, prefix: string, d: Digest) {
    !Available(es, prefix, d) && !ProxyHas(cfg, d)
  }

  function LostIn(cfg: Config, seen: seq<seq<Entry>>, prefix: string, ds: seq<Digest>): nat
    requires |seen| == |ds|
  {
    if ds == [] then 0
    else (if Lost(cfg, seen[0], prefix, ds[0]) then 1 else 0) + LostIn(cfg, seen[1..], prefix, ds[1..])
  }

  function LostOf(cfg: Config, es: seq<Entry>, prefix: string, ds: seq<Digest>): nat {
    if ds == [] then 0
    else (if Lost(cfg, es, prefix, ds[0]) then 1 else 0) + LostOf(cfg, es, prefix, ds[1..])
  }

  lemma {:induction false} SameLost(cfg: Config, es: seq<Entry>, seen: seq<seq<Entry>>, prefix: string, ds: seq<Digest>)
    requires |seen| == |ds| && forall k :: 0 <= k < |seen| ==> SameAnswers(es, seen[k])
    ensures LostIn(cfg, seen, prefix, ds) == LostOf(cfg, es, prefix, ds)
  {
    if ds != [] {
      SameAvailable(es, seen[0], prefix, ds[0]);
      SameLost(cfg, es, seen[1..], prefix, ds[1..]);
    }
  }

  // The checks of all digests that miss can be started before any of them fails
  // the request: none is too large for the proxy, and before each of them fewer
  // are lost than the semaphore holds.
  predicate AllStart(cfg: Config, es: seq<Entry>, prefix: string, ds: seq<Digest>) {
    forall k :: 0 <= k < |ds| ==> Starts(cfg, es, prefix, ds[k], LostOf(cfg, es, prefix, ds[..k]))
  }

  predicate Starts(cfg: Config, es: seq<Entry>, prefix: string, d: Digest, lost: nat) {
    !Available(es, prefix, d) ==> d.sizeBytes <= cfg.maxProxyBlobSize && lost < MAX_CHECKS
  }

  // The same when each of them is looked up in an index of its own.
  predicate AllStartIn(cfg: Config, seen: seq<seq<Entry>>, prefix: string, ds: seq<Digest>)
    requires |seen| == |ds|
  {
    forall k :: 0 <= k < |ds| ==> Starts(cfg, seen[k], prefix, ds[k], LostIn(cfg, seen[..k], prefix, ds[..k]))
  }

  lemma SameStarts(cfg: Config, es: seq<Entry>, seen: seq<seq<Entry>>, prefix: string, ds: seq<Digest>)
    requires |seen| == |ds| && forall k :: 0 <= k < |seen| ==> SameAnswers(es, seen[k])
    ensures AllStartIn(cfg, seen, prefix, ds) ==> AllStart(cfg, es, prefix, ds)
  {
    forall k | 0 <= k < |ds| && AllStartIn(cfg, seen, prefix, ds)
      ensures Starts(cfg, es, prefix, ds[k], LostOf(cfg, es, prefix, ds[..k]))
    {
      assert Starts(cfg, seen[k], prefix, ds[k], LostIn(cfg, seen[..k], prefix, ds[..k]));
      SameAvailable(es, seen[k], prefix, ds[k]);
      SameLost(cfg, es, seen[..k], prefix, ds[..k]);
    }
  }

  // ----- a request that has returned nil has started all checks -----

  function LostSlot(cfg: Config): Slot -> int {
    (s: Slot) => if s.looked.Miss? && !ProxyHas(cfg, s.digest) then 1 else 0
  }

  // While the context is not done, a check that has left the proxy found its
  // blob; and whenever a check was started, there was room for all lost ones
  // before it.
  ghost predicate Timely(cfg: Config, c: Caller) {
    && c.failFast && c.next <= |c.slots|
    && (!CtxDone(c) ==> forall k :: 0 <= k < |c.slots| ==> LeftWithYes(c.slots[k]))
    && forall k :: 0 <= k < c.next ==> StartedInTime(cfg, c.slots, k)
  }

  predicate LeftWithYes(s: Slot) {
    s.check.Finishing? || s.check.Releasing? || s.check.Ended? ==> s.answer.Yes?
  }

  predicate StartedInTime(cfg: Config, slots: seq<Slot>, k: nat)
    requires k < |slots|
  {
    slots[k].looked.Miss? ==> Sum(slots[..k], LostSlot(cfg)) < MAX_CHECKS
  }

  // Only lookups and digests count for what is lost.
  lemma {:induction false} SameLostSlots(cfg: Config, slots: seq<Slot>, slots': seq<Slot>, n: nat)
    requires n <= |slots| == |slots'|
    requires forall k :: 0 <= k < n ==> slots'[k].looked == slots[k].looked && slots'[k].digest == slots[k].digest
    ensures Sum(slots'[..n], LostSlot(cfg)) == Sum(slots[..n], LostSlot(cfg))
  {
    if n > 0 {
      SameLostSlots(cfg, slots, slots', n - 1);
      FrontSum(slots, n - 1, LostSlot(cfg));
      FrontSum(slots', n - 1, LostSlot(cfg));
    }
  }

  lemma FrontSum(slots: seq<Slot>, n: nat, f: Slot -> int)
    requires n < |slots|
    ensures Sum(slots[..n + 1], f) == Sum(slots[..n], f) + f(slots[n])
  {
    assert slots[..n + 1] == slots[..n] + [slots[n]];
    SumConcat(slots[..n], [slots[n]], f);
    SumSingle(slots[n], f);
  }

  lemma SameStarted(cfg: Config, slots: seq<Slot>, slots': seq<Slot>, n: nat)
    requires n <= |slots| == |slots'| && forall k :: 0 <= k < n ==> StartedInTime(cfg, slots, k)
    requires forall k :: 0 <= k < n ==> slots'[k].looked == slots[k].looked && slots'[k].digest == slots[k].digest
    ensures forall k :: 0 <= k < n ==> StartedInTime(cfg, slots', k)
  {
    forall k | 0 <= k < n ensures StartedInTime(cfg, slots', k) {
      assert StartedInTime(cfg, slots, k);
      SameLostSlots(cfg, slots, slots', k);
    }
  }

  // Before a check is started, all lost blobs are held in the semaphore.
  lemma {:induction false} LostAreHeld(cfg: Config, c: Caller, n: nat)
    requires CallerOk(cfg, c) && Timely(cfg, c) && !CtxDone(c) && n <= c.next
    ensures Sum(c.slots[..n], LostSlot(cfg)) <= Sum(c.slots[..n], Unreleased)
  {
    if n > 0 {
      LostAreHeld(cfg, c, n - 1);
      FrontSum(c.slots, n - 1, LostSlot(cfg));
      FrontSum(c.slots, n - 1, Unreleased);
      assert SlotOk(cfg, c, n - 1) && LeftWithYes(c.slots[n - 1]);
    }
  }

  lemma NextIsTimely(cfg: Config, c: Caller, held: int)
    requires CallerOk(cfg, c) && Timely(cfg, c) && !CtxDone(c) && c.next < |c.slots|
    requires HeldBy(c) <= held < MAX_CHECKS
    ensures StartedInTime(cfg, c.slots, c.next)
  {
    LostAreHeld(cfg, c, c.next);
    SumSplit(c.slots, c.next, Unreleased);
    SumNonNegative(c.slots[c.next..], Unreleased);
  }

  lemma MainStaysTimely(cfg: Config, es: seq<Entry>, held: int, c: Caller, giveUp: bool)
    requires CallerOk(cfg, c) && Timely(cfg, c) && cfg.proxy.Some? && HeldBy(c) <= held
    requires MainStep(cfg, es, held, c, giveUp).Some?
    ensures Timely(cfg, MainStep(cfg, es, held, c, giveUp).value.1)
  {
    match c.pc
    case Chunk => ChunkStaysTimely(cfg, es, c);
    case Launching => LaunchStaysTimely(cfg, es, held, c, giveUp);
    case _ => var o := MainStep(cfg, es, held, c, giveUp);
  }

  lemma ChunkStaysTimely(cfg: Config, es: seq<Entry>, c: Caller)
    requires CallerOk(cfg, c) && Timely(cfg, c) && cfg.proxy.Some? && c.pc.Chunk?
    ensures Timely(cfg, AfterChunk(cfg, es, c))
  {
    var c' := AfterChunk(cfg, es, c);
    assert c'.slots == LookUpChunk(es, c);
    SameStarted(cfg, c.slots, c'.slots, c.next);
    forall k | 0 <= k < |c.slots| ensures LeftWithYes(c'.slots[k]) <==> LeftWithYes(c.slots[k]) {
      assert c'.slots[k].check == c.slots[k].check && c'.slots[k].answer == c.slots[k].answer;
    }
    forall k | c.next <= k < c'.next ensures StartedInTime(cfg, c'.slots, k) {
      assert SlotOk(cfg, c, k);
      assert c'.slots[k].found;
    }
  }

  lemma LaunchStaysTimely(cfg: Config, es: seq<Entry>, held: int, c: Caller, giveUp: bool)
    requires CallerOk(cfg, c) && Timely(cfg, c) && cfg.proxy.Some? && HeldBy(c) <= held && c.pc.Launching?
    requires MainStep(cfg, es, held, c, giveUp).Some?
    ensures Timely(cfg, MainStep(cfg, es, held, c, giveUp).value.1)
  {
    var c' := MainStep(cfg, es, held, c, giveUp).value.1;
    LaunchShape(cfg, es, held, c, giveUp);
    if c'.next != c.next {
      assert SlotOk(cfg, c, c.next);
      if c'.slots != c.slots { NextIsTimely(cfg, c, held); }
      SameStarted(cfg, c.slots, c'.slots, c.next + 1);
    }
  }

  // What starting checks may do to a request.
  lemma LaunchShape(cfg: Config, es: seq<Entry>, held: int, c: Caller, giveUp: bool)
    requires c.pc.Launching? && c.failFast && c.next <= c.pos <= |c.slots| && MainStep(cfg, es, held, c, giveUp).Some?
    ensures var c' := MainStep(cfg, es, held, c, giveUp).value.1;
      && c'.failFast == c.failFast && (CtxDone(c) ==> CtxDone(c'))
      && (|| (c'.next == c.next && c'.slots == c.slots)
          || (c.next < c.pos && c'.next == c.next + 1 && c'.slots == c.slots && c.slots[c.next].found)
          || (c.next < c.pos && c'.next == c.next + 1 && held < MAX_CHECKS && !CtxDone(c) &&
              c'.slots == c.slots[c.next := c.slots[c.next].(check := Begin)]))
  {
  }

  lemma CheckStaysTimely(cfg: Config, held: int, c: Caller, k: nat, answer: bool)
    requires Timely(cfg, c) && k < |c.slots| && CheckStep(cfg, held, c, k, answer).Some?
    ensures Timely(cfg, CheckStep(cfg, held, c, k, answer).value.1)
  {
    var c' := CheckStep(cfg, held, c, k, answer).value.1;
    CheckChangesOne(cfg, held, c, k, answer);
    CheckLeaves(cfg, held, c, k, answer);
    SameStarted(cfg, c.slots, c'.slots, c.next);
    if !CtxDone(c') {
      assert LeftWithYes(c.slots[k]);
    }
  }

  lemma CheckLeaves(cfg: Config, held: int, c: Caller, k: nat, answer: bool)
    requires k < |c.slots| && CheckStep(cfg, held, c, k, answer).Some? && c.failFast
    ensures var c' := CheckStep(cfg, held, c, k, answer).value.1;
      (CtxDone(c) ==> CtxDone(c')) && (!CtxDone(c') && LeftWithYes(c.slots[k]) ==> LeftWithYes(c'.slots[k]))
  {
  }

  lemma HoldsItsOwn(cfg: Config, s: State, i: nat)
    requires Inv(cfg, s) && i < |s.callers|
    ensures 0 <= HeldBy(s.callers[i]) <= s.held
  {
    forall c | c in s.callers ensures HeldBy(c) >= 0 { SumNonNegative(c.slots, Unreleased); }
    SumBounds(s.callers, i, HeldBy);
  }

  lemma NextStaysTimely(cfg: Config, s: State, i: nat, step: Label)
    requires Inv(cfg, s) && cfg.proxy.Some? && i < |s.callers| && Timely(cfg, s.callers[i]) && Next(cfg, s, step).Some?
    ensures var s' := Next(cfg, s, step).value; i < |s'.callers| && Timely(cfg, s'.callers[i])
  {
    match step
    case Call(_, _, _) =>
    case Cancel(_) =>
    case Index(_) =>
    case Main(j, giveUp) =>
      if j == i {
        HoldsItsOwn(cfg, s, i);
        assert CallerOk(cfg, s.callers[i]);
        MainStaysTimely(cfg, s.lru.entries, s.held, s.callers[i], giveUp);
      }
    case Checking(j, k, answer) =>
      if j == i { CheckStaysTimely(cfg, s.held, s.callers[i], k, answer); }
  }

  lemma {:induction false} RunStaysTimely(cfg: Config, s: State, i: nat, labels: seq<Label>)
    requires Inv(cfg, s) && LabelsOk(labels) && cfg.proxy.Some? && i < |s.callers| && Timely(cfg, s.callers[i])
    requires FindMissingProtocol.Run(cfg, s, labels).Some?
    ensures var s' := FindMissingProtocol.Run(cfg, s, labels).value; i < |s'.callers| && Timely(cfg, s'.callers[i])
    decreases |labels|
  {
    if labels != [] {
      NextStaysTimely(cfg, s, i, labels[0]);
      NextKeepsInv(cfg, s, labels[0]);
      RunStaysTimely(cfg, Next(cfg, s, labels[0]).value, i, labels[1..]);
    }
  }

  lemma {:induction false} LostSlotsAre(cfg: Config, seen: seq<seq<Entry>>, prefix: string, slots: seq<Slot>, ds: seq<Digest>)
    requires |seen| == |slots| == |ds|
    requires forall k :: 0 <= k < |ds| ==>
               slots[k].digest == ds[k] && (slots[k].looked.Miss? <==> !Available(seen[k], prefix, ds[k]))
    ensures Sum(slots, LostSlot(cfg)) == LostIn(cfg, seen, prefix, ds)
  {
    if ds != [] { LostSlotsAre(cfg, seen[1..], prefix, slots[1..], ds[1..]); }
  }

  // Whatever happens to the index meanwhile, and whatever other requests hold.
  lemma NilHasStarted(cfg: Config, s: State, call: Label, labels: seq<Label>) returns (seen: seq<seq<Entry>>)
    requires Answers(cfg, s, call, labels) && call.failFast && cfg.proxy.Some?
    requires Answered(cfg, s, call, labels).pc == Returned(None)
    ensures During(cfg, s, call, labels, seen) && AllStartIn(cfg, seen, call.prefix, call.digests)
  {
    var i, s1 := |s.callers|, Next(cfg, s, call).value;
    NextKeepsInv(cfg, s, call);
    assert s1.callers[i] == NewCaller(call.prefix, call.digests, true);
    RunStaysTimely(cfg, s1, i, labels);
    var c := Answered(cfg, s, call, labels);
    seen := AnsweredOk(cfg, s, call, labels);
    forall k | 0 <= k < |c.slots|
      ensures Starts(cfg, seen[k], call.prefix, call.digests[k], LostIn(cfg, seen[..k], call.prefix, call.digests[..k]))
    {
      AllLooked(cfg, seen, call, c);
      assert SlotOk(cfg, c, k) && StartedInTime(cfg, c.slots, k);
      LostSlotsAre(cfg, seen[..k], call.prefix, c.slots[..k], call.digests[..k]);
    }
  }

  lemma AllLooked(cfg: Config, seen: seq<seq<Entry>>, call: Label, c: Caller)
    requires call.Call? && Serves(seen, call, c) && CallerOk(cfg, c) && c.pc == Returned(None)
    ensures forall k :: 0 <= k < |c.slots| ==>
      c.slots[k].digest == call.digests[k] &&
      (c.slots[k].looked.Miss? <==> !Available(seen[k], call.prefix, call.digests[k]))
  {
    forall k | 0 <= k < |c.slots|
      ensures c.slots[k].digest == call.digests[k]
      ensures c.slots[k].looked.Miss? <==> !Available(seen[k], call.prefix, call.digests[k])
    {
      assert SlotOk(cfg, c, k) && SlotServes(seen[k], call, k, c.slots[k]);
    }
  }

  // ----- the other requests can come to their ends -----

  // A request that holds nothing stays as it is while all others return and all
  // their checks end.
  lemma {:induction false} DrainOthers(cfg: Config, s: State, i: nat) returns (labels: seq<Label>)
    requires Inv(cfg, s) && i < |s.callers| && HeldBy(s.callers[i]) == 0
    ensures var r := FindMissingProtocol.Run(cfg, s, labels);
      && r.Some? && Inv(cfg, r.value) && SameAnswers(s.lru.entries, r.value.lru.entries)
      && |r.value.callers| == |s.callers| && r.value.callers[i] == s.callers[i] && r.value.held == 0
      && forall j :: 0 <= j < |s.callers| && j != i ==> r.value.callers[j].pc.Returned?
    ensures IndexStays(labels) && LabelsOk(labels)
    decreases TotalRank(s)
  {
    TotalRankNonNegative(cfg, s.callers);
    if j: nat :| j < |s.callers| && j != i && !s.callers[j].pc.Returned? {
      var step := NoDeadlock(cfg, s, j);
      labels := DrainOn(cfg, s, i, step);
    } else if s.held != 0 {
      var j := SomeHolder(s.callers);
      var k := SomeSlot(s.callers[j].slots, Unreleased);
      var step := HolderSteps(cfg, s, j, k);
      labels := DrainOn(cfg, s, i, step);
    } else {
      labels := [];
    }
  }

  lemma {:induction false} DrainOn(cfg: Config, s: State, i: nat, step: Label) returns (labels: seq<Label>)
    requires Inv(cfg, s) && i < |s.callers| && HeldBy(s.callers[i]) == 0
    requires (step.Main? || step.Checking?) && step.i != i && Next(cfg, s, step).Some?
    ensures var r := FindMissingProtocol.Run(cfg, s, labels);
      && r.Some? && Inv(cfg, r.value) && SameAnswers(s.lru.entries, r.value.lru.entries)
      && |r.value.callers| == |s.callers| && r.value.callers[i] == s.callers[i] && r.value.held == 0
      && forall j :: 0 <= j < |s.callers| && j != i ==> r.value.callers[j].pc.Returned?
    ensures IndexStays(labels) && LabelsOk(labels)
    decreases TotalRank(s), 0
  {
    var s' := Next(cfg, s, step).value;
    StepsDescend(cfg, s, step);
    NextKeepsInv(cfg, s, step);
    if step.Main? { TouchedKeeps(s.lru, s.callers[step.i]); }
    var rest := DrainOthers(cfg, s', i);
    labels := [step] + rest;
    RunCons(cfg, s, step, rest);
  }

  // ----- waiting with all lost checks still to come -----

  // The i-th request collects its checks, and nothing else is in the semaphore.
  ghost predicate Collecting(cfg: Config, s: State, i: nat, es: seq<Entry>, ds: seq<Digest>) {
    && Inv(cfg, s) && cfg.proxy.Some? && SameAnswers(es, s.lru.entries) && i < |s.callers|
    && s.held == HeldBy(s.callers[i]) && Collects(cfg, es, ds, s.callers[i])
  }

  ghost predicate Collects(cfg: Config, es: seq<Entry>, ds: seq<Digest>, c: Caller) {
    && c.failFast && !c.external && !c.flag && !c.cancelled && !c.pc.Returned?
    && |c.slots| == |ds| && AllStart(cfg, es, c.prefix, ds)
    && forall k :: 0 <= k < |ds| ==> SlotCollects(cfg, es, c.prefix, ds[k], c.slots[k])
  }

  // No check has been refused, and one that has found its blob goes on.
  predicate SlotCollects(cfg: Config, es: seq<Entry>, prefix: string, d: Digest, s: Slot) {
    && s.digest == d && (s.looked.Miss? ==> !Available(es, prefix, d))
    && !s.check.Flagging? && !s.check.Cancelling? && LeftWithYes(s)
  }

  // The check of a blob that the proxy has is on its way.
  predicate Settling(cfg: Config, s: Slot) {
    ProxyHas(cfg, s.digest) && Unreleased(s) == 1
  }

  // It goes on first.
  lemma SettlingStep(cfg: Config, s: State, i: nat, es: seq<Entry>, ds: seq<Digest>, k: nat)
    requires Collecting(cfg, s, i, es, ds) && k < |ds| && Settling(cfg, s.callers[i].slots[k])
    ensures var r := Next(cfg, s, Checking(i, k, true));
      r.Some? && Collecting(cfg, r.value, i, es, ds) && Rank(r.value.callers[i]) < Rank(s.callers[i])
      && r.value.callers[i].pc == s.callers[i].pc
  {
    var c := s.callers[i];
    assert SlotCollects(cfg, es, c.prefix, ds[k], c.slots[k]);
    SettlingCollects(cfg, es, ds, s.held, c, k);
    CheckDescends(cfg, s.held, c, k, true);
    CheckCounts(cfg, s.held, c, k, true);
    NextKeepsInv(cfg, s, Checking(i, k, true));
    SumUpdate(c.slots, k, CheckStep(cfg, s.held, c, k, true).value.1.slots[k], Unreleased);
    CheckChangesOne(cfg, s.held, c, k, true);
  }

  lemma SettlingCollects(cfg: Config, es: seq<Entry>, ds: seq<Digest>, held: int, c: Caller, k: nat)
    requires Collects(cfg, es, ds, c) && k < |ds| && Settling(cfg, c.slots[k])
    ensures CheckStep(cfg, held, c, k, true).Some?
    ensures Collects(cfg, es, ds, CheckStep(cfg, held, c, k, true).value.1)
  {
    assert SlotCollects(cfg, es, c.prefix, ds[k], c.slots[k]);
    var c' := CheckStep(cfg, held, c, k, true).value.1;
    CheckChangesOne(cfg, held, c, k, true);
    forall j | 0 <= j < |ds| ensures SlotCollects(cfg, es, c'.prefix, ds[j], c'.slots[j]) {
      assert SlotCollects(cfg, es, c.prefix, ds[j], c.slots[j]);
    }
  }

  // Otherwise the request itself can go on.
  lemma CollectingStep(cfg: Config, s: State, i: nat, es: seq<Entry>, ds: seq<Digest>)
    requires Collecting(cfg, s, i, es, ds) && !s.callers[i].pc.Waiting?
    requires forall k :: 0 <= k < |ds| ==> !Settling(cfg, s.callers[i].slots[k])
    ensures var r := Next(cfg, s, Main(i, false));
      r.Some? && Collecting(cfg, r.value, i, es, ds) && Rank(r.value.callers[i]) < Rank(s.callers[i])
  {
    var c := s.callers[i];
    assert CallerOk(cfg, c);
    match c.pc {
      case Top => TopCollects(cfg, s.lru.entries, es, ds, s.held, c);
      case Chunk => ChunkCollects(cfg, s.lru.entries, es, ds, c);
      case Launching => LaunchCollects(cfg, s.lru.entries, es, ds, s.held, c);
    }
    NextKeepsInv(cfg, s, Main(i, false));
    TouchedKeeps(s.lru, c);
    MainDescends(cfg, s.lru.entries, s.held, c, false);
    MainStepOk(cfg, s.lru.entries, s.held, c, false);
  }

  lemma TopCollects(cfg: Config, es': seq<Entry>, es: seq<Entry>, ds: seq<Digest>, held: int, c: Caller)
    requires ControlOk(cfg, c) && cfg.proxy.Some? && c.pc.Top? && Collects(cfg, es, ds, c)
    ensures MainStep(cfg, es', held, c, false).Some?
    ensures Collects(cfg, es, ds, MainStep(cfg, es', held, c, false).value.1)
  {
    var c' := MainStep(cfg, es', held, c, false).value.1;
    assert c' == c.(pc := c'.pc);
  }

  lemma ChunkCollects(cfg: Config, es': seq<Entry>, es: seq<Entry>, ds: seq<Digest>, c: Caller)
    requires ControlOk(cfg, c) && cfg.proxy.Some? && c.pc.Chunk? && SameAnswers(es, es') && Collects(cfg, es, ds, c)
    ensures Collects(cfg, es, ds, AfterChunk(cfg, es', c))
  {
    var c' := AfterChunk(cfg, es', c);
    forall k | 0 <= k < |ds| ensures SlotCollects(cfg, es, c'.prefix, ds[k], c'.slots[k]) {
      assert SlotCollects(cfg, es, c.prefix, ds[k], c.slots[k]);
      SameAvailable(es, es', c.prefix, ds[k]);
    }
  }

  lemma LaunchCollects(cfg: Config, es': seq<Entry>, es: seq<Entry>, ds: seq<Digest>, held: int, c: Caller)
    requires CallerOk(cfg, c) && cfg.proxy.Some? && c.pc.Launching? && Collects(cfg, es, ds, c) && held == HeldBy(c)
    requires forall k :: 0 <= k < |ds| ==> !Settling(cfg, c.slots[k])
    ensures MainStep(cfg, es', held, c, false).Some?
    ensures Collects(cfg, es, ds, MainStep(cfg, es', held, c, false).value.1)
  {
    if c.next < c.pos {
      assert SlotOk(cfg, c, c.next);
      assert SlotCollects(cfg, es, c.prefix, ds[c.next], c.slots[c.next]);
      assert Starts(cfg, es, c.prefix, ds[c.next], LostOf(cfg, es, c.prefix, ds[..c.next]));
      HeldAreLost(cfg, es, ds, c);
    }
    LaunchesNext(cfg, es', held, c);
    var c' := MainStep(cfg, es', held, c, false).value.1;
    forall k | 0 <= k < |ds| ensures SlotCollects(cfg, es, c'.prefix, ds[k], c'.slots[k]) {
      assert SlotCollects(cfg, es, c.prefix, ds[k], c.slots[k]);
    }
  }

  lemma LaunchesNext(cfg: Config, es: seq<Entry>, held: int, c: Caller)
    requires c.pc.Launching? && c.next <= c.pos <= |c.slots| && !CtxDone(c)
    requires c.next < c.pos && !c.slots[c.next].found ==>
      c.slots[c.next].digest.sizeBytes <= cfg.maxProxyBlobSize && held < MAX_CHECKS
    ensures MainStep(cfg, es, held, c, false).Some?
    ensures var c' := MainStep(cfg, es, held, c, false).value.1;
      && c' == c.(slots := c'.slots, next := c'.next, pc := c'.pc, wg := c'.wg) && !c'.pc.Returned?
      && (c'.slots == c.slots || (c.next < |c.slots| && c'.slots == c.slots[c.next := c.slots[c.next].(check := Begin)]))
  {
  }

  // With no check of a confirmed blob on its way, the semaphore holds lost ones.
  lemma HeldAreLost(cfg: Config, es: seq<Entry>, ds: seq<Digest>, c: Caller)
    requires CallerOk(cfg, c) && Collects(cfg, es, ds, c)
    requires forall k :: 0 <= k < |ds| ==> !Settling(cfg, c.slots[k])
    ensures HeldBy(c) <= LostOf(cfg, es, c.prefix, ds[..c.next])
  {
    forall k | 0 <= k < |ds|
      ensures Unreleased(c.slots[k]) == 1 ==> k < c.next && Lost(cfg, es, c.prefix, ds[k])
    {
      assert SlotOk(cfg, c, k) && SlotCollects(cfg, es, c.prefix, ds[k], c.slots[k]);
    }
    SumSplit(c.slots, c.next, Unreleased);
    NothingOf(c.slots[c.next..], Unreleased);
    UnreleasedAtMost(cfg, es, c.prefix, ds[..c.next], c.slots[..c.next]);
  }

  lemma {:induction false} UnreleasedAtMost(cfg: Config, es: seq<Entry>, prefix: string, ds: seq<Digest>, slots: seq<Slot>)
    requires |slots| == |ds|
    requires forall k :: 0 <= k < |ds| ==> Unreleased(slots[k]) == 1 ==> Lost(cfg, es, prefix, ds[k])
    ensures Sum(slots, Unreleased) <= LostOf(cfg, es, prefix, ds)
  {
    if ds != [] { UnreleasedAtMost(cfg, es, prefix, ds[1..], slots[1..]); }
  }

  // The request gets to its last select before any check has failed it.
  lemma {:induction false} ReachWaiting(cfg: Config, s: State, i: nat, es: seq<Entry>, ds: seq<Digest>)
    returns (labels: seq<Label>)
    requires Collecting(cfg, s, i, es, ds)
    ensures var r := FindMissingProtocol.Run(cfg, s, labels);
      r.Some? && Collecting(cfg, r.value, i, es, ds) && r.value.callers[i].pc.Waiting?
    ensures IndexStays(labels)
    decreases Rank(s.callers[i])
  {
    var step := Main(i, false);
    assert CallerOk(cfg, s.callers[i]);
    RankNonNegative(cfg, s.callers[i]);
    if s.callers[i].pc.Waiting? {
      labels := [];
      return;
    } else if k: nat :| k < |ds| && Settling(cfg, s.callers[i].slots[k]) {
      SettlingStep(cfg, s, i, es, ds, k);
      step := Checking(i, k, true);
    } else {
      CollectingStep(cfg, s, i, es, ds);
    }
    var rest := ReachWaiting(cfg, Next(cfg, s, step).value, i, es, ds);
    labels := [step] + rest;
    RunCons(cfg, s, step, rest);
  }

  // ----- all checks run before the select -----

  lemma {:induction false} FinishChecks(cfg: Config, s: State, i: nat) returns (labels: seq<Label>)
    requires Inv(cfg, s) && i < |s.callers| && s.callers[i].pc.Waiting? && !s.callers[i].external
    ensures var r := FindMissingProtocol.Run(cfg, s, labels);
      r.Some? && i < |r.value.callers| && r.value.callers[i].pc == Returned(None) && !r.value.callers[i].external
    ensures IndexStays(labels)
    decreases Rank(s.callers[i])
  {
    var c := s.callers[i];
    assert CallerOk(cfg, c);
    RankNonNegative(cfg, c);
    var step := Main(i, false);
    if c.wg == 0 {
      labels := [step];
      RunCons(cfg, s, step, []);
      assert [step] + [] == [step];
    } else {
      var k := SomeSlot(c.slots, Unfinished);
      step := Checking(i, k, ProxyHas(cfg, c.slots[k].digest));
      CheckCanStep(cfg, s, i, k);
      CheckChangesOne(cfg, s.held, c, k, step.answer);
      CheckDescends(cfg, s.held, c, k, step.answer);
      NextKeepsInv(cfg, s, step);
      var rest := FinishChecks(cfg, Next(cfg, s, step).value, i);
      labels := [step] + rest;
      RunCons(cfg, s, step, rest);
    }
  }

  // ----- the exact condition -----

  // The request of the call returns nil after the labels, during which nobody
  // changes the index.
  ghost predicate ReturnsNil(cfg: Config, s: State, call: Label, labels: seq<Label>) {
    Answers(cfg, s, call, labels) && IndexStays(labels) && Answered(cfg, s, call, labels).pc == Returned(None)
  }

  lemma NilIsReached(cfg: Config, s: State, call: Label) returns (labels: seq<Label>)
    requires call.Call? && call.failFast && cfg.proxy.Some? && Inv(cfg, s)
    requires AllStart(cfg, s.lru.entries, call.prefix, call.digests)
    ensures ReturnsNil(cfg, s, call, labels)
  {
    var i, s1, ds := |s.callers|, Next(cfg, s, call).value, call.digests;
    NextKeepsInv(cfg, s, call);
    NewCallerOk(cfg, call.prefix, ds, true);
    assert s1.callers[i] == NewCaller(call.prefix, ds, true);
    var drain := DrainOthers(cfg, s1, i);
    var s2 := FindMissingProtocol.Run(cfg, s1, drain).value;
    assert Collects(cfg, s.lru.entries, ds, s2.callers[i]);
    var first := ReachWaiting(cfg, s2, i, s.lru.entries, ds);
    var rest := FinishChecks(cfg, FindMissingProtocol.Run(cfg, s2, first).value, i);
    labels := drain + (first + rest);
    RunConcat(cfg, s2, first, rest);
    RunConcat(cfg, s1, drain, first + rest);
  }

  // In every state, whatever other requests hold: nil may be returned exactly
  // if all checks can be started. So it means that nothing is missing, in every
  // run in which nobody changes the index, exactly if that is so beforehand or
  // not all checks can be started.
  lemma NilMeansFound(cfg: Config, s: State, call: Label)
    requires call.Call? && call.failFast && cfg.proxy.Some? && Inv(cfg, s)
    ensures (exists labels :: ReturnsNil(cfg, s, call, labels)) <==>
            AllStart(cfg, s.lru.entries, call.prefix, call.digests)
    ensures (forall labels :: ReturnsNil(cfg, s, call, labels) ==>
               MissingOf(cfg, s.lru.entries, call.prefix, call.digests) == []) <==>
            MissingOf(cfg, s.lru.entries, call.prefix, call.digests) == [] ||
            !AllStart(cfg, s.lru.entries, call.prefix, call.digests)
  {
    if AllStart(cfg, s.lru.entries, call.prefix, call.digests) {
      var labels := NilIsReached(cfg, s, call);
      assert ReturnsNil(cfg, s, call, labels);
    }
    forall labels | ReturnsNil(cfg, s, call, labels)
      ensures AllStart(cfg, s.lru.entries, call.prefix, call.digests)
    {
      var seen := NilHasStarted(cfg, s, call, labels);
      NextKeepsInv(cfg, s, call);
      HistoryStays(cfg, Next(cfg, s, call).value, labels);
      SameStarts(cfg, s.lru.entries, seen, call.prefix, call.digests);
    }
  }

  // One blob that is nowhere, requested alone.
  lemma NilDespiteMissing()
    ensures var cfg, s := Config(Some(d => false), 100), Initial(Empty(1_000_000));
      var d := Digest(seq(64, _ => 'a'), 1);
      var call := Call("", [d], true);
      && MissingOf(cfg, s.lru.entries, call.prefix, call.digests) == [Some(d)]
      && exists labels :: ReturnsNil(cfg, s, call, labels)
  {
    var cfg, s := Config(Some(d => false), 100), Initial(Empty(1_000_000));
    var d := Digest(seq(64, _ => 'a'), 1);
    LoneStart(cfg, d);
    NilMeansFound(cfg, s, Call("", [d], true));
  }

  // A blob that is not indexed, and that the proxy may be asked for and lacks.
  lemma LoneStart(cfg: Config, d: Digest)
    requires d.sizeBytes == 1 <= cfg.maxProxyBlobSize && !ProxyHas(cfg, d)
    ensures MissingOf(cfg, [], "", [d]) == [Some(d)] && AllStart(cfg, [], "", [d])
  {
    assert [d][1..] == [] && [d][..0] == [];
    assert Starts(cfg, [], "", d, 0);
  }
}
