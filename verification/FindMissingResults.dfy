// What a FindMissing request answers, whatever other requests and checks are
// interleaved with it and whatever others do to the index meanwhile.
module FindMissingResults {
  import opened Wrappers
  import opened LruSpec
  import opened Messages
  import opened FindMissing
  import opened FindMissingProtocol
  import opened FindMissingTheorems

  // ----- what is missing -----

  // A blob is found if it is available here, or if the proxy is asked for it
  // and has it.
  predicate Findable(cfg: Config, es: seq<Entry>, prefix: string, d: Digest) {
    Available(es, prefix, d) || Confirmed(cfg, d)
  }

  // The digests that are not found, in the order of the request, when each of
  // them is looked up in an index of its own.
  function MissingIn(cfg: Config, seen: seq<seq<Entry>>, prefix: string, ds: seq<Digest>): seq<Option<Digest>>
    requires |seen| == |ds|
  {
    if ds == [] then []
    else (if Findable(cfg, seen[0], prefix, ds[0]) then [] else [Some(ds[0])]) + MissingIn(cfg, seen[1..], prefix, ds[1..])
  }

  // The same for one index.
  function MissingOf(cfg: Config, es: seq<Entry>, prefix: string, ds: seq<Digest>): seq<Option<Digest>> {
    if ds == [] then []
    else (if Findable(cfg, es, prefix, ds[0]) then [] else [Some(ds[0])]) + MissingOf(cfg, es, prefix, ds[1..])
  }

  lemma {:induction false} NothingMissing(cfg: Config, seen: seq<seq<Entry>>, prefix: string, ds: seq<Digest>)
    requires |seen| == |ds|
    ensures MissingIn(cfg, seen, prefix, ds) == [] <==>
      forall k :: 0 <= k < |ds| ==> Findable(cfg, seen[k], prefix, ds[k])
  {
    if ds != [] {
      NothingMissing(cfg, seen[1..], prefix, ds[1..]);
      assert forall k :: 0 < k < |ds| ==> ds[k] == ds[1..][k - 1] && seen[k] == seen[1..][k - 1];
    }
  }

  lemma SameAvailable(es: seq<Entry>, es': seq<Entry>, prefix: string, d: Digest)
    requires SameAnswers(es, es')
    ensures Available(es', prefix, d) <==> Available(es, prefix, d)
  {
  }

  lemma {:induction false} SameMissing(cfg: Config, es: seq<Entry>, seen: seq<seq<Entry>>, prefix: string, ds: seq<Digest>)
    requires |seen| == |ds| && forall k :: 0 <= k < |seen| ==> SameAnswers(es, seen[k])
    ensures MissingIn(cfg, seen, prefix, ds) == MissingOf(cfg, es, prefix, ds)
  {
    if ds != [] {
      SameAvailable(es, seen[0], prefix, ds[0]);
      SameMissing(cfg, es, seen[1..], prefix, ds[1..]);
    }
  }

  // The slots as the request leaves them.
  function Values(slots: seq<Slot>): seq<Option<Digest>> {
    seq(|slots|, k requires 0 <= k < |slots| => if slots[k].found then None else Some(slots[k].digest))
  }

  // ----- a request during a run -----

  // The request c is the given call, and the lookup of each of its digests had
  // the answer of an index seen for it.
  ghost predicate Serves(seen: seq<seq<Entry>>, call: Label, c: Caller)
    requires call.Call?
  {
    && c.prefix == call.prefix && c.failFast == call.failFast && |c.slots| == |call.digests| == |seen|
    && forall k :: 0 <= k < |c.slots| ==> SlotServes(seen[k], call, k, c.slots[k])
  }

  ghost predicate SlotServes(es: seq<Entry>, call: Label, k: nat, s: Slot)
    requires call.Call? && k < |call.digests|
  {
    s.digest == call.digests[k] && (!s.looked.NotYet? ==> (s.looked.Hit? <==> Available(es, call.prefix, s.digest)))
  }

  // The indexes seen after a step of the request on the index es.
  function SeenNext(seen: seq<seq<Entry>>, es: seq<Entry>, c: Caller): seq<seq<Entry>>
    requires |seen| == |c.slots|
  {
    if !c.pc.Chunk? then seen
    else seq(|seen|, k requires 0 <= k < |seen| => if c.pos <= k < ChunkEnd(c) then es else seen[k])
  }

  lemma MainServes(cfg: Config, seen: seq<seq<Entry>>, es: seq<Entry>, call: Label, held: int, c: Caller, giveUp: bool)
    requires call.Call? && Serves(seen, call, c) && MainStep(cfg, es, held, c, giveUp).Some?
    ensures Serves(SeenNext(seen, es, c), call, MainStep(cfg, es, held, c, giveUp).value.1)
  {
    var c' := MainStep(cfg, es, held, c, giveUp).value.1;
    if c.pc.Chunk? {
      ChunkServes(cfg, seen, es, call, c);
    } else {
      MainLaunchesOne(cfg, es, held, c, giveUp);
      if c'.slots != c.slots { LaunchServes(seen, call, c, c', c.next); }
    }
  }

  // Other steps of the request change no slot, or start one check.
  lemma MainLaunchesOne(cfg: Config, es: seq<Entry>, held: int, c: Caller, giveUp: bool)
    requires !c.pc.Chunk? && MainStep(cfg, es, held, c, giveUp).Some?
    ensures var c' := MainStep(cfg, es, held, c, giveUp).value.1;
      && c'.prefix == c.prefix && c'.failFast == c.failFast
      && (c'.slots == c.slots ||
          (c.next < |c.slots| && c'.slots == c.slots[c.next := c.slots[c.next].(check := Begin)]))
  {
  }

  lemma LaunchServes(seen: seq<seq<Entry>>, call: Label, c: Caller, c': Caller, k: nat)
    requires call.Call? && Serves(seen, call, c) && k < |c.slots|
    requires c'.prefix == c.prefix && c'.failFast == c.failFast && c'.slots == c.slots[k := c.slots[k].(check := Begin)]
    ensures Serves(seen, call, c')
  {
    assert SlotServes(seen[k], call, k, c.slots[k]);
  }

  lemma ChunkServes(cfg: Config, seen: seq<seq<Entry>>, es: seq<Entry>, call: Label, c: Caller)
    requires call.Call? && Serves(seen, call, c) && c.pc.Chunk? && c.pos <= |c.slots|
    ensures Serves(SeenNext(seen, es, c), call, AfterChunk(cfg, es, c))
  {
    var c' := AfterChunk(cfg, es, c);
    assert c'.slots == LookUpChunk(es, c) && c'.prefix == c.prefix && c'.failFast == c.failFast;
    forall k | 0 <= k < |c.slots| ensures SlotServes(SeenNext(seen, es, c)[k], call, k, c'.slots[k]) {
      assert SlotServes(seen[k], call, k, c.slots[k]);
    }
  }

  lemma CheckServes(cfg: Config, seen: seq<seq<Entry>>, call: Label, held: int, c: Caller, k: nat, answer: bool)
    requires call.Call? && Serves(seen, call, c) && k < |c.slots| && CheckStep(cfg, held, c, k, answer).Some?
    ensures Serves(seen, call, CheckStep(cfg, held, c, k, answer).value.1)
  {
    var c' := CheckStep(cfg, held, c, k, answer).value.1;
    CheckChangesOne(cfg, held, c, k, answer);
    forall j | 0 <= j < |c.slots| ensures SlotServes(seen[j], call, j, c'.slots[j]) {
      assert SlotServes(seen[j], call, j, c.slots[j]);
    }
  }

  lemma NextServes(cfg: Config, seen: seq<seq<Entry>>, call: Label, s: State, i: nat, step: Label)
    requires call.Call? && i < |s.callers| && Serves(seen, call, s.callers[i]) && Next(cfg, s, step).Some?
    ensures var s' := Next(cfg, s, step).value;
      i < |s'.callers| &&
      Serves(if step.Main? && step.i == i then SeenNext(seen, s.lru.entries, s.callers[i]) else seen,
             call, s'.callers[i])
  {
    match step
    case Call(_, _, _) =>
    case Cancel(_) =>
    case Index(_) =>
    case Main(j, giveUp) =>
      if j == i { MainServes(cfg, seen, s.lru.entries, call, s.held, s.callers[i], giveUp); }
    case Checking(j, k, answer) =>
      if j == i { CheckServes(cfg, seen, call, s.held, s.callers[i], k, answer); }
  }

  // The indexes of the states of a run.
  function History(cfg: Config, s: State, labels: seq<Label>): seq<seq<Entry>>
    decreases |labels|
  {
    if labels == [] || Next(cfg, s, labels[0]).None? then [s.lru.entries]
    else [s.lru.entries] + History(cfg, Next(cfg, s, labels[0]).value, labels[1..])
  }

  // At the end each digest has been answered by an index of the run.
  lemma {:induction false} RunServes(cfg: Config, seen: seq<seq<Entry>>, call: Label, s: State, i: nat, labels: seq<Label>)
    returns (seen': seq<seq<Entry>>)
    requires call.Call? && i < |s.callers| && Serves(seen, call, s.callers[i])
    requires FindMissingProtocol.Run(cfg, s, labels).Some?
    ensures var s' := FindMissingProtocol.Run(cfg, s, labels).value;
      i < |s'.callers| && Serves(seen', call, s'.callers[i])
    ensures forall k :: 0 <= k < |seen'| ==> k < |seen| && (seen'[k] == seen[k] || seen'[k] in History(cfg, s, labels))
    decreases |labels|
  {
    if labels == [] {
      seen' := seen;
    } else {
      var step, s1 := labels[0], Next(cfg, s, labels[0]).value;
      var seen1 := if step.Main? && step.i == i then SeenNext(seen, s.lru.entries, s.callers[i]) else seen;
      NextServes(cfg, seen, call, s, i, step);
      seen' := RunServes(cfg, seen1, call, s1, i, labels[1..]);
      var h := History(cfg, s, labels);
      assert h == [s.lru.entries] + History(cfg, s1, labels[1..]) && h[0] == s.lru.entries;
      assert forall es :: es in History(cfg, s1, labels[1..]) ==> es in h;
    }
  }

  // Nobody changes the index, other than by looking up.
  predicate IndexStays(labels: seq<Label>) {
    forall k :: 0 <= k < |labels| ==> !labels[k].Index?
  }

  lemma {:induction false} HistoryStays(cfg: Config, s: State, labels: seq<Label>)
    requires Inv(cfg, s) && IndexStays(labels)
    ensures forall es :: es in History(cfg, s, labels) ==> SameAnswers(s.lru.entries, es)
    decreases |labels|
  {
    if labels != [] && Next(cfg, s, labels[0]).Some? {
      var s1 := Next(cfg, s, labels[0]).value;
      NextKeepsInv(cfg, s, labels[0]);
      HistoryStays(cfg, s1, labels[1..]);
      if labels[0].Main? { TouchedKeeps(s.lru, s.callers[labels[0].i]); }
      assert SameAnswers(s.lru.entries, s1.lru.entries);
    }
  }

  // The request of a call made in s has returned after the labels. Any number
  // of other requests may have been running in s, and may be made, cancelled
  // and answered meanwhile; others may change the index in any way.
  ghost predicate Returns(cfg: Config, s: State, call: Label, labels: seq<Label>) {
    && call.Call? && Inv(cfg, s) && LabelsOk(labels)
    && FindMissingProtocol.Run(cfg, Next(cfg, s, call).value, labels).Some?
    && |s.callers| < |FindMissingProtocol.Run(cfg, Next(cfg, s, call).value, labels).value.callers|
    && FindMissingProtocol.Run(cfg, Next(cfg, s, call).value, labels).value.callers[|s.callers|].pc.Returned?
  }

  function Answered(cfg: Config, s: State, call: Label, labels: seq<Label>): Caller
    requires call.Call? && FindMissingProtocol.Run(cfg, Next(cfg, s, call).value, labels).Some?
    requires |s.callers| < |FindMissingProtocol.Run(cfg, Next(cfg, s, call).value, labels).value.callers|
  {
    FindMissingProtocol.Run(cfg, Next(cfg, s, call).value, labels).value.callers[|s.callers|]
  }

  // It has not been cancelled from outside.
  ghost predicate Answers(cfg: Config, s: State, call: Label, labels: seq<Label>) {
    Returns(cfg, s, call, labels) && !Answered(cfg, s, call, labels).external
  }

  // Each of the indexes was that of the cache at some time during the request.
  ghost predicate During(cfg: Config, s: State, call: Label, labels: seq<Label>, seen: seq<seq<Entry>>)
    requires call.Call?
  {
    && |seen| == |call.digests|
    && forall k :: 0 <= k < |seen| ==> seen[k] in History(cfg, Next(cfg, s, call).value, labels)
  }

  // If nobody changes the index, what is missing in those indexes is what is
  // missing in the index at the time of the call.
  lemma SteadyIndex(cfg: Config, s: State, call: Label, labels: seq<Label>, seen: seq<seq<Entry>>)
    requires call.Call? && Inv(cfg, s) && IndexStays(labels) && During(cfg, s, call, labels, seen)
    ensures MissingIn(cfg, seen, call.prefix, call.digests) ==
            MissingOf(cfg, s.lru.entries, call.prefix, call.digests)
  {
    NextKeepsInv(cfg, s, call);
    HistoryStays(cfg, Next(cfg, s, call).value, labels);
    SameMissing(cfg, s.lru.entries, seen, call.prefix, call.digests);
  }

  lemma AnsweredOk(cfg: Config, s: State, call: Label, labels: seq<Label>) returns (seen: seq<seq<Entry>>)
    requires Returns(cfg, s, call, labels)
    ensures During(cfg, s, call, labels, seen)
    ensures CallerOk(cfg, Answered(cfg, s, call, labels)) && Serves(seen, call, Answered(cfg, s, call, labels))
  {
    var s1 := Next(cfg, s, call).value;
    NextKeepsInv(cfg, s, call);
    assert s1.callers[|s.callers|] == NewCaller(call.prefix, call.digests, call.failFast);
    RunKeepsInv(cfg, s1, labels);
    var start := seq(|call.digests|, _ => s.lru.entries);
    seen := RunServes(cfg, start, call, s1, |s.callers|, labels);
    assert History(cfg, s1, labels)[0] == s.lru.entries;
  }

  // ----- without fail-fast -----

  // Every interleaving gives the same answer: no error, and after compaction
  // exactly the digests that are not found, in order, each by the index at some
  // time during the request. If nobody changes the index that is one answer.
  lemma OneAnswer(cfg: Config, s: State, call: Label, labels: seq<Label>) returns (seen: seq<seq<Entry>>)
    requires Answers(cfg, s, call, labels) && !call.failFast
    ensures During(cfg, s, call, labels, seen)
    ensures var c := Answered(cfg, s, call, labels);
      && c.pc == Returned(None)
      && NonNil(Values(c.slots)) == MissingIn(cfg, seen, call.prefix, call.digests)
      && (IndexStays(labels) ==>
            NonNil(Values(c.slots)) == MissingOf(cfg, s.lru.entries, call.prefix, call.digests))
  {
    var c := Answered(cfg, s, call, labels);
    seen := AnsweredOk(cfg, s, call, labels);
    if c.slots == [] { NoErrorWithoutSlots(cfg, c); } else { AnswersAreExact(cfg, c, 0); }
    forall k | 0 <= k < |c.slots|
      ensures c.slots[k].found <==> Findable(cfg, seen[k], call.prefix, call.digests[k])
    {
      AnswersAreExact(cfg, c, k);
      assert SlotServes(seen[k], call, k, c.slots[k]);
      assert SlotOk(cfg, c, k);
    }
    MissingAreLeft(cfg, seen, call.prefix, call.digests, c.slots);
    if IndexStays(labels) { SteadyIndex(cfg, s, call, labels, seen); }
  }

  lemma NoErrorWithoutSlots(cfg: Config, c: Caller)
    requires CallerOk(cfg, c) && c.pc.Returned? && !c.failFast && !c.external
    ensures c.pc == Returned(None)
  {
  }

  lemma {:induction false} MissingAreLeft(cfg: Config, seen: seq<seq<Entry>>, prefix: string, ds: seq<Digest>,
                                          slots: seq<Slot>)
    requires |slots| == |ds| == |seen|
    requires forall k :: 0 <= k < |ds| ==>
      slots[k].digest == ds[k] && (slots[k].found <==> Findable(cfg, seen[k], prefix, ds[k]))
    ensures NonNil(Values(slots)) == MissingIn(cfg, seen, prefix, ds)
  {
    if ds != [] {
      MissingAreLeft(cfg, seen[1..], prefix, ds[1..], slots[1..]);
      assert Values(slots)[1..] == Values(slots[1..]);
    }
  }

  // ----- with fail-fast -----

  // The k-th digest missed locally, and there is no proxy for it, it is too
  // large for the proxy, or a check was answered no.
  predicate Reason(cfg: Config, es: seq<Entry>, call: Label, c: Caller, k: nat)
    requires call.Call? && k < |call.digests| && k < |c.slots|
  {
    && !Available(es, call.prefix, call.digests[k])
    && (cfg.proxy.None? || call.digests[k].sizeBytes > cfg.maxProxyBlobSize || Refused(c.slots[k]))
  }

  // A missing blob is reported only for a reason, and an aborted request only
  // if it was cancelled from outside.
  lemma ErrorsAreSound(cfg: Config, s: State, call: Label, labels: seq<Label>) returns (seen: seq<seq<Entry>>)
    requires Returns(cfg, s, call, labels)
    ensures During(cfg, s, call, labels, seen)
    ensures var c := Answered(cfg, s, call, labels);
      && |c.slots| == |call.digests|
      && (c.pc == Returned(Some(MissingBlob)) ==>
            call.failFast && exists k :: 0 <= k < |c.slots| && Reason(cfg, seen[k], call, c, k))
      && (c.pc == Returned(Some(RequestCancelled)) ==> c.external)
  {
    var c := Answered(cfg, s, call, labels);
    seen := AnsweredOk(cfg, s, call, labels);
    if c.pc == Returned(Some(MissingBlob)) {
      var k :| 0 <= k < |c.slots| && Evidence(cfg, c, c.slots[k]);
      assert SlotServes(seen[k], call, k, c.slots[k]);
      assert Reason(cfg, seen[k], call, c, k);
    }
  }

  // Without a proxy the answer is exact: nil if nothing is missing, and
  // otherwise the error for a missing blob.
  lemma FailFastIsExactWithoutProxy(cfg: Config, s: State, call: Label, labels: seq<Label>)
    returns (seen: seq<seq<Entry>>)
    requires Answers(cfg, s, call, labels) && call.failFast && cfg.proxy.None?
    ensures During(cfg, s, call, labels, seen)
    ensures Answered(cfg, s, call, labels).pc ==
      Returned(if MissingIn(cfg, seen, call.prefix, call.digests) == [] then None else Some(MissingBlob))
  {
    var c := Answered(cfg, s, call, labels);
    seen := AnsweredOk(cfg, s, call, labels);
    NothingMissing(cfg, seen, call.prefix, call.digests);
    if c.pc == Returned(None) {
      forall k | 0 <= k < |call.digests| ensures Findable(cfg, seen[k], call.prefix, call.digests[k]) {
        assert SlotOk(cfg, c, k);
        assert SlotServes(seen[k], call, k, c.slots[k]);
      }
    } else {
      assert ErrorOk(cfg, c, c.pc.err.value);
      var k :| 0 <= k < |c.slots| && Evidence(cfg, c, c.slots[k]);
      assert SlotServes(seen[k], call, k, c.slots[k]);
      assert !Findable(cfg, seen[k], call.prefix, call.digests[k]);
    }
  }

  // A digest that the proxy is not asked for.
  predicate Oversized(cfg: Config, es: seq<Entry>, prefix: string, d: Digest) {
    !Available(es, prefix, d) && d.sizeBytes > cfg.maxProxyBlobSize
  }

  // With a proxy, nil means that everything is found exactly if no check has
  // failed the request by then, that is, if its context is not done. And nil is
  // never returned if a digest that misses is too large for the proxy.
  lemma NilInFailFast(cfg: Config, s: State, call: Label, labels: seq<Label>) returns (seen: seq<seq<Entry>>)
    requires Answers(cfg, s, call, labels) && call.failFast && cfg.proxy.Some?
    requires Answered(cfg, s, call, labels).pc == Returned(None)
    ensures During(cfg, s, call, labels, seen)
    ensures !Answered(cfg, s, call, labels).flag <==> MissingIn(cfg, seen, call.prefix, call.digests) == []
    ensures forall k :: 0 <= k < |seen| ==> !Oversized(cfg, seen[k], call.prefix, call.digests[k])
  {
    var c := Answered(cfg, s, call, labels);
    seen := AnsweredOk(cfg, s, call, labels);
    NothingMissing(cfg, seen, call.prefix, call.digests);
    forall k | 0 <= k < |call.digests| ensures !Oversized(cfg, seen[k], call.prefix, call.digests[k]) {
      assert SlotOk(cfg, c, k);
      assert SlotServes(seen[k], call, k, c.slots[k]);
    }
    if c.flag {
      var k :| 0 <= k < |c.slots| && Refused(c.slots[k]) && !ProxyHas(cfg, c.slots[k].digest);
      assert SlotOk(cfg, c, k);
      assert SlotServes(seen[k], call, k, c.slots[k]);
      assert !Findable(cfg, seen[k], call.prefix, call.digests[k]);
    } else {
      forall k | 0 <= k < |call.digests| ensures Findable(cfg, seen[k], call.prefix, call.digests[k]) {
        NilFinds(cfg, c, k);
        assert SlotServes(seen[k], call, k, c.slots[k]);
      }
    }
  }

  lemma NilFinds(cfg: Config, c: Caller, k: nat)
    requires CallerOk(cfg, c) && c.pc == Returned(None) && c.failFast && !c.flag && !c.external && k < |c.slots|
    ensures !c.slots[k].looked.NotYet? && SlotFound(cfg, c.slots[k])
  {
    forall j | 0 <= j < |c.slots| ensures !Refused(c.slots[j]) {
      assert SlotOk(cfg, c, j);
      StillUnfinished(c, j);
    }
    assert SlotOk(cfg, c, k);
    StillUnfinished(c, k);
    assert !Doomed(cfg, c);
  }
}
