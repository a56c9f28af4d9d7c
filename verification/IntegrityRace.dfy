// Why the integrity of answers needs that no file is created at the path that a
// Get is about to open: a run in which a Get gives what nobody has stored.
module IntegrityRace {
  import opened Wrappers
  import opened Int64
  import opened Sums
  import opened Bytes
  import opened LruSpec
  import opened Names
  import opened Protocol
  import opened ProtocolSafety
  import opened ProtocolTheorems
  import opened ReadBack
  import opened Integrity
  import Z = Zstd

  // Two Puts of one byte and a Get of the same action result, the index entry
  // that the first Put makes with the path of its file, and what the second has
  // written when the Get reads.
  datatype Scene = Scene(cfg: Config, first: Request, second: Request, get: Request, e: Entry, path: string, junk: byte)

  predicate PutsOneByte(req: Request, e: Entry) {
    && req.Put? && req.kind == AC && RequestOk(req) && KeyOf(req) == e.key
    && req.size == 1 && |req.body| == 1 && !req.bodyFails
  }

  // The cache has room for one small file; both Puts draw the same name.
  ghost predicate SceneOk(sc: Scene) {
    && ConfigOk(sc.cfg) && sc.cfg.maxSize == 4096 && sc.cfg.maxBlobSize == 4096 && sc.cfg.proxy.None?
    && PutsOneByte(sc.first, sc.e) && PutsOneByte(sc.second, sc.e)
    && sc.first.body != [sc.junk] && sc.second.body != [sc.junk]
    && sc.get.Get? && sc.get.kind == AC && RequestOk(sc.get) && KeyOf(sc.get) == sc.e.key
    && sc.get.size == -1 && sc.get.offset == 0 && !sc.get.zstd
    && sc.e.item == Item(1, 1, sc.e.item.random, false) && IsRandom(sc.e.item.random)
    && TempName(sc.cfg, AtCreating(sc.first), sc.e.item.random) == sc.path
    && TempName(sc.cfg, AtCreating(sc.second), sc.e.item.random) == sc.path
    && PathIn(sc.get, sc.e.item) == sc.path && PathOf(sc.e) == sc.path
  }

  lemma OneBlock(e: Entry)
    requires e.item.sizeOnDisk == 1
    ensures RoundUp(1) == 4096 && Disk([e]) == 4096
  {
    SumSingle(e, DiskOf);
  }

  // ----- the states of the run -----

  // After the first Put.
  function FirstDone(sc: Scene): Local {
    Finish(AtWriting(sc.cfg, sc.first, sc.e.item.random).(sizeOnDisk := 1, unreserve := false, removeTempfile := false), PutOk)
  }

  function Cached(sc: Scene): State {
    State(Lru([sc.e], 0, 4096), map[sc.path := Source(sc.cfg, sc.first)], [], [FirstDone(sc)])
  }

  // The Get has found its entry.
  function AboutToOpen(sc: Scene): Local {
    Fresh(sc.get).(pc := Opening, item := sc.e.item)
  }

  function Found(sc: Scene): State {
    With(Cached(sc), AboutToOpen(sc))
  }

  // The second Put has evicted it.
  function Evicted(sc: Scene): State {
    With(Found(sc).(lru := Lru([], 1, 4096), pending := [sc.e]), AtCreating(sc.second))
  }

  // The state without the second Put, once the file is gone.
  function Gone(sc: Scene): State {
    State(Lru([], 1, 4096), map[], [], Found(sc).locals)
  }

  // The second Put has drawn the same name and written something.
  function Rewritten(sc: Scene): State {
    With(Gone(sc).(files := map[sc.path := [sc.junk]]), AtWriting(sc.cfg, sc.second, sc.e.item.random))
  }

  // The Get has read that.
  function Misled(sc: Scene): State {
    Rewritten(sc).(locals := [FirstDone(sc), Finish(AboutToOpen(sc), Hit([sc.junk], 1)),
                              AtWriting(sc.cfg, sc.second, sc.e.item.random)])
  }

  // ----- its transitions -----

  lemma {:induction false} RunConcat(cfg: Config, s: State, a: seq<Label>, b: seq<Label>)
    requires Protocol.Run(cfg, s, a).Some?
    ensures Protocol.Run(cfg, s, a + b) == Protocol.Run(cfg, Protocol.Run(cfg, s, a).value, b)
    decreases |a|
  {
    if a == [] {
      assert a + b == b;
    } else {
      assert (a + b)[1..] == a[1..] + b;
      RunConcat(cfg, Next(cfg, s, a[0]).value, a[1..], b);
    }
  }

  lemma RunOfThree(cfg: Config, s0: State, s1: State, s2: State, s3: State, labels: seq<Label>)
    requires |labels| == 3 && Next(cfg, s0, labels[0]) == Some(s1)
    requires Next(cfg, s1, labels[1]) == Some(s2) && Next(cfg, s2, labels[2]) == Some(s3)
    ensures Protocol.Run(cfg, s0, labels) == Some(s3)
  {
    RunOn(cfg, s2, labels[2..], s3);
    RunOn(cfg, s1, labels[1..], s2);
    RunOn(cfg, s0, labels, s1);
    assert labels[1..][1..] == labels[2..];
  }

  function FirstLabels(sc: Scene): seq<Label> {
    PutLabels(0, sc.first, sc.e.item.random) + [Step(0, Go)]
  }

  lemma FirstPut(sc: Scene)
    requires SceneOk(sc)
    ensures Protocol.Run(sc.cfg, Initial(sc.cfg), FirstLabels(sc)) == Some(Cached(sc))
  {
    var cfg, s, put, x := sc.cfg, Initial(sc.cfg), sc.first, sc.e.item.random;
    OneBlock(sc.e);
    InitialInv(cfg);
    PutReachesCommit(cfg, s, put, x);
    var me := BeforeCommit(cfg, put, x);
    var s1 := With(Ready(sc), me);
    FirstIsReady(sc);
    FirstIsAdded(sc, Ready(sc).files);
    FirstCommits(sc, me);
    RunConcat(cfg, s, PutLabels(0, put, x), [Step(0, Go)]);
    RunOn(cfg, s1, [Step(0, Go)], Cached(sc));
    assert [Step(0, Go)][1..] == [];
  }

  lemma NothingToEvict()
    ensures Reserve(Empty(4096), 1) == Outcome(Lru([], 1, 4096), true, [])
  {
  }

  lemma FirstCommits(sc: Scene, me: Local)
    requires me.pc.Committing?
    requires Commit(sc.cfg, Ready(sc).lru, Ready(sc).files, me) ==
             Effect(Lru([sc.e], 0, 4096), [], Ready(sc).files, FirstDone(sc))
    ensures Next(sc.cfg, With(Ready(sc), me), Step(0, Go)) == Some(Cached(sc))
  {
    CommitStep(sc.cfg, Ready(sc), me);
    assert Ready(sc).locals + [FirstDone(sc)] == Cached(sc).locals && Ready(sc).pending + [] == [];
  }

  // The state without the first Put, when it is about to commit.
  function Ready(sc: Scene): State {
    State(Lru([], 1, 4096), map[sc.path := Source(sc.cfg, sc.first)], [], [])
  }

  lemma FirstIsReady(sc: Scene)
    requires SceneOk(sc)
    ensures ReadyToCommit(sc.cfg, Initial(sc.cfg), sc.first, sc.e.item.random) ==
            With(Ready(sc), BeforeCommit(sc.cfg, sc.first, sc.e.item.random))
  {
    NothingToEvict();
    var files: map<string, seq<byte>> := map[];
    assert files[sc.path := Source(sc.cfg, sc.first)] == Ready(sc).files;
  }

  lemma CommitStep(cfg: Config, s: State, me: Local)
    requires me.pc.Committing?
    ensures var e := Commit(cfg, s.lru, s.files, me);
      Next(cfg, With(s, me), Step(|s.locals|, Go)) == Some(State(e.lru, e.files, s.pending + e.evicted, s.locals + [e.me]))
  {
    LastSteps(cfg, s, me, Go);
  }

  lemma PartialStep(cfg: Config, s: State, me: Local, bs: seq<byte>)
    requires me.pc.Writing?
    ensures Next(cfg, With(s, me), Step(|s.locals|, Partial(bs))) ==
            Some(With(s.(files := s.files[me.blobFile := bs]), me))
  {
    LastSteps(cfg, s, me, Partial(bs));
    assert s.pending + [] == s.pending;
  }

  lemma OpenStep(cfg: Config, s: State, i: nat)
    requires i < |s.locals| && s.locals[i].pc.Opening? && s.locals[i].req.Get? && s.locals[i].req.offset >= 0
    ensures Next(cfg, s, Step(i, Go)) == Some(s.(locals := s.locals[i := Open(cfg, s.files, s.locals[i])]))
  {
    assert s.pending + [] == s.pending;
  }

  lemma FirstIsAdded(sc: Scene, files: map<string, seq<byte>>)
    requires SceneOk(sc)
    ensures Commit(sc.cfg, Lru([], 1, 4096), files, BeforeCommit(sc.cfg, sc.first, sc.e.item.random)) ==
            Effect(Lru([sc.e], 0, 4096), [], files, FirstDone(sc))
  {
    FirstAdds(sc.e);
    assert Unreserve(Lru([], 1, 4096), 1) == Outcome(Empty(4096), true, []);
    assert ItemOf(sc.cfg, BeforeCommit(sc.cfg, sc.first, sc.e.item.random)) == sc.e.item;
  }

  lemma FirstAdds(e: Entry)
    requires e.item.sizeOnDisk == 1
    ensures Add(Empty(4096), e.key, e.item) == Outcome(Lru([e], 0, 4096), true, [])
  {
    OneBlock(e);
    var es := [Entry(e.key, e.item)] + Without([], e.key);
    assert es == [e] && es[..1] == es;
    assert Fit(es, 4096) == 1;
  }

  function GetLabels(sc: Scene): seq<Label> {
    [Arrive(sc.get), Step(1, Go), Step(1, Go)]
  }

  lemma GetStarts(sc: Scene)
    requires sc.get.Get? && sc.get.kind == AC && IsHash(sc.get.hash)
    requires sc.get.size == -1 && sc.get.offset == 0 && !sc.get.zstd
    ensures Next(sc.cfg, With(Cached(sc), Fresh(sc.get)), Step(1, Go)) ==
            Some(With(Cached(sc), Fresh(sc.get).(pc := Looking)))
  {
    LastSteps(sc.cfg, Cached(sc), Fresh(sc.get), Go);
    assert Cached(sc).pending + [] == Cached(sc).pending;
  }

  lemma GetFinds(sc: Scene)
    requires SceneOk(sc)
    ensures Next(sc.cfg, With(Cached(sc), Fresh(sc.get).(pc := Looking)), Step(1, Go)) == Some(Found(sc))
  {
    LastSteps(sc.cfg, Cached(sc), Fresh(sc.get).(pc := Looking), Go);
    LooksUp(sc);
    assert Cached(sc).pending + [] == Cached(sc).pending;
  }

  lemma GetLooks(sc: Scene)
    requires SceneOk(sc)
    ensures Protocol.Run(sc.cfg, Cached(sc), GetLabels(sc)) == Some(Found(sc))
  {
    GetStarts(sc);
    GetFinds(sc);
    RunOfThree(sc.cfg, Cached(sc), With(Cached(sc), Fresh(sc.get)), With(Cached(sc), Fresh(sc.get).(pc := Looking)),
               Found(sc), GetLabels(sc));
  }

  lemma LooksUp(sc: Scene)
    requires SceneOk(sc)
    ensures Look(sc.cfg, Cached(sc).lru, Cached(sc).files, Fresh(sc.get).(pc := Looking)) ==
            Effect(Cached(sc).lru, [], Cached(sc).files, AboutToOpen(sc))
  {
    assert Promote([sc.e], sc.e.key) == [sc.e];
  }

  function EvictLabels(sc: Scene): seq<Label> {
    [Arrive(sc.second), Step(2, Go), Step(2, Go)]
  }

  lemma SecondStarts(sc: Scene)
    requires SceneOk(sc)
    ensures Next(sc.cfg, With(Found(sc), Fresh(sc.second)), Step(2, Go)) == Some(With(Found(sc), AtReserving(sc.second)))
  {
    LastSteps(sc.cfg, Found(sc), Fresh(sc.second), Go);
    assert Found(sc).pending + [] == Found(sc).pending;
  }

  lemma SecondReserves(sc: Scene)
    requires SceneOk(sc)
    ensures Next(sc.cfg, With(Found(sc), AtReserving(sc.second)), Step(2, Go)) == Some(Evicted(sc))
  {
    LastSteps(sc.cfg, Found(sc), AtReserving(sc.second), Go);
    EvictsIt(sc.e);
    assert Found(sc).pending + [sc.e] == [sc.e];
  }

  lemma SecondEvicts(sc: Scene)
    requires SceneOk(sc)
    ensures Protocol.Run(sc.cfg, Found(sc), EvictLabels(sc)) == Some(Evicted(sc))
  {
    SecondStarts(sc);
    SecondReserves(sc);
    RunOfThree(sc.cfg, Found(sc), With(Found(sc), Fresh(sc.second)), With(Found(sc), AtReserving(sc.second)),
               Evicted(sc), EvictLabels(sc));
  }

  lemma EvictsIt(e: Entry)
    requires e.item.sizeOnDisk == 1
    ensures Reserve(Lru([e], 0, 4096), 1) == Outcome(Lru([], 1, 4096), true, [e])
  {
    OneBlock(e);
    var es := [e];
    assert es[..1] == es && Fit(es, 4095) == 0;
    assert Reverse(es) == es;
  }

  function WriteLabels(sc: Scene): seq<Label> {
    [RemoveFile(0, true), Step(2, Name(sc.e.item.random)), Step(2, Partial([sc.junk]))]
  }

  lemma FileGoes(sc: Scene)
    requires PathOf(sc.e) == sc.path
    ensures Next(sc.cfg, Evicted(sc), RemoveFile(0, true)) == Some(With(Gone(sc), AtCreating(sc.second)))
  {
    var s := Evicted(sc);
    assert s.files - {sc.path} == map[] && s.pending[..0] + s.pending[1..] == [];
  }

  lemma SecondCreates(sc: Scene)
    requires SceneOk(sc)
    ensures Next(sc.cfg, With(Gone(sc), AtCreating(sc.second)), Step(2, Name(sc.e.item.random))) ==
            Some(With(Gone(sc).(files := map[sc.path := []]), AtWriting(sc.cfg, sc.second, sc.e.item.random)))
  {
    PutCreates(sc.cfg, Gone(sc), sc.second, sc.e.item.random);
  }

  lemma SecondWritesJunk(sc: Scene, me: Local)
    requires me.pc.Writing? && me.blobFile == sc.path
    ensures Next(sc.cfg, With(Gone(sc).(files := map[sc.path := []]), me), Step(2, Partial([sc.junk]))) ==
            Some(With(Gone(sc).(files := map[sc.path := [sc.junk]]), me))
  {
    var s := Gone(sc).(files := map[sc.path := []]);
    PartialStep(sc.cfg, s, me, [sc.junk]);
    assert s.files[sc.path := [sc.junk]] == map[sc.path := [sc.junk]];
  }

  lemma SecondWrites(sc: Scene)
    requires SceneOk(sc)
    ensures Protocol.Run(sc.cfg, Evicted(sc), WriteLabels(sc)) == Some(Rewritten(sc))
  {
    var s := Gone(sc).(files := map[sc.path := []]);
    FileGoes(sc);
    SecondCreates(sc);
    SecondWritesJunk(sc, AtWriting(sc.cfg, sc.second, sc.e.item.random));
    RunOfThree(sc.cfg, Evicted(sc), With(Gone(sc), AtCreating(sc.second)),
               With(s, AtWriting(sc.cfg, sc.second, sc.e.item.random)), Rewritten(sc), WriteLabels(sc));
  }

  lemma OpensJunk(sc: Scene)
    requires SceneOk(sc)
    ensures Open(sc.cfg, Rewritten(sc).files, AboutToOpen(sc)) == Finish(AboutToOpen(sc), Hit([sc.junk], 1))
  {
    assert Serve(sc.cfg, sc.get, sc.e.item, [sc.junk]) == ServedHit([sc.junk], 1);
  }

  lemma GetReads(sc: Scene)
    requires SceneOk(sc)
    ensures Protocol.Run(sc.cfg, Rewritten(sc), [Step(1, Go)]) == Some(Misled(sc))
  {
    var s, me := Rewritten(sc), AboutToOpen(sc);
    OpensJunk(sc);
    assert s.locals[1] == me && s.locals[1 := Finish(me, Hit([sc.junk], 1))] == Misled(sc).locals;
    OpenStep(sc.cfg, s, 1);
    RunOn(sc.cfg, s, [Step(1, Go)], Misled(sc));
    assert [Step(1, Go)][1..] == [];
  }

  // Nobody has stored what the Get is given.
  lemma NotTrue(sc: Scene)
    requires sc.first.Put? && sc.second.Put? && sc.get.Get? && sc.cfg.proxy.None?
    requires sc.get.kind == AC && sc.get.offset == 0 && !sc.get.zstd
    requires sc.first.body != [sc.junk] && sc.second.body != [sc.junk]
    ensures !TrueAnswer(sc.cfg, Misled(sc).locals, sc.get, [sc.junk], 1)
  {
    var locals := Misled(sc).locals;
    forall data ensures !TrueData(sc.cfg, locals, sc.get, [sc.junk], 1, data) {
      forall j | 0 <= j < |locals| ensures !Supplies(sc.cfg, locals[j].req, KeyOf(sc.get), [sc.junk]) {
        if Supplies(sc.cfg, locals[j].req, KeyOf(sc.get), [sc.junk]) {
          OnlyItsBody(sc.cfg, locals[j].req, KeyOf(sc.get), [sc.junk]);
        }
        assert locals[j].req == sc.first || locals[j].req == sc.get || locals[j].req == sc.second;
      }
    }
  }

  lemma OnlyItsBody(cfg: Config, req: Request, key: Key, data: seq<byte>)
    requires cfg.proxy.None? && Supplies(cfg, req, key, data)
    ensures req.Put? && req.body == data
  {
  }

  function AllLabels(sc: Scene): seq<Label> {
    FirstLabels(sc) + (GetLabels(sc) + (EvictLabels(sc) + (WriteLabels(sc) + [Step(1, Go)])))
  }

  // So a name that is drawn again while a Get is between its lookup and the
  // opening of the file can mislead it.
  lemma ClashMisleads(sc: Scene)
    requires SceneOk(sc)
    ensures Protocol.Run(sc.cfg, Initial(sc.cfg), AllLabels(sc)) == Some(Misled(sc))
    ensures Misled(sc).locals[1].req == sc.get && Misled(sc).locals[1].reply == Hit([sc.junk], 1)
    ensures !TrueAnswer(sc.cfg, Misled(sc).locals, sc.get, [sc.junk], 1)
  {
    FirstPut(sc);
    GetLooks(sc);
    SecondEvicts(sc);
    SecondWrites(sc);
    GetReads(sc);
    RunConcat(sc.cfg, Evicted(sc), WriteLabels(sc), [Step(1, Go)]);
    RunConcat(sc.cfg, Found(sc), EvictLabels(sc), WriteLabels(sc) + [Step(1, Go)]);
    RunConcat(sc.cfg, Cached(sc), GetLabels(sc), EvictLabels(sc) + (WriteLabels(sc) + [Step(1, Go)]));
    RunConcat(sc.cfg, Initial(sc.cfg), FirstLabels(sc),
              GetLabels(sc) + (EvictLabels(sc) + (WriteLabels(sc) + [Step(1, Go)])));
    NotTrue(sc);
  }

  // There is such a scene.
  lemma SomeScene() returns (sc: Scene)
    ensures SceneOk(sc)
  {
    var cfg := Config(Z.Toy(), x => "", Zstandard, 4096, 4096, None, 0);
    var hash := seq(64, _ => 'a');
    var item := Item(1, 1, "x", false);
    sc := Scene(cfg, Put("", AC, hash, 1, [1], false), Put("", AC, hash, 1, [2], false), Get("", AC, hash, -1, 0, false),
                Entry(LookupKey("", AC, hash), item), ElementPath(LookupKey("", AC, hash), item), 9);
    Z.ToyIsLawful();
    SamePath(cfg, sc.first, sc.get, item);
    SamePath(cfg, sc.second, sc.get, item);
  }

  lemma SamePath(cfg: Config, put: Request, get: Request, item: Item)
    requires put.Put? && get.Get? && put.kind == get.kind == AC && put.hash == get.hash && put.prefix == get.prefix
    requires RequestOk(get) && put.size == item.size && !item.legacy
    ensures var path := ElementPath(KeyOf(get), item);
      TempName(cfg, AtCreating(put), item.random) == path && PathIn(get, item) == path
  {
    CreatedIsEvicted(get.prefix, AC, get.hash, item);
    PathInIsPathOf(get, item);
  }
}
