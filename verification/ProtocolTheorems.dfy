// What the protocol invariant means: reservations never leak, requests do not
// block one another, no file has two users, and lookups under the lock find
// their files.
module ProtocolTheorems {
  import opened Wrappers
  import opened Sums
  import opened Bytes
  import opened LruSpec
  import opened Names
  import opened Protocol
  import opened ProtocolSafety
  import TempFile

  // ----- reservations -----

  // Giving back what a request holds never fails, in commit or in the cleanup.
  lemma UnreserveNeverFails(cfg: Config, s: State, i: nat)
    requires Inv(cfg, s) && i < |s.locals| && s.locals[i].unreserve
    ensures Unreserve(s.lru, s.locals[i].req.size).ok
  {
    HoldingIsReserved(cfg, s, i);
    assert LocalOk(cfg, s.files, s.locals[i]);
    UnreserveValid(s.lru, s.locals[i]);
  }

  lemma {:induction false} NothingHeld(locals: seq<Local>)
    requires forall i :: 0 <= i < |locals| ==> !locals[i].unreserve
    ensures Sum(locals, HeldBy) == 0
  {
    if locals != [] { NothingHeld(locals[1..]); }
  }

  // Nothing stays reserved: when every request is done, no byte is.
  lemma NothingReservedWhenIdle(cfg: Config, s: State, labels: seq<Label>)
    requires Inv(cfg, s) && Protocol.Run(cfg, s, labels).Some?
    requires forall i :: 0 <= i < |Protocol.Run(cfg, s, labels).value.locals| ==>
               Protocol.Run(cfg, s, labels).value.locals[i].pc.Done?
    ensures var s' := Protocol.Run(cfg, s, labels).value;
      s'.lru.reserved == 0 && Total(s'.lru) == Disk(s'.lru.entries) <= cfg.maxSize
  {
    RunKeepsInv(cfg, s, labels);
    var s' := Protocol.Run(cfg, s, labels).value;
    forall i | 0 <= i < |s'.locals| ensures !s'.locals[i].unreserve {
      assert LocalOk(cfg, s'.files, s'.locals[i]);
    }
    NothingHeld(s'.locals);
  }

  // ----- progress -----

  lemma {:induction false} LongestName(names: set<string>) returns (n: nat)
    ensures forall p :: p in names ==> |p| <= n
    decreases |names|
  {
    if names == {} {
      n := 0;
    } else {
      var p :| p in names;
      var m := LongestName(names - {p});
      n := if |p| > m then |p| else m;
    }
  }

  // There is always a random part, of some length, whose name is not taken.
  lemma SomeNameIsFree(cfg: Config, files: map<string, seq<byte>>, me: Local) returns (random: string)
    ensures IsRandom(random) && TempName(cfg, me, random) !in files
  {
    var n := LongestName(files.Keys);
    random := seq(n + 1, _ => 'a');
    assert |TempName(cfg, me, random)| > n;
  }

  // With fewer than 10^9 files one of the names that the program draws, with
  // nine digits, is not taken.
  lemma NameIsFree(cfg: Config, files: map<string, seq<byte>>, me: Local) returns (r: nat)
    requires |files| < 1_000_000_000
    ensures r < 1_000_000_000
    ensures IsRandom(TempFile.RandomText(r)) && TempName(cfg, me, TempFile.RandomText(r)) !in files
  {
    assert |files.Keys| == |files|;
    r := FreeAmong(cfg, files.Keys, me, 1_000_000_000);
    TempFile.RandomTextShape(r);
  }

  lemma {:induction false} FreeAmong(cfg: Config, names: set<string>, me: Local, n: nat) returns (r: nat)
    requires |names| < n <= 1_000_000_000
    ensures r < n && TempName(cfg, me, TempFile.RandomText(r)) !in names
    decreases n
  {
    r := n - 1;
    var name := TempName(cfg, me, TempFile.RandomText(r));
    if name in names {
      r := FreeAmong(cfg, names - {name}, me, n - 1);
      RandomNamesDiffer(cfg, me, r, n - 1);
    }
  }

  lemma RandomNamesDiffer(cfg: Config, me: Local, a: nat, b: nat)
    requires a < b < 1_000_000_000
    ensures TempName(cfg, me, TempFile.RandomText(a)) != TempName(cfg, me, TempFile.RandomText(b))
  {
    TempFile.RandomTextsDiffer(a, b);
    NamesDiffer(FileLocationBase(me.req.prefix, me.req.kind, Legacy(cfg, me.req.kind), me.req.hash, me.foundSize),
                TempFile.RandomText(a), TempFile.RandomText(b), Legacy(cfg, me.req.kind));
  }

  lemma NamesDiffer(base: string, s: string, t: string, legacy: bool)
    requires |s| == |t| && s != t
    ensures CreateName(base, s, legacy) != CreateName(base, t, legacy)
  {
    var front := base + "-";
    assert CreateName(base, s, legacy)[|front|..|front| + |s|] == s;
    assert CreateName(base, t, legacy)[|front|..|front| + |t|] == t;
  }

  // A request that is not done can take a step without any failure, whatever
  // the others do; with fewer than 10^9 files, one that the program may take.
  lemma NoDeadlock(cfg: Config, s: State, i: nat)
    requires Inv(cfg, s) && i < |s.locals| && !s.locals[i].pc.Done?
    ensures exists c: Choice :: (c.Go? || c.Name?) && Next(cfg, s, Step(i, c)).Some?
    ensures |s.files| < 1_000_000_000 ==> exists c: Choice :: (c.Go? || DrawnName(c)) && Next(cfg, s, Step(i, c)).Some?
  {
    assert LocalOk(cfg, s.files, s.locals[i]);
    var c, drawn := Go, Go;
    if s.locals[i].pc.Creating? {
      var random := SomeNameIsFree(cfg, s.files, s.locals[i]);
      c := Name(random);
      if |s.files| < 1_000_000_000 {
        var r := NameIsFree(cfg, s.files, s.locals[i]);
        drawn := Name(TempFile.RandomText(r));
        assert DrawnName(drawn);
      }
    }
    assert Next(cfg, s, Step(i, c)).Some?;
    assert |s.files| < 1_000_000_000 ==> Next(cfg, s, Step(i, drawn)).Some?;
  }

  ghost predicate DrawnName(c: Choice) {
    c.Name? && exists r: nat :: r < 1_000_000_000 && c.random == TempFile.RandomText(r)
  }

  // How far a request is from its end.
  function Stage(pc: Pc): nat {
    match pc
    case Start => 12
    case Reserving | Looking => 11
    case Opening => 10
    case Slow => 9
    case Missing => 8
    case Fetching => 7
    case Creating => 6
    case Writing => 5
    case Reopening => 4
    case Committing => 3
    case CleanFile => 2
    case CleanReserve => 1
    case Done => 0
  }

  // Every step brings a request closer to its end, other than writing a part of
  // its file, which leaves it where it is. So it is done after twelve others.
  lemma StepAdvances(cfg: Config, lru: Lru, files: map<string, seq<byte>>, me: Local, c: Choice)
    requires Enabled(cfg, files, me, c)
    ensures var me' := LocalStep(cfg, lru, files, me, c).me;
      if c.Partial? then me' == me else Stage(me'.pc) < Stage(me.pc)
  {
    match me.pc
    case Looking => LookAdvances(cfg, lru, files, me);
    case Opening => if c.Go? { OpenAdvances(cfg, files, me); }
    case Slow => if c.Go? { LookAgainAdvances(cfg, lru, files, me); }
    case Missing => TryProxyAdvances(cfg, lru, files, me);
    case Reopening => if c.Go? { ReopenAdvances(cfg, files, me); }
    case Committing => CommitAdvances(cfg, lru, files, me);
    case Start => StartAdvances(cfg, me);
    case Fetching => if c.Go? { FetchAdvances(cfg, me); }
    case Writing => if c.Go? { WriteAdvances(cfg, files, me); }
    case _ => CleanupAdvances(cfg, lru, files, me, c);
  }

  lemma CleanupAdvances(cfg: Config, lru: Lru, files: map<string, seq<byte>>, me: Local, c: Choice)
    requires Enabled(cfg, files, me, c)
    requires me.pc.Reserving? || me.pc.Creating? || me.pc.CleanFile? || me.pc.CleanReserve? || me.pc.Done?
    ensures Stage(LocalStep(cfg, lru, files, me, c).me.pc) < Stage(me.pc)
  {
    var e := LocalStep(cfg, lru, files, me, c);
  }

  lemma StartAdvances(cfg: Config, me: Local)
    ensures Stage((if me.req.Put? then StartPut(cfg, me) else StartGet(cfg, me)).pc) < Stage(Start)
  {
  }

  lemma FetchAdvances(cfg: Config, me: Local)
    requires me.req.Get?
    ensures Stage(Fetch(cfg, me).pc) < Stage(Fetching)
  {
  }

  lemma WriteAdvances(cfg: Config, files: map<string, seq<byte>>, me: Local)
    ensures Stage(Write(cfg, files, me).1.pc) < Stage(Writing)
  {
  }

  lemma TryProxyAdvances(cfg: Config, lru: Lru, files: map<string, seq<byte>>, me: Local)
    ensures Stage(TryProxy(cfg, lru, files, me).me.pc) < Stage(Missing)
  {
  }

  lemma LookAdvances(cfg: Config, lru: Lru, files: map<string, seq<byte>>, me: Local)
    ensures Stage(Look(cfg, lru, files, me).me.pc) < Stage(Looking)
  {
    TryProxyAdvances(cfg, LruSpec.Get(lru, KeyOf(me.req)), files, me);
  }

  lemma AnswerAdvances(cfg: Config, me: Local, item: Item, bytes: seq<byte>)
    requires me.req.Get? && me.req.offset >= 0
    ensures Stage(Answer(cfg, me, item, bytes).pc) <= Stage(Missing)
  {
    var served := Serve(cfg, me.req, item, bytes);
  }

  lemma OpenAdvances(cfg: Config, files: map<string, seq<byte>>, me: Local)
    requires me.req.Get? && me.req.offset >= 0
    ensures Stage(Open(cfg, files, me).pc) < Stage(Opening)
  {
    var path := PathIn(me.req, me.item);
    if path in files { AnswerAdvances(cfg, me, me.item, files[path]); }
  }

  lemma LookAgainAdvances(cfg: Config, lru: Lru, files: map<string, seq<byte>>, me: Local)
    requires me.req.Get? && me.req.offset >= 0
    ensures Stage(LookAgain(cfg, lru, files, me).me.pc) < Stage(Slow)
  {
    var found := Find(lru.entries, KeyOf(me.req));
    if found.Some? {
      var path := PathIn(me.req, found.value);
      if path in files { AnswerAdvances(cfg, me, found.value, files[path]); }
    }
  }

  lemma ReopenAdvances(cfg: Config, files: map<string, seq<byte>>, me: Local)
    requires me.req.Get? && me.req.offset >= 0
    ensures Stage(Reopen(cfg, files, me).pc) < Stage(Reopening)
  {
    ReopenEnds(cfg, files, me);
  }

  lemma CommitAdvances(cfg: Config, lru: Lru, files: map<string, seq<byte>>, me: Local)
    ensures Stage(Commit(cfg, lru, files, me).me.pc) < Stage(Committing)
  {
    var e := Commit(cfg, lru, files, me);
    assert e.me.pc.CleanFile?;
  }

  // ----- the life of a file -----

  // Index entries, scheduled removals and unfinished requests use pairwise
  // different paths, at all of which there are files.
  lemma PathsAreDisjoint(cfg: Config, s: State)
    requires Inv(cfg, s)
    ensures forall i, j :: 0 <= i < j < |s.lru.entries| ==> PathOf(s.lru.entries[i]) != PathOf(s.lru.entries[j])
    ensures forall i, k :: 0 <= i < |s.lru.entries| && 0 <= k < |s.pending| ==>
              PathOf(s.lru.entries[i]) != PathOf(s.pending[k])
    ensures forall i, k :: 0 <= i < |s.locals| && s.locals[i].removeTempfile && 0 <= k < |s.pending| ==>
              s.locals[i].blobFile != PathOf(s.pending[k])
    ensures forall i, j :: 0 <= i < |s.lru.entries| && 0 <= j < |s.locals| && s.locals[j].removeTempfile ==>
              PathOf(s.lru.entries[i]) != s.locals[j].blobFile
    ensures forall i, j :: 0 <= i < j < |s.locals| && s.locals[i].removeTempfile && s.locals[j].removeTempfile ==>
              s.locals[i].blobFile != s.locals[j].blobFile
    ensures forall k, l :: 0 <= k < l < |s.pending| ==> PathOf(s.pending[k]) != PathOf(s.pending[l])
    ensures forall i :: 0 <= i < |s.lru.entries| ==> PathOf(s.lru.entries[i]) in s.files
    ensures forall k :: 0 <= k < |s.pending| ==> PathOf(s.pending[k]) in s.files
    ensures forall i :: 0 <= i < |s.locals| && s.locals[i].removeTempfile ==> s.locals[i].blobFile in s.files
  {
    forall i, j | 0 <= i < j < |s.lru.entries| ensures PathOf(s.lru.entries[i]) != PathOf(s.lru.entries[j]) {
      EntryPathsDiffer(s, i, j, PathOf(s.lru.entries[i]));
    }
    forall k, l | 0 <= k < l < |s.pending| ensures PathOf(s.pending[k]) != PathOf(s.pending[l]) {
      PendingPathsDiffer(s, k, l, PathOf(s.pending[k]));
    }
    forall i | 0 <= i < |s.lru.entries| ensures PathOf(s.lru.entries[i]) in s.files {
      assert Stored(cfg, s.files, s.lru.entries[i]);
    }
    forall k | 0 <= k < |s.pending|
      ensures PathOf(s.pending[k]) in s.files
      ensures forall i :: 0 <= i < |s.lru.entries| ==> PathOf(s.lru.entries[i]) != PathOf(s.pending[k])
      ensures forall i :: 0 <= i < |s.locals| && s.locals[i].removeTempfile ==>
                s.locals[i].blobFile != PathOf(s.pending[k])
    {
      RemovalIsExclusive(cfg, s, k);
    }
    forall j | 0 <= j < |s.locals| && s.locals[j].removeTempfile
      ensures s.locals[j].blobFile in s.files
      ensures forall i :: 0 <= i < |s.lru.entries| ==> PathOf(s.lru.entries[i]) != s.locals[j].blobFile
      ensures forall i :: 0 <= i < j && s.locals[i].removeTempfile ==> s.locals[i].blobFile != s.locals[j].blobFile
    {
      assert PathOwned(s, s.locals[j].blobFile);
      TempOwns(s, j);
      forall i | 0 <= i < |s.lru.entries| ensures PathOf(s.lru.entries[i]) != s.locals[j].blobFile {
        if PathOf(s.lru.entries[i]) == s.locals[j].blobFile { EntryOwns(s, s.lru.entries[i]); }
      }
    }
  }

  lemma EntryPathsDiffer(s: State, i: nat, j: nat, p: string)
    requires i < j < |s.lru.entries| && PathOwned(s, p) && PathOf(s.lru.entries[i]) == p
    ensures PathOf(s.lru.entries[j]) != p
  {
    var at := AtPath(p);
    ClaimsNonNegative(s, p);
    assert at(s.lru.entries[i]) == 1;
    SumPair(s.lru.entries, i, j, at);
    assert at(s.lru.entries[j]) == 0;
  }

  lemma PendingPathsDiffer(s: State, k: nat, l: nat, p: string)
    requires k < l < |s.pending| && PathOwned(s, p) && PathOf(s.pending[k]) == p
    ensures PathOf(s.pending[l]) != p
  {
    var at := AtPath(p);
    ClaimsNonNegative(s, p);
    assert at(s.pending[k]) == 1;
    SumPair(s.pending, k, l, at);
    assert at(s.pending[l]) == 0;
  }

  // While an index entry stays, so do the contents of its file.
  lemma EntryFileStays(cfg: Config, s: State, step: Label, e: Entry)
    requires Inv(cfg, s) && Next(cfg, s, step).Some? && e in s.lru.entries
    ensures var s' := Next(cfg, s, step).value;
      PathOf(e) in s.files && PathOf(e) in s'.files && s'.files[PathOf(e)] == s.files[PathOf(e)]
  {
    var p := PathOf(e);
    assert Stored(cfg, s.files, e) && PathOwned(s, p);
    EntryOwns(s, e);
    forall k | 0 <= k < |s.pending| ensures PathOf(s.pending[k]) != p {
      RemovalIsExclusive(cfg, s, k);
    }
    FileStays(cfg, s, step, p);
  }

  lemma FileStays(cfg: Config, s: State, step: Label, p: string)
    requires Next(cfg, s, step).Some? && p in s.files
    requires forall i :: 0 <= i < |s.locals| ==> LocalOk(cfg, s.files, s.locals[i]) && TempAt(p)(s.locals[i]) == 0
    requires forall k :: 0 <= k < |s.pending| ==> PathOf(s.pending[k]) != p
    ensures var s' := Next(cfg, s, step).value; p in s'.files && s'.files[p] == s.files[p]
  {
    match step
    case Arrive(_) =>
    case Step(i, c) => StepKeepsFile(cfg, s, i, c, p);
    case RemoveFile(k, ok) => RemovalKeepsFile(cfg, s, k, ok, p);
  }

  lemma StepKeepsFile(cfg: Config, s: State, i: nat, c: Choice, p: string)
    requires Next(cfg, s, Step(i, c)).Some? && LocalOk(cfg, s.files, s.locals[i])
    requires p in s.files && TempAt(p)(s.locals[i]) == 0
    ensures var s' := Next(cfg, s, Step(i, c)).value; p in s'.files && s'.files[p] == s.files[p]
  {
    var e := LocalStep(cfg, s.lru, s.files, s.locals[i], c);
    StepFrame(cfg, s.lru, s.files, s.locals[i], c, p);
  }

  lemma RemovalKeepsFile(cfg: Config, s: State, k: nat, ok: bool, p: string)
    requires k < |s.pending| && PathOf(s.pending[k]) != p && p in s.files
    ensures var s' := Next(cfg, s, RemoveFile(k, ok)).value; p in s'.files && s'.files[p] == s.files[p]
  {
  }

  // A request changes by its own steps only.
  lemma NextLocals(cfg: Config, s: State, step: Label, j: nat)
    requires j < |s.locals| && Next(cfg, s, step).Some?
    ensures var s' := Next(cfg, s, step).value;
      && |s.locals| <= |s'.locals|
      && s'.locals[j] == if step.Step? && step.i == j
                         then LocalStep(cfg, s.lru, s.files, s.locals[j], step.choice).me
                         else s.locals[j]
  {
  }

  // The key is mapped to the item in every state of a run.
  ghost predicate AlwaysMapped(cfg: Config, s: State, labels: seq<Label>, key: Key, item: Item)
    decreases |labels|
  {
    && Find(s.lru.entries, key) == Some(item)
    && (labels != [] && Next(cfg, s, labels[0]).Some? ==>
          AlwaysMapped(cfg, Next(cfg, s, labels[0]).value, labels[1..], key, item))
  }

  lemma {:induction false} MappedFileStays(cfg: Config, s: State, labels: seq<Label>, key: Key, item: Item)
    requires Inv(cfg, s) && Protocol.Run(cfg, s, labels).Some? && AlwaysMapped(cfg, s, labels, key, item)
    ensures var s', p := Protocol.Run(cfg, s, labels).value, PathOf(Entry(key, item));
      && Inv(cfg, s') && Find(s'.lru.entries, key) == Some(item)
      && p in s.files && p in s'.files && s'.files[p] == s.files[p]
    decreases |labels|
  {
    FindFacts(s.lru.entries, key, item);
    assert Stored(cfg, s.files, Entry(key, item));
    if labels != [] {
      EntryFileStays(cfg, s, labels[0], Entry(key, item));
      NextKeepsInv(cfg, s, labels[0]);
      MappedFileStays(cfg, Next(cfg, s, labels[0]).value, labels[1..], key, item);
    }
  }

  // ----- lookups -----

  // The path at which a Get looks is the path of the entry.
  lemma PathInIsPathOf(req: Request, item: Item)
    requires RequestOk(req)
    ensures PathIn(req, item) == PathOf(Entry(KeyOf(req), item))
  {
    LookupKeyRoundTrip(req.prefix, req.kind, req.hash);
    DirIgnoresRawPrefix(req.prefix, req.kind, req.hash);
  }

  // The second lookup, which opens the file under the lock, always finds it.
  lemma SlowPathFindsFile(cfg: Config, s: State, i: nat)
    requires Inv(cfg, s) && i < |s.locals| && s.locals[i].pc.Slow?
    requires Find(s.lru.entries, KeyOf(s.locals[i].req)).Some?
    ensures PathIn(s.locals[i].req, Find(s.lru.entries, KeyOf(s.locals[i].req)).value) in s.files
  {
    var req := s.locals[i].req;
    var item := Find(s.lru.entries, KeyOf(req)).value;
    assert LocalOk(cfg, s.files, s.locals[i]);
    FindFacts(s.lru.entries, KeyOf(req), item);
    assert Stored(cfg, s.files, Entry(KeyOf(req), item));
    PathInIsPathOf(req, item);
  }

  // Only a commit of a request for the same key can replace the item of a key:
  // every other transition keeps the mapping or evicts it.
  lemma OnlyOwnCommitReplaces(cfg: Config, s: State, step: Label, key: Key)
    requires Inv(cfg, s) && Next(cfg, s, step).Some?
    requires step.Step? ==> !s.locals[step.i].pc.Committing? || KeyOf(s.locals[step.i].req) != key
    ensures var found := Find(Next(cfg, s, step).value.lru.entries, key);
      found == None || found == Find(s.lru.entries, key)
  {
    var s' := Next(cfg, s, step).value;
    if step.Step? && Find(s'.lru.entries, key).Some? {
      var item := Find(s'.lru.entries, key).value;
      NextKeepsInv(cfg, s, step);
      FindFacts(s'.lru.entries, key, item);
      assert LocalOk(cfg, s.files, s.locals[step.i]);
      StepEntries(cfg, s.lru, s.files, s.locals[step.i], step.choice, Entry(key, item));
      FindFacts(s.lru.entries, key, item);
    }
  }
}
