// Stopping and starting again: when no request is running, the files on disk
// are exactly those of the index entries, and loading them at startup
// (cache/disk/load.go) rebuilds the index.
module Restart {
  import opened Wrappers
  import opened Int64
  import opened Sums
  import opened Bytes
  import opened LruSpec
  import opened Names
  import opened Protocol
  import opened ProtocolSafety
  import opened ProtocolTheorems
  import Load

  // ----- no file is left behind -----

  // Every file belongs to an index entry, a scheduled removal or a request.
  ghost predicate NoOrphans(s: State) {
    forall p :: p in s.files ==> Owners(s, p) >= 1
  }

  // No file removal fails, in the asynchronous removals and in the cleanup of
  // unfinished files; the program ignores such failures.
  predicate TidyStep(s: State, step: Label) {
    match step
    case Arrive(_) => true
    case Step(i, c) => i < |s.locals| ==> Tidy(s.locals[i], c)
    case RemoveFile(_, ok) => ok
  }

  ghost predicate TidyRun(cfg: Config, s: State, labels: seq<Label>)
    decreases |labels|
  {
    labels != [] ==>
      TidyStep(s, labels[0]) && (Next(cfg, s, labels[0]).Some? ==> TidyRun(cfg, Next(cfg, s, labels[0]).value, labels[1..]))
  }

  lemma StepKeepsTrack(cfg: Config, s: State, i: nat, c: Choice, p: string)
    requires Inv(cfg, s) && NoOrphans(s) && i < |s.locals| && Enabled(cfg, s.files, s.locals[i], c)
    requires TidyStep(s, Step(i, c)) && p in Next(cfg, s, Step(i, c)).value.files
    ensures Owners(Next(cfg, s, Step(i, c)).value, p) >= 1
  {
    var me, e := s.locals[i], LocalStep(cfg, s.lru, s.files, s.locals[i], c);
    var s' := Next(cfg, s, Step(i, c)).value;
    assert LocalOk(cfg, s.files, me);
    StepOwns(cfg, s.lru, s.files, me, c, p);
    SumUpdate(s.locals, i, e.me, TempAt(p));
    SumConcat(s.pending, e.evicted, AtPath(p));
    ClaimsNonNegative(s, p);
    SumRemove(s.locals, i, TempAt(p));
    SumNonNegative(s.locals[..i] + s.locals[i + 1..], TempAt(p));
  }

  lemma RemovalKeepsTrack(s: State, k: nat, path: string, p: string)
    requires NoOrphans(s) && k < |s.pending| && At(s.pending[k], path)
    requires p in Removed(s, k, path, true).files
    ensures Owners(Removed(s, k, path, true), p) >= 1
  {
    SumRemove(s.pending, k, AtPath(p));
    assert AtPath(p)(s.pending[k]) == 0;
  }

  lemma NextKeepsTrack(cfg: Config, s: State, step: Label)
    requires Inv(cfg, s) && NoOrphans(s) && Next(cfg, s, step).Some? && TidyStep(s, step)
    ensures NoOrphans(Next(cfg, s, step).value)
  {
    var s' := Next(cfg, s, step).value;
    forall p | p in s'.files ensures Owners(s', p) >= 1 {
      match step
      case Arrive(req) =>
        SumConcat(s.locals, [Fresh(req)], TempAt(p));
        SumSingle(Fresh(req), TempAt(p));
      case Step(i, c) => StepKeepsTrack(cfg, s, i, c, p);
      case RemoveFile(k, _) => RemovalKeepsTrack(s, k, PathOf(s.pending[k]), p);
    }
  }

  lemma {:induction false} RunKeepsTrack(cfg: Config, s: State, labels: seq<Label>)
    requires Inv(cfg, s) && NoOrphans(s) && Protocol.Run(cfg, s, labels).Some? && TidyRun(cfg, s, labels)
    ensures NoOrphans(Protocol.Run(cfg, s, labels).value)
    decreases |labels|
  {
    if labels != [] {
      NextKeepsInv(cfg, s, labels[0]);
      NextKeepsTrack(cfg, s, labels[0]);
      RunKeepsTrack(cfg, Next(cfg, s, labels[0]).value, labels[1..]);
    }
  }

  // No request is running and no removal is outstanding.
  predicate Quiescent(s: State) {
    s.pending == [] && forall i :: 0 <= i < |s.locals| ==> s.locals[i].pc.Done?
  }

  lemma {:induction false} NoTempFiles(locals: seq<Local>, p: string)
    requires forall i :: 0 <= i < |locals| ==> !locals[i].removeTempfile
    ensures Sum(locals, TempAt(p)) == 0
  {
    if locals != [] { NoTempFiles(locals[1..], p); }
  }

  lemma {:induction false} SomeEntryAt(es: seq<Entry>, p: string)
    requires Sum(es, AtPath(p)) >= 1
    ensures exists e :: e in es && PathOf(e) == p
  {
    if es != [] {
      if PathOf(es[0]) != p { SomeEntryAt(es[1..], p); } else { assert es[0] in es; }
    }
  }

  // Then the files are exactly those of the index entries.
  lemma FilesAreEntries(cfg: Config, s: State, p: string)
    requires Inv(cfg, s) && NoOrphans(s) && Quiescent(s)
    ensures p in s.files <==> exists e :: e in s.lru.entries && PathOf(e) == p
  {
    if p in s.files {
      forall i | 0 <= i < |s.locals| ensures !s.locals[i].removeTempfile {
        assert LocalOk(cfg, s.files, s.locals[i]);
      }
      NoTempFiles(s.locals, p);
      assert Owners(s, p) >= 1;
      SomeEntryAt(s.lru.entries, p);
    }
    forall e | e in s.lru.entries ensures PathOf(e) in s.files {
      assert Stored(cfg, s.files, e);
    }
  }

  // ----- scanning -----

  // Where the last component of a path starts.
  function NameStart(path: string): (i: nat)
    ensures i <= |path|
  {
    if path == "" || path[|path| - 1] == '/' then |path| else NameStart(path[..|path| - 1])
  }

  lemma {:induction false} NameStartAt(dir: string, name: string)
    requires '/' !in name
    ensures NameStart(dir + "/" + name) == |dir| + 1
  {
    var path := dir + "/" + name;
    if name == "" {
      assert path[|path| - 1] == '/';
    } else {
      assert path[|path| - 1] == name[|name| - 1] && name[|name| - 1] in name;
      assert path[..|path| - 1] == dir + "/" + name[..|name| - 1];
      NameStartAt(dir, name[..|name| - 1]);
    }
  }

  // What the scan makes of the file at a path.
  function ScanPath(path: string, bytes: seq<byte>): Option<Entry> {
    var i := NameStart(path);
    if i == 0 || |bytes| > MAX_ROUNDABLE then None else Scan(path[..i - 1], path[i..], |bytes|)
  }

  // A file of an index entry is scanned as that entry.
  lemma StoredIsScanned(cfg: Config, files: map<string, seq<byte>>, e: Entry)
    requires Stored(cfg, files, e)
    ensures ScanPath(PathOf(e), files[PathOf(e)]) == Some(e)
  {
    var (kind, hash, prefix) := LookupKeyParts(e.key);
    var dir, name := DirOf(prefix, kind, hash), NameOf(kind, e.item.legacy, hash, e.item.size, e.item.random);
    ScanRoundTrip(prefix, kind, hash, e.item);
    NameHasNoSeparator(kind, hash, e.item);
    ScanPathParts(dir, name, files[PathOf(e)]);
  }

  lemma ScanPathParts(dir: string, name: string, bytes: seq<byte>)
    requires '/' !in name
    ensures ScanPath(dir + "/" + name, bytes) == if |bytes| > MAX_ROUNDABLE then None else Scan(dir, name, |bytes|)
  {
    NameStartAt(dir, name);
    var path := dir + "/" + name;
    assert path[..|dir|] == dir && path[|dir| + 1..] == name;
  }

  // Apply f to all elements, or fail if it fails for any.
  function Traverse<A, B>(s: seq<A>, f: A -> Option<B>): Option<seq<B>> {
    if s == [] then Some([])
    else
      match (f(s[0]), Traverse(s[1..], f))
      case (Some(b), Some(rest)) => Some([b] + rest)
      case _ => None
  }

  lemma {:induction false} TraverseAt<A, B>(s: seq<A>, f: A -> Option<B>)
    requires forall a :: a in s ==> f(a).Some?
    ensures Traverse(s, f).Some? && |Traverse(s, f).value| == |s|
    ensures forall k :: 0 <= k < |s| ==> f(s[k]) == Some(Traverse(s, f).value[k])
  {
    if s != [] { TraverseAt(s[1..], f); }
  }

  function Scanner(files: map<string, seq<byte>>): string -> Option<Entry> {
    p => if p in files then ScanPath(p, files[p]) else None
  }

  // The scan of all files in some order, or None if the start is aborted.
  function ScanAll(files: map<string, seq<byte>>, paths: seq<string>): Option<seq<Entry>> {
    Traverse(paths, Scanner(files))
  }

  // The paths list every file once.
  ghost predicate Enumerates(paths: seq<string>, files: map<string, seq<byte>>) {
    && (forall p :: p in paths <==> p in files)
    && (forall i, j :: 0 <= i < j < |paths| ==> paths[i] != paths[j])
  }

  lemma EntryIsScanned(cfg: Config, s: State, p: string)
    requires Inv(cfg, s) && NoOrphans(s) && Quiescent(s) && p in s.files
    ensures Scanner(s.files)(p).Some?
    ensures var e := Scanner(s.files)(p).value; e in s.lru.entries && At(e, p)
  {
    FilesAreEntries(cfg, s, p);
    var e :| e in s.lru.entries && PathOf(e) == p;
    StoredIsScanned(cfg, s.files, e);
  }

  lemma FileIsListed(cfg: Config, s: State, e: Entry)
    requires Inv(cfg, s) && e in s.lru.entries
    ensures At(e, PathOf(e)) && PathOf(e) in s.files
  {
    assert Stored(cfg, s.files, e);
  }

  predicate At(e: Entry, p: string) {
    AtPath(p)(e) == 1
  }

  // No two index entries have the same path.
  lemma SamePathSameEntry(cfg: Config, s: State, e: Entry, e': Entry, p: string)
    requires Inv(cfg, s) && e in s.lru.entries && e' in s.lru.entries && At(e, p) && At(e', p)
    ensures e == e'
  {
    assert PathOwned(s, p);
    var i :| 0 <= i < |s.lru.entries| && s.lru.entries[i] == e;
    var j :| 0 <= j < |s.lru.entries| && s.lru.entries[j] == e';
    OneEntryAt(s, i, j, p);
  }

  lemma OneEntryAt(s: State, i: nat, j: nat, p: string)
    requires i < |s.lru.entries| && j < |s.lru.entries| && PathOwned(s, p)
    requires PathOf(s.lru.entries[i]) == p && PathOf(s.lru.entries[j]) == p
    ensures i == j
  {
    if i < j { EntryPathsDiffer(s, i, j, p); }
    if j < i { EntryPathsDiffer(s, j, i, p); }
  }

  // The scan finds entries, in the order of the paths.
  lemma ScanAllFinds(cfg: Config, s: State, paths: seq<string>)
    requires Inv(cfg, s) && NoOrphans(s) && Quiescent(s) && forall p :: p in paths ==> p in s.files
    ensures ScanAll(s.files, paths).Some?
    ensures var found := ScanAll(s.files, paths).value;
      |found| == |paths| && forall k :: 0 <= k < |found| ==> found[k] in s.lru.entries && At(found[k], paths[k])
  {
    forall p | p in paths ensures Scanner(s.files)(p).Some? { EntryIsScanned(cfg, s, p); }
    TraverseAt(paths, Scanner(s.files));
    forall k | 0 <= k < |paths|
      ensures var e := ScanAll(s.files, paths).value[k]; e in s.lru.entries && At(e, paths[k])
    {
      EntryIsScanned(cfg, s, paths[k]);
    }
  }

  // It finds exactly the entries, each once.
  lemma ScanFindsEntries(cfg: Config, s: State, paths: seq<string>)
    requires Inv(cfg, s) && NoOrphans(s) && Quiescent(s) && Enumerates(paths, s.files)
    ensures ScanAll(s.files, paths).Some?
    ensures var found := ScanAll(s.files, paths).value;
      Distinct(found) && forall e :: e in found <==> e in s.lru.entries
  {
    ScanAllFinds(cfg, s, paths);
    var path, es, found := PathOf, s.lru.entries, ScanAll(s.files, paths).value;
    forall k | 0 <= k < |found| ensures path(found[k]) == paths[k] {
      assert At(found[k], paths[k]);
    }
    forall e | e in es ensures path(e) in paths { FileIsListed(cfg, s, e); }
    forall e, e' | e in es && e' in es && path(e) == path(e') ensures e == e' {
      SamePathSameEntry(cfg, s, e, e', path(e));
    }
    FoundAll(es, found, paths, path);
  }

  lemma FoundAll(es: seq<Entry>, found: seq<Entry>, paths: seq<string>, path: Entry -> string)
    requires Distinct(es) && |found| == |paths|
    requires forall k :: 0 <= k < |found| ==> found[k] in es && path(found[k]) == paths[k]
    requires forall i, j :: 0 <= i < j < |paths| ==> paths[i] != paths[j]
    requires forall e :: e in es ==> path(e) in paths
    requires forall e, e' :: e in es && e' in es && path(e) == path(e') ==> e == e'
    ensures Distinct(found) && forall e :: e in found <==> e in es
  {
    forall i, j | 0 <= i < j < |found| ensures found[i].key != found[j].key {
      assert paths[i] != paths[j];
      SameKeySameEntry(es, found[i], found[j]);
    }
    forall e | e in es ensures e in found {
      var k :| 0 <= k < |paths| && paths[k] == path(e);
      assert found[k] == e;
    }
  }

  lemma SameKeySameEntry(es: seq<Entry>, e: Entry, e': Entry)
    requires Distinct(es) && e in es && e' in es
    ensures e.key == e'.key ==> e == e'
  {
  }

  // ----- loading -----

  lemma {:induction false} SameMembersSameSum(es: seq<Entry>, es': seq<Entry>, f: Entry -> int)
    requires Distinct(es) && Distinct(es') && forall e :: e in es <==> e in es'
    ensures Sum(es, f) == Sum(es', f)
  {
    assert forall k :: 0 <= k < |es'| ==> es'[k] in es';
    if es != [] {
      var first := es[0];
      assert es == [first] + es[1..];
      FindFacts(es', first.key, first.item);
      WithoutMembers(es', first.key);
      WithoutSum(es', first.key, f);
      SumSingle(first, f);
      SameMembersSameSum(es[1..], Without(es', first.key), f);
    }
  }

  // Files that are found in whatever order are all loaded, and the state they
  // are loaded into satisfies the invariant of the request protocol.
  lemma RestartKeepsAll(cfg: Config, s: State, paths: seq<string>)
    requires Inv(cfg, s) && NoOrphans(s) && Quiescent(s) && Enumerates(paths, s.files)
    ensures ScanAll(s.files, paths).Some?
    ensures var found := ScanAll(s.files, paths).value;
      var r := Load.LoadAll(cfg.maxSize, found);
      && r.lru == Lru(Reverse(found), 0, cfg.maxSize) && r.refused == [] && r.evicted == []
      && (forall e :: e in r.lru.entries <==> e in s.lru.entries)
      && Inv(cfg, State(r.lru, s.files, [], []))
  {
    ScanFindsEntries(cfg, s, paths);
    var found := ScanAll(s.files, paths).value;
    SameMembersSameSum(s.lru.entries, found, DiskOf);
    Load.LoadKeepsAll(cfg.maxSize, found);
    var s' := State(Load.LoadAll(cfg.maxSize, found).lru, s.files, [], []);
    ReverseMembers(found);
    SumReverse(found, DiskOf);
    forall p ensures PathOwned(s', p) {
      assert PathOwned(s, p);
      ClaimsNonNegative(s, p);
      SameMembersSameSum(s.lru.entries, s'.lru.entries, AtPath(p));
    }
    forall e | e in s'.lru.entries ensures Stored(cfg, s'.files, e) {
      assert Stored(cfg, s.files, e);
    }
  }

  ghost function PathsOf(es: seq<Entry>): set<string> {
    set e | e in es :: PathOf(e)
  }

  // With any other limit as well, what is loaded satisfies the invariant: the
  // refused files are gone, and the removals of the evicted ones scheduled.
  lemma RestartWithLimit(cfg: Config, s: State, paths: seq<string>, maxSize: int64)
    requires Inv(cfg, s) && NoOrphans(s) && Quiescent(s) && Enumerates(paths, s.files) && 0 <= maxSize
    ensures ScanAll(s.files, paths).Some?
    ensures var r := Load.LoadAll(maxSize, ScanAll(s.files, paths).value);
      var s' := State(r.lru, s.files - PathsOf(r.refused), r.evicted, []);
      Inv(cfg.(maxSize := maxSize), s') && NoOrphans(s')
  {
    ScanFindsEntries(cfg, s, paths);
    var found := ScanAll(s.files, paths).value;
    var r := Load.LoadAll(maxSize, found);
    var s' := State(r.lru, s.files - PathsOf(r.refused), r.evicted, []);
    Load.LoadKeeps(maxSize, found);
    forall p ensures PathOwned(s', p) && (p in s'.files ==> Owners(s', p) >= 1) {
      assert PathOwned(s, p);
      NoTempsWhenDone(cfg, s, p);
      SameMembersSameSum(s.lru.entries, found, AtPath(p));
      Load.LoadBalances(maxSize, found, AtPath(p));
      Disowned(r.refused, p);
      ClaimsNonNegative(s', p);
    }
    forall e | e in r.lru.entries ensures Stored(cfg.(maxSize := maxSize), s'.files, e) {
      LoadedIsFound(maxSize, found, e);
      LoadedIsStored(cfg, s, s', maxSize, e);
    }
  }

  // The sums of claims say which paths have been given up.
  lemma Disowned(refused: seq<Entry>, p: string)
    ensures 0 <= Sum(refused, AtPath(p))
    ensures Sum(refused, AtPath(p)) == 0 <==> p !in PathsOf(refused)
  {
    SumNonNegative(refused, AtPath(p));
    if p in PathsOf(refused) {
      var e :| e in refused && PathOf(e) == p;
      var k :| 0 <= k < |refused| && refused[k] == e;
      SumBounds(refused, k, AtPath(p));
    } else if Sum(refused, AtPath(p)) >= 1 {
      SomeEntryAt(refused, p);
    }
  }

  lemma NoTempsWhenDone(cfg: Config, s: State, p: string)
    requires Inv(cfg, s) && Quiescent(s)
    ensures Owners(s, p) == Sum(s.lru.entries, AtPath(p))
  {
    forall i | 0 <= i < |s.locals| ensures !s.locals[i].removeTempfile {
      assert LocalOk(cfg, s.files, s.locals[i]);
    }
    NoTempFiles(s.locals, p);
  }

  lemma LoadedIsFound(maxSize: int, found: seq<Entry>, e: Entry)
    requires e in Load.LoadAll(maxSize, found).lru.entries
    ensures e in found
  {
    var r := Load.LoadAll(maxSize, found);
    Load.LoadConserves(maxSize, found);
    assert e in multiset(r.lru.entries);
    assert e in multiset(found);
  }

  // A file that is stored stays so, unless its path is given up.
  lemma LoadedIsStored(cfg: Config, s: State, s': State, maxSize: int64, e: Entry)
    requires Inv(cfg, s) && e in s.lru.entries && e in s'.lru.entries
    requires (forall p :: PathOwned(s', p)) && (forall p :: p in s'.files ==> p in s.files && s'.files[p] == s.files[p])
    ensures Stored(cfg.(maxSize := maxSize), s'.files, e)
  {
    assert Stored(cfg, s.files, e);
    var data :| Contains(cfg, e, s.files[PathOf(e)], data);
    assert PathOwned(s', PathOf(e));
    EntryIsOwner(s', e);
    assert Contains(cfg.(maxSize := maxSize), e, s'.files[PathOf(e)], data);
  }

  lemma EntryIsOwner(s: State, e: Entry)
    requires e in s.lru.entries
    ensures Owners(s, PathOf(e)) >= 1
  {
    var k :| 0 <= k < |s.lru.entries| && s.lru.entries[k] == e;
    ClaimsNonNegative(s, PathOf(e));
    SumBounds(s.lru.entries, k, AtPath(PathOf(e)));
  }

  lemma ReverseMembers(es: seq<Entry>)
    ensures forall e :: e in Reverse(es) <==> e in es
    ensures Distinct(es) ==> Distinct(Reverse(es))
  {
    forall e | e in es ensures e in Reverse(es) {
      var i :| 0 <= i < |es| && es[i] == e;
      assert Reverse(es)[|es| - 1 - i] == e;
    }
  }

  // Strictly descending by some time.
  ghost predicate Descending(es: seq<Entry>, time: Entry -> int) {
    forall i, j :: 0 <= i < j < |es| ==> time(es[i]) > time(es[j])
  }

  lemma {:induction false} OrderIsUnique(es: seq<Entry>, es': seq<Entry>, time: Entry -> int)
    requires Descending(es, time) && Descending(es', time) && forall e :: e in es <==> e in es'
    ensures es == es'
  {
    assert |es| > 0 ==> es[0] in es;
    assert |es'| > 0 ==> es'[0] in es';
    if es != [] {
      assert es[0] == es'[0];
      assert es == [es[0]] + es[1..] && es' == [es'[0]] + es'[1..];
      TailMembers(es, time);
      TailMembers(es', time);
      OrderIsUnique(es[1..], es'[1..], time);
    }
  }

  lemma TailMembers(es: seq<Entry>, time: Entry -> int)
    requires es != [] && Descending(es, time)
    ensures forall e :: e in es[1..] <==> e in es && e != es[0]
  {
    assert es == [es[0]] + es[1..];
  }

  lemma AscendingReversed(found: seq<Entry>, paths: seq<string>, time: Entry -> int, atime: string -> int)
    requires |found| == |paths| && forall k :: 0 <= k < |found| ==> time(found[k]) == atime(paths[k])
    requires forall i, j :: 0 <= i < j < |paths| ==> atime(paths[i]) < atime(paths[j])
    ensures Descending(Reverse(found), time)
  {
  }

  // The access time of an entry is that of its file.
  function TimeOf(atime: string -> int): Entry -> int {
    (e: Entry) => atime(PathOf(e))
  }

  // Restart round trip: when the access times agree with the recency order and
  // the scan result is sorted by them, the loaded index is the index before.
  lemma RestartRoundTrip(cfg: Config, s: State, paths: seq<string>, atime: string -> int)
    requires Inv(cfg, s) && NoOrphans(s) && Quiescent(s) && Enumerates(paths, s.files)
    requires Descending(s.lru.entries, TimeOf(atime))
    requires forall i, j :: 0 <= i < j < |paths| ==> atime(paths[i]) < atime(paths[j])
    ensures ScanAll(s.files, paths).Some?
    ensures Load.LoadAll(cfg.maxSize, ScanAll(s.files, paths).value).lru == s.lru
  {
    ScanAllFinds(cfg, s, paths);
    RestartKeepsAll(cfg, s, paths);
    NothingReservedWhenIdle(cfg, s, []);
    var found, time := ScanAll(s.files, paths).value, TimeOf(atime);
    forall k | 0 <= k < |found| ensures time(found[k]) == atime(paths[k]) {
      assert At(found[k], paths[k]);
    }
    AscendingReversed(found, paths, time, atime);
    OrderIsUnique(Reverse(found), s.lru.entries, time);
  }
}
