// Building the index from the files found at startup (cache/disk/load.go).
module Load {
  import opened Int64
  import opened Sums
  import opened LruSpec
  import opened SizedLru

  // The index after adding files in order, the files that Add refused, and
  // those it evicted.
  datatype Loading = Loading(lru: Lru, refused: seq<Entry>, evicted: seq<Entry>)

  function LoadAll(maxSize: int, files: seq<Entry>): Loading {
    if files == [] then Loading(Empty(maxSize), [], [])
    else
      var before, e := LoadAll(maxSize, files[..|files| - 1]), files[|files| - 1];
      var o := Add(before.lru, e.key, e.item);
      Loading(o.lru, if o.ok then before.refused else before.refused + [e], before.evicted + o.evicted)
  }

  lemma LoadNext(maxSize: int, files: seq<Entry>, i: nat)
    requires i < |files|
    ensures var before, e := LoadAll(maxSize, files[..i]), files[i];
      var o := Add(before.lru, e.key, e.item);
      LoadAll(maxSize, files[..i + 1]) ==
      Loading(o.lru, if o.ok then before.refused else before.refused + [e], before.evicted + o.evicted)
    ensures files[i] in files
  {
    assert files[..i + 1][..i] == files[..i];
  }

  lemma {:induction false} RefusedGrows(maxSize: int, files: seq<Entry>, i: nat)
    requires i <= |files|
    ensures LoadAll(maxSize, files[..i]).refused <= LoadAll(maxSize, files).refused
    decreases |files|
  {
    if i < |files| {
      assert files[..|files| - 1][..i] == files[..i];
      RefusedGrows(maxSize, files[..|files| - 1], i);
    } else {
      assert files[..i] == files;
    }
  }

  ghost predicate AllRemovable(es: seq<Entry>, removable: Entry -> bool) {
    forall e :: e in es ==> removable(e)
  }

  // A file that is refused and cannot be removed remains a reason to give up.
  lemma StuckFile(maxSize: int, files: seq<Entry>, i: nat, removable: Entry -> bool)
    requires i < |files| && !Add(LoadAll(maxSize, files[..i]).lru, files[i].key, files[i].item).ok
    requires !removable(files[i])
    ensures !AllRemovable(LoadAll(maxSize, files).refused, removable)
  {
    var refused := LoadAll(maxSize, files[..i]).refused;
    LoadNext(maxSize, files, i);
    RefusedGrows(maxSize, files, i + 1);
    assert LoadAll(maxSize, files).refused[|refused|] == files[i];
  }

  lemma OneMoreRemovable(es: seq<Entry>, e: Entry, removable: Entry -> bool)
    requires AllRemovable(es, removable) && removable(e)
    ensures AllRemovable(es + [e], removable)
  {
  }

  // The loop over the scanned files, which are sorted by access time. Refused
  // files are removed at once; if one cannot be removed the start is aborted.
  method LoadExistingFiles(maxSize: int64, files: seq<Entry>, removable: Entry -> bool)
    returns (ok: bool, lru: SizedLRU, removed: seq<Entry>)
    requires 0 <= maxSize < HALF_RANGE && ItemsOk(files)
    ensures fresh(lru) && lru.Valid()
    ensures ok <==> AllRemovable(LoadAll(maxSize, files).refused, removable)
    ensures ok ==>
      && lru.Model() == LoadAll(maxSize, files).lru && lru.evicted == LoadAll(maxSize, files).evicted
      && removed == LoadAll(maxSize, files).refused
  {
    lru := new SizedLRU(maxSize);
    removed := [];
    var i := 0;
    while i < |files|
      invariant 0 <= i <= |files| && fresh(lru) && lru.Valid()
      invariant forall k :: 0 <= k < |lru.ll| ==> fresh(lru.ll[k])
      invariant lru.Model() == LoadAll(maxSize, files[..i]).lru
      invariant lru.evicted == LoadAll(maxSize, files[..i]).evicted
      invariant removed == LoadAll(maxSize, files[..i]).refused
      invariant AllRemovable(removed, removable)
    {
      LoadNext(maxSize, files, i);
      var added := lru.Add(files[i].key, files[i].item);
      if !added {
        if !removable(files[i]) {
          StuckFile(maxSize, files, i, removable);
          return false, lru, removed;
        }
        OneMoreRemovable(removed, files[i], removable);
        removed := removed + [files[i]];
      }
      i := i + 1;
    }
    assert files[..|files|] == files;
    return true, lru, removed;
  }

  lemma {:induction false} LoadKeeps(maxSize: int, files: seq<Entry>)
    requires 0 <= maxSize && ItemsOk(files)
    ensures LruSpec.Valid(LoadAll(maxSize, files).lru) && LoadAll(maxSize, files).lru.reserved == 0
    ensures LoadAll(maxSize, files).lru.maxSize == maxSize
  {
    if files != [] {
      var before, e := files[..|files| - 1], files[|files| - 1];
      assert e in files && forall x :: x in before ==> x in files;
      LoadKeeps(maxSize, before);
      AddValid(LoadAll(maxSize, before).lru, e.key, e.item);
    }
  }

  lemma {:induction false} LoadBalances(maxSize: int, files: seq<Entry>, f: Entry -> int)
    ensures var r := LoadAll(maxSize, files);
      Sum(files, f) == Sum(r.lru.entries, f) + Sum(r.refused, f) + Sum(r.evicted, f)
  {
    if files != [] {
      var init, e := files[..|files| - 1], files[|files| - 1];
      var before := LoadAll(maxSize, init);
      var o := Add(before.lru, e.key, e.item);
      LoadBalances(maxSize, init, f);
      AddBalances(before.lru, e.key, e.item, f);
      assert files == init + [e];
      SumConcat(init, [e], f);
      SumConcat(before.refused, [e], f);
      SumConcat(before.evicted, o.evicted, f);
    }
  }

  // Every file found is either indexed or removed, exactly once, whether or not
  // keys repeat.
  lemma LoadConserves(maxSize: int, files: seq<Entry>)
    ensures var r := LoadAll(maxSize, files);
      multiset(files) == multiset(r.lru.entries) + multiset(r.refused) + multiset(r.evicted)
  {
    var r := LoadAll(maxSize, files);
    forall e: Entry
      ensures multiset(files)[e] == multiset(r.lru.entries)[e] + multiset(r.refused)[e] + multiset(r.evicted)[e]
    {
      LoadBalances(maxSize, files, Is(e));
      SumCounts(files, e);
      SumCounts(r.lru.entries, e);
      SumCounts(r.refused, e);
      SumCounts(r.evicted, e);
    }
  }

  // The files that fit the cache by themselves, most recent first.
  function Candidates(maxSize: int, files: seq<Entry>): seq<Entry> {
    if files == [] then []
    else
      var e := files[|files| - 1];
      var older := Candidates(maxSize, files[..|files| - 1]);
      if DiskOf(e) <= maxSize then [e] + older else older
  }

  lemma {:induction false} CandidateMembers(maxSize: int, files: seq<Entry>)
    ensures forall e :: e in Candidates(maxSize, files) <==> e in files && DiskOf(e) <= maxSize
  {
    if files != [] {
      CandidateMembers(maxSize, files[..|files| - 1]);
      assert files == files[..|files| - 1] + [files[|files| - 1]];
    }
  }

  // Cutting the older candidates down first makes no difference to what fits
  // once a more recent one is put in front.
  lemma CutEarlier(first: Entry, es: seq<Entry>, room: int)
    requires ItemsOk(es) && ItemOk(first.item) && DiskOf(first) <= room
    ensures var cut := es[..Fit(es, room)];
      ([first] + cut)[..Fit([first] + cut, room)] == ([first] + es)[..Fit([first] + es, room)]
  {
    var n := Fit(es, room);
    var cut, all := es[..n], [first] + es;
    var short := [first] + cut;
    var m, k := Fit(all, room), Fit(short, room);
    assert short == all[..n + 1];
    assert all[..1] == [first];
    SumSingle(first, DiskOf);
    FitIsExact(all, room, 1);
    assert all[..m] == [first] + es[..m - 1];
    SumConcat([first], es[..m - 1], DiskOf);
    FitIsExact(es, room, m - 1);
    assert short[..m] == all[..m];
    FitIsExact(short, room, m);
    assert short[..k] == all[..k];
    FitIsExact(all, room, k);
  }

  lemma PrefixMembers(es: seq<Entry>, front: seq<Entry>)
    requires front <= es
    ensures forall x :: x in front ==> x in es
  {
    forall x | x in front ensures x in es {
      var i :| 0 <= i < |front| && front[i] == x;
      assert es[i] == x;
    }
  }

  // Loading keeps the optimum: for files with distinct keys, in ascending order
  // of access time, the index ends up with exactly the longest most-recent run
  // of those that fit by themselves, in the order of their access times.
  lemma {:induction false} LoadKeepsOptimum(maxSize: int, files: seq<Entry>)
    requires 0 <= maxSize && ItemsOk(files) && Distinct(files)
    ensures var best := Candidates(maxSize, files);
      LoadAll(maxSize, files).lru.entries == best[..Fit(best, maxSize)]
  {
    if files != [] {
      var init, e := files[..|files| - 1], files[|files| - 1];
      var before := LoadAll(maxSize, init);
      var older := Candidates(maxSize, init);
      assert e in files && forall x :: x in init ==> x in files;
      LoadKeepsOptimum(maxSize, init);
      LoadKeeps(maxSize, init);
      CandidateMembers(maxSize, init);
      PrefixMembers(older, before.lru.entries);
      forall x | x in before.lru.entries ensures x in init && x.key != e.key {
        var i :| 0 <= i < |init| && init[i] == x;
        assert files[i] == x;
      }
      FindFacts(before.lru.entries, e.key, e.item);
      OccurrenceMembers(before.lru.entries, e.key);
      if DiskOf(e) <= maxSize {
        CutEarlier(e, older, maxSize);
      }
    }
  }

  // If all the files fit together, all are indexed and none is removed.
  lemma LoadKeepsAll(maxSize: int, files: seq<Entry>)
    requires 0 <= maxSize && ItemsOk(files) && Distinct(files) && Disk(files) <= maxSize
    ensures LoadAll(maxSize, files).lru == Lru(Reverse(files), 0, maxSize)
    ensures LoadAll(maxSize, files).refused == [] && LoadAll(maxSize, files).evicted == []
  {
    AllAreCandidates(maxSize, files);
    LoadKeepsOptimum(maxSize, files);
    LoadKeeps(maxSize, files);
    SumReverse(files, DiskOf);
    assert Reverse(files)[..|files|] == Reverse(files);
    assert forall e :: e in Reverse(files) ==> e in files;
    FitIsExact(Reverse(files), maxSize, |files|);
    NothingRemoved(maxSize, files);
  }

  lemma {:induction false} AllAreCandidates(maxSize: int, files: seq<Entry>)
    requires ItemsOk(files) && Disk(files) <= maxSize
    ensures Candidates(maxSize, files) == Reverse(files)
  {
    if files != [] {
      var init, e := files[..|files| - 1], files[|files| - 1];
      assert files == init + [e];
      assert e in files && forall x :: x in init ==> x in files;
      SumConcat(init, [e], DiskOf);
      SumSingle(e, DiskOf);
      DiskNonNegative(init);
      AllAreCandidates(maxSize, init);
    }
  }

  lemma NothingRemoved(maxSize: int, files: seq<Entry>)
    requires |LoadAll(maxSize, files).lru.entries| == |files|
    ensures LoadAll(maxSize, files).refused == [] && LoadAll(maxSize, files).evicted == []
  {
    var r := LoadAll(maxSize, files);
    LoadBalances(maxSize, files, One);
    SumOfOnes(files);
    SumOfOnes(r.lru.entries);
    SumOfOnes(r.refused);
    SumOfOnes(r.evicted);
  }

  function One(e: Entry): int { 1 }

  lemma {:induction false} SumOfOnes(es: seq<Entry>)
    ensures Sum(es, One) == |es|
  {
    if es != [] { SumOfOnes(es[1..]); }
  }
}
