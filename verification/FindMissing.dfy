// Batched lookups of CAS blobs (cache/disk/findmissing.go): the parts that one
// request runs by itself. Slots of found blobs are set to nil in place.
module FindMissing {
  import opened Wrappers
  import opened Int64
  import opened LruSpec
  import opened SizedLru
  import opened Names
  import opened Messages
  import opened Capture
  import opened Protocol

  // Whether a blob is the empty one or indexed with a compatible size.
  predicate Available(es: seq<Entry>, prefix: string, d: Digest) {
    IsEmptyBlob(d) ||
    match Find(es, CasKey(prefix, d.hash))
    case Some(item) => !IsSizeMismatch(d.sizeBytes, item.size)
    case None => false
  }

  // The digests that are not available, in order.
  function Unavailable(es: seq<Entry>, prefix: string, ds: seq<Digest>): seq<Digest> {
    if ds == [] then []
    else (if Available(es, prefix, ds[0]) then [] else [ds[0]]) + Unavailable(es, prefix, ds[1..])
  }

  // The index after looking up one digest, and after looking up several. A
  // lookup marks the entry as recently used even if its size does not match.
  function TouchOne(l: Lru, prefix: string, d: Digest): Lru {
    if IsEmptyBlob(d) then l else LruSpec.Get(l, CasKey(prefix, d.hash))
  }

  function Touch(l: Lru, prefix: string, ds: seq<Digest>): Lru
    decreases |ds|
  {
    if ds == [] then l else Touch(TouchOne(l, prefix, ds[0]), prefix, ds[1..])
  }

  // The sizes collected from looking up one digest, and several.
  function RecordOne(sizes: map<string, int64>, es: seq<Entry>, prefix: string, d: Digest): map<string, int64> {
    if !IsEmptyBlob(d) && Available(es, prefix, d) then
      sizes[d.hash := Find(es, CasKey(prefix, d.hash)).value.sizeOnDisk]
    else sizes
  }

  function Recorded(sizes: map<string, int64>, es: seq<Entry>, prefix: string, ds: seq<Digest>): map<string, int64>
    decreases |ds|
  {
    if ds == [] then sizes else Recorded(RecordOne(sizes, es, prefix, ds[0]), es, prefix, ds[1..])
  }

  // Looking up changes the order of the entries, nothing else.
  lemma {:induction false} TouchKeeps(l: Lru, prefix: string, ds: seq<Digest>)
    requires LruSpec.Valid(l)
    decreases |ds|
    ensures var l' := Touch(l, prefix, ds);
      && LruSpec.Valid(l') && l'.reserved == l.reserved && l'.maxSize == l.maxSize
      && forall k :: Find(l'.entries, k) == Find(l.entries, k)
  {
    if ds != [] {
      GetValid(l, CasKey(prefix, ds[0].hash));
      TouchKeeps(TouchOne(l, prefix, ds[0]), prefix, ds[1..]);
    }
  }

  predicate AllSet(slots: seq<Option<Digest>>) {
    forall i :: 0 <= i < |slots| ==> slots[i].Some?
  }

  function Digests(slots: seq<Option<Digest>>): seq<Digest>
    requires AllSet(slots)
  {
    seq(|slots|, i requires 0 <= i < |slots| => slots[i].value)
  }

  // What a lookup leaves of a slot.
  function Remaining(es: seq<Entry>, prefix: string, d: Digest): Option<Digest> {
    if Available(es, prefix, d) then None else Some(d)
  }

  // Two lists of entries give the same answers.
  ghost predicate SameAnswers(es: seq<Entry>, es': seq<Entry>) {
    forall k :: Find(es', k) == Find(es, k)
  }

  // Look up one digest; nil it if it is there.
  method LookUpSlot(lru: SizedLRU, prefix: string, d: Digest, sink: Collector?, ghost es: seq<Entry>)
    returns (slot: Option<Digest>)
    requires lru.Valid() && SameAnswers(es, lru.Entries())
    modifies lru, sink
    ensures lru.Valid() && lru.Model() == TouchOne(old(lru.Model()), prefix, d) && lru.evicted == old(lru.evicted)
    ensures SameAnswers(es, lru.Entries()) && slot == Remaining(es, prefix, d)
    ensures sink != null ==> sink.sizes == RecordOne(old(sink.sizes), es, prefix, d)
  {
    if d.sizeBytes == 0 && d.hash == EMPTY_SHA256 {
      return None;
    }
    var foundSize: int64 := -1;
    GetValid(lru.Model(), CasKey(prefix, d.hash));
    var item := lru.Get(CasKey(prefix, d.hash));
    if item.Some? {
      foundSize := item.value.size;
    }
    if item.Some? && !IsSizeMismatch(d.sizeBytes, foundSize) {
      if sink != null {
        sink.Record(d.hash, item.value.sizeOnDisk);
      }
      return None;
    }
    return Some(d);
  }

  // The first i of the digests ds, which were in the slots from lo on, have
  // been looked up.
  ghost predicate LookedUp(slots: seq<Option<Digest>>, was: seq<Option<Digest>>, lo: nat, i: nat, ds: seq<Digest>,
                           es: seq<Entry>, prefix: string)
    requires |slots| == |was| && lo + |ds| <= |was| && i <= |ds|
  {
    && (forall k :: 0 <= k < i ==> slots[lo + k] == Remaining(es, prefix, ds[k]))
    && (forall k :: 0 <= k < |slots| && !(lo <= k < lo + i) ==> slots[k] == was[k])
  }

  lemma LookedUpNext(slots: seq<Option<Digest>>, was: seq<Option<Digest>>, lo: nat, i: nat, ds: seq<Digest>,
                     es: seq<Entry>, prefix: string)
    requires |slots| == |was| && lo + |ds| <= |was| && i < |ds| && LookedUp(slots, was, lo, i, ds, es, prefix)
    ensures LookedUp(slots[lo + i := Remaining(es, prefix, ds[i])], was, lo, i + 1, ds, es, prefix)
  {
  }

  // Going on from the i-th digest leads where going on from the first does.
  ghost predicate OnCourse(lru: SizedLRU, sink: Collector?, sizes: map<string, int64>, missing: nat,
                           l0: Lru, sizes0: map<string, int64>, es: seq<Entry>, prefix: string, ds: seq<Digest>, i: nat)
    requires i <= |ds|
    reads lru, lru.ll, sink
  {
    && lru.Valid() && SameAnswers(es, lru.Entries()) && (sink != null ==> sink.sizes == sizes)
    && Touch(lru.Model(), prefix, ds[i..]) == Touch(l0, prefix, ds)
    && Recorded(sizes, es, prefix, ds[i..]) == Recorded(sizes0, es, prefix, ds)
    && missing + |Unavailable(es, prefix, ds[i..])| == |Unavailable(es, prefix, ds)|
  }

  // Look up the i-th digest.
  method LookUpNext(lru: SizedLRU, prefix: string, blobs: array<Option<Digest>>, lo: nat, i: nat, missing: nat,
                    sink: Collector?, ghost sizes: map<string, int64>, ghost l0: Lru, ghost sizes0: map<string, int64>,
                    ghost es: seq<Entry>, ghost ds: seq<Digest>)
    returns (ghost sizes': map<string, int64>, missing': nat)
    requires i < |ds| && lo + i < blobs.Length && blobs[lo + i] == Some(ds[i])
    requires OnCourse(lru, sink, sizes, missing, l0, sizes0, es, prefix, ds, i)
    modifies lru, blobs, sink
    ensures lru.evicted == old(lru.evicted)
    ensures OnCourse(lru, sink, sizes', missing', l0, sizes0, es, prefix, ds, i + 1)
    ensures blobs[..] == old(blobs[..])[lo + i := Remaining(es, prefix, ds[i])]
  {
    var slot := LookUpSlot(lru, prefix, blobs[lo + i].value, sink, es);
    sizes' := RecordOne(sizes, es, prefix, ds[i]);
    blobs[lo + i] := slot;
    missing' := if slot.Some? then missing + 1 else missing;
    assert ds[i..][1..] == ds[i + 1..];
  }

  // The slots lo to hi are looked up while the cache is locked.
  method FindMissingLocalCAS(lru: SizedLRU, prefix: string, blobs: array<Option<Digest>>, lo: nat, hi: nat,
                             sink: Collector?)
    returns (missing: nat)
    requires lru.Valid() && lo <= hi <= blobs.Length && AllSet(blobs[lo..hi])
    modifies lru, blobs, sink
    ensures lru.Valid() && lru.evicted == old(lru.evicted)
    ensures var ds, es := Digests(old(blobs[lo..hi])), old(lru.Entries());
      && lru.Model() == Touch(old(lru.Model()), prefix, ds)
      && (sink != null ==> sink.sizes == Recorded(old(sink.sizes), es, prefix, ds))
      && missing == |Unavailable(es, prefix, ds)|
      && LookedUp(blobs[..], old(blobs[..]), lo, hi - lo, ds, es, prefix)
  {
    missing := 0;
    var i := 0;
    ghost var was, ds, es, l0 := blobs[..], Digests(blobs[lo..hi]), lru.Entries(), lru.Model();
    ghost var sizes, sizes0 := if sink == null then map[] else sink.sizes, if sink == null then map[] else sink.sizes;
    assert ds[0..] == ds;
    while i < hi - lo
      invariant i <= hi - lo && lru.evicted == old(lru.evicted)
      invariant OnCourse(lru, sink, sizes, missing, l0, sizes0, es, prefix, ds, i)
      invariant LookedUp(blobs[..], was, lo, i, ds, es, prefix)
    {
      LookedUpNext(blobs[..], was, lo, i, ds, es, prefix);
      sizes, missing := LookUpNext(lru, prefix, blobs, lo, i, missing, sink, sizes, l0, sizes0, es, ds);
      i := i + 1;
    }
    assert ds[i..] == [];
  }

  // ----- compaction -----

  function NonNil(slots: seq<Option<Digest>>): seq<Option<Digest>> {
    if slots == [] then []
    else (if slots[0].Some? then [slots[0]] else []) + NonNil(slots[1..])
  }

  // Move the slots that are not nil to the front, in place and in order.
  method FilterNonNil(blobs: array<Option<Digest>>) returns (count: nat)
    modifies blobs
    ensures count <= blobs.Length && blobs[..count] == NonNil(old(blobs[..]))
  {
    count := 0;
    var i := 0;
    ghost var was := blobs[..];
    assert was[0..] == was;
    while i < blobs.Length
      invariant 0 <= count <= i <= blobs.Length
      invariant blobs[..count] + NonNil(was[i..]) == NonNil(was)
      invariant forall k :: i <= k < blobs.Length ==> blobs[k] == was[k]
    {
      assert was[i..][1..] == was[i + 1..];
      if blobs[i].Some? {
        ghost var before := blobs[..count];
        blobs[count] := blobs[i];
        assert blobs[..count + 1] == before + [was[i]];
        count := count + 1;
      }
      i := i + 1;
    }
  }
}
