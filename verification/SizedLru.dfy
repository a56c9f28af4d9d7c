// The mutable index of cache/disk/lru.go: a recency list of elements, a map
// from keys to the same elements, and three byte counters kept in 64 bits.
// Every method is proved against its function in LruSpec. Sums that the
// program expects to stay in range are assigned to int64 variables, so the
// verifier has to show that they do.
module SizedLru {
  import opened Wrappers
  import opened Int64
  import opened Sums
  import opened LruSpec

  // An element of the list, shared by the list and the map.
  class Element {
    const key: Key
    var value: Item

    constructor (key: Key, value: Item)
      ensures this.key == key && this.value == value
    {
      this.key := key;
      this.value := value;
    }
  }

  ghost function EntriesOf(ll: seq<Element>): seq<Entry>
    reads ll
  {
    seq(|ll|, i requires 0 <= i < |ll| reads ll => Entry(ll[i].key, ll[i].value))
  }

  lemma EntriesPrefix(ll: seq<Element>, n: nat)
    requires n <= |ll|
    ensures EntriesOf(ll[..n]) == EntriesOf(ll)[..n]
  {
  }

  // List removal, by identity.
  function Unlink(ll: seq<Element>, e: Element): seq<Element> {
    if ll == [] then []
    else if ll[0] == e then ll[1..]
    else [ll[0]] + Unlink(ll[1..], e)
  }

  // The map that the list determines, and that its keys are distinct.
  function IndexOf(ll: seq<Element>): map<Key, Element> {
    if ll == [] then map[] else IndexOf(ll[1..])[ll[0].key := ll[0]]
  }

  ghost predicate DistinctKeys(ll: seq<Element>) {
    ll == [] || (ll[0].key !in IndexOf(ll[1..]) && DistinctKeys(ll[1..]))
  }

  lemma {:induction false} IndexMembers(ll: seq<Element>, key: Key)
    requires DistinctKeys(ll)
    ensures key in IndexOf(ll) ==>
      var e := IndexOf(ll)[key]; e in ll && e.key == key && Find(EntriesOf(ll), key) == Some(e.value)
    ensures key !in IndexOf(ll) ==>
      Find(EntriesOf(ll), key) == None && Without(EntriesOf(ll), key) == EntriesOf(ll)
  {
    if ll != [] {
      assert EntriesOf(ll)[1..] == EntriesOf(ll[1..]);
      IndexMembers(ll[1..], key);
    }
  }

  lemma {:induction false} ListedIsIndexed(ll: seq<Element>, i: nat)
    requires DistinctKeys(ll) && i < |ll|
    ensures ll[i].key in IndexOf(ll) && IndexOf(ll)[ll[i].key] == ll[i]
  {
    if i > 0 { ListedIsIndexed(ll[1..], i - 1); }
  }

  lemma {:induction false} UnlinkIndex(ll: seq<Element>, e: Element)
    requires DistinctKeys(ll) && e.key in IndexOf(ll) && IndexOf(ll)[e.key] == e
    ensures DistinctKeys(Unlink(ll, e))
    ensures IndexOf(Unlink(ll, e)) == IndexOf(ll) - {e.key}
    ensures EntriesOf(Unlink(ll, e)) == Without(EntriesOf(ll), e.key)
  {
    assert EntriesOf(ll)[1..] == EntriesOf(ll[1..]);
    if ll[0] == e {
      assert IndexOf(ll) - {e.key} == IndexOf(ll[1..]);
    } else {
      UnlinkIndex(ll[1..], e);
      var rest := Unlink(ll[1..], e);
      assert Unlink(ll, e) == [ll[0]] + rest;
      assert ([ll[0]] + rest)[1..] == rest;
      assert EntriesOf([ll[0]] + rest) == [EntriesOf(ll)[0]] + EntriesOf(rest);
    }
  }

  lemma {:induction false} UnlinkMembers(ll: seq<Element>, e: Element)
    ensures forall i :: 0 <= i < |Unlink(ll, e)| ==> Unlink(ll, e)[i] in ll
  {
    if ll != [] && ll[0] != e { UnlinkMembers(ll[1..], e); }
  }

  lemma {:induction false} AbsentElements(ll: seq<Element>, key: Key)
    requires DistinctKeys(ll) && key !in IndexOf(ll)
    ensures forall i :: 0 <= i < |ll| ==> ll[i].key != key
  {
    if ll != [] { AbsentElements(ll[1..], key); }
  }

  // An element moved to the front.
  lemma PromoteElement(ll: seq<Element>, e: Element)
    requires DistinctKeys(ll) && e.key in IndexOf(ll) && IndexOf(ll)[e.key] == e
    ensures DistinctKeys([e] + Unlink(ll, e)) && IndexOf([e] + Unlink(ll, e)) == IndexOf(ll)
    ensures EntriesOf([e] + Unlink(ll, e)) == Promote(EntriesOf(ll), e.key)
  {
    var rest := Unlink(ll, e);
    UnlinkIndex(ll, e);
    IndexMembers(ll, e.key);
    assert ([e] + rest)[1..] == rest;
    assert EntriesOf([e] + rest) == [Entry(e.key, e.value)] + EntriesOf(rest);
  }

  lemma {:induction false} UnlinkLast(ll: seq<Element>)
    requires DistinctKeys(ll) && ll != []
    ensures Unlink(ll, ll[|ll| - 1]) == ll[..|ll| - 1]
  {
    if |ll| > 1 {
      ListedIsIndexed(ll[1..], |ll| - 2);
      UnlinkLast(ll[1..]);
      assert ll[..|ll| - 1] == [ll[0]] + ll[1..][..|ll| - 2];
    }
  }

  datatype ReserveError = NegativeSize | LargerThanCache | NotEnoughSpace | InternalReservation

  class SizedLRU {
    var ll: seq<Element>
    var cache: map<Key, Element>
    var currentSize: int64
    var uncompressedSize: int64
    var reservedSize: int64
    const maxSize: int64
    // The calls made to the eviction callback so far.
    var evicted: seq<Entry>

    ghost function Entries(): seq<Entry>
      reads this, ll
    {
      EntriesOf(ll)
    }

    ghost function Model(): Lru
      reads this, ll
    {
      Lru(Entries(), reservedSize, maxSize)
    }

    // The list and the map hold the same elements, under their own keys.
    ghost predicate Linked()
      reads this
    {
      DistinctKeys(ll) && cache == IndexOf(ll)
    }

    ghost predicate Valid()
      reads this, ll
    {
      && Linked()
      && LruSpec.Valid(Model())
      && currentSize == Total(Model())
      && uncompressedSize == Wrap(Logical(Entries()))
      && maxSize < HALF_RANGE
    }

    constructor (maxSize: int64)
      ensures Linked() && Model() == Empty(maxSize) && evicted == []
      ensures currentSize == 0 && uncompressedSize == 0
      ensures 0 <= maxSize < HALF_RANGE ==> Valid()
    {
      this.maxSize := maxSize;
      ll, cache := [], map[];
      currentSize, uncompressedSize, reservedSize := 0, 0, 0;
      evicted := [];
    }

    method RemoveElement(e: Element)
      requires Linked() && e.key in cache && cache[e.key] == e && ItemOk(e.value)
      requires -0x8000_0000_0000_0000 <= currentSize - RoundUp(e.value.sizeOnDisk) < 0x8000_0000_0000_0000
      modifies this
      ensures Linked() && ll == Unlink(old(ll), e)
      ensures currentSize == old(currentSize) - RoundUp(e.value.sizeOnDisk)
      ensures uncompressedSize == Wrap(old(uncompressedSize) - RoundUp(e.value.size))
      ensures reservedSize == old(reservedSize)
      ensures evicted == old(evicted) + [Entry(e.key, e.value)]
    {
      UnlinkIndex(ll, e);
      var onDisk := RoundUpBlocks(e.value.sizeOnDisk);
      var logical := RoundUpBlocks(e.value.size);
      WrapRight(uncompressedSize, RoundUp(e.value.size));
      ll := Unlink(ll, e);
      cache := cache - {e.key};
      currentSize := currentSize - onDisk;
      uncompressedSize := Wrap(uncompressedSize - logical);
      evicted := evicted + [Entry(e.key, e.value)];
    }

    // In the middle of evicting from the back of es.
    ghost predicate Evicting(es: seq<Entry>, c: Counters)
      reads this, ll
    {
      && Linked() && |ll| <= |es| && Entries() == es[..|ll|]
      && Counted(es, |ll|, c, currentSize, uncompressedSize, evicted)
    }

    // One turn of an eviction loop.
    method RemoveBack(ghost es: seq<Entry>, ghost c: Counters)
      requires Evicting(es, c) && ll != [] && ItemsOk(es) && -HALF_RANGE <= c.disk
      modifies this
      ensures Evicting(es, c) && ll == old(ll[..|ll| - 1])
      ensures reservedSize == old(reservedSize)
    {
      var ele := ll[|ll| - 1];
      ghost var n := |ll| - 1;
      assert es[n] == Entry(ele.key, ele.value) by {
        assert es[n] == es[..n + 1][n] == Entries()[n];
      }
      CountedNext(es, n, c, currentSize, uncompressedSize, evicted);
      UnlinkLast(ll);
      ListedIsIndexed(ll, n);
      EntriesPrefix(ll, n);
      assert es[..n + 1][..n] == es[..n];
      RemoveElement(ele);
    }

    // Move an element to the front and put a new value into it.
    method Replace(ele: Element, value: Item)
      requires Linked() && ele.key in cache && cache[ele.key] == ele
      modifies this, ele
      ensures Linked()
      ensures Entries() == [Entry(ele.key, value)] + Without(old(Entries()), ele.key)
      ensures forall i :: 0 < i < |ll| ==> ll[i] in old(ll)
      ensures ll[0] == ele
      ensures evicted == old(evicted) + [Entry(ele.key, old(ele.value))]
      ensures currentSize == old(currentSize) && reservedSize == old(reservedSize)
      ensures uncompressedSize == old(uncompressedSize)
    {
      ghost var rest := Unlink(ll, ele);
      ghost var others := EntriesOf(rest);
      UnlinkIndex(ll, ele);
      AbsentElements(rest, ele.key);
      UnlinkMembers(ll, ele);
      ll := [ele] + Unlink(ll, ele);
      evicted := evicted + [Entry(ele.key, ele.value)];
      ele.value := value;
      assert ll[1..] == rest;
      assert EntriesOf(rest) == others;
      assert IndexOf(ll) == IndexOf(old(ll));
    }

    method PushFront(key: Key, value: Item)
      requires Linked() && key !in cache
      modifies this
      ensures Linked()
      ensures Entries() == [Entry(key, value)] + old(Entries())
      ensures fresh(ll[0]) && ll[1..] == old(ll)
      ensures evicted == old(evicted)
      ensures currentSize == old(currentSize) && reservedSize == old(reservedSize)
      ensures uncompressedSize == old(uncompressedSize)
    {
      var ele := new Element(key, value);
      ll := [ele] + ll;
      cache := cache[key := ele];
      assert ll[1..] == old(ll);
      assert EntriesOf(old(ll)) == old(Entries());
    }

    // Decide whether a value can be held, and how it changes the counters: an
    // overwrite is charged with the difference to the value it replaces.
    method Charge(key: Key, value: Item) returns (ok: bool, sizeDelta: int64, uncompressedSizeDelta: int64)
      requires Linked() && ItemsOk(Entries()) && ItemOk(value)
      requires 0 <= reservedSize <= maxSize < HALF_RANGE && Disk(Entries()) <= maxSize
      ensures ok == AddAccepts(Model(), key, value)
      ensures ok ==> sizeDelta == RoundUp(value.sizeOnDisk) - Disk(Occurrence(Entries(), key))
      ensures ok ==> uncompressedSizeDelta == Wrap(RoundUp(value.size) - Logical(Occurrence(Entries(), key)))
    {
      IndexedSizes(ll, key);
      var rounded := RoundUpBlocks(value.sizeOnDisk);
      if rounded > maxSize {
        return false, 0, 0;
      }
      var logical := RoundUpBlocks(value.size);
      if key in cache {
        var ele := cache[key];
        var replaced := RoundUpBlocks(ele.value.sizeOnDisk);
        var logicalReplaced := RoundUpBlocks(ele.value.size);
        sizeDelta := rounded - replaced;
        WrapBoth(RoundUp(value.size), RoundUp(ele.value.size));
        uncompressedSizeDelta := Wrap(logical as int - logicalReplaced as int);
      } else {
        sizeDelta := rounded;
        uncompressedSizeDelta := logical;
      }
      var total: int64 := reservedSize + sizeDelta;
      ok := total <= maxSize;
    }

    // The first half of Add: put the value at the front of the list, if it can
    // be held. The counters still describe the list before.
    method Place(key: Key, value: Item) returns (ok: bool, sizeDelta: int64, uncompressedSizeDelta: int64)
      requires Linked() && ItemsOk(Entries()) && ItemOk(value)
      requires 0 <= reservedSize <= maxSize < HALF_RANGE && Disk(Entries()) <= maxSize
      modifies this, ll
      ensures ok == AddAccepts(old(Model()), key, value)
      ensures !ok ==> ll == old(ll) && cache == old(cache) && Entries() == old(Entries()) && evicted == old(evicted)
      ensures ok ==> Linked() && Entries() == [Entry(key, value)] + Without(old(Entries()), key)
      ensures ok ==> evicted == old(evicted) + Occurrence(old(Entries()), key)
      ensures ok ==> forall i :: 0 <= i < |ll| ==> ll[i] in old(ll) || fresh(ll[i])
      ensures currentSize == old(currentSize) && uncompressedSize == old(uncompressedSize)
      ensures reservedSize == old(reservedSize)
      ensures ok ==> sizeDelta == RoundUp(value.sizeOnDisk) - Disk(Occurrence(old(Entries()), key))
      ensures ok ==> uncompressedSizeDelta == Wrap(RoundUp(value.size) - Logical(Occurrence(old(Entries()), key)))
    {
      ok, sizeDelta, uncompressedSizeDelta := Charge(key, value);
      if !ok {
        return;
      }
      IndexMembers(ll, key);
      if key in cache {
        Replace(cache[key], value);
      } else {
        PushFront(key, value);
      }
    }

    // The eviction loop of Add. It has no guard for an empty list: that it ends
    // is what its decreases clause shows.
    method EvictUntil(sizeDelta: int64, ghost es: seq<Entry>, ghost c: Counters)
      requires Evicting(es, c) && ItemsOk(es) && |ll| == |es|
      requires 0 <= reservedSize <= maxSize < HALF_RANGE && c.disk == reservedSize - sizeDelta
      requires -HALF_RANGE <= sizeDelta < HALF_RANGE && -HALF_RANGE <= c.disk && currentSize < HALF_RANGE
      modifies this
      ensures Evicting(es, c) && reservedSize == old(reservedSize)
      ensures |ll| == Fit(es, maxSize - reservedSize) && ll <= old(ll)
    {
      assert es[..0] == [];
      DiskOfFront(es, |ll|);
      var total: int64 := currentSize + sizeDelta;
      while total > maxSize
        invariant Evicting(es, c) && total == currentSize + sizeDelta && reservedSize == old(reservedSize)
        invariant Fit(es, maxSize - reservedSize) <= |ll| && ll <= old(ll)
        invariant c.disk <= currentSize < HALF_RANGE
        decreases |ll|
      {
        MustShrink(es, maxSize - reservedSize, |ll|);
        if |ll| > 0 {
          RemoveBack(es, c);
        }
        total := currentSize + sizeDelta;
      }
      FitIsExact(es, maxSize - reservedSize, |ll|);
    }

    // The second half of Add: evict, then bring the counters up to date.
    method Settle(sizeDelta: int64, uncompressedSizeDelta: int64,
                  ghost was: Lru, ghost key: Key, ghost value: Item, ghost before: seq<Entry>)
      requires LruSpec.Valid(was) && ItemOk(value) && LruSpec.Add(was, key, value).ok
      requires Linked() && Entries() == [Entry(key, value)] + Without(was.entries, key)
      requires evicted == before + Occurrence(was.entries, key)
      requires reservedSize == was.reserved && maxSize == was.maxSize < HALF_RANGE
      requires currentSize == Total(was) && uncompressedSize == Wrap(Logical(was.entries))
      requires sizeDelta == RoundUp(value.sizeOnDisk) - Disk(Occurrence(was.entries, key))
      requires uncompressedSizeDelta == Wrap(RoundUp(value.size) - Logical(Occurrence(was.entries, key)))
      modifies this
      ensures Linked() && reservedSize == was.reserved && ll <= old(ll)
      ensures var o := LruSpec.Add(was, key, value);
        && Entries() == o.lru.entries && evicted == before + o.evicted
        && currentSize == Total(o.lru) && uncompressedSize == Wrap(Logical(o.lru.entries))
    {
      ghost var es := [Entry(key, value)] + Without(was.entries, key);
      ghost var c := Counters(reservedSize - sizeDelta, Logical(was.entries) - Logical(es), evicted);
      AfterPlace(was, key, value);
      BeforeEvicting(was, key, value, c, currentSize, uncompressedSize, evicted);
      EvictUntil(sizeDelta, es, c);
      AfterEvicting(was, key, value, before, c, |ll|, currentSize, uncompressedSize, evicted);
      currentSize := currentSize + sizeDelta;
      uncompressedSize := Wrap(uncompressedSize as int + uncompressedSizeDelta as int);
    }

    method Add(key: Key, value: Item) returns (ok: bool)
      requires Valid() && ItemOk(value)
      modifies this, ll
      ensures Valid()
      ensures var o := LruSpec.Add(old(Model()), key, value);
        ok == o.ok && Model() == o.lru && evicted == old(evicted) + o.evicted
      ensures forall i :: 0 <= i < |ll| ==> ll[i] in old(ll) || fresh(ll[i])
    {
      ghost var was := Model();
      ghost var o := LruSpec.Add(was, key, value);
      AfterPlace(was, key, value);
      AddValid(was, key, value);
      var sizeDelta: int64, uncompressedSizeDelta: int64;
      ok, sizeDelta, uncompressedSizeDelta := Place(key, value);
      if ok {
        Settle(sizeDelta, uncompressedSizeDelta, was, key, value, old(evicted));
      }
    }

    // Look up a key and mark it as most recently used.
    method Get(key: Key) returns (value: Option<Item>)
      requires Valid()
      modifies this
      ensures Valid() && Model() == LruSpec.Get(old(Model()), key)
      ensures value == Find(old(Entries()), key) && evicted == old(evicted)
    {
      value := None;
      ghost var was := Model();
      IndexMembers(ll, key);
      GetValid(was, key);
      PromoteSum(was.entries, key, DiskOf);
      PromoteSum(was.entries, key, LogicalOf);
      if key in cache {
        var ele := cache[key];
        PromoteElement(ll, ele);
        ll := [ele] + Unlink(ll, ele);
        return Some(ele.value);
      } else {
        assert Promote(was.entries, key) == was.entries;
      }
    }

    // Look up a key without touching its recency.
    method Peek(key: Key) returns (value: Option<Item>)
      requires Valid()
      ensures value == Find(Entries(), key)
    {
      IndexMembers(ll, key);
      return if key in cache then Some(cache[key].value) else None;
    }

    method Remove(key: Key)
      requires Valid()
      modifies this
      ensures Valid()
      ensures Model() == LruSpec.Remove(old(Model()), key).lru
      ensures evicted == old(evicted) + LruSpec.Remove(old(Model()), key).evicted
    {
      ghost var was := Model();
      IndexMembers(ll, key);
      RemoveValid(was, key);
      RemoveSizes(was, key);
      if key in cache {
        var ele := cache[key];
        ghost var rest := Unlink(ll, ele);
        UnlinkIndex(ll, ele);
        assert EntriesOf(rest) == Without(was.entries, key);
        RemoveElement(ele);
        assert Entries() == EntriesOf(rest);
      }
    }

    // Reserve size bytes, evicting as needed. Every failure carries an error.
    method Reserve(size: int64) returns (ok: bool, err: Option<ReserveError>)
      requires Valid()
      modifies this
      ensures Valid()
      ensures var o := LruSpec.Reserve(old(Model()), size);
        ok == o.ok && Model() == o.lru && evicted == old(evicted) + o.evicted
      ensures ok <==> err == None
      ensures err != Some(InternalReservation)
    {
      ghost var o := LruSpec.Reserve(Model(), size);
      ReserveValid(Model(), size);
      err := CheckReserve(size);
      ok := err == None;
      if ok && size > 0 {
        EvictForReserve(size);
        currentSize := currentSize + size;
        reservedSize := reservedSize + size;
        assert Model() == o.lru;
      }
    }

    // Whether a reservation can be made at all.
    method CheckReserve(size: int64) returns (err: Option<ReserveError>)
      requires Valid()
      ensures err == None <==> LruSpec.Reserve(Model(), size).ok
      ensures err != Some(InternalReservation)
    {
      ghost var o := LruSpec.Reserve(Model(), size);
      DiskNonNegative(Entries());
      if size == 0 {
        return None;
      }
      if size < 0 {
        return Some(NegativeSize);
      }
      if size > maxSize {
        return Some(LargerThanCache);
      }
      var tooMuch := Exceeds(size, reservedSize, maxSize);
      return if tooMuch then Some(NotEnoughSpace) else None;
    }

    // The eviction loop of Reserve. The branch in which the list runs out,
    // which the program reports as an internal error, is dead.
    method EvictForReserve(size: int64)
      requires Valid() && 0 < size && LruSpec.Reserve(Model(), size).ok
      modifies this
      ensures Linked() && reservedSize == old(reservedSize)
      ensures var o := LruSpec.Reserve(old(Model()), size);
        && Entries() == o.lru.entries && evicted == old(evicted) + o.evicted
        && currentSize + size == Total(o.lru) && uncompressedSize == Wrap(Logical(o.lru.entries))
    {
      ReserveEvicts(Model(), size);
      ghost var es := Entries();
      DiskNonNegative(es);
      assert es[..0] == [];
      ghost var c := Counters(reservedSize, 0, evicted);
      ghost var room := maxSize - (reservedSize + size);
      ghost var keep := Fit(es, room);
      AllCounted(es, reservedSize, evicted);
      var full := Exceeds(size, currentSize, maxSize);
      while full
        invariant Evicting(es, c) && 0 <= currentSize <= maxSize && reservedSize == old(reservedSize)
        invariant full <==> size + currentSize > maxSize
        invariant keep <= |ll|
        decreases |ll|
      {
        MustShrink(es, room, |ll|);
        if |ll| > 0 {
          RemoveBack(es, c);
        } else {
          assert false;
        }
        full := Exceeds(size, currentSize, maxSize);
      }
      FitIsExact(es, room, |ll|);
    }

    method Unreserve(size: int64) returns (ok: bool)
      requires Valid()
      modifies this
      ensures Valid()
      ensures ok == LruSpec.Unreserve(old(Model()), size).ok
      ensures Model() == LruSpec.Unreserve(old(Model()), size).lru
      ensures evicted == old(evicted)
    {
      DiskNonNegative(Entries());
      if size == 0 {
        return true;
      }
      if size < 0 {
        return false;
      }
      var newC: int64 := currentSize - size;
      var newR: int64 := reservedSize - size;
      if newC < 0 || newR < 0 {
        return false;
      }
      currentSize := newC;
      reservedSize := newR;
      return true;
    }
  }

  lemma ReserveEvicts(l: Lru, size: int)
    requires size > 0 && LruSpec.Reserve(l, size).ok
    ensures var n := Fit(l.entries, l.maxSize - (l.reserved + size));
      LruSpec.Reserve(l, size) ==
      Outcome(Lru(l.entries[..n], l.reserved + size, l.maxSize), true, Reverse(l.entries[n..]))
  {
  }

  // The sizes of the element held for a key.
  lemma IndexedSizes(ll: seq<Element>, key: Key)
    requires DistinctKeys(ll) && ItemsOk(EntriesOf(ll))
    ensures 0 <= Disk(Occurrence(EntriesOf(ll), key)) <= Disk(EntriesOf(ll))
    ensures key in IndexOf(ll) ==> var item := IndexOf(ll)[key].value;
      && ItemOk(item)
      && Disk(Occurrence(EntriesOf(ll), key)) == RoundUp(item.sizeOnDisk)
      && Logical(Occurrence(EntriesOf(ll), key)) == RoundUp(item.size)
    ensures key !in IndexOf(ll) ==>
      Disk(Occurrence(EntriesOf(ll), key)) == 0 && Logical(Occurrence(EntriesOf(ll), key)) == 0
  {
    IndexMembers(ll, key);
    OccurrenceSizes(EntriesOf(ll), key);
  }

  lemma BeforeEvicting(was: Lru, key: Key, value: Item, c: Counters,
                       current: int, uncompressed: int, evicted: seq<Entry>)
    requires LruSpec.Valid(was) && ItemOk(value)
    requires current == Total(was) && uncompressed == Wrap(Logical(was.entries))
    requires var es := [Entry(key, value)] + Without(was.entries, key);
      c == Counters(was.reserved - (RoundUp(value.sizeOnDisk) - Disk(Occurrence(was.entries, key))),
                    Logical(was.entries) - Logical(es), evicted)
    ensures var es := [Entry(key, value)] + Without(was.entries, key);
      && Counted(es, |es|, c, current, uncompressed, evicted)
      && es[..|es|] == es
  {
    var es := [Entry(key, value)] + Without(was.entries, key);
    AfterPlace(was, key, value);
    assert es[..|es|] == es && es[|es|..] == [];
  }

  lemma AfterEvicting(was: Lru, key: Key, value: Item, before: seq<Entry>, c: Counters,
                      n: nat, current: int, uncompressed: int, evicted: seq<Entry>)
    requires LruSpec.Valid(was) && ItemOk(value) && LruSpec.Add(was, key, value).ok
    requires var es := [Entry(key, value)] + Without(was.entries, key);
      && n == Fit(es, was.maxSize - was.reserved)
      && c == Counters(was.reserved - (RoundUp(value.sizeOnDisk) - Disk(Occurrence(was.entries, key))),
                       Logical(was.entries) - Logical(es), before + Occurrence(was.entries, key))
      && Counted(es, n, c, current, uncompressed, evicted)
    ensures var o := LruSpec.Add(was, key, value);
      && LruSpec.Valid(o.lru)
      && o.lru.entries == ([Entry(key, value)] + Without(was.entries, key))[..n]
      && evicted == before + o.evicted
      && current + (RoundUp(value.sizeOnDisk) - Disk(Occurrence(was.entries, key))) == Total(o.lru)
      && Wrap(uncompressed + Wrap(RoundUp(value.size) - Logical(Occurrence(was.entries, key)))) ==
         Wrap(Logical(o.lru.entries))
  {
    var o := LruSpec.Add(was, key, value);
    AddValid(was, key, value);
    CountersAfter(was, key, value, c, n, current, uncompressed);
  }

  // The counters of an Add once they are brought up to date.
  lemma CountersAfter(was: Lru, key: Key, value: Item, c: Counters, n: nat, current: int, uncompressed: int)
    requires LruSpec.Valid(was) && ItemOk(value)
    requires var es := [Entry(key, value)] + Without(was.entries, key);
      && n <= |es| && c.disk == was.reserved - (RoundUp(value.sizeOnDisk) - Disk(Occurrence(was.entries, key)))
      && c.logical == Logical(was.entries) - Logical(es)
      && current == c.disk + Disk(es[..n]) && uncompressed == Wrap(c.logical + Logical(es[..n]))
    ensures var es := [Entry(key, value)] + Without(was.entries, key);
      && current + (RoundUp(value.sizeOnDisk) - Disk(Occurrence(was.entries, key))) == was.reserved + Disk(es[..n])
      && Wrap(uncompressed + Wrap(RoundUp(value.size) - Logical(Occurrence(was.entries, key)))) == Wrap(Logical(es[..n]))
  {
    var es := [Entry(key, value)] + Without(was.entries, key);
    AfterPlace(was, key, value);
    WrapBoth(c.logical + Logical(es[..n]), RoundUp(value.size) - Logical(Occurrence(was.entries, key)));
  }

  lemma RemoveSizes(l: Lru, key: Key)
    requires LruSpec.Valid(l)
    ensures Find(l.entries, key).Some? ==> var item := Find(l.entries, key).value;
      && ItemOk(item)
      && 0 <= Total(LruSpec.Remove(l, key).lru) == Total(l) - RoundUp(item.sizeOnDisk)
      && Wrap(Logical(Without(l.entries, key))) == Wrap(Wrap(Logical(l.entries)) - RoundUp(item.size))
  {
    RemoveValid(l, key);
    OccurrenceSizes(l.entries, key);
    WithoutSum(l.entries, key, DiskOf);
    WithoutSum(l.entries, key, LogicalOf);
    WrapLeft(Logical(l.entries), Logical(Occurrence(l.entries, key)));
    DiskNonNegative(LruSpec.Remove(l, key).lru.entries);
  }

  lemma AllCounted(es: seq<Entry>, reserved: int, evicted: seq<Entry>)
    ensures Counted(es, |es|, Counters(reserved, 0, evicted), reserved + Disk(es), Wrap(Logical(es)), evicted)
    ensures es[..|es|] == es
  {
    assert es[..|es|] == es && es[|es|..] == [];
  }

  // As long as there is too much in the list, it is not empty, and taking the
  // last entry off leaves no less than what fits.
  lemma MustShrink(es: seq<Entry>, room: int, n: nat)
    requires ItemsOk(es) && 0 <= room && n <= |es| && Disk(es[..n]) > room
    ensures 0 < n && Fit(es, room) < n && 0 <= Disk(es[..n - 1]) <= Disk(es[..n])
  {
    assert es[..0] == [];
    FitIsExact(es, room, n);
    DiskOfFront(es, n - 1);
    PrefixIsSmaller(es, n - 1, n);
  }

  lemma DiskOfFront(es: seq<Entry>, n: nat)
    requires ItemsOk(es) && n <= |es|
    ensures 0 <= Disk(es[..n])
  {
    DiskNonNegative(es[..n]);
  }

  // The entry held for a key counts for no more than all the entries.
  lemma OccurrenceSizes(es: seq<Entry>, key: Key)
    requires ItemsOk(es)
    ensures 0 <= Disk(Occurrence(es, key)) <= Disk(es)
    ensures Find(es, key).Some? ==> var item := Find(es, key).value;
      && ItemOk(item)
      && Disk(Occurrence(es, key)) == RoundUp(item.sizeOnDisk)
      && Logical(Occurrence(es, key)) == RoundUp(item.size)
  {
    OccurrenceMembers(es, key);
    WithoutSum(es, key, DiskOf);
    WithoutItems(es, key);
    DiskNonNegative(Without(es, key));
    DiskNonNegative(Occurrence(es, key));
    if Find(es, key).Some? {
      assert Occurrence(es, key)[0] in es;
      SumSingle(Occurrence(es, key)[0], DiskOf);
      SumSingle(Occurrence(es, key)[0], LogicalOf);
    }
  }

  lemma {:induction false} WithoutItems(es: seq<Entry>, key: Key)
    requires ItemsOk(es)
    ensures ItemsOk(Without(es, key))
  {
    if es != [] && es[0].key != key { WithoutItems(es[1..], key); }
  }

  // The sizes of the list once a value has been put in front.
  lemma AfterPlace(l: Lru, key: Key, value: Item)
    requires LruSpec.Valid(l) && ItemOk(value)
    ensures var es := [Entry(key, value)] + Without(l.entries, key);
      && ItemsOk(es)
      && 0 <= Disk(Occurrence(l.entries, key)) <= Disk(l.entries) <= l.maxSize - l.reserved
      && Disk(es) == Disk(l.entries) + RoundUp(value.sizeOnDisk) - Disk(Occurrence(l.entries, key))
      && Logical(es) == Logical(l.entries) + RoundUp(value.size) - Logical(Occurrence(l.entries, key))
  {
    var es := [Entry(key, value)] + Without(l.entries, key);
    WithoutMembers(l.entries, key);
    WithoutSum(l.entries, key, DiskOf);
    WithoutSum(l.entries, key, LogicalOf);
    assert es[1..] == Without(l.entries, key);
    OccurrenceSizes(l.entries, key);
  }

  // What the counters and the callbacks were before an eviction loop, up to
  // the entries that are still in the list.
  datatype Counters = Counters(disk: int, logical: int, evicted: seq<Entry>)

  // With the first n entries of es still in the list, the counters match them
  // and the others have been handed to the callback, last first.
  ghost predicate Counted(es: seq<Entry>, n: nat, c: Counters, current: int, uncompressed: int, evicted: seq<Entry>)
    requires n <= |es|
  {
    && current == c.disk + Disk(es[..n])
    && uncompressed == Wrap(c.logical + Logical(es[..n]))
    && evicted == c.evicted + Reverse(es[n..])
  }

  lemma CountedNext(es: seq<Entry>, n: nat, c: Counters, current: int, uncompressed: int, evicted: seq<Entry>)
    requires n < |es| && ItemsOk(es) && Counted(es, n + 1, c, current, uncompressed, evicted)
    ensures Counted(es, n, c, current - DiskOf(es[n]), Wrap(uncompressed - LogicalOf(es[n])), evicted + [es[n]])
    ensures c.disk <= current - DiskOf(es[n]) <= current
  {
    PrefixNext(es, n, DiskOf);
    PrefixNext(es, n, LogicalOf);
    assert Reverse(es[n..]) == Reverse(es[n + 1..]) + [es[n]];
    WrapLeft(c.logical + Logical(es[..n + 1]), LogicalOf(es[n]));
    DiskNonNegative(es[..n]);
  }

  lemma PrefixNext(es: seq<Entry>, n: nat, f: Entry -> int)
    requires n < |es|
    ensures Sum(es[..n + 1], f) == Sum(es[..n], f) + f(es[n])
  {
    assert es[..n + 1] == es[..n] + [es[n]];
    SumConcat(es[..n], [es[n]], f);
    SumSingle(es[n], f);
  }

  // The test that keeps out values larger than the cache is about the rounded
  // size. It says what it should precisely for the sizes that can be rounded; a
  // value larger than that, which no disk holds, would be let in.
  lemma OversizeIsExact(maxSize: int64, sizeOnDisk: int64)
    requires 0 <= maxSize && 0 <= sizeOnDisk
    ensures (RoundUp4k(sizeOnDisk) > maxSize <==> RoundUp(sizeOnDisk) > maxSize) <==> sizeOnDisk <= MAX_ROUNDABLE
  {
    RoundUp4kWraps(sizeOnDisk);
    RoundUpRange(sizeOnDisk);
    if sizeOnDisk > MAX_ROUNDABLE {
      WrapTurn(-0x8000_0000_0000_0000);
    }
  }

  // The 64-bit test that Add makes says what it should.
  ghost predicate AddTestExact(maxSize: int64, reserved: int64, n: int64) {
    Wrap(reserved as int + RoundUp(n)) > maxSize <==> reserved as int + RoundUp(n) > maxSize
  }

  // It does so for all sizes that can occur precisely for caches smaller than
  // 2^62 bytes.
  lemma HalfRangeIsExact(maxSize: int64)
    requires 0 <= maxSize
    ensures maxSize < HALF_RANGE <==>
      forall reserved: int64, n: int64 ::
        0 <= reserved <= maxSize && 0 <= n <= MAX_ROUNDABLE && RoundUp(n) <= maxSize ==>
        AddTestExact(maxSize, reserved, n)
  {
    if maxSize >= HALF_RANGE {
      RoundUpDivides(HALF_RANGE);
      WrapTurn(maxSize as int + HALF_RANGE - 0x1_0000_0000_0000_0000);
      assert Wrap(maxSize as int + HALF_RANGE) < 0;
      assert !AddTestExact(maxSize, maxSize, HALF_RANGE);
    }
  }
}
