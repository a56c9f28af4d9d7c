// What the size-bounded LRU index (cache/disk/lru.go) computes, as functions
// on a plain recency sequence. Class SizedLRU refines these functions; the
// request protocol, restart loading and FindMissing are stated on them.
module LruSpec {
  import opened Wrappers
  import opened Int64
  import opened Sums

  type Key = string

  datatype Item = Item(size: int64, sizeOnDisk: int64, random: string, legacy: bool)

  datatype Entry = Entry(key: Key, item: Item)

  // Entries are listed from the most to the least recently used.
  datatype Lru = Lru(entries: seq<Entry>, reserved: int, maxSize: int)

  // ----- sequences of entries -----

  function DiskOf(e: Entry): int {
    RoundUp(e.item.sizeOnDisk)
  }

  function LogicalOf(e: Entry): int {
    RoundUp(e.item.size)
  }

  // Bytes on disk, each file rounded up to whole blocks.
  function Disk(es: seq<Entry>): int {
    Sum(es, DiskOf)
  }

  // Uncompressed bytes, rounded up likewise.
  function Logical(es: seq<Entry>): int {
    Sum(es, LogicalOf)
  }

  predicate ItemOk(item: Item) {
    0 <= item.size && 0 <= item.sizeOnDisk <= MAX_ROUNDABLE
  }

  ghost predicate ItemsOk(es: seq<Entry>) {
    forall e :: e in es ==> ItemOk(e.item)
  }

  ghost predicate Distinct(es: seq<Entry>) {
    forall i, j :: 0 <= i < j < |es| ==> es[i].key != es[j].key
  }

  function Find(es: seq<Entry>, key: Key): Option<Item> {
    if es == [] then None
    else if es[0].key == key then Some(es[0].item)
    else Find(es[1..], key)
  }

  // The entry held for key, as a sequence of at most one.
  function Occurrence(es: seq<Entry>, key: Key): seq<Entry> {
    match Find(es, key)
    case Some(item) => [Entry(key, item)]
    case None => []
  }

  function Without(es: seq<Entry>, key: Key): seq<Entry> {
    if es == [] then []
    else if es[0].key == key then es[1..]
    else [es[0]] + Without(es[1..], key)
  }

  // The length of the longest prefix that takes at most room bytes on disk.
  function Fit(es: seq<Entry>, room: int): (n: nat)
    ensures n <= |es|
    ensures room >= 0 ==> Disk(es[..n]) <= room
    ensures forall k {:trigger Disk(es[..k])} :: n < k <= |es| ==> Disk(es[..k]) > room
  {
    FitUpTo(es, room, |es|)
  }

  function FitUpTo(es: seq<Entry>, room: int, m: nat): (n: nat)
    requires m <= |es|
    ensures n <= m
    ensures room >= 0 ==> Disk(es[..n]) <= room
    ensures forall k {:trigger Disk(es[..k])} :: n < k <= m ==> Disk(es[..k]) > room
  {
    if m == 0 || Disk(es[..m]) <= room then m else FitUpTo(es, room, m - 1)
  }

  lemma DiskNonNegative(es: seq<Entry>)
    requires ItemsOk(es)
    ensures 0 <= Disk(es)
  {
    SumNonNegative(es, DiskOf);
  }

  lemma PrefixIsSmaller(es: seq<Entry>, m: nat, n: nat)
    requires ItemsOk(es) && m <= n <= |es|
    ensures Disk(es[..m]) <= Disk(es[..n])
  {
    assert es[..n] == es[..m] + es[m..n];
    SumConcat(es[..m], es[m..n], DiskOf);
    DiskNonNegative(es[m..n]);
  }

  // A prefix fits exactly when it is no longer than Fit says.
  lemma FitIsExact(es: seq<Entry>, room: int, m: nat)
    requires ItemsOk(es) && room >= 0 && m <= |es|
    ensures Disk(es[..m]) <= room <==> m <= Fit(es, room)
  {
    if m <= Fit(es, room) { PrefixIsSmaller(es, m, Fit(es, room)); }
  }

  lemma {:induction false} WithoutMembers(es: seq<Entry>, key: Key)
    requires Distinct(es)
    ensures Distinct(Without(es, key))
    ensures forall e :: e in Without(es, key) <==> e in es && e.key != key
  {
    if es != [] {
      assert es == [es[0]] + es[1..];
      assert forall e :: e in es <==> e == es[0] || e in es[1..];
      WithoutMembers(es[1..], key);
    }
  }

  lemma {:induction false} WithoutSum(es: seq<Entry>, key: Key, f: Entry -> int)
    ensures Sum(es, f) == Sum(Without(es, key), f) + Sum(Occurrence(es, key), f)
  {
    if es != [] && es[0].key != key {
      WithoutSum(es[1..], key, f);
      assert Without(es, key)[1..] == Without(es[1..], key);
    }
  }

  lemma {:induction false} OccurrenceMembers(es: seq<Entry>, key: Key)
    ensures forall e :: e in Occurrence(es, key) ==> e in es
    ensures Find(es, key) == None ==> Without(es, key) == es
  {
    if es != [] && es[0].key != key {
      OccurrenceMembers(es[1..], key);
      assert es == [es[0]] + es[1..];
    }
  }

  lemma {:induction false} FindFacts(es: seq<Entry>, key: Key, item: Item)
    requires Distinct(es)
    ensures Find(es, key) == Some(item) <==> Entry(key, item) in es
    ensures Find(es, key) == None <==> forall e :: e in es ==> e.key != key
  {
    if es != [] {
      assert forall e :: e in es <==> e == es[0] || e in es[1..];
      FindFacts(es[1..], key, item);
    }
  }

  lemma SameMembersSameFinds(es: seq<Entry>, es': seq<Entry>, key: Key)
    requires Distinct(es) && Distinct(es')
    requires forall e :: e in es' <==> e in es
    ensures Find(es', key) == Find(es, key)
  {
    if Find(es, key).Some? || Find(es', key).Some? {
      var item := if Find(es, key).Some? then Find(es, key).value else Find(es', key).value;
      FindFacts(es, key, item);
      FindFacts(es', key, item);
    }
  }

  // ----- the index -----

  // Bytes counted against the limit: what TotalSize reports.
  function Total(l: Lru): int {
    l.reserved + Disk(l.entries)
  }

  ghost predicate Valid(l: Lru) {
    && Distinct(l.entries)
    && ItemsOk(l.entries)
    && 0 <= l.reserved
    && Total(l) <= l.maxSize
  }

  function Empty(maxSize: int): Lru {
    Lru([], 0, maxSize)
  }

  // The outcome of an operation: the new index, whether it succeeded, and the
  // values handed to the eviction callback, in order.
  datatype Outcome = Outcome(lru: Lru, ok: bool, evicted: seq<Entry>)

  // Cut the recency list down to what fits beside the reservations.
  function Evict(l: Lru, es: seq<Entry>, reserved: int, before: seq<Entry>): Outcome {
    var n := Fit(es, l.maxSize - reserved);
    Outcome(Lru(es[..n], reserved, l.maxSize), true, before + Reverse(es[n..]))
  }

  predicate AddAccepts(l: Lru, key: Key, item: Item) {
    var rounded := RoundUp(item.sizeOnDisk);
    && rounded <= l.maxSize
    && l.reserved + (rounded - Disk(Occurrence(l.entries, key))) <= l.maxSize
  }

  function Add(l: Lru, key: Key, item: Item): Outcome {
    if AddAccepts(l, key, item) then
      Evict(l, [Entry(key, item)] + Without(l.entries, key), l.reserved, Occurrence(l.entries, key))
    else
      Outcome(l, false, [])
  }

  function Promote(es: seq<Entry>, key: Key): seq<Entry> {
    Occurrence(es, key) + Without(es, key)
  }

  function Get(l: Lru, key: Key): Lru {
    l.(entries := Promote(l.entries, key))
  }

  function Remove(l: Lru, key: Key): Outcome {
    Outcome(l.(entries := Without(l.entries, key)), true, Occurrence(l.entries, key))
  }

  function Reserve(l: Lru, size: int): Outcome {
    if size == 0 then Outcome(l, true, [])
    else if size < 0 || l.reserved + size > l.maxSize then Outcome(l, false, [])
    else Evict(l, l.entries, l.reserved + size, [])
  }

  function Unreserve(l: Lru, size: int): Outcome {
    if size < 0 || l.reserved < size || Total(l) < size then
      Outcome(l, size == 0, [])
    else
      Outcome(l.(reserved := l.reserved - size), true, [])
  }

  // ----- what every operation keeps -----

  // The weight of the entries before, with those added, is the weight of the
  // entries after, with those evicted.
  ghost predicate Balanced(before: seq<Entry>, added: seq<Entry>, after: seq<Entry>, evicted: seq<Entry>,
                           f: Entry -> int) {
    Sum(before, f) + Sum(added, f) == Sum(after, f) + Sum(evicted, f)
  }

  lemma EvictBalances(l: Lru, es: seq<Entry>, reserved: int, before: seq<Entry>, f: Entry -> int)
    ensures var o := Evict(l, es, reserved, before);
      Sum(es, f) + Sum(before, f) == Sum(o.lru.entries, f) + Sum(o.evicted, f)
  {
    var o := Evict(l, es, reserved, before);
    var n := |o.lru.entries|;
    SumSplit(es, n, f);
    SumReverse(es[n..], f);
    SumConcat(before, Reverse(es[n..]), f);
  }

  lemma EvictValid(l: Lru, es: seq<Entry>, reserved: int, before: seq<Entry>)
    requires Distinct(es) && ItemsOk(es) && 0 <= reserved <= l.maxSize
    ensures Valid(Evict(l, es, reserved, before).lru)
  {
    var o := Evict(l, es, reserved, before);
  }

  // The values an operation puts into the index.
  function Added(key: Key, item: Item, o: Outcome): seq<Entry> {
    if o.ok then [Entry(key, item)] else []
  }

  lemma AddBalances(l: Lru, key: Key, item: Item, f: Entry -> int)
    ensures var o := Add(l, key, item);
      Balanced(l.entries, Added(key, item, o), o.lru.entries, o.evicted, f)
  {
    var o := Add(l, key, item);
    if o.ok {
      WithoutSum(l.entries, key, f);
      SumConcat([Entry(key, item)], Without(l.entries, key), f);
      EvictBalances(l, [Entry(key, item)] + Without(l.entries, key), l.reserved, Occurrence(l.entries, key), f);
    }
  }

  lemma AddValid(l: Lru, key: Key, item: Item)
    requires Valid(l) && ItemOk(item)
    ensures Valid(Add(l, key, item).lru)
  {
    var o := Add(l, key, item);
    if o.ok {
      WithoutMembers(l.entries, key);
      DiskNonNegative(l.entries);
      EvictValid(l, [Entry(key, item)] + Without(l.entries, key), l.reserved, Occurrence(l.entries, key));
    }
  }

  // A new value that was accepted is live precisely when it fits beside the
  // reservations. Otherwise, which takes an overwrite, it has been evicted
  // together with everything else.
  lemma AddedValue(l: Lru, key: Key, item: Item)
    requires Valid(l) && ItemOk(item) && Add(l, key, item).ok
    ensures var o := Add(l, key, item);
      && (Find(o.lru.entries, key) == Some(item) <==> l.reserved + RoundUp(item.sizeOnDisk) <= l.maxSize)
      && (Find(l.entries, key) == None ==> Find(o.lru.entries, key) == Some(item))
      && (Find(o.lru.entries, key) != Some(item) ==> o.lru.entries == [] && Entry(key, item) in o.evicted)
  {
    var o := Add(l, key, item);
    WithoutMembers(l.entries, key);
    DiskNonNegative(l.entries);
    var es := [Entry(key, item)] + Without(l.entries, key);
    var n := |o.lru.entries|;
    assert es[..1] == [Entry(key, item)];
    SumSingle(Entry(key, item), DiskOf);
    FitIsExact(es, l.maxSize - l.reserved, 1);
    if n > 0 {
      assert o.lru.entries[0] == Entry(key, item);
    } else {
      assert o.evicted[|o.evicted| - 1] == Entry(key, item);
    }
  }

  // Such an overwrite: the larger value is accepted, because the test adds only
  // the difference to what is reserved, and then does not fit itself.
  lemma OverwriteEvictsItself()
    ensures var small, large := Item(4096, 4096, "a", false), Item(8192, 8192, "b", false);
      var l := Lru([Entry("k", small)], 4096, 8192);
      && Valid(l) && Add(l, "k", large).ok && Add(l, "k", large).lru.entries == []
      && Add(l, "k", large).evicted == [Entry("k", small), Entry("k", large)]
  {
    var small, large := Item(4096, 4096, "a", false), Item(8192, 8192, "b", false);
    var l := Lru([Entry("k", small)], 4096, 8192);
    assert RoundUp(4096) == 4096 && RoundUp(8192) == 8192;
    SumSingle(Entry("k", small), DiskOf);
    SumSingle(Entry("k", large), DiskOf);
    assert Occurrence(l.entries, "k") == [Entry("k", small)];
    assert [Entry("k", large)] + Without(l.entries, "k") == [Entry("k", large)];
    AddedValue(l, "k", large);
    AddIsMinimal(l, "k", large, 0);
    assert Reverse([Entry("k", large)]) == [Entry("k", large)];
  }

  // Eviction is minimal and in LRU order: what stays is the front of the list
  // with the new entry first, and a front part stays whole exactly if it fits.
  lemma AddIsMinimal(l: Lru, key: Key, item: Item, m: nat)
    requires Valid(l) && ItemOk(item) && Add(l, key, item).ok
    requires m <= 1 + |Without(l.entries, key)|
    ensures var o := Add(l, key, item);
      var es := [Entry(key, item)] + Without(l.entries, key);
      && o.lru.entries == es[..|o.lru.entries|]
      && o.evicted == Occurrence(l.entries, key) + Reverse(es[|o.lru.entries|..])
      && (m <= |o.lru.entries| <==> l.reserved + Disk(es[..m]) <= l.maxSize)
  {
    var o := Add(l, key, item);
    WithoutMembers(l.entries, key);
    DiskNonNegative(l.entries);
    FitIsExact([Entry(key, item)] + Without(l.entries, key), l.maxSize - l.reserved, m);
  }

  lemma ReserveBalances(l: Lru, size: int, f: Entry -> int)
    ensures Balanced(l.entries, [], Reserve(l, size).lru.entries, Reserve(l, size).evicted, f)
  {
    var o := Reserve(l, size);
    if o.ok && size > 0 {
      EvictBalances(l, l.entries, l.reserved + size, [], f);
    }
  }

  lemma ReserveValid(l: Lru, size: int)
    requires Valid(l)
    ensures var o := Reserve(l, size);
      Valid(o.lru) && o.lru.reserved == l.reserved + (if o.ok then size else 0)
  {
    var o := Reserve(l, size);
    if o.ok && size > 0 {
      EvictValid(l, l.entries, l.reserved + size, []);
    }
  }

  // A reservation succeeds exactly if it fits beside the other reservations,
  // and then evicts the shortest possible tail of the recency list.
  lemma ReserveIsMinimal(l: Lru, size: int, m: nat)
    requires Valid(l) && m <= |l.entries|
    ensures var o := Reserve(l, size);
      && (o.ok <==> size == 0 || (size > 0 && l.reserved + size <= l.maxSize))
      && o.lru.entries == l.entries[..|o.lru.entries|]
      && o.evicted == Reverse(l.entries[|o.lru.entries|..])
      && (o.ok ==> (m <= |o.lru.entries| <==> l.reserved + size + Disk(l.entries[..m]) <= l.maxSize))
  {
    var o := Reserve(l, size);
    DiskNonNegative(l.entries);
    PrefixIsSmaller(l.entries, m, |l.entries|);
    assert l.entries[..|l.entries|] == l.entries;
    if o.ok {
      FitIsExact(l.entries, l.maxSize - (l.reserved + size), m);
    }
  }

  lemma PromoteMembers(es: seq<Entry>, key: Key)
    requires Distinct(es)
    ensures Distinct(Promote(es, key))
    ensures forall e :: e in Promote(es, key) <==> e in es
  {
    WithoutMembers(es, key);
    OccurrenceMembers(es, key);
    FindFacts(es, key, if Find(es, key).Some? then Find(es, key).value else Item(0, 0, "", false));
  }

  lemma PromoteSum(es: seq<Entry>, key: Key, f: Entry -> int)
    ensures Sum(Promote(es, key), f) == Sum(es, f)
  {
    WithoutSum(es, key, f);
    SumConcat(Occurrence(es, key), Without(es, key), f);
  }

  lemma GetValid(l: Lru, key: Key)
    requires Valid(l)
    ensures Valid(Get(l, key))
    ensures forall k :: Find(Get(l, key).entries, k) == Find(l.entries, k)
  {
    PromoteSum(l.entries, key, DiskOf);
    PromoteMembers(l.entries, key);
    forall k ensures Find(Promote(l.entries, key), k) == Find(l.entries, k) {
      SameMembersSameFinds(l.entries, Promote(l.entries, key), k);
    }
  }

  lemma RemoveValid(l: Lru, key: Key)
    requires Valid(l)
    ensures Valid(Remove(l, key).lru)
  {
    WithoutMembers(l.entries, key);
    OccurrenceMembers(l.entries, key);
    WithoutSum(l.entries, key, DiskOf);
    DiskNonNegative(Occurrence(l.entries, key));
  }

  // ----- whole runs -----

  datatype Op =
    | OpAdd(key: Key, item: Item)
    | OpGet(key: Key)
    | OpPeek(key: Key)
    | OpRemove(key: Key)
    | OpReserve(size: int)
    | OpUnreserve(size: int)

  function Step(l: Lru, op: Op): Outcome {
    match op
    case OpAdd(key, item) => Add(l, key, item)
    case OpGet(key) => Outcome(Get(l, key), Find(l.entries, key).Some?, [])
    case OpPeek(key) => Outcome(l, Find(l.entries, key).Some?, [])
    case OpRemove(key) => Remove(l, key)
    case OpReserve(size) => Reserve(l, size)
    case OpUnreserve(size) => Unreserve(l, size)
  }

  function AddedBy(op: Op, o: Outcome): seq<Entry> {
    if op.OpAdd? then Added(op.key, op.item, o) else []
  }

  ghost predicate OpsOk(ops: seq<Op>) {
    forall op :: op in ops ==> op.OpAdd? ==> ItemOk(op.item)
  }

  // The index after ops, starting from the empty one.
  function Run(maxSize: int, ops: seq<Op>): Lru {
    if ops == [] then Empty(maxSize) else Step(Run(maxSize, ops[..|ops| - 1]), ops[|ops| - 1]).lru
  }

  // The values whose Add succeeded, and the values given to the callback.
  function Accepted(maxSize: int, ops: seq<Op>): seq<Entry> {
    if ops == [] then []
    else
      var op := ops[|ops| - 1];
      Accepted(maxSize, ops[..|ops| - 1]) + AddedBy(op, Step(Run(maxSize, ops[..|ops| - 1]), op))
  }

  function CalledBack(maxSize: int, ops: seq<Op>): seq<Entry> {
    if ops == [] then []
    else
      CalledBack(maxSize, ops[..|ops| - 1]) + Step(Run(maxSize, ops[..|ops| - 1]), ops[|ops| - 1]).evicted
  }

  lemma StepValid(l: Lru, op: Op)
    requires Valid(l) && (op.OpAdd? ==> ItemOk(op.item))
    ensures Valid(Step(l, op).lru)
  {
    var o := Step(l, op);
    match op
    case OpAdd(key, item) => AddValid(l, key, item);
    case OpGet(key) => GetValid(l, key);
    case OpPeek(key) =>
    case OpRemove(key) => RemoveValid(l, key);
    case OpReserve(size) => ReserveValid(l, size);
    case OpUnreserve(size) =>
  }

  lemma StepBalances(l: Lru, op: Op, f: Entry -> int)
    ensures Balanced(l.entries, AddedBy(op, Step(l, op)), Step(l, op).lru.entries, Step(l, op).evicted, f)
  {
    var o := Step(l, op);
    match op
    case OpAdd(key, item) => AddBalances(l, key, item, f);
    case OpGet(key) => PromoteSum(l.entries, key, f);
    case OpPeek(key) =>
    case OpRemove(key) => WithoutSum(l.entries, key, f);
    case OpReserve(size) => ReserveBalances(l, size, f);
    case OpUnreserve(size) =>
  }

  // After any run the index is valid.
  lemma {:induction false} RunValid(maxSize: int, ops: seq<Op>)
    requires 0 <= maxSize && OpsOk(ops)
    ensures Valid(Run(maxSize, ops))
  {
    if ops != [] {
      assert forall o :: o in ops[..|ops| - 1] ==> o in ops;
      RunValid(maxSize, ops[..|ops| - 1]);
      StepValid(Run(maxSize, ops[..|ops| - 1]), ops[|ops| - 1]);
    }
  }

  lemma {:induction false} RunBalances(maxSize: int, ops: seq<Op>, f: Entry -> int)
    ensures Sum(Accepted(maxSize, ops), f) ==
            Sum(Run(maxSize, ops).entries, f) + Sum(CalledBack(maxSize, ops), f)
  {
    if ops != [] {
      var ops', op := ops[..|ops| - 1], ops[|ops| - 1];
      var o := Step(Run(maxSize, ops'), op);
      RunBalances(maxSize, ops', f);
      StepBalances(Run(maxSize, ops'), op, f);
      SumConcat(Accepted(maxSize, ops'), AddedBy(op, o), f);
      SumConcat(CalledBack(maxSize, ops'), o.evicted, f);
    }
  }

  // Over any run each value whose Add succeeded is either live or has been
  // given to the eviction callback, exactly once.
  lemma RunConserves(maxSize: int, ops: seq<Op>)
    ensures multiset(Accepted(maxSize, ops)) ==
            multiset(Run(maxSize, ops).entries) + multiset(CalledBack(maxSize, ops))
  {
    forall e: Entry
      ensures multiset(Accepted(maxSize, ops))[e] ==
              multiset(Run(maxSize, ops).entries)[e] + multiset(CalledBack(maxSize, ops))[e]
    {
      RunBalances(maxSize, ops, Is(e));
      SumCounts(Accepted(maxSize, ops), e);
      SumCounts(Run(maxSize, ops).entries, e);
      SumCounts(CalledBack(maxSize, ops), e);
    }
  }

  // The time of the last Add or Get that touched key, or -1.
  function Touched(maxSize: int, ops: seq<Op>, key: Key): int {
    if ops == [] then -1
    else
      var op := ops[|ops| - 1];
      if (op.OpAdd? || op.OpGet?) && op.key == key && Step(Run(maxSize, ops[..|ops| - 1]), op).ok
      then |ops| - 1
      else Touched(maxSize, ops[..|ops| - 1], key)
  }

  ghost predicate ByRecency(maxSize: int, ops: seq<Op>, es: seq<Entry>) {
    forall i, j :: 0 <= i < j < |es| ==> Touched(maxSize, ops, es[i].key) > Touched(maxSize, ops, es[j].key)
  }

  lemma {:induction false} TouchedBound(maxSize: int, ops: seq<Op>, key: Key)
    ensures Touched(maxSize, ops, key) < |ops|
  {
    if ops != [] { TouchedBound(maxSize, ops[..|ops| - 1], key); }
  }

  lemma ByRecencyCons(maxSize: int, ops: seq<Op>, first: Entry, es: seq<Entry>)
    requires ByRecency(maxSize, ops, es)
    requires forall e :: e in es ==> Touched(maxSize, ops, first.key) > Touched(maxSize, ops, e.key)
    ensures ByRecency(maxSize, ops, [first] + es)
  {
  }

  // Taking a key out keeps the order of the others.
  lemma {:induction false} UntouchedOrder(maxSize: int, ops: seq<Op>, es: seq<Entry>, key: Key)
    requires ops != [] && Distinct(es) && ByRecency(maxSize, ops[..|ops| - 1], es)
    requires forall k :: k != key ==> Touched(maxSize, ops, k) == Touched(maxSize, ops[..|ops| - 1], k)
    ensures ByRecency(maxSize, ops, Without(es, key))
  {
    if es != [] && es[0].key != key {
      UntouchedOrder(maxSize, ops, es[1..], key);
      WithoutMembers(es[1..], key);
      ByRecencyCons(maxSize, ops, es[0], Without(es[1..], key));
    }
  }

  lemma FirstIsLatest(maxSize: int, ops: seq<Op>, es: seq<Entry>, first: Entry)
    requires ops != [] && Distinct(es) && ByRecency(maxSize, ops[..|ops| - 1], es)
    requires forall k :: k != first.key ==> Touched(maxSize, ops, k) == Touched(maxSize, ops[..|ops| - 1], k)
    requires Touched(maxSize, ops, first.key) == |ops| - 1
    ensures ByRecency(maxSize, ops, [first] + Without(es, first.key))
  {
    UntouchedOrder(maxSize, ops, es, first.key);
    WithoutMembers(es, first.key);
    forall e | e in Without(es, first.key)
      ensures Touched(maxSize, ops, first.key) > Touched(maxSize, ops, e.key)
    {
      TouchedBound(maxSize, ops[..|ops| - 1], e.key);
    }
    ByRecencyCons(maxSize, ops, first, Without(es, first.key));
  }

  // After any run the list is ordered by the last Add or Get of each key;
  // Peek, Remove, Reserve and Unreserve leave no trace in the order.
  lemma {:induction false} RunByRecency(maxSize: int, ops: seq<Op>)
    requires 0 <= maxSize && OpsOk(ops)
    ensures ByRecency(maxSize, ops, Run(maxSize, ops).entries)
  {
    if ops != [] {
      var ops', op := ops[..|ops| - 1], ops[|ops| - 1];
      assert forall o :: o in ops' ==> o in ops;
      RunValid(maxSize, ops');
      RunByRecency(maxSize, ops');
      StepByRecency(maxSize, ops, Run(maxSize, ops'), op);
    }
  }

  lemma StepByRecency(maxSize: int, ops: seq<Op>, l: Lru, op: Op)
    requires ops != [] && op == ops[|ops| - 1] && l == Run(maxSize, ops[..|ops| - 1])
    requires Distinct(l.entries) && ByRecency(maxSize, ops[..|ops| - 1], l.entries)
    ensures ByRecency(maxSize, ops, Step(l, op).lru.entries)
  {
    var o := Step(l, op);
    if (op.OpAdd? || op.OpGet?) && o.ok {
      OnlyThisTouched(maxSize, ops, l, op.key);
      var first := if op.OpAdd? then Entry(op.key, op.item) else Entry(op.key, Find(l.entries, op.key).value);
      FirstIsLatest(maxSize, ops, l.entries, first);
      assert o.lru.entries <= [first] + Without(l.entries, op.key);
    } else {
      forall k ensures Touched(maxSize, ops, k) == Touched(maxSize, ops[..|ops| - 1], k) {}
      if op.OpRemove? {
        UntouchedOrder(maxSize, ops, l.entries, op.key);
      } else {
        if op.OpGet? { OccurrenceMembers(l.entries, op.key); }
        assert o.lru.entries <= l.entries;
      }
    }
  }

  lemma OnlyThisTouched(maxSize: int, ops: seq<Op>, l: Lru, key: Key)
    requires ops != [] && l == Run(maxSize, ops[..|ops| - 1])
    requires var op := ops[|ops| - 1]; (op.OpAdd? || op.OpGet?) && op.key == key && Step(l, op).ok
    ensures Touched(maxSize, ops, key) == |ops| - 1
    ensures forall k :: k != key ==> Touched(maxSize, ops, k) == Touched(maxSize, ops[..|ops| - 1], k)
  {
  }
}
