// The names the cache gives to keys and files (cache/cache.go,
// cache/disk/disk.go, utils/tempfile/tempfile.go) and how a restart reads them
// back (cache/disk/load.go). Paths are relative to the cache directory.
module Names {
  import opened Wrappers
  import opened Int64
  import opened LruSpec

  datatype Kind = AC | CAS | RAW

  // The hash of the empty blob, which is never stored.
  const EMPTY_SHA256: string := "e3b0c44298fc1c149afbf4c8996fb92427ae41e4649b934ca495991b7852b855"

  // ----- strings -----

  predicate IsDigit(c: char) { '0' <= c <= '9' }
  predicate IsHexChar(c: char) { IsDigit(c) || 'a' <= c <= 'f' }
  predicate IsAlnum(c: char) { IsDigit(c) || 'a' <= c <= 'z' || 'A' <= c <= 'Z' }

  // 64 lower case hexadecimal digits.
  predicate IsHash(s: string) {
    |s| == 64 && forall i :: 0 <= i < |s| ==> IsHexChar(s[i])
  }

  predicate AllDigits(s: string) { forall i :: 0 <= i < |s| ==> IsDigit(s[i]) }
  predicate AllAlnum(s: string) { forall i :: 0 <= i < |s| ==> IsAlnum(s[i]) }

  predicate IsRandom(s: string) { s != "" && AllAlnum(s) }

  // A decimal number without leading zeros, other than zero.
  predicate IsSize(s: string) { s != "" && s[0] != '0' && AllDigits(s) }

  function IndexOfChar(s: string, c: char): (i: nat)
    ensures i <= |s|
    ensures forall j :: 0 <= j < i ==> s[j] != c
    ensures i < |s| ==> s[i] == c
  {
    if s == "" || s[0] == c then 0 else 1 + IndexOfChar(s[1..], c)
  }

  lemma IndexOfCharAt(a: string, c: char, b: string)
    requires c !in a
    ensures IndexOfChar(a + [c] + b, c) == |a|
    ensures (a + [c] + b)[..|a|] == a && (a + [c] + b)[|a| + 1..] == b
  {
    var s, i := a + [c] + b, IndexOfChar(a + [c] + b, c);
    assert s[|a|] == c;
    assert forall j :: 0 <= j < |a| ==> s[j] == a[j] && a[j] in a;
  }

  // Splitting at a separator into at most n parts.
  function SplitN(s: string, c: char, n: nat): seq<string>
    requires n > 0
  {
    var i := IndexOfChar(s, c);
    if n == 1 || i == |s| then [s] else [s[..i]] + SplitN(s[i + 1..], c, n - 1)
  }

  lemma SplitNext(a: string, c: char, b: string, n: nat)
    requires c !in a && n > 1
    ensures SplitN(a + [c] + b, c, n) == [a] + SplitN(b, c, n - 1)
  {
    IndexOfCharAt(a, c, b);
  }

  lemma SplitLast(a: string, c: char, n: nat)
    requires c !in a && n > 0
    ensures SplitN(a, c, n) == [a]
  {
  }

  // Splitting at every separator: no limit smaller than this is reached.
  function Split(s: string, c: char): seq<string> {
    SplitN(s, c, |s| + 1)
  }

  predicate HasPrefix(s: string, p: string) { p <= s }

  function Digit(d: nat): char
    requires d < 10
  {
    '0' + d as char
  }

  function Decimal(n: nat): string {
    if n < 10 then [Digit(n)] else Decimal(n / 10) + [Digit(n % 10)]
  }

  function SizeText(size: int): string {
    if size < 0 then "-" + Decimal(-size) else Decimal(size)
  }

  function ParseDecimal(s: string): nat
    requires AllDigits(s)
  {
    if s == "" then 0 else 10 * ParseDecimal(s[..|s| - 1]) + (s[|s| - 1] as nat - '0' as nat)
  }

  lemma {:induction false} DecimalRoundTrip(n: nat)
    ensures AllDigits(Decimal(n)) && ParseDecimal(Decimal(n)) == n
    ensures Decimal(n) != "" && (Decimal(n)[0] == '0' <==> n == 0)
  {
    if n >= 10 {
      DecimalRoundTrip(n / 10);
      var s := Decimal(n);
      assert s[..|s| - 1] == Decimal(n / 10);
    } else {
      assert Decimal(n)[..0] == "";
    }
  }

  // ----- lookup keys -----

  function KindName(kind: Kind): string {
    match kind
    case AC => "ac"
    case CAS => "cas"
    case RAW => "raw"
  }

  function DirName(kind: Kind): string {
    KindName(kind) + ".v2"
  }

  // The lookup key under which an item is indexed. RAW items ignore the
  // storage prefix.
  function LookupKey(prefix: string, kind: Kind, hash: string): Key {
    var key := KindName(kind) + "/" + hash;
    if kind != RAW && prefix != "" then key + "/" + prefix else key
  }

  function LookupKeyParts(key: Key): (Kind, string, string) {
    var parts := Split(key, '/');
    var hash := if |parts| >= 2 then parts[1] else "";
    var prefix := if |parts| >= 3 then parts[2] else "";
    var kind := if HasPrefix(key, "cas") then CAS
                else if HasPrefix(key, "ac") then AC
                else if HasPrefix(key, "raw") then RAW
                else AC;
    (kind, if hash == "" && |key| >= 64 then key[|key| - 64..] else hash, prefix)
  }

  predicate PrefixOk(prefix: string) { prefix == "" || IsHash(prefix) }

  lemma HashHasNoSeparator(s: string)
    requires IsHash(s)
    ensures '/' !in s && '-' !in s && '.' !in s
  {
  }

  // A lookup key gives back what it was made from.
  lemma LookupKeyRoundTrip(prefix: string, kind: Kind, hash: string)
    requires IsHash(hash) && PrefixOk(prefix)
    ensures LookupKeyParts(LookupKey(prefix, kind, hash)) == (kind, hash, if kind == RAW then "" else prefix)
  {
    var key := LookupKey(prefix, kind, hash);
    var name := KindName(kind);
    HashHasNoSeparator(hash);
    if kind != RAW && prefix != "" {
      HashHasNoSeparator(prefix);
      assert key == name + ['/'] + (hash + ['/'] + prefix);
      SplitInThree(name, hash, prefix);
    } else {
      assert key == name + ['/'] + hash;
      SplitInTwo(name, hash);
    }
    assert key[0] == name[0] && key[1] == name[1] && key[..|name|] == name;
  }

  lemma SplitInTwo(a: string, b: string)
    requires '/' !in a && '/' !in b
    ensures Split(a + ['/'] + b, '/') == [a, b]
  {
    var s := a + ['/'] + b;
    SplitNext(a, '/', b, |s| + 1);
    SplitLast(b, '/', |s|);
  }

  lemma SplitInThree(a: string, b: string, c: string)
    requires '/' !in a && '/' !in b && '/' !in c
    ensures Split(a + ['/'] + (b + ['/'] + c), '/') == [a, b, c]
  {
    var s := a + ['/'] + (b + ['/'] + c);
    SplitNext(a, '/', b + ['/'] + c, |s| + 1);
    SplitNext(b, '/', c, |s|);
    SplitLast(c, '/', |s| - 1);
  }

  // ----- file names -----

  // The directory of an item's file.
  function DirOf(prefix: string, kind: Kind, hash: string): string {
    var location := DirName(kind) + "/" + (if |hash| >= 2 then hash[..2] else hash);
    if kind == RAW || prefix == "" then location else prefix + "/" + location
  }

  // The name of an item's file within its directory.
  function NameOf(kind: Kind, legacy: bool, hash: string, size: int, random: string): string {
    if kind != CAS then hash + "-" + random
    else if legacy then hash + "-" + random + ".v1"
    else hash + "-" + SizeText(size) + "-" + random
  }

  function FileLocation(prefix: string, kind: Kind, legacy: bool, hash: string, size: int, random: string): string {
    DirOf(prefix, kind, hash) + "/" + NameOf(kind, legacy, hash, size, random)
  }

  // The name before Create adds a random part to it.
  function FileLocationBase(prefix: string, kind: Kind, legacy: bool, hash: string, size: int): string {
    DirOf(prefix, kind, hash) + "/" +
    (if kind != CAS || legacy then hash
     else hash + "-" + SizeText(size))
  }

  // The name of the file that Create opens.
  function CreateName(base: string, random: string, legacy: bool): string {
    base + "-" + random + (if legacy then ".v1" else "")
  }

  // The path that eviction computes for an index entry.
  function ElementPath(key: Key, item: Item): string {
    var (kind, hash, prefix) := LookupKeyParts(key);
    FileLocation(prefix, kind, item.legacy, hash, item.size, item.random)
  }

  // Eviction removes the file that Create made precisely when only CAS items
  // are stored as legacy files.
  lemma CreatedIsEvicted(prefix: string, kind: Kind, hash: string, item: Item)
    requires IsHash(hash) && PrefixOk(prefix)
    ensures CreateName(FileLocationBase(prefix, kind, item.legacy, hash, item.size), item.random, item.legacy) ==
            ElementPath(LookupKey(prefix, kind, hash), item)
            <==> (item.legacy ==> kind == CAS)
  {
    LookupKeyRoundTrip(prefix, kind, hash);
    var created := CreateName(FileLocationBase(prefix, kind, item.legacy, hash, item.size), item.random, item.legacy);
    var evicted := ElementPath(LookupKey(prefix, kind, hash), item);
    var base := if kind != CAS || item.legacy then hash
                else hash + "-" + SizeText(item.size);
    var dir := DirOf(prefix, kind, hash);
    assert DirOf(if kind == RAW then "" else prefix, kind, hash) == dir;
    Regroup(dir + "/", base, "-", item.random);
    if !item.legacy {
      assert created == (dir + "/") + base + "-" + item.random;
    } else if kind == CAS {
      assert created == (dir + "/") + base + "-" + item.random + ".v1";
      assert evicted == (dir + "/") + (base + "-" + item.random + ".v1");
      Regroup(dir + "/", base + "-", item.random, ".v1");
      assert (dir + "/") + base + "-" == (dir + "/") + (base + "-");
    } else {
      assert |created| == |evicted| + 3;
    }
  }

  lemma Regroup(a: string, b: string, c: string, d: string)
    ensures a + (b + c + d) == a + b + c + d
  {
  }

  // ----- scanning at startup -----

  datatype NameMatch = NameMatch(hash: string, size: string, random: string, v1: bool)

  // The language of the scan's regular expression:
  // a hash, an optional size, a random part and an optional ".v1".
  ghost predicate Matches(file: string, m: NameMatch) {
    && IsHash(m.hash) && IsRandom(m.random) && (m.size == "" || IsSize(m.size))
    && file == m.hash + "-" + (if m.size == "" then "" else m.size + "-") + m.random + (if m.v1 then ".v1" else "")
  }

  function MatchTail(hash: string, size: string, tail: string): (m: Option<NameMatch>)
    ensures m.Some? ==> m.value.size == size
  {
    var n := |tail| - 3;
    if n > 0 && tail[n..] == ".v1" && AllAlnum(tail[..n]) then Some(NameMatch(hash, size, tail[..n], true))
    else if IsRandom(tail) then Some(NameMatch(hash, size, tail, false))
    else None
  }

  function MatchName(file: string): (m: Option<NameMatch>)
    ensures m.Some? ==> m.value.size == "" || IsSize(m.value.size)
  {
    if |file| <= 65 || !IsHash(file[..64]) || file[64] != '-' then None
    else
      var rest := file[65..];
      var i := IndexOfChar(rest, '-');
      if i == |rest| then MatchTail(file[..64], "", rest)
      else if IsSize(rest[..i]) then MatchTail(file[..64], rest[..i], rest[i + 1..])
      else None
  }

  lemma MatchTailComplete(hash: string, size: string, random: string, v1: bool)
    requires IsRandom(random)
    ensures MatchTail(hash, size, random + (if v1 then ".v1" else "")) == Some(NameMatch(hash, size, random, v1))
  {
    var tail := random + (if v1 then ".v1" else "");
    if v1 {
      assert tail[|random|..] == ".v1" && tail[..|random|] == random;
    } else {
      assert tail == random;
      assert |tail| > 3 ==> tail[|tail| - 3..][0] != '.';
    }
  }

  lemma MatchComplete(m: NameMatch, file: string)
    requires Matches(file, m)
    ensures MatchName(file) == Some(m)
  {
    var tail := m.random + (if m.v1 then ".v1" else "");
    MatchTailComplete(m.hash, m.size, m.random, m.v1);
    if m.size == "" {
      assert file == m.hash + ['-'] + tail;
      MatchWithoutSize(m.hash, tail);
    } else {
      assert file == m.hash + ['-'] + (m.size + ['-'] + tail);
      MatchWithSize(m.hash, m.size, tail);
    }
  }

  lemma MatchWithoutSize(hash: string, tail: string)
    requires IsHash(hash) && '-' !in tail && tail != ""
    ensures MatchName(hash + ['-'] + tail) == MatchTail(hash, "", tail)
  {
    HeadAndRest(hash, tail);
  }

  lemma MatchWithSize(hash: string, size: string, tail: string)
    requires IsHash(hash) && IsSize(size)
    ensures MatchName(hash + ['-'] + (size + ['-'] + tail)) == MatchTail(hash, size, tail)
  {
    HeadAndRest(hash, size + ['-'] + tail);
    assert '-' !in size;
    IndexOfCharAt(size, '-', tail);
  }

  lemma HeadAndRest(hash: string, rest: string)
    requires |hash| == 64
    ensures var file := hash + ['-'] + rest;
      file[..64] == hash && file[64] == '-' && file[65..] == rest
  {
  }

  lemma MatchTailSound(hash: string, size: string, tail: string)
    requires MatchTail(hash, size, tail).Some?
    ensures var m := MatchTail(hash, size, tail).value;
      && m.hash == hash && IsRandom(m.random)
      && tail == m.random + (if m.v1 then ".v1" else "")
  {
    var m := MatchTail(hash, size, tail).value;
    if m.v1 { assert tail == tail[..|tail| - 3] + tail[|tail| - 3..]; }
  }

  lemma MatchSound(file: string)
    requires MatchName(file).Some?
    ensures Matches(file, MatchName(file).value)
  {
    var m := MatchName(file).value;
    var hash, rest := file[..64], file[65..];
    var i := IndexOfChar(rest, '-');
    assert file == hash + "-" + rest;
    if i == |rest| {
      MatchTailSound(hash, "", rest);
      assert file == hash + "-" + "" + m.random + (if m.v1 then ".v1" else "");
    } else {
      var tail := rest[i + 1..];
      MatchTailSound(hash, rest[..i], tail);
      assert rest == rest[..i] + "-" + tail;
      assert file == hash + "-" + (rest[..i] + "-") + m.random + (if m.v1 then ".v1" else "");
    }
  }

  // What MatchName returns is the one way in which the expression can match.
  lemma MatchIsUnique(file: string, m: NameMatch)
    ensures MatchName(file) == Some(m) <==> Matches(file, m)
  {
    if Matches(file, m) { MatchComplete(m, file); }
    if MatchName(file) == Some(m) { MatchSound(file); }
  }

  // What scanning a file in a cache directory yields, or None for the errors
  // that abort the start.
  function Scan(dir: string, file: string, sizeOnDisk: int64): Option<Entry> {
    var parts := SplitN(dir, '/', 3);
    var scoped := |parts| == 3 && IsHash(parts[0]);
    var prefix := if scoped then parts[0] else "";
    var cacheDir := if scoped then parts[1] + "/" + parts[2] else dir;
    match (ScanKind(cacheDir), MatchName(file))
    case (Some(kind), Some(m)) =>
      var size := if m.size == "" then sizeOnDisk as int else ParseDecimal(m.size);
      if size >= 0x8000_0000_0000_0000 then None
      else Some(Entry(LookupKey(prefix, kind, m.hash), Item(size, sizeOnDisk, m.random, m.v1)))
    case _ => None
  }

  function ScanKind(cacheDir: string): Option<Kind> {
    if HasPrefix(cacheDir, "cas.v2/") then Some(CAS)
    else if HasPrefix(cacheDir, "ac.v2/") then Some(AC)
    else if HasPrefix(cacheDir, "raw.v2/") then Some(RAW)
    else None
  }

  // The items that the program stores for a kind: compressed CAS blobs are not
  // empty, and what is stored uncompressed takes its own size on disk.
  predicate Storable(kind: Kind, item: Item) {
    if kind == CAS && !item.legacy then item.size > 0
    else item.size == item.sizeOnDisk && (item.legacy ==> kind == CAS)
  }

  lemma ScanDir(prefix: string, kind: Kind, hash: string)
    requires IsHash(hash) && PrefixOk(prefix)
    ensures var parts := SplitN(DirOf(prefix, kind, hash), '/', 3);
      var scoped := |parts| == 3 && IsHash(parts[0]);
      && ScanKind(if scoped then parts[1] + "/" + parts[2] else DirOf(prefix, kind, hash)) == Some(kind)
      && (if scoped then parts[0] else "") == if kind == RAW then "" else prefix
  {
    var two := hash[..2];
    assert '/' !in two;
    var location := DirName(kind) + ['/'] + two;
    KindOfLocation(kind, two);
    if kind == RAW || prefix == "" {
      SplitNext(DirName(kind), '/', two, 3);
      SplitLast(two, '/', 2);
    } else {
      HashHasNoSeparator(prefix);
      assert DirOf(prefix, kind, hash) == prefix + ['/'] + location;
      SplitNext(prefix, '/', location, 3);
      SplitNext(DirName(kind), '/', two, 2);
      SplitLast(two, '/', 1);
    }
  }

  lemma KindOfLocation(kind: Kind, two: string)
    ensures ScanKind(DirName(kind) + ['/'] + two) == Some(kind)
    ensures '/' !in DirName(kind) && !IsHash(DirName(kind))
  {
    var location := DirName(kind) + ['/'] + two;
    match kind
    case CAS => assert location[..7] == "cas.v2/";
    case AC => assert location[..6] == "ac.v2/"; assert location[0] == 'a';
    case RAW => assert location[..7] == "raw.v2/"; assert location[0] == 'r';
  }

  lemma ScanName(kind: Kind, hash: string, item: Item)
    requires IsHash(hash) && IsRandom(item.random) && 0 <= item.size
    ensures var m := MatchName(NameOf(kind, item.legacy, hash, item.size, item.random));
      if kind == CAS && !item.legacy && item.size == 0 then m == None
      else
        && m == Some(NameMatch(hash, if kind == CAS && !item.legacy then Decimal(item.size) else "", item.random,
                               kind == CAS && item.legacy))
        && (kind == CAS && !item.legacy ==> IsSize(Decimal(item.size)) && ParseDecimal(Decimal(item.size)) == item.size)
  {
    var name := NameOf(kind, item.legacy, hash, item.size, item.random);
    if kind != CAS || item.legacy {
      MatchComplete(NameMatch(hash, "", item.random, kind == CAS), name);
    } else {
      DecimalRoundTrip(item.size);
      if item.size > 0 {
        MatchComplete(NameMatch(hash, Decimal(item.size), item.random, false), name);
      } else {
        var rest := "0" + ['-'] + item.random;
        assert name == hash + ['-'] + rest;
        assert name[65..] == rest && name[..64] == hash;
        IndexOfCharAt("0", '-', item.random);
      }
    }
  }

  // Restart round trip: scanning the path of an item gives back its key and
  // the item, precisely for the items the program stores.
  lemma ScanRoundTrip(prefix: string, kind: Kind, hash: string, item: Item)
    requires IsHash(hash) && PrefixOk(prefix) && IsRandom(item.random) && 0 <= item.size
    ensures var key := LookupKey(prefix, kind, hash);
      var dir, name := DirOf(prefix, kind, hash), NameOf(kind, item.legacy, hash, item.size, item.random);
      && ElementPath(key, item) == dir + "/" + name
      && (Scan(dir, name, item.sizeOnDisk) == Some(Entry(key, item)) <==> Storable(kind, item))
  {
    var dir, name := DirOf(prefix, kind, hash), NameOf(kind, item.legacy, hash, item.size, item.random);
    var scanned := Scan(dir, name, item.sizeOnDisk);
    LookupKeyRoundTrip(prefix, kind, hash);
    ScanDir(prefix, kind, hash);
    ScanName(kind, hash, item);
    DirIgnoresRawPrefix(prefix, kind, hash);
    if scanned.Some? {
      assert scanned.value.key == LookupKey(prefix, kind, hash);
    }
  }

  lemma DirIgnoresRawPrefix(prefix: string, kind: Kind, hash: string)
    ensures LookupKey(if kind == RAW then "" else prefix, kind, hash) == LookupKey(prefix, kind, hash)
    ensures DirOf(if kind == RAW then "" else prefix, kind, hash) == DirOf(prefix, kind, hash)
  {
  }

  // ----- no two stored items share a path -----

  lemma LastSeparator(d1: string, n1: string, d2: string, n2: string)
    requires '/' !in n1 && '/' !in n2
    requires d1 + "/" + n1 == d2 + "/" + n2
    ensures d1 == d2 && n1 == n2
  {
    var p := d1 + "/" + n1;
    assert p[|d1|] == '/' && p[|d2|] == '/';
    assert forall j :: |d1| < j < |p| ==> p[j] == n1[j - |d1| - 1] && p[j] in n1;
    assert forall j :: |d2| < j < |p| ==> p[j] == n2[j - |d2| - 1] && p[j] in n2;
    assert p[..|d1|] == d1 && p[..|d2|] == d2;
    assert p[|d1| + 1..] == n1 && p[|d2| + 1..] == n2;
  }

  lemma NameHasNoSeparator(kind: Kind, hash: string, item: Item)
    requires IsHash(hash) && IsRandom(item.random) && 0 <= item.size
    ensures '/' !in NameOf(kind, item.legacy, hash, item.size, item.random)
  {
    DecimalRoundTrip(item.size);
  }

  // The item with every field replaced that its path does not show.
  function Shown(kind: Kind, item: Item): Item {
    if kind == CAS && !item.legacy then item.(sizeOnDisk := 1) else item.(size := 1, sizeOnDisk := 1)
  }

  // The path of a stored item determines its key, its random part and its
  // format, and the size of a compressed blob.
  lemma PathInjective(prefix: string, kind: Kind, hash: string, item: Item,
                      prefix': string, kind': Kind, hash': string, item': Item)
    requires IsHash(hash) && PrefixOk(prefix) && IsRandom(item.random) && 0 <= item.size && Storable(kind, item)
    requires IsHash(hash') && PrefixOk(prefix') && IsRandom(item'.random) && 0 <= item'.size && Storable(kind', item')
    requires ElementPath(LookupKey(prefix, kind, hash), item) == ElementPath(LookupKey(prefix', kind', hash'), item')
    ensures LookupKey(prefix, kind, hash) == LookupKey(prefix', kind', hash')
    ensures Shown(kind, item) == Shown(kind', item')
  {
    ScanRoundTrip(prefix, kind, hash, item);
    ScanRoundTrip(prefix', kind', hash', item');
    NameHasNoSeparator(kind, hash, item);
    NameHasNoSeparator(kind', hash', item');
    LastSeparator(DirOf(prefix, kind, hash), NameOf(kind, item.legacy, hash, item.size, item.random),
      DirOf(prefix', kind', hash'), NameOf(kind', item'.legacy, hash', item'.size, item'.random));
    ScanRoundTrip(prefix, kind, hash, Shown(kind, item));
    ScanRoundTrip(prefix', kind', hash', Shown(kind', item'));
  }
}
