// Creation of uniquely named files (utils/tempfile/tempfile.go): a linear
// congruential generator and a loop over exclusive creates.
module TempFile {
  import opened Bytes
  import opened Names

  const ATTEMPTS: nat := 10000

  datatype OpenResult = Opened | AlreadyExists | OtherError

  // The file system: its files, and the names that cannot be opened for some
  // reason other than that they exist.
  class FileSystem {
    var files: map<string, seq<byte>>
    var broken: set<string>

    // Open with O_CREATE and O_EXCL.
    method OpenExclusive(name: string) returns (r: OpenResult)
      modifies this
      ensures broken == old(broken)
      ensures r == if name in old(files) then AlreadyExists else if name in broken then OtherError else Opened
      ensures files == if r == Opened then old(files)[name := []] else old(files)
    {
      if name in files {
        return AlreadyExists;
      }
      if name in broken {
        return OtherError;
      }
      files := files[name := []];
      return Opened;
    }
  }

  // The generator's next state.
  function Next(idum: nat): (r: nat)
    ensures r < 0x1_0000_0000
  {
    (idum * 1664525 + 1013904223) % 0x1_0000_0000
  }

  function NextBy(idum: nat, k: nat): nat {
    if k == 0 then idum else Next(NextBy(idum, k - 1))
  }

  // The text made from a generator state: ten digits without the leading 1.
  function RandomText(r: nat): string {
    var s := Decimal(1_000_000_000 + r % 1_000_000_000);
    if s == "" then s else s[1..]
  }

  function Pow10(k: nat): nat {
    if k == 0 then 1 else 10 * Pow10(k - 1)
  }

  lemma {:induction false} DecimalLeadingOne(n: nat, k: nat)
    requires Pow10(k) <= n < 2 * Pow10(k)
    ensures |Decimal(n)| == k + 1 && Decimal(n)[0] == '1'
    ensures AllDigits(Decimal(n)) && ParseDecimal(Decimal(n)[1..]) == n - Pow10(k)
  {
    DecimalRoundTrip(n);
    if k == 0 {
      assert Decimal(n)[1..] == "";
    } else {
      DecimalLeadingOne(n / 10, k - 1);
      var s := Decimal(n);
      assert s[1..][..k - 1] == Decimal(n / 10)[1..];
    }
  }

  // Whatever the state, the text is nine digits that stand for it modulo 10^9.
  lemma RandomTextShape(r: nat)
    ensures IsRandom(RandomText(r)) && |RandomText(r)| == 9
    ensures AllDigits(RandomText(r)) && ParseDecimal(RandomText(r)) == r % 1_000_000_000
  {
    assert Pow10(3) == 1000;
    assert Pow10(6) == 1000 * Pow10(3);
    assert Pow10(9) == 1000 * Pow10(6);
    DecimalLeadingOne(1_000_000_000 + r % 1_000_000_000, 9);
  }

  lemma RandomTextsDiffer(a: nat, b: nat)
    requires a < b < 1_000_000_000
    ensures |RandomText(a)| == |RandomText(b)| && RandomText(a) != RandomText(b)
  {
    RandomTextShape(a);
    RandomTextShape(b);
  }

  // The k-th name that is tried.
  function Candidate(base: string, seed: nat, k: nat, legacy: bool): string {
    CreateName(base, RandomText(NextBy(seed, k)), legacy)
  }

  datatype CreateResult =
    | Created(name: string, random: string)
    | NoTempfile
    | UnexpectedError(name: string)

  class Creator {
    var idum: nat

    method Ranqd1() returns (random: string)
      modifies this
      ensures idum == Next(old(idum)) && random == RandomText(idum)
    {
      idum := Next(idum);
      random := RandomText(idum);
    }

    // Create a file named after base that did not exist before, trying ten
    // thousand names.
    method Create(fs: FileSystem, base: string, legacy: bool) returns (r: CreateResult)
      modifies this, fs
      ensures fs.broken == old(fs.broken)
      ensures match r
        case Created(name, random) =>
          && IsRandom(random) && name == CreateName(base, random, legacy)
          && name !in old(fs.files) && fs.files == old(fs.files)[name := []]
        case UnexpectedError(name) =>
          name !in fs.files && name in fs.broken && fs.files == old(fs.files)
        case NoTempfile =>
          && fs.files == old(fs.files)
          && forall k :: 1 <= k <= ATTEMPTS ==>
               Candidate(base, old(idum), k, legacy) in fs.files
    {
      var i := 0;
      while i < ATTEMPTS
        invariant 0 <= i <= ATTEMPTS && idum == NextBy(old(idum), i)
        invariant fs.files == old(fs.files) && fs.broken == old(fs.broken)
        invariant forall k :: 1 <= k <= i ==>
          Candidate(base, old(idum), k, legacy) in fs.files
      {
        var random := Ranqd1();
        RandomTextShape(idum);
        var name := CreateName(base, random, legacy);
        var open := fs.OpenExclusive(name);
        if open == Opened {
          return Created(name, random);
        }
        if open == OtherError {
          return UnexpectedError(name);
        }
        i := i + 1;
      }
      return NoTempfile;
    }
  }
}
