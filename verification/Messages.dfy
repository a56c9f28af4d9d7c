// The parts of the remote execution messages that the cache looks at. A field
// that can be unset is an Option.
module Messages {
  import opened Wrappers
  import opened Int64
  import opened Bytes
  import opened LruSpec
  import opened Names

  datatype Digest = Digest(hash: string, sizeBytes: int64)

  datatype OutputFile = OutputFile(contents: seq<byte>, digest: Option<Digest>)

  datatype OutputDirectory = OutputDirectory(treeDigest: Option<Digest>)

  datatype ActionResult = ActionResult(outputFiles: seq<Option<OutputFile>>,
                                       outputDirectories: seq<Option<OutputDirectory>>,
                                       stdoutRaw: seq<byte>, stderrRaw: seq<byte>,
                                       stdoutDigest: Option<Digest>, stderrDigest: Option<Digest>)

  // The digests of the files of the root directory and of every child.
  datatype Tree = Tree(root: seq<Option<Digest>>, children: seq<seq<Option<Digest>>>)

  predicate IsEmptyBlob(d: Digest) {
    d.sizeBytes == 0 && d.hash == EMPTY_SHA256
  }

  function CasKey(prefix: string, hash: string): Key {
    LookupKey(prefix, CAS, hash)
  }

  // ----- lists of hashes -----

  // The elements without repetitions, in the order of their first occurrences.
  function Nub<T(==)>(s: seq<T>): seq<T> {
    if s == [] then []
    else
      var init, last := s[..|s| - 1], s[|s| - 1];
      if last in init then Nub(init) else Nub(init) + [last]
  }

  lemma {:induction false} NubFacts<T>(s: seq<T>)
    ensures forall x :: x in Nub(s) <==> x in s
    ensures forall i, j :: 0 <= i < j < |Nub(s)| ==> Nub(s)[i] != Nub(s)[j]
  {
    if s != [] {
      assert s == s[..|s| - 1] + [s[|s| - 1]];
      NubFacts(s[..|s| - 1]);
    }
  }

  lemma NubSnoc<T>(s: seq<T>, x: T)
    ensures Nub(s + [x]) == if x in s then Nub(s) else Nub(s) + [x]
  {
    assert (s + [x])[..|s|] == s;
  }
}
