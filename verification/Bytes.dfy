// Bytes, their little-endian integer encoding, and an open file with a
// position.
module Bytes {
  type byte = x: int | 0 <= x < 256

  function Pow256(k: nat): nat {
    if k == 0 then 1 else 256 * Pow256(k - 1)
  }

  // The low k bytes of n, least significant first.
  function LittleEndian(n: nat, k: nat): (bs: seq<byte>)
    ensures |bs| == k
  {
    if k == 0 then [] else [n % 256] + LittleEndian(n / 256, k - 1)
  }

  function FromLittleEndian(bs: seq<byte>): nat {
    if bs == [] then 0 else bs[0] + 256 * FromLittleEndian(bs[1..])
  }

  lemma {:induction false} LittleEndianRoundTrip(n: nat, k: nat)
    requires n < Pow256(k)
    ensures FromLittleEndian(LittleEndian(n, k)) == n
  {
    if k > 0 {
      LittleEndianRoundTrip(n / 256, k - 1);
      assert LittleEndian(n, k)[1..] == LittleEndian(n / 256, k - 1);
    }
  }

  lemma PowersOf256()
    ensures Pow256(4) == 0x1_0000_0000 && Pow256(8) == 0x1_0000_0000_0000_0000
  {
    assert Pow256(2) == 0x1_0000;
    assert Pow256(4) == 0x1_0000 * Pow256(2);
    assert Pow256(6) == 0x1_0000 * Pow256(4);
    assert Pow256(8) == 0x1_0000 * Pow256(6);
  }

  lemma RoundTrip4(n: nat)
    requires n < 0x1_0000_0000
    ensures FromLittleEndian(LittleEndian(n, 4)) == n
  {
    PowersOf256();
    LittleEndianRoundTrip(n, 4);
  }

  lemma RoundTrip8(n: nat)
    requires n < 0x8000_0000_0000_0000
    ensures FromSigned(LittleEndian(n, 8)) == n
  {
    PowersOf256();
    LittleEndianRoundTrip(n, 8);
  }

  // Eight bytes read as a signed 64-bit integer.
  function FromSigned(bs: seq<byte>): int {
    var n := FromLittleEndian(bs);
    if n >= 0x8000_0000_0000_0000 then n - 0x1_0000_0000_0000_0000 else n
  }

  // An open file.
  class File {
    var contents: seq<byte>
    var pos: nat
    // Whether writing may fail, at any time.
    const faulty: bool

    // Read exactly n bytes, or fail.
    method ReadFull(n: nat) returns (ok: bool, bs: seq<byte>)
      modifies this`pos
      ensures ok <==> old(pos) + n <= |contents|
      ensures ok ==> bs == contents[old(pos)..old(pos) + n] && pos == old(pos) + n
      ensures !ok ==> pos == old(pos)
    {
      if pos + n > |contents| {
        return false, [];
      }
      bs := contents[pos..pos + n];
      pos := pos + n;
      return true, bs;
    }

    method Seek(p: nat)
      modifies this`pos
      ensures pos == p
    {
      pos := p;
    }

    // Write bs over what the file holds at the position, or at its end. After a
    // failure the file may hold anything.
    method Write(bs: seq<byte>) returns (ok: bool)
      requires pos <= |contents|
      modifies this
      ensures !faulty ==> ok
      ensures ok ==> contents == Overwritten(old(contents), old(pos), bs)
      ensures ok ==> pos == old(pos) + |bs| <= |contents|
    {
      ok := true;
      if faulty {
        ok := *;
      }
      if ok {
        contents := Overwritten(contents, pos, bs);
        pos := pos + |bs|;
      } else {
        contents, pos := *, 0;
      }
    }

    // Sync and close.
    method Finish() returns (ok: bool)
      ensures !faulty ==> ok
    {
      ok := true;
      if faulty {
        ok := *;
      }
    }

    // Everything from the position on.
    function Rest(): seq<byte>
      reads this
    {
      if pos <= |contents| then contents[pos..] else []
    }
  }

  function Overwritten(contents: seq<byte>, pos: nat, bs: seq<byte>): seq<byte>
    requires pos <= |contents|
  {
    contents[..pos] + bs + (if pos + |bs| <= |contents| then contents[pos + |bs|..] else [])
  }
}
