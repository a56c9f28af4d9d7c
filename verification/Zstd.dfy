// Zstandard as the cache uses it: an encoder for one frame and a decoder for a
// stream of frames, of which only the laws in Lawful are used (RFC 8878,
// sections 3.1 and 3.1.2).
module Zstd {
  import opened Wrappers
  import opened Bytes

  const SKIPPABLE_MAGIC: nat := 0x184D2A50

  datatype Zstd = Zstd(enc: seq<byte> -> seq<byte>, dec: seq<byte> -> Option<seq<byte>>)

  // Decoded bytes followed by what the rest of the stream decodes to.
  function Then(x: seq<byte>, rest: Option<seq<byte>>): Option<seq<byte>> {
    match rest
    case Some(y) => Some(x + y)
    case None => None
  }

  // A skippable frame: magic number, 32-bit length, content.
  function SkippableFrame(content: seq<byte>): seq<byte> {
    LittleEndian(SKIPPABLE_MAGIC, 4) + LittleEndian(|content|, 4) + content
  }

  // An empty stream decodes to nothing, a stream decodes frame by frame, a
  // skippable frame contributes nothing, and no frame of non-empty input is
  // empty. An encoder may return nothing for no input.
  ghost predicate Lawful(z: Zstd) {
    && z.dec([]) == Some([])
    && (forall x, rest :: z.dec(z.enc(x) + rest) == Then(x, z.dec(rest)))
    && (forall content, rest :: |content| < 0x1_0000_0000 ==>
          z.dec(SkippableFrame(content) + rest) == z.dec(rest))
    && (forall x :: x != [] ==> z.enc(x) != [])
  }

  lemma DecodeOne(z: Zstd, x: seq<byte>)
    requires Lawful(z)
    ensures z.dec(z.enc(x)) == Some(x)
  {
    assert z.enc(x) + [] == z.enc(x);
    assert z.dec(z.enc(x) + []) == Then(x, z.dec([]));
    assert x + [] == x;
  }

  // ----- the laws can be met -----

  // A toy format: each byte after a 1, and a 0 at the end.
  function ToyEnc(x: seq<byte>): (e: seq<byte>)
    ensures e != [] && e[0] < 2
  {
    if x == [] then [0] else [1, x[0]] + ToyEnc(x[1..])
  }

  lemma {:induction false} ToyLength(x: seq<byte>)
    ensures |ToyEnc(x)| == 2 * |x| + 1
  {
    if x != [] { ToyLength(x[1..]); }
  }

  datatype ToyFrame = ToyFrame(content: seq<byte>, rest: seq<byte>)

  function ToyDecOne(s: seq<byte>): (r: Option<ToyFrame>)
    ensures r.Some? ==> |r.value.rest| < |s|
  {
    if s == [] || s[0] > 1 || (s[0] == 1 && |s| == 1) then None
    else if s[0] == 0 then Some(ToyFrame([], s[1..]))
    else
      match ToyDecOne(s[2..])
      case Some(f) => Some(f.(content := [s[1]] + f.content))
      case None => None
  }

  predicate IsSkippable(s: seq<byte>) {
    |s| >= 8 && s[..4] == LittleEndian(SKIPPABLE_MAGIC, 4)
  }

  function ToyDec(s: seq<byte>): Option<seq<byte>>
    decreases |s|
  {
    if s == [] then Some([])
    else if IsSkippable(s) then
      var n := FromLittleEndian(s[4..8]);
      if 8 + n <= |s| then ToyDec(s[8 + n..]) else None
    else
      match ToyDecOne(s)
      case Some(f) => Then(f.content, ToyDec(f.rest))
      case None => None
  }

  lemma {:induction false} ToyFrameRoundTrip(x: seq<byte>, rest: seq<byte>)
    ensures ToyDecOne(ToyEnc(x) + rest) == Some(ToyFrame(x, rest))
  {
    var s := ToyEnc(x) + rest;
    if x == [] {
      assert s[1..] == rest;
    } else {
      var e := ToyEnc(x[1..]);
      ToyFrameRoundTrip(x[1..], rest);
      assert ToyEnc(x) == [1, x[0]] + e;
      assert s == [1, x[0]] + (e + rest);
      ToyNext(x[0], e + rest);
      assert [x[0]] + x[1..] == x;
    }
  }

  lemma ToyNext(b: byte, tail: seq<byte>)
    requires ToyDecOne(tail).Some?
    ensures var f := ToyDecOne(tail).value;
      ToyDecOne([1, b] + tail) == Some(f.(content := [b] + f.content))
  {
    assert ([1, b] + tail)[2..] == tail;
  }

  function Toy(): Zstd {
    Zstd(ToyEnc, ToyDec)
  }

  lemma ToyIsLawful()
    ensures Lawful(Toy())
  {
    var z := Toy();
    assert LittleEndian(SKIPPABLE_MAGIC, 4)[0] == 0x50;
    forall x: seq<byte>, rest: seq<byte> ensures z.dec(z.enc(x) + rest) == Then(x, z.dec(rest)) {
      ToyFrameRoundTrip(x, rest);
      assert (ToyEnc(x) + rest)[0] < 2;
      assert !IsSkippable(ToyEnc(x) + rest);
    }
    forall content: seq<byte>, rest: seq<byte> | |content| < 0x1_0000_0000
      ensures z.dec(SkippableFrame(content) + rest) == z.dec(rest)
    {
      var s := SkippableFrame(content) + rest;
      RoundTrip4(|content|);
      assert s[..4] == LittleEndian(SKIPPABLE_MAGIC, 4);
      assert s[4..8] == LittleEndian(|content|, 4);
      assert s[8 + |content|..] == rest;
    }
  }

  // An encoder that returns nothing for no input.
  function Terse(): Zstd {
    Zstd(x => if x == [] then [] else ToyEnc(x), ToyDec)
  }

  lemma TerseIsLawful()
    ensures Lawful(Terse()) && Terse().enc([]) == []
  {
    var z, toy := Terse(), Toy();
    ToyIsLawful();
    forall x: seq<byte>, rest: seq<byte> ensures z.dec(z.enc(x) + rest) == Then(x, z.dec(rest)) {
      if x == [] {
        assert [] + rest == rest;
        assert z.dec(rest).Some? ==> [] + z.dec(rest).value == z.dec(rest).value;
      } else {
        assert toy.dec(toy.enc(x) + rest) == Then(x, toy.dec(rest));
      }
    }
    forall content: seq<byte>, rest: seq<byte> | |content| < 0x1_0000_0000
      ensures z.dec(SkippableFrame(content) + rest) == z.dec(rest)
    {
      assert toy.dec(SkippableFrame(content) + rest) == toy.dec(rest);
    }
  }
}
