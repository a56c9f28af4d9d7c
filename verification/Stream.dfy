// The adaptor that reads a stream of messages as a stream of bytes
// (cache/grpcproxy/readcloser.go).
module Stream {
  import opened Wrappers
  import opened Bytes

  // How the message stream ends: normally, with an error from Recv, or with an
  // error from CloseSend.
  datatype Ending = Normal | RecvFails | CloseFails

  datatype Received = Message(data: seq<byte>) | EndOfStream | RecvError

  // What a Read reports besides the number of bytes.
  datatype Status = More | EOF | Failed

  function Flatten(msgs: seq<seq<byte>>): seq<byte> {
    if msgs == [] then [] else msgs[0] + Flatten(msgs[1..])
  }

  function Min(a: nat, b: nat): nat {
    if a < b then a else b
  }

  // The adaptor between two reads: bytes of a message not yet read, and the
  // messages not yet received.
  datatype State = State(buf: seq<byte>, msgs: seq<seq<byte>>)

  datatype Outcome = Outcome(bytes: seq<byte>, next: State, status: Status)

  // What one Read into a buffer of len bytes does.
  function ReadOnce(s: State, len: nat, ending: Ending): Outcome {
    var n := Min(|s.buf|, len);
    var first, left := s.buf[..n], s.buf[n..];
    if n == len then Outcome(first, State(left, s.msgs), More)
    else if s.msgs == [] then
      if ending == Normal then Outcome(first, State([], []), EOF) else Outcome([], State([], []), Failed)
    else
      var m := s.msgs[0];
      var k := Min(|m|, len - n);
      Outcome(first + m[..k], State(m[k..], s.msgs[1..]), More)
  }

  // ----- the program -----

  class MessageStream {
    var msgs: seq<seq<byte>>
    const ending: Ending

    constructor (msgs: seq<seq<byte>>, ending: Ending)
      ensures this.msgs == msgs && this.ending == ending
    {
      this.msgs := msgs;
      this.ending := ending;
    }

    method Recv() returns (r: Received)
      modifies this
      ensures old(msgs) != [] ==> r == Message(old(msgs)[0]) && msgs == old(msgs)[1..]
      ensures old(msgs) == [] ==> msgs == [] && r == if ending == RecvFails then RecvError else EndOfStream
    {
      if msgs == [] {
        return if ending == RecvFails then RecvError else EndOfStream;
      }
      r := Message(msgs[0]);
      msgs := msgs[1..];
    }

    method CloseSend() returns (ok: bool)
      ensures ok <==> ending != CloseFails
    {
      return ending != CloseFails;
    }
  }

  // A second piece is copied behind the first.
  lemma Splice(first: seq<byte>, second: seq<byte>, was: seq<byte>)
    requires |first| + |second| <= |was|
    ensures var p, n, k := first + was[|first|..], |first|, |second|;
      p[..n] + second + p[n + k..] == first + second + was[n + k..]
  {
  }

  class StreamReadCloser {
    const stream: MessageStream
    // None is a nil slice.
    var buf: Option<seq<byte>>

    constructor (stream: MessageStream)
      ensures this.stream == stream && Abstract() == State([], stream.msgs)
    {
      this.stream := stream;
      buf := None;
    }

    ghost function Abstract(): State
      reads this, stream
    {
      State(Buffered(buf), stream.msgs)
    }

    static function Buffered(buf: Option<seq<byte>>): seq<byte> {
      match buf
      case Some(b) => b
      case None => []
    }

    // Copy from the buffer into p, from position at on.
    method ReadFromBuf(p: array<byte>, at: nat) returns (n: nat)
      requires at <= p.Length
      modifies this`buf, p
      ensures n == Min(|Buffered(old(buf))|, p.Length - at)
      ensures Buffered(buf) == Buffered(old(buf))[n..]
      ensures p[..] == old(p[..at]) + Buffered(old(buf))[..n] + old(p[at + n..])
    {
      var b := Buffered(buf);
      n := Min(|b|, p.Length - at);
      var i := 0;
      while i < n
        invariant 0 <= i <= n
        invariant p[..] == old(p[..at]) + b[..i] + old(p[at + i..])
      {
        p[at + i] := b[i];
        i := i + 1;
      }
      buf := if n == |b| then None else Some(b[n..]);
    }

    // Go on with the next message, when the buffer is empty.
    method ReadNext(p: array<byte>, at: nat) returns (n: int, status: Status)
      requires at <= p.Length && Buffered(buf) == []
      modifies this, stream, p
      ensures old(stream.msgs) == [] ==>
        && status == (if stream.ending == Normal then EOF else Failed) && Abstract() == State([], [])
        && n == (if status == EOF then at else -1) && p[..] == old(p[..])
      ensures old(stream.msgs) != [] ==>
        var m := old(stream.msgs)[0];
        var k := Min(|m|, p.Length - at);
        && status == More && n == at + k && Abstract() == State(m[k..], old(stream.msgs)[1..])
        && p[..] == old(p[..at]) + m[..k] + old(p[at + k..])
    {
      var msg := stream.Recv();
      match msg
      case RecvError =>
        return -1, Failed;
      case EndOfStream =>
        var ok := stream.CloseSend();
        if !ok {
          return -1, Failed;
        }
        buf := None;
        return at, EOF;
      case Message(data) =>
        buf := Some(data);
        var k := ReadFromBuf(p, at);
        return at + k, More;
    }

    method Read(p: array<byte>) returns (n: int, status: Status)
      modifies this, stream, p
      ensures var o := ReadOnce(old(Abstract()), p.Length, stream.ending);
        && status == o.status && Abstract() == o.next
        && n == (if status == Failed then -1 else |o.bytes|)
        && (status != Failed ==> |o.bytes| <= p.Length && p[..] == o.bytes + old(p[..])[|o.bytes|..])
    {
      ghost var o, was := ReadOnce(Abstract(), p.Length, stream.ending), p[..];
      n := 0;
      if buf != None {
        n := ReadFromBuf(p, 0);
      }
      ghost var first := Buffered(old(buf))[..n];
      assert p[..] == first + was[n..];
      if n == p.Length {
        return n, More;
      }
      ghost var msgs, at: nat := stream.msgs, n;
      n, status := ReadNext(p, n);
      if msgs != [] {
        Splice(first, msgs[0][..n - at], was);
      }
    }
  }

  // ----- whole sessions -----

  // Reads with buffers of the given sizes, until one does not return More:
  // the bytes returned, and how the last read ended.
  function Session(s: State, lens: seq<nat>, ending: Ending): Outcome
    decreases |lens|
  {
    if lens == [] then Outcome([], s, More)
    else
      var o := ReadOnce(s, lens[0], ending);
      if o.status != More then o
      else
        var rest := Session(o.next, lens[1..], ending);
        Outcome(o.bytes + rest.bytes, rest.next, rest.status)
  }

  function Pending(s: State): seq<byte> {
    s.buf + Flatten(s.msgs)
  }

  // One read returns the next bytes, never more than fit, and leaves the others.
  lemma ReadOnceKeeps(s: State, len: nat, ending: Ending)
    ensures var o := ReadOnce(s, len, ending);
      && |o.bytes| <= len
      && (o.status != Failed ==> o.bytes + Pending(o.next) == Pending(s))
      && (o.status == EOF ==> Pending(o.next) == [])
      && (o.status == Failed ==> ending != Normal && o.bytes == [] && |Pending(s)| < len)
  {
    var o := ReadOnce(s, len, ending);
    var n := Min(|s.buf|, len);
    assert s.buf == s.buf[..n] + s.buf[n..];
    if n < len && s.msgs != [] {
      var m := s.msgs[0];
      var k := Min(|m|, len - n);
      assert m == m[..k] + m[k..];
      assert s.buf[n..] == [];
      assert o.bytes + Pending(o.next) == s.buf + (m[..k] + m[k..]) + Flatten(s.msgs[1..]);
    }
  }

  // The adaptor loses nothing: whatever the buffer sizes, what the reads return
  // followed by what is still pending is the concatenation of the messages, so
  // that at EOF exactly the concatenation has been returned. If the stream
  // fails instead, what is lost is less than a buffer full.
  lemma {:induction false} SessionDelivers(s: State, lens: seq<nat>, ending: Ending)
    ensures var o := Session(s, lens, ending);
      && o.bytes <= Pending(s)
      && (o.status == More ==> o.bytes + Pending(o.next) == Pending(s))
      && (o.status == EOF ==> o.bytes == Pending(s))
      && (o.status == Failed ==>
            ending != Normal && exists i :: 0 <= i < |lens| && |Pending(s)| < |o.bytes| + lens[i])
    decreases |lens|
  {
    if lens != [] {
      var o := ReadOnce(s, lens[0], ending);
      ReadOnceKeeps(s, lens[0], ending);
      if o.status == More {
        SessionDelivers(o.next, lens[1..], ending);
        var rest := Session(o.next, lens[1..], ending);
        var whole := Session(s, lens, ending);
        assert whole.bytes == o.bytes + rest.bytes;
        assert rest.status == More ==>
          whole.bytes + Pending(rest.next) == o.bytes + (rest.bytes + Pending(rest.next));
        if rest.status == Failed {
          var i :| 0 <= i < |lens[1..]| && |Pending(o.next)| < |rest.bytes| + lens[1..][i];
          assert lens[i + 1] == lens[1..][i];
          assert |Pending(s)| == |o.bytes| + |Pending(o.next)|;
        }
      }
    }
  }

  // Reads with non-empty buffers come to the end: as many of them as there are
  // pending bytes and messages, and one more, do not all return More.
  lemma {:induction false} SessionEnds(s: State, lens: seq<nat>, ending: Ending)
    requires forall i :: 0 <= i < |lens| ==> lens[i] > 0
    requires |lens| > |Pending(s)| + |s.msgs|
    ensures Session(s, lens, ending).status == if ending == Normal then EOF else Failed
    decreases |lens|
  {
    var o := ReadOnce(s, lens[0], ending);
    ReadOnceKeeps(s, lens[0], ending);
    if o.status == More {
      assert |Pending(s)| == |o.bytes| + |Pending(o.next)|;
      SessionEnds(o.next, lens[1..], ending);
    }
  }
}
