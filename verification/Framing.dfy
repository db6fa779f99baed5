/** Messages on a byte stream: a 32-bit length in network order, then the text, written and read in
    whatever pieces the operating system grants. */
module Framing {

  type Byte = x: int | 0 <= x < 256

  const TWO_32: nat := 0x1_0000_0000

  /** One direction of a connection: the bytes that have been written and not yet read, and those the
      writing process has still to write. */
  class Pipe {
    var bytes: seq<Byte>
    var coming: seq<Byte>

    /** Everything a reader of the pipe will get. */
    function Stream(): seq<Byte>
      reads this
    {
      bytes + coming
    }

    constructor ()
      ensures bytes == [] && coming == []
    {
      bytes, coming := [], [];
    }

    /** `write` takes any non-empty part of what it is offered. */
    method Write(data: seq<Byte>) returns (sent: nat)
      requires data != [] && coming == []
      modifies this
      ensures 1 <= sent <= |data| && Stream() == old(Stream()) + data[..sent] && coming == []
    {
      sent :| 1 <= sent <= |data|;
      bytes := bytes + data[..sent];
    }

    /** The writing process gets on while a reader waits: any amount, and something if nothing is there. */
    method Arrive()
      modifies this
      ensures Stream() == old(Stream()) && (Stream() != [] ==> bytes != [])
    {
      var n :| 0 <= n <= |coming| && (bytes == [] && coming != [] ==> n >= 1);
      assert coming == coming[..n] + coming[n..];
      bytes, coming := bytes + coming[..n], coming[n..];
    }

    /** `read` waits for something and returns any non-empty part of what has arrived, up to the limit. */
    method Read(limit: nat) returns (got: seq<Byte>)
      requires limit > 0 && Stream() != []
      modifies this
      ensures 1 <= |got| <= limit && old(Stream()) == got + Stream()
    {
      Arrive();
      var n :| 1 <= n <= limit && n <= |bytes|;
      assert bytes == bytes[..n] + bytes[n..];
      got, bytes := bytes[..n], bytes[n..];
    }
  }

  // ----- the format -----

  function NetworkOrder(n: nat): (b: seq<Byte>)
    requires n < TWO_32
    ensures |b| == 4
  {
    [n / 0x100_0000, n / 0x1_0000 % 256, n / 256 % 256, n % 256]
  }

  function HostOrder(b: seq<Byte>): (n: nat)
    requires |b| == 4
    ensures n < TWO_32
  {
    (b[0] as int) * 0x100_0000 + (b[1] as int) * 0x1_0000 + (b[2] as int) * 256 + b[3]
  }

  /** The first byte counts most, and there is only one way to write a length. */
  lemma NetworkOrderIsBigEndian(n: nat, b: seq<Byte>)
    requires n < TWO_32 && |b| == 4
    ensures NetworkOrder(n) == b <==>
            n == (b[0] as int) * 16777216 + (b[1] as int) * 65536 + (b[2] as int) * 256 + b[3]
  {
    HostOrderInverts(n);
    if n == HostOrder(b) {
      BytesReadBack(b, NetworkOrder(n));
    }
  }

  lemma LastByte(x: int, y: int, p: Byte, q: Byte)
    requires 256 * x + p == 256 * y + q
    ensures x == y && p == q
  {
  }

  lemma BytesReadBack(a: seq<Byte>, b: seq<Byte>)
    requires |a| == |b| == 4 && HostOrder(a) == HostOrder(b)
    ensures a == b
  {
    var a1, a2 := (a[0] as int) * 256 + a[1], ((a[0] as int) * 256 + a[1]) * 256 + a[2];
    var b1, b2 := (b[0] as int) * 256 + b[1], ((b[0] as int) * 256 + b[1]) * 256 + b[2];
    LastByte(a2, b2, a[3], b[3]);
    LastByte(a1, b1, a[2], b[2]);
    LastByte(a[0], b[0], a[1], b[1]);
  }

  lemma HostOrderInverts(n: nat)
    requires n < TWO_32
    ensures HostOrder(NetworkOrder(n)) == n
  {
    var a, b, c := n / 0x100_0000, n / 0x1_0000, n / 256;
    assert c / 256 == b && b / 256 == a;
    assert b == 256 * a + b % 256;
    assert c == 256 * b + c % 256;
    assert n == 256 * c + n % 256;
  }

  /** The length is stored in an unsigned 32-bit integer. */
  function Frame(message: seq<Byte>): seq<Byte> {
    NetworkOrder(|message| % TWO_32) + message
  }

  function Frames(messages: seq<seq<Byte>>): seq<Byte> {
    if messages == [] then [] else Frame(messages[0]) + Frames(messages[1..])
  }

  datatype Parsed = Incomplete | Message(text: seq<Byte>, rest: seq<Byte>)

  function Parse(bytes: seq<Byte>): Parsed {
    if |bytes| < 4 then Incomplete
    else
      var n := HostOrder(bytes[..4]);
      if |bytes| < 4 + n then Incomplete else Message(bytes[4..4 + n], bytes[4 + n..])
  }

  /** A message of any length is read back up to the length that fits 32 bits, and the reader takes what
      is left of it for the next frame; so it survives exactly when it is shorter than 2^32. */
  lemma ParseFrame(message: seq<Byte>, rest: seq<Byte>)
    ensures var kept := |message| % TWO_32;
            Parse(Frame(message) + rest) == Message(message[..kept], message[kept..] + rest)
    ensures Parse(Frame(message) + rest) == Message(message, rest) <==> |message| < TWO_32
  {
    var kept := |message| % TWO_32;
    var bytes := Frame(message) + rest;
    HostOrderInverts(kept);
    assert bytes[..4] == NetworkOrder(kept);
    assert bytes[4..] == message + rest;
    assert bytes[4..4 + kept] == (message + rest)[..kept] == message[..kept];
    assert bytes[4 + kept..] == (message + rest)[kept..] == message[kept..] + rest;
    if |message| >= TWO_32 {
      assert |message[..kept]| < |message|;
    }
  }

  predicate Sendable(messages: seq<seq<Byte>>) {
    forall i :: 0 <= i < |messages| ==> |messages[i]| < TWO_32
  }

  lemma FirstMessageIsReadable(a: seq<Byte>, b: seq<Byte>, restA: seq<Byte>, restB: seq<Byte>)
    requires |a| < TWO_32 && |b| < TWO_32 && Frame(a) + restA == Frame(b) + restB
    ensures a == b && restA == restB
  {
    ParseFrame(a, restA);
    ParseFrame(b, restB);
  }

  /** A byte stream is the frames of at most one list of messages of a given length: framing is
      uniquely readable, whatever follows. */
  lemma {:induction false} FramesAreUniquelyReadable(a: seq<seq<Byte>>, b: seq<seq<Byte>>, restA: seq<Byte>,
                                                     restB: seq<Byte>)
    requires Sendable(a) && Sendable(b) && |a| == |b|
    requires Frames(a) + restA == Frames(b) + restB
    ensures a == b && restA == restB
    decreases |a|
  {
    if a == [] {
      assert Frames(a) + restA == restA && Frames(b) + restB == restB;
    } else {
      var laterA, laterB := Frames(a[1..]) + restA, Frames(b[1..]) + restB;
      assert Frames(a) + restA == Frame(a[0]) + laterA;
      assert Frames(b) + restB == Frame(b[0]) + laterB;
      FirstMessageIsReadable(a[0], b[0], laterA, laterB);
      FramesAreUniquelyReadable(a[1..], b[1..], restA, restB);
      assert a == [a[0]] + a[1..] && b == [b[0]] + b[1..];
    }
  }

  /** The messages complete in a stream so far. */
  function Decoded(bytes: seq<Byte>): seq<seq<Byte>>
    decreases |bytes|
  {
    match Parse(bytes)
    case Incomplete => []
    case Message(text, rest) => [text] + Decoded(rest)
  }

  lemma DecodedFirst(message: seq<Byte>, rest: seq<Byte>)
    requires |message| < TWO_32
    ensures Decoded(Frame(message) + rest) == [message] + Decoded(rest)
  {
    ParseFrame(message, rest);
  }

  /** A receiver that has got any first part of a stream has decoded a first part of the messages. */
  lemma {:induction false} DecodedSoFar(messages: seq<seq<Byte>>, bytes: seq<Byte>)
    requires Sendable(messages) && bytes <= Frames(messages)
    ensures Decoded(bytes) <= messages
    ensures bytes == Frames(messages) ==> Decoded(bytes) == messages
    decreases |messages|
  {
    if messages != [] {
      var first, later := Frame(messages[0]), Frames(messages[1..]);
      if |bytes| < |first| {
        FirstFrameIncomplete(messages[0], bytes, later);
      } else {
        SplitAfterFirst(first, later, bytes);
        DecodedFirst(messages[0], bytes[|first|..]);
        DecodedSoFar(messages[1..], bytes[|first|..]);
        assert messages == [messages[0]] + messages[1..];
      }
    }
  }

  lemma SplitAfterFirst(first: seq<Byte>, later: seq<Byte>, bytes: seq<Byte>)
    requires bytes <= first + later && |first| <= |bytes|
    ensures var rest := bytes[|first|..];
            bytes == first + rest && rest <= later && (bytes == first + later ==> rest == later)
  {
    assert bytes == (first + later)[..|bytes|];
  }

  lemma FirstFrameIncomplete(message: seq<Byte>, bytes: seq<Byte>, later: seq<Byte>)
    requires |message| < TWO_32 && bytes <= Frame(message) + later && |bytes| < |Frame(message)|
    ensures Parse(bytes) == Incomplete
  {
    var frame := NetworkOrder(|message|) + message;
    HostOrderInverts(|message|);
    assert Frame(message) == frame;
    if |bytes| >= 4 {
      assert bytes[..4] == frame[..4] == NetworkOrder(|message|);
    }
  }

  // ----- sender and receiver at once -----

  /** Bytes still to be written, bytes written and not yet read, and bytes read. */
  datatype Link = Link(unsent: seq<Byte>, flight: seq<Byte>, got: seq<Byte>)

  /** One write of any non-empty part of what is left, or one read of any non-empty part of what has arrived. */
  predicate LinkStep(a: Link, b: Link) {
    || (|b.unsent| < |a.unsent| && b.got == a.got
        && var n := |a.unsent| - |b.unsent|; b.unsent == a.unsent[n..] && b.flight == a.flight + a.unsent[..n])
    || (|b.flight| < |a.flight| && b.unsent == a.unsent
        && var n := |a.flight| - |b.flight|; b.flight == a.flight[n..] && b.got == a.got + a.flight[..n])
  }

  predicate LinkStepAt(states: seq<Link>, i: nat)
    requires i + 1 < |states|
  {
    LinkStep(states[i], states[i + 1])
  }

  ghost predicate IsLinkRun(states: seq<Link>, messages: seq<seq<Byte>>) {
    && states != [] && states[0] == Link(Frames(messages), [], [])
    && forall i :: 0 <= i < |states| - 1 ==> LinkStepAt(states, i)
  }

  lemma {:induction false} BytesAreConserved(states: seq<Link>, messages: seq<seq<Byte>>, i: nat)
    requires IsLinkRun(states, messages) && i < |states|
    ensures states[i].got + states[i].flight + states[i].unsent == Frames(messages)
  {
    if i > 0 {
      BytesAreConserved(states, messages, i - 1);
      assert LinkStepAt(states, i - 1);
      LinkStepConserves(states[i - 1], states[i]);
    }
  }

  lemma LinkStepConserves(a: Link, b: Link)
    requires LinkStep(a, b)
    ensures b.got + b.flight + b.unsent == a.got + a.flight + a.unsent
  {
    if b.got == a.got && |b.unsent| < |a.unsent| {
      assert a.unsent == a.unsent[..|a.unsent| - |b.unsent|] + b.unsent;
    } else {
      assert a.flight == a.flight[..|a.flight| - |b.flight|] + b.flight;
    }
  }

  /** However the writes and reads of a connection interleave and are cut, the receiver has at every
      moment decoded exactly a first part of the messages sent, and all of them once nothing is left. */
  lemma EveryInterleavingDelivers(states: seq<Link>, messages: seq<seq<Byte>>, i: nat)
    requires IsLinkRun(states, messages) && Sendable(messages) && i < |states|
    ensures Decoded(states[i].got) <= messages
    ensures states[i].unsent == [] && states[i].flight == [] ==> Decoded(states[i].got) == messages
  {
    BytesAreConserved(states, messages, i);
    var s := states[i];
    assert s.got + s.flight + s.unsent == s.got + (s.flight + s.unsent);
    DecodedSoFar(messages, s.got);
  }

  // ----- the loops -----

  method SendLooped(pipe: Pipe, data: seq<Byte>)
    requires pipe.coming == []
    modifies pipe
    ensures pipe.Stream() == old(pipe.Stream()) + data && pipe.coming == []
  {
    var ptr: nat := 0;
    var remain: nat := |data|;
    while remain > 0
      invariant ptr + remain == |data| && pipe.coming == []
      invariant pipe.Stream() == old(pipe.Stream()) + data[..ptr]
      decreases remain
    {
      var sent := pipe.Write(data[ptr..]);
      assert data[..ptr] + data[ptr..][..sent] == data[..ptr + sent];
      ptr := ptr + sent;
      remain := remain - sent;
    }
  }

  method SendMessage(pipe: Pipe, message: seq<Byte>)
    requires pipe.coming == []
    modifies pipe
    ensures pipe.Stream() == old(pipe.Stream()) + Frame(message) && pipe.coming == []
  {
    SendLooped(pipe, NetworkOrder(|message| % TWO_32));
    SendLooped(pipe, message);
  }

  /** Fills the first `size` bytes of a buffer, however much of them has been written when it starts. */
  method RecvLooped(pipe: Pipe, buffer: array<Byte>, size: nat)
    requires size <= buffer.Length && size <= |pipe.Stream()|
    modifies pipe, buffer
    ensures buffer[..size] == old(pipe.Stream())[..size] && buffer[size..] == old(buffer[size..])
    ensures pipe.Stream() == old(pipe.Stream())[size..]
  {
    ghost var stream := pipe.Stream();
    var ptr: nat := 0;
    var remain: nat := size;
    while remain > 0
      invariant ptr + remain == size
      invariant buffer[..ptr] == stream[..ptr] && buffer[size..] == old(buffer[size..])
      invariant pipe.Stream() == stream[ptr..]
      decreases remain
    {
      var got := pipe.Read(remain);
      Store(buffer, ptr, got);
      assert stream[ptr..] == got + pipe.Stream();
      assert stream[..ptr + |got|] == stream[..ptr] + got;
      ptr := ptr + |got|;
      remain := remain - |got|;
    }
  }

  /** Where `read` puts what it got. */
  method Store(buffer: array<Byte>, at: nat, got: seq<Byte>)
    requires at + |got| <= buffer.Length
    modifies buffer
    ensures buffer[..at] == old(buffer[..at]) && buffer[at..at + |got|] == got
    ensures buffer[at + |got|..] == old(buffer[at + |got|..])
    ensures buffer[..at + |got|] == old(buffer[..at]) + got
  {
    forall i | 0 <= i < |got| {
      buffer[at + i] := got[i];
    }
  }

  /** The text of a received message is NUL-terminated in a buffer one byte longer. */
  method ReceiveMsg(pipe: Pipe) returns (buffer: array<Byte>)
    requires Parse(pipe.Stream()).Message?
    modifies pipe
    ensures fresh(buffer) && buffer.Length >= 1 && buffer[buffer.Length - 1] == 0
    ensures Parse(old(pipe.Stream())) == Message(buffer[..buffer.Length - 1], pipe.Stream())
  {
    ghost var stream := pipe.Stream();
    var header := new Byte[4];
    RecvLooped(pipe, header, 4);
    assert header[..] == stream[..4];
    var len := HostOrder(header[..]);
    buffer := new Byte[len + 1];
    buffer[len] := 0;
    assert buffer[len..] == [0];
    RecvLooped(pipe, buffer, len);
    assert buffer[len] == buffer[len..][0] == 0;
    assert stream[4..][..len] == stream[4..4 + len] && stream[4..][len..] == stream[4 + len..];
  }

  lemma FramesAppend(messages: seq<seq<Byte>>, i: nat)
    requires i < |messages|
    ensures Frames(messages[i..]) == Frame(messages[i]) + Frames(messages[i + 1..])
  {
    assert messages[i..][1..] == messages[i + 1..];
  }

  /** A sender's part: the frames of its messages, behind whatever was there. */
  method SendAll(pipe: Pipe, messages: seq<seq<Byte>>)
    requires pipe.coming == []
    modifies pipe
    ensures pipe.Stream() == old(pipe.Stream()) + Frames(messages) && pipe.coming == []
  {
    ghost var goal := pipe.Stream() + Frames(messages);
    var i := 0;
    while i < |messages|
      invariant 0 <= i <= |messages| && pipe.coming == []
      invariant pipe.Stream() + Frames(messages[i..]) == goal
    {
      FramesAppend(messages, i);
      SendMessage(pipe, messages[i]);
      i := i + 1;
    }
  }

  /** A receiver's part, at work while the sender still writes: whatever pieces the writes and reads are
      cut into and however much has arrived, it gets exactly the messages sent, in order. */
  method ReceiveAll(pipe: Pipe, ghost messages: seq<seq<Byte>>, count: nat) returns (received: seq<seq<Byte>>)
    requires Sendable(messages) && count == |messages| && pipe.Stream() == Frames(messages)
    modifies pipe
    ensures received == messages && pipe.Stream() == []
  {
    received := [];
    while |received| < count
      invariant |received| <= count && received == messages[..|received|]
      invariant pipe.Stream() == Frames(messages[|received|..])
    {
      FramesAppend(messages, |received|);
      ParseFrame(messages[|received|], Frames(messages[|received| + 1..]));
      var buffer := ReceiveMsg(pipe);
      received := received + [buffer[..buffer.Length - 1]];
    }
  }
}
