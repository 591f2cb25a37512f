/** The framing of the server's byte stream: frames as `FillPacket` writes them, and the read loop of
    `HandleSocket` that finds them again however the socket cuts the stream
    (server/Server/Server.cs). */
module FrameStream {
  import opened PacketHeader

  datatype Frame = Frame(header: Header, payload: seq<byte>)

  /** The size of the payload that follows a header: none for a size that is zero or negative. */
  function PayloadSize(h: Header): nat {
    if h.packetSize > 0 then h.packetSize as nat else 0
  }

  /** The range of a frame must not end before the buffer: the loop ends with an exception at a size
      below -20. */
  predicate Bounded(h: Header) {
    HEADER_SIZE + h.packetSize as int >= 0
  }

  predicate WellFormed(f: Frame) {
    Bounded(f.header) && |f.payload| == PayloadSize(f.header)
  }

  function FrameBytes(f: Frame): seq<byte> {
    HeaderBytes(f.header) + f.payload
  }

  function StreamBytes(frames: seq<Frame>): seq<byte> {
    if frames == [] then [] else FrameBytes(frames[0]) + StreamBytes(frames[1..])
  }

  /** Does the stream start with a complete frame? */
  predicate HasFrame(s: seq<byte>) {
    |s| >= HEADER_SIZE && Bounded(HeaderOf(s)) && |s| >= HEADER_SIZE + PayloadSize(HeaderOf(s))
  }

  function FirstFrame(s: seq<byte>): Frame
    requires HasFrame(s)
  {
    Frame(HeaderOf(s), s[HEADER_SIZE..HEADER_SIZE + PayloadSize(HeaderOf(s))])
  }

  function AfterFirst(s: seq<byte>): seq<byte>
    requires HasFrame(s)
  {
    s[HEADER_SIZE + PayloadSize(HeaderOf(s))..]
  }

  /** The frames of a stream, up to the first that is not complete or has a size out of bounds. */
  function Frames(s: seq<byte>): seq<Frame> {
    if HasFrame(s) then [FirstFrame(s)] + Frames(AfterFirst(s)) else []
  }

  /** What is left after the last frame that can be read. */
  function Rest(s: seq<byte>): seq<byte> {
    if HasFrame(s) then Rest(AfterFirst(s)) else s
  }

  lemma FirstAndAfter(s: seq<byte>)
    requires HasFrame(s)
    ensures FrameBytes(FirstFrame(s)) + AfterFirst(s) == s && WellFormed(FirstFrame(s))
  {
    HeaderRoundTrip(HeaderOf(s), s);
  }

  /** Nothing is lost: a stream is the bytes of its frames and an incomplete rest. */
  lemma {:induction false} StreamIsItsFrames(s: seq<byte>)
    ensures StreamBytes(Frames(s)) + Rest(s) == s
    ensures !HasFrame(Rest(s))
    ensures forall f :: f in Frames(s) ==> WellFormed(f)
  {
    if HasFrame(s) {
      var t := AfterFirst(s);
      FirstAndAfter(s);
      StreamIsItsFrames(t);
      hide FirstFrame, AfterFirst, FrameBytes;
      assert Frames(s)[1..] == Frames(t);
      assert StreamBytes(Frames(s)) + Rest(s) == FrameBytes(FirstFrame(s)) + (StreamBytes(Frames(t)) + Rest(t));
    } else {
      assert StreamBytes([]) + s == s;
    }
  }

  lemma FrameIsFirst(f: Frame, tail: seq<byte>)
    requires WellFormed(f)
    ensures var s := FrameBytes(f) + tail;
            HasFrame(s) && FirstFrame(s) == f && AfterFirst(s) == tail
  {
    var s := FrameBytes(f) + tail;
    var h := HeaderBytes(f.header);
    assert s[..HEADER_SIZE] == h;
    HeaderRoundTrip(f.header, h);
    assert HeaderOf(s) == HeaderOf(h) by {
      assert s[..16] == h[..16] && s[16] == h[16] && s[17] == h[17] && s[18] == h[18] && s[19] == h[19];
    }
  }

  /** The frames written are the frames read, in order; only a truncated last frame is dropped. */
  lemma {:induction false} FramesAreRecovered(frames: seq<Frame>, tail: seq<byte>)
    requires forall f :: f in frames ==> WellFormed(f)
    requires !HasFrame(tail)
    ensures Frames(StreamBytes(frames) + tail) == frames
    ensures Rest(StreamBytes(frames) + tail) == tail
  {
    if frames == [] {
      assert StreamBytes(frames) + tail == tail;
    } else {
      var f := frames[0];
      assert StreamBytes(frames) + tail == FrameBytes(f) + (StreamBytes(frames[1..]) + tail);
      FrameIsFirst(f, StreamBytes(frames[1..]) + tail);
      FramesAreRecovered(frames[1..], tail);
    }
  }

  /** A proper prefix of a frame is not a frame. */
  lemma TruncatedFrame(f: Frame, n: nat)
    requires WellFormed(f) && n < |FrameBytes(f)|
    ensures !HasFrame(FrameBytes(f)[..n])
  {
    var t := FrameBytes(f)[..n];
    if n >= HEADER_SIZE {
      FrameIsFirst(f, []);
      assert FrameBytes(f) + [] == FrameBytes(f);
      assert t[..16] == FrameBytes(f)[..16];
      assert HeaderOf(t) == HeaderOf(FrameBytes(f));
    }
  }

  lemma SameHeader(a: seq<byte>, b: seq<byte>)
    requires |a| >= HEADER_SIZE && |b| >= HEADER_SIZE && a[..HEADER_SIZE] == b[..HEADER_SIZE]
    ensures HeaderOf(a) == HeaderOf(b)
  {
    assert a[..16] == a[..HEADER_SIZE][..16] == b[..HEADER_SIZE][..16] == b[..16];
    assert forall k :: 0 <= k < HEADER_SIZE ==> a[k] == a[..HEADER_SIZE][k] == b[..HEADER_SIZE][k] == b[k];
  }

  /** Nor is anything that starts with a header of a size out of bounds. */
  lemma UnboundedFrame(h: Header, s: seq<byte>)
    requires !Bounded(h)
    ensures !HasFrame(HeaderBytes(h) + s)
  {
    var b := HeaderBytes(h);
    HeaderRoundTrip(h, b);
    SameHeader(b + s, b);
  }

  // ---------------------------------------------------------------- the socket and the read loop

  function Flatten(chunks: seq<seq<byte>>): seq<byte> {
    if chunks == [] then [] else chunks[0] + Flatten(chunks[1..])
  }

  /** The receiving end of a connection: the bytes still to arrive, cut as the network delivers them. */
  class Socket {
    var chunks: seq<seq<byte>>

    constructor (chunks: seq<seq<byte>>)
      ensures this.chunks == chunks
    {
      this.chunks := chunks;
    }

    predicate Valid()
      reads this
    {
      forall i :: 0 <= i < |chunks| ==> chunks[i] != []
    }

    function Stream(): seq<byte>
      reads this
    {
      Flatten(chunks)
    }

    /** `ReceiveAsync` into `mem[lo..hi]`: at least one byte while the peer is connected, else zero. */
    method Receive(mem: array<byte>, lo: nat, hi: nat) returns (size: nat)
      requires Valid() && lo < hi <= mem.Length
      modifies this, mem
      ensures Valid() && size <= hi - lo && size <= |old(Stream())|
      ensures size == 0 <==> old(Stream()) == []
      ensures Stream() == old(Stream())[size..]
      ensures mem[..] == Splice(old(mem[..]), lo, old(Stream())[..size])
    {
      if chunks == [] {
        EmptySplice(mem[..], lo);
        assert Stream()[..0] == [];
        return 0;
      }
      var c := chunks[0];
      size := if |c| <= hi - lo then |c| else hi - lo;
      Write(mem, lo, c[..size]);
      assert old(Stream()) == c + Flatten(chunks[1..]);
      if size == |c| {
        chunks := chunks[1..];
      } else {
        chunks := [c[size..]] + chunks[1..];
        assert chunks[1..] == old(chunks)[1..];
        assert Stream() == c[size..] + Flatten(old(chunks)[1..]);
      }
    }
  }

  /** The nested `Read`: fills `readMem[readOffset..readOffset + readSize]`, or fails on a disconnect. */
  method Read(socket: Socket, readMem: array<byte>, readSize: nat, readOffset: nat) returns (ok: bool)
    requires socket.Valid() && readOffset + readSize <= readMem.Length
    modifies socket, readMem
    ensures socket.Valid()
    ensures ok <==> readSize <= |old(socket.Stream())|
    ensures ok ==> socket.Stream() == old(socket.Stream())[readSize..]
    ensures ok ==> readMem[..] == Splice(old(readMem[..]), readOffset, old(socket.Stream())[..readSize])
  {
    hide Splice;
    ghost var stream, before := socket.Stream(), readMem[..];
    EmptySplice(before, readOffset);
    var offset, end := readOffset, readOffset + readSize;
    while offset < end
      invariant readOffset <= offset <= end && socket.Valid()
      invariant offset - readOffset <= |stream|
      invariant socket.Stream() == stream[offset - readOffset..]
      invariant readMem[..] == Splice(before, readOffset, stream[..offset - readOffset])
    {
      ghost var got := offset - readOffset;
      var size := socket.Receive(readMem, offset, end);
      if size == 0 {
        return false;
      }
      AdjacentSplices(before, readOffset, stream[..got], stream[got..][..size]);
      assert stream[..got] + stream[got..][..size] == stream[..got + size];
      offset := offset + size;
    }
    return true;
  }

  /** `MemoryPool.Rent`: a buffer of at least the size asked for. */
  method Rent(size: nat) returns (memory: array<byte>)
    ensures fresh(memory) && memory.Length >= size
  {
    memory := new byte[size](_ => 0);
  }

  /** `FillPacket`. */
  method FillPacket(header: Header, packet: seq<byte>, memory: array<byte>)
    requires HEADER_SIZE + |packet| <= memory.Length
    modifies memory
    ensures memory[..HEADER_SIZE + |packet|] == FrameBytes(Frame(header, packet))
  {
    Serialize(header, memory, 0);
    Write(memory, HEADER_SIZE, packet);
  }

  /** One turn of the read loop of `HandleSocket`: a frame, or the end of the session. */
  method ReadFrame(socket: Socket) returns (ok: bool, frame: Frame)
    requires socket.Valid()
    modifies socket
    ensures socket.Valid()
    ensures ok <==> HasFrame(old(socket.Stream()))
    ensures ok ==> frame == FirstFrame(old(socket.Stream())) && socket.Stream() == AfterFirst(old(socket.Stream()))
  {
    frame := Frame(Header(EMPTY, 0, 0), []);
    ghost var stream := socket.Stream();
    var memory := Rent(HEADER_SIZE);
    ok := Read(socket, memory, HEADER_SIZE, 0);
    if !ok {
      assert !HasFrame(stream);
      return;
    }
    var header := Deserialize(memory);
    assert memory[..HEADER_SIZE] == stream[..HEADER_SIZE];
    SameHeader(memory[..], stream);
    ghost var rest := socket.Stream();
    HeaderThenPayload(stream, rest);
    hide HasFrame, FirstFrame, AfterFirst, HeaderOf;
    if HEADER_SIZE + header.packetSize as int < 0 {
      return false, frame;
    }
    frame := Frame(header, []);
    assert rest[..0] == [] && rest[0..] == rest;
    if header.packetSize > 0 {
      var size := header.packetSize as nat;
      var memTemp := memory;
      memory := Rent(HEADER_SIZE + size);
      Write(memory, 0, memTemp[..HEADER_SIZE]);
      ok := Read(socket, memory, size, HEADER_SIZE);
      if !ok {
        return;
      }
      frame := Frame(header, memory[HEADER_SIZE..HEADER_SIZE + size]);
      assert frame.payload == rest[..size];
    }
  }

  /** The first frame, by what the two reads bring. */
  lemma HeaderThenPayload(s: seq<byte>, rest: seq<byte>)
    requires |s| >= HEADER_SIZE && rest == s[HEADER_SIZE..]
    ensures HasFrame(s) <==> Bounded(HeaderOf(s)) && PayloadSize(HeaderOf(s)) <= |rest|
    ensures HasFrame(s) ==> FirstFrame(s) == Frame(HeaderOf(s), rest[..PayloadSize(HeaderOf(s))])
    ensures HasFrame(s) ==> AfterFirst(s) == rest[PayloadSize(HeaderOf(s))..]
  {
    hide HeaderOf, PayloadSize, Bounded;
  }

  /** The read loop to its end: the frames found do not depend on how the bytes were cut. */
  method ReadFrames(socket: Socket) returns (frames: seq<Frame>)
    requires socket.Valid()
    modifies socket
    ensures frames == Frames(old(socket.Stream()))
  {
    frames := [];
    var ok := true;
    while ok
      invariant socket.Valid()
      invariant ok ==> Frames(old(socket.Stream())) == frames + Frames(socket.Stream())
      invariant !ok ==> Frames(old(socket.Stream())) == frames
      decreases ok, |socket.Stream()|
    {
      var frame;
      ok, frame := ReadFrame(socket);
      if ok {
        frames := frames + [frame];
      }
    }
  }

  /** End to end: frames written by `FillPacket`, whatever follows them that is not a frame, any cut. */
  method Reassemble(frames: seq<Frame>, tail: seq<byte>, chunks: seq<seq<byte>>) returns (read: seq<Frame>)
    requires forall f :: f in frames ==> WellFormed(f)
    requires !HasFrame(tail)
    requires forall i :: 0 <= i < |chunks| ==> chunks[i] != []
    requires Flatten(chunks) == StreamBytes(frames) + tail
    ensures read == frames
  {
    var socket := new Socket(chunks);
    read := ReadFrames(socket);
    FramesAreRecovered(frames, tail);
  }
}
