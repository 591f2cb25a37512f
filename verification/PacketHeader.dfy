/** The 20-byte header of a frame (server/Shared/Packet/PacketHeader.cs). */
module PacketHeader {

  newtype byte = x: int | 0 <= x < 0x100
  newtype int16 = x: int | -0x8000 <= x < 0x8000

  const HEADER_SIZE: nat := 20

  /** The sixteen bytes of a `Guid` in memory order. */
  type Guid = g: seq<byte> | |g| == 16 witness [0, 0, 0, 0, 0, 0, 0, 0, 0, 0, 0, 0, 0, 0, 0, 0]

  const EMPTY: Guid := [0, 0, 0, 0, 0, 0, 0, 0, 0, 0, 0, 0, 0, 0, 0, 0]

  datatype Header = Header(id: Guid, packetType: int16, packetSize: int16)

  /** A `short` in memory: two's complement, low byte first. */
  function Int16Bytes(v: int16): seq<byte> {
    var u := if v < 0 then v as int + 0x1_0000 else v as int;
    [(u % 0x100) as byte, (u / 0x100) as byte]
  }

  function Int16Of(lo: byte, hi: byte): int16 {
    var u := lo as int + 0x100 * hi as int;
    if u < 0x8000 then u as int16 else (u - 0x1_0000) as int16
  }

  function HeaderBytes(h: Header): (b: seq<byte>)
    ensures |b| == HEADER_SIZE
  {
    h.id + Int16Bytes(h.packetType) + Int16Bytes(h.packetSize)
  }

  function HeaderOf(b: seq<byte>): Header
    requires |b| >= HEADER_SIZE
  {
    Header(b[..16], Int16Of(b[16], b[17]), Int16Of(b[18], b[19]))
  }

  lemma Int16RoundTrip(v: int16, lo: byte, hi: byte)
    ensures Int16Of(Int16Bytes(v)[0], Int16Bytes(v)[1]) == v
    ensures Int16Bytes(Int16Of(lo, hi)) == [lo, hi]
  {
  }

  /** Reading is the inverse of writing, both ways round. */
  lemma HeaderRoundTrip(h: Header, b: seq<byte>)
    requires |b| >= HEADER_SIZE
    ensures HeaderOf(HeaderBytes(h)) == h
    ensures HeaderBytes(HeaderOf(b)) == b[..HEADER_SIZE]
  {
    Int16RoundTrip(h.packetType, b[16], b[17]);
    Int16RoundTrip(h.packetSize, b[18], b[19]);
    assert HeaderBytes(h)[..16] == h.id;
    assert b[..HEADER_SIZE] == b[..16] + [b[16], b[17]] + [b[18], b[19]];
  }

  /** The two bytes from `at` are this number, low byte first, as two's complement. */
  predicate IsShortAt(b: seq<byte>, at: nat, v: int16)
    requires at + 2 <= |b|
  {
    (b[at] as int + 0x100 * b[at + 1] as int - v as int) % 0x1_0000 == 0
  }

  /** The fields of a header at their offsets: sixteen bytes of id, then the type, then the size. */
  predicate LiesAt(b: seq<byte>, at: nat, h: Header)
    requires at + HEADER_SIZE <= |b|
  {
    b[at..at + 16] == h.id && IsShortAt(b, at + 16, h.packetType) && IsShortAt(b, at + 18, h.packetSize)
  }

  lemma ShortIff(lo: byte, hi: byte, v: int16)
    ensures IsShortAt([lo, hi], 0, v) <==> Int16Of(lo, hi) == v
    ensures IsShortAt(Int16Bytes(v), 0, v)
  {
  }

  /** The header read from some bytes is the one whose fields lie at the offsets, and the bytes written for
      a header are the ones in which they do. */
  lemma LayoutIff(h: Header, b: seq<byte>)
    requires |b| >= HEADER_SIZE
    ensures HeaderOf(b) == h <==> LiesAt(b, 0, h)
    ensures HeaderBytes(h) == b[..HEADER_SIZE] <==> LiesAt(b, 0, h)
  {
    ShortIff(b[16], b[17], h.packetType);
    ShortIff(b[18], b[19], h.packetSize);
    hide Int16Of, Int16Bytes;
    HeaderRoundTrip(h, b);
    HeaderRoundTrip(HeaderOf(b), HeaderBytes(h));
    assert HeaderBytes(h) == b[..HEADER_SIZE] ==> HeaderOf(b) == HeaderOf(HeaderBytes(h)) by {
      SameHeader(b);
    }
  }

  lemma SameHeader(b: seq<byte>)
    requires |b| >= HEADER_SIZE
    ensures HeaderOf(b) == HeaderOf(b[..HEADER_SIZE])
  {
    assert b[..HEADER_SIZE][..16] == b[..16];
  }

  /** The same of bytes written into the middle of a sequence. */
  lemma LayoutInPlace(s: seq<byte>, at: nat, h: Header)
    requires at + HEADER_SIZE <= |s|
    ensures LiesAt(Splice(s, at, HeaderBytes(h)), at, h)
  {
    var b, r := HeaderBytes(h), Splice(s, at, HeaderBytes(h));
    LayoutIff(h, b);
    hide HeaderBytes;
    assert b[..HEADER_SIZE] == b && forall i :: 0 <= i < HEADER_SIZE ==> r[at + i] == b[i];
    assert r[at..at + 16] == b[..16];
  }

  /** A sequence with `bytes` written over it from `at`. */
  function Splice(s: seq<byte>, at: nat, bytes: seq<byte>): (r: seq<byte>)
    requires at + |bytes| <= |s|
    ensures |r| == |s|
  {
    s[..at] + bytes + s[at + |bytes|..]
  }

  lemma EmptySplice(s: seq<byte>, at: nat)
    requires at <= |s|
    ensures Splice(s, at, []) == s
  {
  }

  lemma SpliceEnds(s: seq<byte>, at: nat, bytes: seq<byte>)
    requires at + |bytes| <= |s|
    ensures Splice(s, at, bytes[..0]) == s && bytes[..|bytes|] == bytes
  {
  }

  /** One byte more is one more element written. */
  lemma SpliceNext(s: seq<byte>, at: nat, bytes: seq<byte>, i: nat)
    requires at + |bytes| <= |s| && i < |bytes|
    ensures Splice(s, at, bytes[..i + 1]) == Splice(s, at, bytes[..i])[at + i := bytes[i]]
  {
  }

  lemma AdjacentSplices(s: seq<byte>, at: nat, a: seq<byte>, b: seq<byte>)
    requires at + |a| + |b| <= |s|
    ensures Splice(Splice(s, at, a), at + |a|, b) == Splice(s, at, a + b)
  {
  }

  /** `Serialize` into a span starting at `at`. */
  method Serialize(h: Header, data: array<byte>, at: nat)
    requires at + HEADER_SIZE <= data.Length
    modifies data
    ensures data[..] == Splice(old(data[..]), at, HeaderBytes(h)) && LiesAt(data[..], at, h)
  {
    LayoutInPlace(data[..], at, h);
    AdjacentSplices(data[..], at, h.id, Int16Bytes(h.packetType));
    AdjacentSplices(data[..], at, h.id + Int16Bytes(h.packetType), Int16Bytes(h.packetSize));
    Write(data, at, h.id);
    Write(data, at + 16, Int16Bytes(h.packetType));
    Write(data, at + 18, Int16Bytes(h.packetSize));
  }

  /** `MemoryMarshal.Write`, or a copy between spans. */
  method Write(data: array<byte>, at: nat, bytes: seq<byte>)
    requires at + |bytes| <= data.Length
    modifies data
    ensures data[..] == Splice(old(data[..]), at, bytes)
  {
    ghost var was := data[..];
    SpliceEnds(was, at, bytes);
    hide Splice;
    for i := 0 to |bytes|
      invariant data[..] == Splice(was, at, bytes[..i])
    {
      SpliceNext(was, at, bytes, i);
      ghost var now := data[..];
      data[at + i] := bytes[i];
      assert data[..] == now[at + i := bytes[i]];
    }
  }

  /** `Deserialize`. */
  method Deserialize(data: array<byte>) returns (h: Header)
    requires HEADER_SIZE <= data.Length
    ensures h == HeaderOf(data[..]) && LiesAt(data[..], 0, h)
  {
    LayoutIff(HeaderOf(data[..]), data[..]);
    h := Header(data[..16], Int16Of(data[16], data[17]), Int16Of(data[18], data[19]));
  }
}
