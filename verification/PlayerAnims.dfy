/** Animation and capture names as numbers: looked up by hash at the sender, sent as an `int32`,
    and looked up by position at the receiver (mod/src/algorithms/PlayerAnims.h,
    mod/src/algorithms/CaptureTypes.h, mod/src/packets/Packet.cpp, mod/src/server/Client.cpp). */
module PlayerAnims {
  import opened Crc32
  import opened HashIndex

  newtype s16 = x: int | -0x8000 <= x < 0x8000
  newtype u16 = x: int | 0 <= x < 0x1_0000
  newtype s32 = x: int | -0x8000_0000 <= x < 0x8000_0000

  /** `Type::Unknown`. */
  const UNKNOWN: s16 := -1

  /** "Wait". */
  const WAIT: Str := [0x57, 0x61, 0x69, 0x74]

  /** Conversion to `uint16_t` keeps the low sixteen bits. */
  function NarrowToU16(v: int): u16 {
    (v % 0x1_0000) as u16
  }

  /** `ToType`: the enumeration's underlying type is a signed sixteen-bit number. */
  function ToType(value: u16): s16 {
    if value as int < 0x8000 then value as s16 else (value as int - 0x1_0000) as s16
  }

  /** `packets::convert` to the wire: sign extension. */
  function ToWire(t: s16): s32 {
    t as s32
  }

  /** `packets::convert` from the wire: truncation. */
  function FromWire(v: s32): s16 {
    ToType(NarrowToU16(v as int))
  }

  /** `FindStr`. */
  function FindStr(strings: seq<Str>, t: s16): Str {
    if 0 <= t && (t as int) < |strings| then strings[t as int] else []
  }

  /** The choice of `updatePlayerInfo`: a fallback for `Unknown`, else the name at that position. */
  function NameFromWire(strings: seq<Str>, v: s32, fallback: Str): Str {
    if FromWire(v) != UNKNOWN then FindStr(strings, FromWire(v)) else fallback
  }

  /** `FindType`. */
  method FindType(hashes: HashArray, str: Str, signedChar: bool) returns (t: s16)
    requires hashes.Valid()
    ensures exists r :: IsIndexOf(hashes.strings, Hash(str), r) && t == ToType(NarrowToU16(r))
  {
    var r := hashes.FindIndex(str, signedChar);
    t := ToType(NarrowToU16(r));
  }

  /** A value that is a type comes back from the wire as that type. */
  lemma WireRoundTrip(t: s16)
    ensures FromWire(ToWire(t)) == t
  {
    if t < 0 {
      assert (t as int + 0x1_0000) % 0x1_0000 == t as int + 0x1_0000;
      assert t as int % 0x1_0000 == t as int + 0x1_0000;
    }
  }

  /** With pairwise distinct hashes the index of an entry is its position. */
  lemma IndexOfEntry(strings: seq<Str>, i: nat, r: int)
    requires i < |strings| && IsIndexOf(strings, Hash(strings[i]), r)
    requires forall j, k :: 0 <= j < |strings| && 0 <= k < |strings| && Hash(strings[j]) == Hash(strings[k]) ==> j == k
    ensures r == i
  {
  }

  /** What becomes of a name between the sender and the puppet: a name whose hash is in the table
      arrives as the entry that has it, any other name as the fallback. */
  lemma NameOverTheWire(strings: seq<Str>, name: Str, r: int, fallback: Str)
    requires |strings| <= 0x7fff
    requires IsIndexOf(strings, Hash(name), r)
    ensures var received := NameFromWire(strings, ToWire(ToType(NarrowToU16(r))), fallback);
            if r == -1 then received == fallback else received == strings[r]
  {
    WireRoundTrip(ToType(NarrowToU16(r)));
  }

  /** A name survives exactly when it is in the table, or is the fallback itself and has no entry's hash. */
  lemma NameSurvives(strings: seq<Str>, name: Str, r: int, fallback: Str)
    requires |strings| <= 0x7fff && NoCollisions(strings)
    requires IsIndexOf(strings, Hash(name), r)
    ensures NameFromWire(strings, ToWire(ToType(NarrowToU16(r))), fallback) == name
            <==> name in strings
                 || (name == fallback && forall i :: 0 <= i < |strings| ==> Hash(strings[i]) != Hash(name))
  {
    NameOverTheWire(strings, name, r, fallback);
    if name in strings {
      var i :| 0 <= i < |strings| && strings[i] == name;
      assert Hash(strings[i]) == Hash(name);
    }
  }

  /** An unknown action arrives as "Wait", an unknown sub-action as the empty string. */
  lemma UnknownNames(strings: seq<Str>, name: Str, r: int)
    requires |strings| <= 0x7fff && IsIndexOf(strings, Hash(name), r)
    requires forall i :: 0 <= i < |strings| ==> Hash(strings[i]) != Hash(name)
    ensures NameFromWire(strings, ToWire(ToType(NarrowToU16(r))), WAIT) == WAIT
    ensures NameFromWire(strings, ToWire(ToType(NarrowToU16(r))), []) == []
  {
    NameOverTheWire(strings, name, r, WAIT);
    NameOverTheWire(strings, name, r, []);
  }

  /** A name that is not in the table is never taken for an entry of its own length from which it
      differs within four consecutive bytes only. */
  lemma NearMissIsNotTaken(strings: seq<Str>, name: Str, r: int, i: nat, at: nat)
    requires IsIndexOf(strings, Hash(name), r) && i < |strings|
    requires |strings[i]| == |name| && strings[i] != name && at <= |name|
    requires forall k :: 0 <= k < |name| && !(at <= k < at + 4) ==> strings[i][k] == name[k]
    ensures r != i
  {
    hide CrcOf, Hash;
    SameHash(strings[i], name);
    NoCollisionWithinFourBytes(strings[i], name, at);
  }
}
