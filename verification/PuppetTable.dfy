/** The mod's table of other players: a fixed array of slots, found by player id and reused
    (mod/src/server/Client.cpp, mod/src/puppets/PuppetInfo.h). */
module PuppetTable {
  import opened PacketHeader
  import Crc32
  import HashIndex
  import PlayerAnims

  type Str = Crc32.Str
  type Uid = Guid

  /** `PuppetInfo`, without positions, rotations and weights. */
  datatype Slot = Slot(
    id: Uid, connected: bool, name: Str,
    scenarioNo: nat, stageName: Str, inSameStage: bool,
    anim: Str, subAnim: Str,
    captured: bool, hack: Str, capThrow: bool)

  /** A slot as constructed; the scenario is a `u8` initialised with -1. */
  const FRESH_SLOT := Slot(EMPTY, false, [], 255, [], false, [], [], false, [], false)

  datatype Packet =
    | Connect(id: Uid, name: Str)
    | Disconnect(id: Uid)
    | PlayerInf(id: Uid, act: PlayerAnims.s32, subAct: PlayerAnims.s32)
    | HackCapInf(id: Uid, visible: bool)
    | CaptureInf(id: Uid, hackName: Str)

  /** The slots in use, `mPuppetInfoArr[..maxPuppets]`, and `mConnectCount`. */
  datatype Table = Table(slots: seq<Slot>, connectCount: int)

  /** "Puppet" and the number of the slot. */
  function PuppetName(i: nat): Str {
    [0x50, 0x75, 0x70, 0x70, 0x65, 0x74] + Digits(i)
  }

  /** The decimal digits, "0" to "9". */
  const DIGITS: Str := [0x30, 0x31, 0x32, 0x33, 0x34, 0x35, 0x36, 0x37, 0x38, 0x39]

  function Digits(i: nat): Str {
    (if i < 10 then [] else Digits(i / 10)) + [DIGITS[i % 10]]
  }

  function ValueOf(digit: bv8): nat {
    match digit
    case 0x31 => 1
    case 0x32 => 2
    case 0x33 => 3
    case 0x34 => 4
    case 0x35 => 5
    case 0x36 => 6
    case 0x37 => 7
    case 0x38 => 8
    case 0x39 => 9
    case _ => 0
  }

  /** The number that some decimal digits denote. */
  function NumberOf(digits: Str): nat {
    if digits == [] then 0 else 10 * NumberOf(digits[..|digits| - 1]) + ValueOf(digits[|digits| - 1])
  }

  lemma DigitIs(d: nat)
    requires d < 10
    ensures ValueOf(DIGITS[d]) == d
  {
  }

  lemma NumberOfMore(digits: Str, digit: bv8)
    ensures NumberOf(digits + [digit]) == 10 * NumberOf(digits) + ValueOf(digit)
  {
    assert (digits + [digit])[..|digits|] == digits;
  }

  /** The digits of a number denote it, so no two slots start with the same name. */
  lemma {:induction false} DigitsDenote(i: nat)
    ensures NumberOf(Digits(i)) == i
  {
    DigitIs(i % 10);
    hide ValueOf, NumberOf;
    if i >= 10 {
      DigitsDenote(i / 10);
      NumberOfMore(Digits(i / 10), DIGITS[i % 10]);
    } else {
      NumberOfMore([], DIGITS[i % 10]);
      NumberOfNone([]);
    }
  }

  lemma NumberOfNone(digits: Str)
    requires digits == []
    ensures NumberOf(digits) == 0
  {
  }

  lemma PuppetNamesDiffer(i: nat, j: nat)
    requires PuppetName(i) == PuppetName(j)
    ensures i == j
  {
    DigitsDenote(i);
    DigitsDenote(j);
    assert PuppetName(i)[6..] == Digits(i) && PuppetName(j)[6..] == Digits(j);
  }

  function FreshSlot(i: nat): Slot {
    FRESH_SLOT.(name := PuppetName(i))
  }

  function FreshTable(maxPuppets: nat): (t: Table)
    ensures |t.slots| == maxPuppets && forall i :: 0 <= i < maxPuppets ==> t.slots[i] == FreshSlot(i)
  {
    Table(seq(maxPuppets, i requires 0 <= i => FreshSlot(i)), 0)
  }

  // ---------------------------------------------------------------- the lookup

  /** The first slot with this id, or -1. */
  function SlotOf(slots: seq<Slot>, id: Uid): (k: int)
    ensures -1 <= k < |slots|
    ensures k >= 0 ==> slots[k].id == id && forall j :: 0 <= j < k ==> slots[j].id != id
    ensures k < 0 ==> forall j :: 0 <= j < |slots| ==> slots[j].id != id
  {
    if slots == [] then -1
    else if slots[0].id == id then 0
    else
      var k := SlotOf(slots[1..], id);
      assert forall j :: 1 <= j < |slots| ==> slots[j] == slots[1..][j - 1];
      if k < 0 then -1 else k + 1
  }

  /** The first slot nobody is connected in, or -1. */
  function FreeSlot(slots: seq<Slot>): (k: int)
    ensures -1 <= k < |slots|
    ensures k >= 0 ==> !slots[k].connected && forall j :: 0 <= j < k ==> slots[j].connected
    ensures k < 0 ==> forall j :: 0 <= j < |slots| ==> slots[j].connected
  {
    if slots == [] then -1
    else if !slots[0].connected then 0
    else
      var k := FreeSlot(slots[1..]);
      assert forall j :: 1 <= j < |slots| ==> slots[j] == slots[1..][j - 1];
      if k < 0 then -1 else k + 1
  }

  /** `findPuppetInfo`. */
  function FindPuppet(slots: seq<Slot>, id: Uid, isFindAvailable: bool): (k: int)
    ensures -1 <= k < |slots|
  {
    if SlotOf(slots, id) >= 0 then SlotOf(slots, id)
    else if isFindAvailable then FreeSlot(slots) else -1
  }

  /** The lookup, by what a pass over the slots has seen. */
  lemma FoundById(slots: seq<Slot>, id: Uid, isFindAvailable: bool, k: nat)
    requires k < |slots| && slots[k].id == id && forall j :: 0 <= j < k ==> slots[j].id != id
    ensures FindPuppet(slots, id, isFindAvailable) == k
  {
  }

  lemma FoundFree(slots: seq<Slot>, id: Uid, isFindAvailable: bool, free: int)
    requires -1 <= free < |slots| && forall j :: 0 <= j < |slots| ==> slots[j].id != id
    requires free >= 0 ==> isFindAvailable && !slots[free].connected
    requires isFindAvailable ==> forall j :: 0 <= j < (if free < 0 then |slots| else free) ==> slots[j].connected
    ensures FindPuppet(slots, id, isFindAvailable) == free
  {
  }

  // ---------------------------------------------------------------- the receivers

  function Joined(s: Slot, id: Uid, name: Str): Slot {
    s.(id := id, connected := true, name := name)
  }

  function Left(s: Slot): Slot {
    s.(connected := false, scenarioNo := 255, stageName := [], inSameStage := false)
  }

  function Moved(s: Slot, strings: seq<Str>, act: PlayerAnims.s32, subAct: PlayerAnims.s32): Slot {
    s.(connected := true,
       anim := PlayerAnims.NameFromWire(strings, act, PlayerAnims.WAIT),
       subAnim := PlayerAnims.NameFromWire(strings, subAct, []))
  }

  function Captured(s: Slot, hackName: Str): Slot {
    if hackName != [] then s.(captured := true, hack := hackName) else s.(captured := false)
  }

  /** The table after a packet; `strings` is the table of animation names. */
  function Receive(t: Table, p: Packet, strings: seq<Str>): (r: Table)
    ensures |r.slots| == |t.slots|
  {
    var k := FindPuppet(t.slots, p.id, p.Connect?);
    if k < 0 then t
    else
      var s := t.slots[k];
      match p
      case Connect(id, name) =>
        if s.connected then t else Table(t.slots[k := Joined(s, id, name)], t.connectCount + 1)
      case Disconnect(_) =>
        if !s.connected then t else Table(t.slots[k := Left(s)], t.connectCount - 1)
      case PlayerInf(_, act, subAct) => t.(slots := t.slots[k := Moved(s, strings, act, subAct)])
      case HackCapInf(_, visible) => t.(slots := t.slots[k := s.(capThrow := visible)])
      case CaptureInf(_, hackName) => t.(slots := t.slots[k := Captured(s, hackName)])
  }

  function ReceiveAll(t: Table, packets: seq<Packet>, strings: seq<Str>): (r: Table)
    ensures |r.slots| == |t.slots|
    decreases |packets|
  {
    if packets == [] then t
    else Receive(ReceiveAll(t, packets[..|packets| - 1], strings), packets[|packets| - 1], strings)
  }

  /** The packets of two streams, one after the other. */
  lemma {:induction false} ReceiveConcat(t: Table, a: seq<Packet>, b: seq<Packet>, strings: seq<Str>)
    ensures ReceiveAll(t, a + b, strings) == ReceiveAll(ReceiveAll(t, a, strings), b, strings)
    decreases |b|
  {
    if b == [] {
      assert a + b == a;
    } else {
      var last := |b| - 1;
      assert (a + b)[..|a + b| - 1] == a + b[..last];
      ReceiveConcat(t, a, b[..last], strings);
    }
  }

  lemma ReceiveOne(t: Table, p: Packet, strings: seq<Str>)
    ensures ReceiveAll(t, [p], strings) == Receive(t, p, strings)
  {
    assert [p][..0] == [];
  }

  // ---------------------------------------------------------------- a partial map

  predicate DistinctIds(slots: seq<Slot>) {
    forall i, j :: 0 <= i < j < |slots| && slots[i].id != EMPTY ==> slots[i].id != slots[j].id
  }

  function CountConnected(slots: seq<Slot>): nat {
    if slots == [] then 0 else (if slots[0].connected then 1 else 0) + CountConnected(slots[1..])
  }

  /** A PlayerInf packet for a known player that is not connected marks it as connected, uncounted. */
  predicate Revives(t: Table, p: Packet) {
    p.PlayerInf? && SlotOf(t.slots, p.id) >= 0 && !t.slots[SlotOf(t.slots, p.id)].connected
  }

  /** The packet changes who is connected: a player is seated, taken off or revived. */
  predicate Upsets(t: Table, p: Packet) {
    var k := FindPuppet(t.slots, p.id, p.Connect?);
    k >= 0 && match p
              case Connect(_, _) => !t.slots[k].connected
              case Disconnect(_) => t.slots[k].connected
              case PlayerInf(_, _, _) => !t.slots[k].connected
              case _ => false
  }

  function Revivals(t: Table, packets: seq<Packet>, strings: seq<Str>): nat
    decreases |packets|
  {
    if packets == [] then 0
    else
      var before := packets[..|packets| - 1];
      Revivals(t, before, strings)
      + if Revives(ReceiveAll(t, before, strings), packets[|packets| - 1]) then 1 else 0
  }

  lemma {:induction false} CountOfUpdate(slots: seq<Slot>, k: nat, s: Slot)
    requires k < |slots|
    ensures CountConnected(slots[k := s])
            == CountConnected(slots) + (if s.connected then 1 else 0) - (if slots[k].connected then 1 else 0)
  {
    if k > 0 {
      assert slots[k := s][1..] == slots[1..][k - 1 := s];
      CountOfUpdate(slots[1..], k - 1, s);
    } else {
      assert slots[k := s][1..] == slots[1..];
    }
  }

  /** One packet: the ids stay distinct, a connected slot keeps its id, and the count follows. */
  lemma ReceiveKeepsMap(t: Table, p: Packet, strings: seq<Str>)
    requires DistinctIds(t.slots)
    ensures var r := Receive(t, p, strings);
            && DistinctIds(r.slots)
            && (forall k :: 0 <= k < |t.slots| && t.slots[k].connected ==> r.slots[k].id == t.slots[k].id)
            && CountConnected(r.slots) - r.connectCount
               == CountConnected(t.slots) - t.connectCount + (if Revives(t, p) then 1 else 0)
  {
    var r := Receive(t, p, strings);
    var k := FindPuppet(t.slots, p.id, p.Connect?);
    if r != t {
      CountOfUpdate(t.slots, k, r.slots[k]);
    }
  }

  lemma {:induction false} NobodyConnected(slots: seq<Slot>)
    requires forall i :: 0 <= i < |slots| ==> !slots[i].connected
    ensures CountConnected(slots) == 0
  {
    if slots != [] {
      NobodyConnected(slots[1..]);
    }
  }

  lemma FreshIsEmpty(n: nat)
    ensures CountConnected(FreshTable(n).slots) == 0
  {
    NobodyConnected(FreshTable(n).slots);
  }

  /** Over every run of packets from a fresh table: the non-empty ids stay pairwise distinct, and the
      connected slots number `mConnectCount` plus the revivals. */
  lemma {:induction false} TableIsAPartialMap(maxPuppets: nat, packets: seq<Packet>, strings: seq<Str>)
    ensures var t := ReceiveAll(FreshTable(maxPuppets), packets, strings);
            && DistinctIds(t.slots)
            && CountConnected(t.slots) == t.connectCount + Revivals(FreshTable(maxPuppets), packets, strings)
    decreases |packets|
  {
    if packets == [] {
      FreshIsEmpty(maxPuppets);
    } else {
      var before := packets[..|packets| - 1];
      TableIsAPartialMap(maxPuppets, before, strings);
      ReceiveKeepsMap(ReceiveAll(FreshTable(maxPuppets), before, strings), packets[|packets| - 1], strings);
    }
  }

  /** The table after the first `n` packets of a run. */
  function TableAfter(maxPuppets: nat, packets: seq<Packet>, strings: seq<Str>, n: nat): (t: Table)
    requires n <= |packets|
    ensures |t.slots| == maxPuppets
  {
    ReceiveAll(FreshTable(maxPuppets), packets[..n], strings)
  }

  /** Over any stretch of a run a slot that stays connected stays with its player. */
  lemma {:induction false} ConnectedSlotKeepsItsPlayer(
      maxPuppets: nat, packets: seq<Packet>, strings: seq<Str>, k: nat, i: nat, j: nat)
    requires k < maxPuppets && i <= j <= |packets|
    requires forall n :: i <= n < j ==> TableAfter(maxPuppets, packets, strings, n).slots[k].connected
    ensures TableAfter(maxPuppets, packets, strings, j).slots[k].id
            == TableAfter(maxPuppets, packets, strings, i).slots[k].id
    decreases j
  {
    if i < j {
      ConnectedSlotKeepsItsPlayer(maxPuppets, packets, strings, k, i, j - 1);
      TableIsAPartialMap(maxPuppets, packets[..j - 1], strings);
      TableNext(maxPuppets, packets, strings, j - 1);
      hide Receive, ReceiveAll, DistinctIds, CountConnected;
      ReceiveKeepsMap(TableAfter(maxPuppets, packets, strings, j - 1), packets[j - 1], strings);
    }
  }

  /** A Connect of another player takes slot `k`. */
  predicate GivesAway(t: Table, p: Packet, id: Uid, k: nat) {
    p.Connect? && p.id != id && FindPuppet(t.slots, p.id, true) == k
  }

  lemma KeepsSlotId(t: Table, p: Packet, id: Uid, k: nat, strings: seq<Str>)
    requires k < |t.slots| && t.slots[k].id == id && !GivesAway(t, p, id, k)
    ensures Receive(t, p, strings).slots[k].id == id
  {
  }

  lemma TableNext(maxPuppets: nat, packets: seq<Packet>, strings: seq<Str>, n: nat)
    requires n < |packets|
    ensures TableAfter(maxPuppets, packets, strings, n + 1)
            == Receive(TableAfter(maxPuppets, packets, strings, n), packets[n], strings)
  {
    assert packets[..n + 1][..n] == packets[..n];
  }

  /** A slot keeps its id as long as it is not given away. */
  lemma {:induction false} SlotStaysAssigned(
      maxPuppets: nat, packets: seq<Packet>, strings: seq<Str>, k: nat, id: Uid, i: nat, j: nat)
    requires k < maxPuppets && i <= j <= |packets|
    requires TableAfter(maxPuppets, packets, strings, i).slots[k].id == id
    requires forall n :: i <= n < j ==> !GivesAway(TableAfter(maxPuppets, packets, strings, n), packets[n], id, k)
    ensures TableAfter(maxPuppets, packets, strings, j).slots[k].id == id
    decreases j
  {
    hide *;
    if i < j {
      SlotStaysAssigned(maxPuppets, packets, strings, k, id, i, j - 1);
      TableNext(maxPuppets, packets, strings, j - 1);
      KeepsSlotId(TableAfter(maxPuppets, packets, strings, j - 1), packets[j - 1], id, k, strings);
    }
  }

  lemma ConnectReturns(t: Table, k: nat, name: Str, strings: seq<Str>)
    requires DistinctIds(t.slots) && k < |t.slots| && t.slots[k].id != EMPTY
    ensures var s, r := t.slots[k], Receive(t, Connect(t.slots[k].id, name), strings);
            && FindPuppet(t.slots, s.id, true) == k
            && r.slots == t.slots[k := if s.connected then s else Joined(s, s.id, name)]
            && r.slots[k].connected && r.slots[k].id == s.id
  {
  }

  /** Over a run: the slot of a player that disconnects goes back to it at its next Connect, and nobody
      else is touched, unless it was given away in between. */
  lemma SlotGoesBack(
      maxPuppets: nat, packets: seq<Packet>, strings: seq<Str>, k: nat, id: Uid, name: Str, i: nat, j: nat)
    requires k < maxPuppets && i < j < |packets| && id != EMPTY
    requires packets[i] == Disconnect(id) && TableAfter(maxPuppets, packets, strings, i).slots[k].id == id
    requires forall n :: i < n < j ==> !GivesAway(TableAfter(maxPuppets, packets, strings, n), packets[n], id, k)
    requires packets[j] == Connect(id, name)
    ensures var t, r := TableAfter(maxPuppets, packets, strings, j), TableAfter(maxPuppets, packets, strings, j + 1);
            && FindPuppet(t.slots, id, true) == k
            && r.slots == t.slots[k := if t.slots[k].connected then t.slots[k] else Joined(t.slots[k], id, name)]
            && r.slots[k].connected && r.slots[k].id == id
  {
    assert !GivesAway(TableAfter(maxPuppets, packets, strings, i), packets[i], id, k);
    hide Receive, ReceiveAll, FindPuppet, Joined, GivesAway, DistinctIds;
    SlotStaysAssigned(maxPuppets, packets, strings, k, id, i, j);
    TableIsAPartialMap(maxPuppets, packets[..j], strings);
    TableNext(maxPuppets, packets, strings, j);
    ConnectReturns(TableAfter(maxPuppets, packets, strings, j), k, name, strings);
  }

  // ---------------------------------------------------------------- what a slot shows

  /** Whoever takes a seat is shown under its own name; nobody else is touched. */
  lemma ConnectShows(t: Table, id: Uid, name: Str, strings: seq<Str>)
    requires var k := FindPuppet(t.slots, id, true); k >= 0 && !t.slots[k].connected
    ensures var k, r := FindPuppet(t.slots, id, true), Receive(t, Connect(id, name), strings);
            && r.slots[k].id == id && r.slots[k].connected && r.slots[k].name == name
            && forall j :: 0 <= j < |t.slots| && j != k ==> r.slots[j] == t.slots[j]
  {
  }

  /** Whoever leaves is nowhere: no scenario, no stage, not in the same stage; its name and animation stay. */
  lemma DisconnectClears(t: Table, id: Uid, strings: seq<Str>)
    requires var k := SlotOf(t.slots, id); k >= 0 && t.slots[k].connected
    ensures var k, r := SlotOf(t.slots, id), Receive(t, Disconnect(id), strings);
            var s, was := r.slots[k], t.slots[k];
            && !s.connected && s.scenarioNo == FRESH_SLOT.scenarioNo && s.stageName == [] && !s.inSameStage
            && s.id == id && s.name == was.name && s.anim == was.anim && s.subAnim == was.subAnim
            && forall j :: 0 <= j < |t.slots| && j != k ==> r.slots[j] == t.slots[j]
  {
  }

  /** The two names of a player are those of the entries with the hashes of the names that were sent, the
      action first; an action without an entry is shown as "Wait", a sub-action without one as nothing. */
  lemma PlayerShows(t: Table, id: Uid, act: Str, sub: Str, a: int, b: int, strings: seq<Str>)
    requires SlotOf(t.slots, id) >= 0 && |strings| <= 0x7fff
    requires HashIndex.IsIndexOf(strings, HashIndex.Hash(act), a)
    requires HashIndex.IsIndexOf(strings, HashIndex.Hash(sub), b)
    ensures var p := PlayerInf(id, PlayerAnims.ToWire(PlayerAnims.ToType(PlayerAnims.NarrowToU16(a))),
                               PlayerAnims.ToWire(PlayerAnims.ToType(PlayerAnims.NarrowToU16(b))));
            var s := Receive(t, p, strings).slots[SlotOf(t.slots, id)];
            && s.connected && s.id == id
            && s.anim == (if a == -1 then PlayerAnims.WAIT else strings[a])
            && s.subAnim == (if b == -1 then [] else strings[b])
  {
    PlayerAnims.NameOverTheWire(strings, act, a, PlayerAnims.WAIT);
    PlayerAnims.NameOverTheWire(strings, sub, b, []);
    hide PlayerAnims.NameFromWire, HashIndex.Hash, HashIndex.IsIndexOf;
  }

  lemma ConnectedKeepsName(t: Table, p: Packet, k: nat, strings: seq<Str>)
    requires DistinctIds(t.slots) && k < |t.slots| && t.slots[k].connected
    ensures var r := Receive(t, p, strings); r.slots[k].name == t.slots[k].name && r.slots[k].id == t.slots[k].id
  {
    ReceiveKeepsMap(t, p, strings);
  }

  lemma SeatedByConnect(t: Table, p: Packet, k: nat, strings: seq<Str>)
    requires p.Connect? && k < |t.slots| && !t.slots[k].connected && Receive(t, p, strings).slots[k].connected
    ensures var s := Receive(t, p, strings).slots[k]; s.id == p.id && s.name == p.name
  {
  }

  /** Over any stretch of a run a slot that stays connected shows the name of the Connect that seated it. */
  lemma {:induction false} SlotShowsItsName(
      maxPuppets: nat, packets: seq<Packet>, strings: seq<Str>, k: nat, i: nat, j: nat)
    requires k < maxPuppets && i < j <= |packets| && packets[i].Connect?
    requires !TableAfter(maxPuppets, packets, strings, i).slots[k].connected
    requires forall n :: i < n <= j ==> TableAfter(maxPuppets, packets, strings, n).slots[k].connected
    ensures var s := TableAfter(maxPuppets, packets, strings, j).slots[k];
            s.id == packets[i].id && s.name == packets[i].name
    decreases j
  {
    hide *;
    TableNext(maxPuppets, packets, strings, j - 1);
    var t := TableAfter(maxPuppets, packets, strings, j - 1);
    if i + 1 < j {
      SlotShowsItsName(maxPuppets, packets, strings, k, i, j - 1);
      TableIsDistinct(maxPuppets, packets, strings, j - 1);
      ConnectedKeepsName(t, packets[j - 1], k, strings);
    } else {
      SeatedByConnect(t, packets[i], k, strings);
    }
  }

  lemma TableIsDistinct(maxPuppets: nat, packets: seq<Packet>, strings: seq<Str>, n: nat)
    requires n <= |packets|
    ensures DistinctIds(TableAfter(maxPuppets, packets, strings, n).slots)
  {
    TableIsAPartialMap(maxPuppets, packets[..n], strings);
  }
}
