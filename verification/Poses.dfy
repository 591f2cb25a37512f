/** The animation of a player as another player's mod shows it: numbered by the sender, queued when something
    has changed, sent again when somebody connects, and named again by the receiver
    (mod/src/server/Client.cpp). */
module Poses {
  import opened Option
  import opened PuppetTable
  import opened PlayerAnims
  import opened HashIndex
  import F = EdgeFlags

  /** What the player does: animated by itself, with an action and a sub-action, or as what it has captured,
      with an action if that has one; or it is not the kind of player whose animations are sent. */
  datatype Pose = Animating(act: Str, sub: Str) | Hacking(hacked: Option<Str>) | Elsewhere

  // ---------------------------------------------------------------- names

  /** A number that `FindType` may give for a name, as it is sent. */
  ghost predicate IsWire(strings: seq<Str>, name: Str, v: s32) {
    exists r :: IsIndexOf(strings, Hash(name), r) && v == ToWire(ToType(NarrowToU16(r)))
  }

  ghost predicate IsPacketOf(strings: seq<Str>, me: Uid, pose: Pose, p: Packet) {
    p.PlayerInf? && p.id == me &&
    match pose
    case Animating(act, sub) => IsWire(strings, act, p.act) && IsWire(strings, sub, p.subAct)
    case Hacking(Some(act)) => IsWire(strings, act, p.act) && p.subAct == ToWire(UNKNOWN)
    case Hacking(None) => p.act == p.subAct == ToWire(UNKNOWN)
    case Elsewhere => p.act == p.subAct == ToWire(UNKNOWN)
  }

  /** The name shown for a name: an entry with its hash, or the fallback if there is none. */
  predicate IsShownFor(strings: seq<Str>, name: Str, fallback: Str, shown: Str) {
    if exists i :: 0 <= i < |strings| && Hash(strings[i]) == Hash(name)
    then shown in strings && Hash(shown) == Hash(name) else shown == fallback
  }

  predicate ShowsPose(strings: seq<Str>, pose: Pose, anim: Str, subAnim: Str) {
    match pose
    case Animating(act, sub) => IsShownFor(strings, act, WAIT, anim) && IsShownFor(strings, sub, [], subAnim)
    case Hacking(Some(act)) => IsShownFor(strings, act, WAIT, anim) && subAnim == []
    case Hacking(None) => anim == WAIT && subAnim == []
    case Elsewhere => anim == WAIT && subAnim == []
  }

  /** The slot shows the names in a packet. */
  predicate Shows(s: Slot, p: Packet, strings: seq<Str>)
    requires p.PlayerInf?
  {
    s.anim == NameFromWire(strings, p.act, WAIT) && s.subAnim == NameFromWire(strings, p.subAct, [])
  }

  lemma WireIsShown(strings: seq<Str>, name: Str, v: s32, fallback: Str)
    requires IsWire(strings, name, v) && |strings| <= 0x7fff
    ensures IsShownFor(strings, name, fallback, NameFromWire(strings, v, fallback))
  {
    var r :| IsIndexOf(strings, Hash(name), r) && v == ToWire(ToType(NarrowToU16(r)));
    NameOverTheWire(strings, name, r, fallback);
    hide Hash, NameFromWire, ToWire, ToType, NarrowToU16;
  }

  lemma UnknownIsShown(strings: seq<Str>, fallback: Str)
    ensures NameFromWire(strings, ToWire(UNKNOWN), fallback) == fallback
  {
    WireRoundTrip(UNKNOWN);
  }

  /** A slot that shows the packet of a pose shows the pose. */
  lemma PacketShowsPose(strings: seq<Str>, me: Uid, pose: Pose, p: Packet, s: Slot)
    requires IsPacketOf(strings, me, pose, p) && |strings| <= 0x7fff && Shows(s, p, strings)
    ensures ShowsPose(strings, pose, s.anim, s.subAnim)
  {
    UnknownIsShown(strings, WAIT);
    UnknownIsShown(strings, []);
    hide NameFromWire, ToWire, IsWire, IsShownFor;
    match pose
    case Animating(act, sub) =>
      WireIsShown(strings, act, p.act, WAIT);
      WireIsShown(strings, sub, p.subAct, []);
    case Hacking(Some(act)) => WireIsShown(strings, act, p.act, WAIT);
    case _ =>
  }

  /** Names that are in the table are shown as they are. */
  lemma ListedNameIsShown(strings: seq<Str>, name: Str, fallback: Str, shown: Str)
    requires NoCollisions(strings) && name in strings && IsShownFor(strings, name, fallback, shown)
    ensures shown == name
  {
    var i :| 0 <= i < |strings| && strings[i] == name;
    assert Hash(strings[i]) == Hash(name);
    var j :| 0 <= j < |strings| && strings[j] == shown;
    hide Hash;
  }

  // ---------------------------------------------------------------- the sender

  /** The sender's `lastPlayerInfPacket`, its queue, and what it has written to the socket. Positions and
      weights are not part of the packets. */
  class Client {
    const userId: Uid
    const hashes: HashArray
    var lastPlayerInfPacket: Option<Packet>
    var queue: seq<Packet>
    var written: seq<Packet>

    constructor (user: Uid, hashes: HashArray)
      ensures userId == user && this.hashes == hashes
      ensures lastPlayerInfPacket == None && queue == [] && written == []
    {
      userId, this.hashes, lastPlayerInfPacket, queue, written := user, hashes, None, [], [];
    }

    /** The numbers of a pose. */
    method Numbers(pose: Pose, signedChar: bool) returns (p: Packet)
      requires hashes.Valid()
      ensures IsPacketOf(hashes.strings, userId, pose, p)
    {
      var act, sub := UNKNOWN, UNKNOWN;
      match pose {
        case Animating(action, subAction) =>
          act := FindType(hashes, action, signedChar);
          sub := FindType(hashes, subAction, signedChar);
        case Hacking(Some(action)) => act := FindType(hashes, action, signedChar);
        case Hacking(None) =>
        case Elsewhere =>
      }
      hide Hash, IsIndexOf, ToType, NarrowToU16;
      p := PlayerInf(userId, ToWire(act), ToWire(sub));
    }

    /** `moved` says that a field which is not modelled differs from the last packet. */
    method SendPlayerInfPacket(pose: Pose, moved: bool, signedChar: bool) returns (p: Packet)
      requires hashes.Valid()
      modifies this`lastPlayerInfPacket, this`queue
      ensures IsPacketOf(hashes.strings, userId, pose, p) && lastPlayerInfPacket == Some(p)
      ensures queue == old(queue) + if Sends(old(lastPlayerInfPacket), Perform(pose, p, moved)) then [p] else []
    {
      p := Numbers(pose, signedChar);
      if moved || lastPlayerInfPacket != Some(p) {
        lastPlayerInfPacket := Some(p);
        queue := queue + [p];
      }
    }

    /** Somebody has connected: the last packet is written at once, before those in the queue. */
    method Resend()
      modifies this`written
      ensures written == old(written) + if Sends(lastPlayerInfPacket, Hear) then [lastPlayerInfPacket.value] else []
    {
      if lastPlayerInfPacket.Some? {
        written := written + [lastPlayerInfPacket.value];
      }
    }

    /** The thread that empties the queue. */
    method WriteQueued()
      requires queue != []
      modifies this`queue, this`written
      ensures queue == old(queue)[1..] && written == old(written) + [old(queue)[0]]
    {
      written := written + [queue[0]];
      queue := queue[1..];
    }
  }

  // ---------------------------------------------------------------- sender and receiver

  datatype System = System(last: Option<Packet>, queue: seq<Packet>, wire: seq<Packet>, table: Table)

  /** A pose of the sender with its packet, a Connect that the sender hears, a packet that leaves its queue,
      the arrival of its next packet, or that of any other packet. */
  datatype Event = Perform(pose: Pose, p: Packet, moved: bool) | Hear | Write | Deliver | Other(p: Packet)

  /** Does the event send the sender's packet? */
  predicate Sends(last: Option<Packet>, e: Event) {
    match e
    case Perform(_, p, moved) => moved || last != Some(p)
    case Hear => last.Some?
    case _ => false
  }

  ghost predicate Enabled(y: System, me: Uid, strings: seq<Str>, e: Event) {
    match e
    case Perform(pose, p, _) => IsPacketOf(strings, me, pose, p)
    case Hear => true
    case Write => y.queue != []
    case Deliver => y.wire != []
    case Other(p) => p.id == me ==> !p.Disconnect? && !p.PlayerInf?
  }

  function Step(y: System, me: Uid, strings: seq<Str>, e: Event): System
    requires Enabled(y, me, strings, e)
  {
    match e
    case Perform(_, p, _) => y.(last := Some(p), queue := y.queue + if Sends(y.last, e) then [p] else [])
    case Hear => y.(wire := y.wire + if Sends(y.last, e) then [y.last.value] else [])
    case Write => y.(queue := y.queue[1..], wire := y.wire + [y.queue[0]])
    case Deliver => y.(wire := y.wire[1..], table := Receive(y.table, y.wire[0], strings))
    case Other(p) => y.(table := Receive(y.table, p, strings))
  }

  /** The packet of the last pose among the first `n` events. */
  function LastPacket(start: Option<Packet>, events: seq<Event>, n: nat): Option<Packet>
    requires n <= |events|
  {
    if n == 0 then start
    else if events[n - 1].Perform? then Some(events[n - 1].p)
    else LastPacket(start, events, n - 1)
  }

  /** One of the first `n` events sent it. */
  predicate IsSent(start: Option<Packet>, events: seq<Event>, n: nat)
    requires n <= |events|
  {
    exists k :: 0 <= k < n && Sends(LastPacket(start, events, k), events[k])
  }

  lemma IsSentNext(start: Option<Packet>, events: seq<Event>, n: nat)
    requires n < |events|
    ensures IsSent(start, events, n + 1) <==> IsSent(start, events, n) || Sends(LastPacket(start, events, n), events[n])
  {
  }

  predicate IsMine(p: Packet, me: Uid) {
    p.PlayerInf? && p.id == me
  }

  /** What the receiver shows in the end, once everything on its way has arrived. */
  predicate Follows(y: System, start: System, me: Uid, strings: seq<Str>, last: Option<Packet>, sent: bool) {
    && F.Knows(start.table, me) && F.Knows(y.table, me) && y.last == last
    && (last.Some? ==> IsMine(last.value, me))
    && (forall p :: p in y.wire + y.queue ==> IsMine(p, me))
    && if sent then last.Some? && Shown(y, me, last.value, strings)
       else y.wire == y.queue == [] && SameAnim(F.MySlot(y.table, me), F.MySlot(start.table, me))
  }

  predicate SameAnim(s: Slot, r: Slot) {
    s.anim == r.anim && s.subAnim == r.subAnim
  }

  predicate Shown(y: System, me: Uid, p: Packet, strings: seq<Str>)
    requires F.Knows(y.table, me) && p.PlayerInf?
  {
    var coming := y.wire + y.queue;
    if coming == [] then Shows(F.MySlot(y.table, me), p, strings) else coming[|coming| - 1] == p
  }

  lemma MineIsShown(t: Table, me: Uid, p: Packet, strings: seq<Str>)
    requires F.Knows(t, me) && IsMine(p, me)
    ensures var r := Receive(t, p, strings); F.Knows(r, me) && Shows(F.MySlot(r, me), p, strings)
  {
    var k := SlotOf(t.slots, me);
    hide NameFromWire;
    F.SlotOfSame(t.slots, me, Receive(t, p, strings).slots[k]);
  }

  lemma OwnKeepsAnim(t: Table, me: Uid, p: Packet, strings: seq<Str>)
    requires F.Knows(t, me) && p.id == me && !p.Disconnect? && !p.PlayerInf?
    ensures var r := Receive(t, p, strings); F.Knows(r, me) && SameAnim(F.MySlot(r, me), F.MySlot(t, me))
  {
    var k, r := SlotOf(t.slots, me), Receive(t, p, strings);
    assert t.slots[k := t.slots[k]] == t.slots;
    F.SlotOfSame(t.slots, me, r.slots[k]);
  }

  lemma OthersPacketElsewhere(t: Table, me: Uid, p: Packet, strings: seq<Str>)
    requires F.Knows(t, me) && p.id != me
    ensures var j, r := FindPuppet(t.slots, p.id, p.Connect?), Receive(t, p, strings);
            if j < 0 then r == t
            else j != SlotOf(t.slots, me) && r.slots[j].id != me && r.slots == t.slots[j := r.slots[j]]
  {
    hide NameFromWire;
    var j := FindPuppet(t.slots, p.id, p.Connect?);
    assert j >= 0 ==> t.slots[j := t.slots[j]] == t.slots;
  }

  lemma OtherKeepsAnim(t: Table, me: Uid, p: Packet, strings: seq<Str>)
    requires F.Knows(t, me) && (p.id == me ==> !p.Disconnect? && !p.PlayerInf?)
    ensures var r := Receive(t, p, strings); F.Knows(r, me) && SameAnim(F.MySlot(r, me), F.MySlot(t, me))
  {
    if p.id == me {
      OwnKeepsAnim(t, me, p, strings);
    } else {
      var j, r := FindPuppet(t.slots, p.id, p.Connect?), Receive(t, p, strings);
      OthersPacketElsewhere(t, me, p, strings);
      hide FindPuppet, Receive;
      if j >= 0 {
        F.SlotOfStays(t.slots, me, j, r.slots[j]);
      }
    }
  }

  // ---------------------------------------------------------------- one event

  lemma PerformFollows(
      y: System, start: System, me: Uid, strings: seq<Str>, last: Option<Packet>, sent: bool, e: Event)
    requires Follows(y, start, me, strings, last, sent) && Enabled(y, me, strings, e) && e.Perform?
    ensures Follows(Step(y, me, strings, e), start, me, strings, Some(e.p), sent || Sends(last, e))
  {
    hide F.Knows, F.MySlot, Shows, IsWire;
  }

  lemma HearFollows(y: System, start: System, me: Uid, strings: seq<Str>, last: Option<Packet>, sent: bool)
    requires Follows(y, start, me, strings, last, sent)
    ensures Follows(Step(y, me, strings, Hear), start, me, strings, last, sent || Sends(last, Hear))
  {
    hide F.Knows, F.MySlot, Shows;
  }

  lemma WriteFollows(y: System, start: System, me: Uid, strings: seq<Str>, last: Option<Packet>, sent: bool)
    requires Follows(y, start, me, strings, last, sent) && y.queue != []
    ensures Follows(Step(y, me, strings, Write), start, me, strings, last, sent)
  {
    hide F.Knows, F.MySlot, Shows;
    assert y.wire + [y.queue[0]] + y.queue[1..] == y.wire + y.queue;
  }

  lemma DeliveryFollows(y: System, start: System, me: Uid, strings: seq<Str>, last: Option<Packet>, sent: bool)
    requires Follows(y, start, me, strings, last, sent) && y.wire != []
    ensures Follows(Step(y, me, strings, Deliver), start, me, strings, last, sent)
  {
    assert y.wire[0] in y.wire + y.queue;
    hide F.Knows, F.MySlot, Shows, Receive;
    MineIsShown(y.table, me, y.wire[0], strings);
    assert y.wire[1..] + y.queue == (y.wire + y.queue)[1..];
  }

  lemma OtherFollows(y: System, start: System, me: Uid, strings: seq<Str>, last: Option<Packet>, sent: bool, p: Packet)
    requires Follows(y, start, me, strings, last, sent) && Enabled(y, me, strings, Other(p))
    ensures Follows(Step(y, me, strings, Other(p)), start, me, strings, last, sent)
  {
    OtherKeepsAnim(y.table, me, p, strings);
    hide F.Knows, F.MySlot, Receive, NameFromWire;
  }

  lemma StepFollows(
      y: System, start: System, me: Uid, strings: seq<Str>, last: Option<Packet>, sent: bool, e: Event)
    requires Follows(y, start, me, strings, last, sent) && Enabled(y, me, strings, e)
    ensures Follows(Step(y, me, strings, e), start, me, strings, if e.Perform? then Some(e.p) else last,
                    sent || Sends(last, e))
  {
    hide Follows, Step, IsWire;
    match e
    case Perform(_, _, _) => PerformFollows(y, start, me, strings, last, sent, e);
    case Hear => HearFollows(y, start, me, strings, last, sent);
    case Write => WriteFollows(y, start, me, strings, last, sent);
    case Deliver => DeliveryFollows(y, start, me, strings, last, sent);
    case Other(p) => OtherFollows(y, start, me, strings, last, sent, p);
  }

  // ---------------------------------------------------------------- every run

  ghost predicate IsRun(start: System, me: Uid, strings: seq<Str>, states: seq<System>, events: seq<Event>) {
    && |states| == |events| + 1 && states[0] == start
    && forall i :: 0 <= i < |events| ==>
         Enabled(states[i], me, strings, events[i]) && states[i + 1] == Step(states[i], me, strings, events[i])
  }

  /** The receiver knows the player, and nothing is on its way. */
  predicate IsStart(start: System, me: Uid) {
    F.Knows(start.table, me) && start.queue == start.wire == [] && (start.last.Some? ==> IsMine(start.last.value, me))
  }

  lemma {:induction false} RunFollows(
      start: System, me: Uid, strings: seq<Str>, states: seq<System>, events: seq<Event>, n: nat)
    requires IsRun(start, me, strings, states, events) && n <= |events| && IsStart(start, me)
    ensures Follows(states[n], start, me, strings, LastPacket(start.last, events, n), IsSent(start.last, events, n))
    decreases n
  {
    hide Enabled, Step;
    if n > 0 {
      hide Follows, IsSent, Sends, IsStart;
      RunFollows(start, me, strings, states, events, n - 1);
      IsSentNext(start.last, events, n - 1);
      StepFollows(states[n - 1], start, me, strings, LastPacket(start.last, events, n - 1),
                  IsSent(start.last, events, n - 1), events[n - 1]);
    }
  }

  /** Once everything has arrived, a receiver shows the packet of the last pose if and only if it was sent
      since the start, anew or again, or was shown at the start. */
  lemma PosesAgreeIff(
      start: System, me: Uid, strings: seq<Str>, states: seq<System>, events: seq<Event>, n: nat)
    requires IsRun(start, me, strings, states, events) && n <= |events| && IsStart(start, me)
    requires states[n].queue == states[n].wire == [] && LastPacket(start.last, events, n).Some?
    ensures F.Knows(states[n].table, me) && LastPacket(start.last, events, n).value.PlayerInf?
    ensures var p := LastPacket(start.last, events, n).value;
            Shows(F.MySlot(states[n].table, me), p, strings)
            <==> IsSent(start.last, events, n) || Shows(F.MySlot(start.table, me), p, strings)
  {
    RunFollows(start, me, strings, states, events, n);
    hide IsRun, IsSent, NameFromWire, F.Knows, F.MySlot;
  }

  /** Event `k` is the last pose among the first `n` events. */
  predicate IsLastPose(events: seq<Event>, k: nat, n: nat)
    requires n <= |events|
  {
    k < n && events[k].Perform? && forall j :: k < j < n ==> !events[j].Perform?
  }

  lemma {:induction false} LastPoseIsSent(start: Option<Packet>, events: seq<Event>, k: nat, n: nat)
    requires n <= |events| && IsLastPose(events, k, n)
    ensures LastPacket(start, events, n) == Some(events[k].p)
    decreases n
  {
    if k < n - 1 {
      LastPoseIsSent(start, events, k, n - 1);
    }
  }

  /** A player that has done something since the start, and was heard of since or shown rightly before, is
      shown doing what it did last: every name by the entry with its hash, or by the fallback. */
  lemma LastPoseIsShown(
      start: System, me: Uid, strings: seq<Str>, states: seq<System>, events: seq<Event>, k: nat, n: nat)
    requires IsRun(start, me, strings, states, events) && n <= |events| && IsStart(start, me)
    requires states[n].queue == states[n].wire == [] && IsLastPose(events, k, n) && |strings| <= 0x7fff
    requires IsSent(start.last, events, n) || Shows(F.MySlot(start.table, me), events[k].p, strings)
    ensures F.Knows(states[n].table, me)
    ensures var s := F.MySlot(states[n].table, me); ShowsPose(strings, events[k].pose, s.anim, s.subAnim)
  {
    LastPoseIsSent(start.last, events, k, n);
    PosesAgreeIff(start, me, strings, states, events, n);
    assert IsPacketOf(strings, me, events[k].pose, events[k].p);
    hide IsRun, IsSent, IsPacketOf, Shows, ShowsPose, F.Knows, F.MySlot;
    PacketShowsPose(strings, me, events[k].pose, events[k].p, F.MySlot(states[n].table, me));
  }

  /** A receiver that joins late is brought up to date by the Connect that the sender hears of it. */
  lemma LateReceiverIsTold(
      start: System, me: Uid, strings: seq<Str>, states: seq<System>, events: seq<Event>, k: nat, n: nat)
    requires IsRun(start, me, strings, states, events) && k < n <= |events| && IsStart(start, me)
    requires events[k] == Hear && LastPacket(start.last, events, k).Some?
    requires states[n].queue == states[n].wire == []
    ensures F.Knows(states[n].table, me) && LastPacket(start.last, events, n).Some?
    ensures LastPacket(start.last, events, n).value.PlayerInf?
    ensures Shows(F.MySlot(states[n].table, me), LastPacket(start.last, events, n).value, strings)
  {
    RunFollows(start, me, strings, states, events, n);
    assert Sends(LastPacket(start.last, events, k), events[k]);
    hide IsRun, Shows, F.Knows, F.MySlot;
  }
}
