/** The capture and cap-throw flags of a player as another player's mod sees them: the sender reports
    changes only, the packets wait in a queue, and the receiver sets its slot from each
    (mod/src/server/Client.cpp, mod/src/helpers.cpp). */
module EdgeFlags {
  import opened Option
  import opened PacketHeader
  import opened PuppetTable

  /** A class name and the name shown for it. */
  datatype HackName = HackName(className: Str, hackName: Str)

  /** `tryConvertName`: the first entry for this class name, or the class name itself. */
  function ConvertName(names: seq<HackName>, className: Str): Str {
    if names == [] then className
    else if names[0].className == className then names[0].hackName
    else ConvertName(names[1..], className)
  }

  /** The name for a class is that of its first entry, whatever comes after, and the class name itself only
      if there is no entry for it. */
  lemma {:induction false} FirstEntryNames(names: seq<HackName>, className: Str, i: nat)
    requires i <= |names| && forall j :: 0 <= j < i ==> names[j].className != className
    requires i < |names| ==> names[i].className == className
    ensures ConvertName(names, className) == if i < |names| then names[i].hackName else className
  {
    if i > 0 {
      assert forall j :: 0 <= j < |names[1..]| ==> names[1..][j] == names[j + 1];
      FirstEntryNames(names[1..], className, i - 1);
    }
  }

  /** The bytes of a name. */
  function Ascii(s: string): (bytes: Str)
    ensures |bytes| == |s|
  {
    if s == "" then [] else [(s[0] as int % 0x100) as bv8] + Ascii(s[1..])
  }

  /** `classHackNames`. */
  function ClassHackNames(): seq<HackName> {
    [
      HackName(Ascii("SenobiGeneratePoint"), Ascii("Senobi")),
      HackName(Ascii("KuriboPossessed"), Ascii("Kuribo")),
      HackName(Ascii("KillerLauncher"), Ascii("Killer")),
      HackName(Ascii("KillerLauncherMagnum"), Ascii("KillerMagnum")),
      HackName(Ascii("FireBrosPossessed"), Ascii("FireBros")),
      HackName(Ascii("HammerBrosPossessed"), Ascii("HammerBros")),
      HackName(Ascii("ElectricWire"), Ascii("ElectricWireMover")),
      HackName(Ascii("TRexSleep"), Ascii("TRex")),
      HackName(Ascii("TRexPatrol"), Ascii("TRex")),
      HackName(Ascii("WanwanBig"), Ascii("Wanwan")),
      HackName(Ascii("Koopa"), Ascii("KoopaHack"))
    ]
  }

  /** No entry is without a name. */
  predicate AllNamed(names: seq<HackName>) {
    forall i :: 0 <= i < |names| ==> names[i].className != [] && names[i].hackName != []
  }

  lemma SourceNamesAll()
    ensures AllNamed(ClassHackNames())
  {
    hide Ascii;
  }

  /** With such a table only an empty class name is converted to an empty name. */
  lemma {:induction false} NameIsEmptyIff(names: seq<HackName>, className: Str)
    requires AllNamed(names)
    ensures ConvertName(names, className) == [] <==> className == []
  {
    if names != [] {
      assert forall i :: 0 <= i < |names[1..]| ==> names[1..][i] == names[i + 1];
      NameIsEmptyIff(names[1..], className);
    }
  }

  method TryConvertName(names: seq<HackName>, className: Str) returns (name: Str)
    ensures name == ConvertName(names, className)
  {
    for i := 0 to |names|
      invariant ConvertName(names, className) == ConvertName(names[i..], className)
    {
      if names[i].className == className {
        return names[i].hackName;
      }
    }
    return className;
  }

  // ---------------------------------------------------------------- the sender

  datatype Call = Capture(captured: bool, className: Str) | HackCap(flying: bool)

  /** What the sender remembers of its last calls. */
  datatype Sender = Sender(sentCapture: bool, sentHack: bool)

  const QUIET := Sender(false, false)

  function After(s: Sender, c: Call): Sender {
    match c
    case Capture(captured, _) => s.(sentCapture := captured)
    case HackCap(flying) => s.(sentHack := flying)
  }

  /** The packets a call queues. */
  function Packets(s: Sender, names: seq<HackName>, me: Uid, c: Call): seq<Packet> {
    match c
    case Capture(captured, className) =>
      if captured && !s.sentCapture then [CaptureInf(me, ConvertName(names, className))]
      else if !captured && s.sentCapture then [CaptureInf(me, [])] else []
    case HackCap(flying) =>
      if flying then [HackCapInf(me, true)] else if s.sentHack then [HackCapInf(me, false)] else []
  }

  class Client {
    const userId: Uid
    var isSentCaptureInf: bool
    var isSentHackInf: bool
    var queue: seq<Packet>

    function View(): Sender
      reads this
    {
      Sender(isSentCaptureInf, isSentHackInf)
    }

    constructor (user: Uid)
      ensures View() == QUIET && queue == [] && userId == user
    {
      userId, isSentCaptureInf, isSentHackInf, queue := user, false, false, [];
    }

    method SendCaptureInfPacket(isClientCaptured: bool, currentHackName: Str, classHackNames: seq<HackName>)
      modifies this
      ensures View() == After(old(View()), Capture(isClientCaptured, currentHackName))
      ensures queue == old(queue)
                       + Packets(old(View()), classHackNames, userId, Capture(isClientCaptured, currentHackName))
    {
      if isClientCaptured && !isSentCaptureInf {
        var hackName := TryConvertName(classHackNames, currentHackName);
        queue := queue + [CaptureInf(userId, hackName)];
        isSentCaptureInf := true;
      } else if !isClientCaptured && isSentCaptureInf {
        queue := queue + [CaptureInf(userId, [])];
        isSentCaptureInf := false;
      }
    }

    method SendHackCapInfPacket(isFlying: bool)
      modifies this
      ensures View() == After(old(View()), HackCap(isFlying))
      ensures queue == old(queue) + Packets(old(View()), [], userId, HackCap(isFlying))
    {
      if isFlying {
        queue := queue + [HackCapInf(userId, true)];
        isSentHackInf := true;
      } else if isSentHackInf {
        queue := queue + [HackCapInf(userId, false)];
        isSentHackInf := false;
      }
    }
  }

  // ---------------------------------------------------------------- one packet per change

  function AfterAll(s: Sender, calls: seq<Call>): Sender
    decreases |calls|
  {
    if calls == [] then s else AfterAll(After(s, calls[0]), calls[1..])
  }

  function AllPackets(s: Sender, names: seq<HackName>, me: Uid, calls: seq<Call>): seq<Packet>
    decreases |calls|
  {
    if calls == [] then []
    else Packets(s, names, me, calls[0]) + AllPackets(After(s, calls[0]), names, me, calls[1..])
  }

  function CountCaptures(packets: seq<Packet>): nat {
    if packets == [] then 0 else (if packets[0].CaptureInf? then 1 else 0) + CountCaptures(packets[1..])
  }

  function CountHackCaps(packets: seq<Packet>): nat {
    if packets == [] then 0 else (if packets[0].HackCapInf? then 1 else 0) + CountHackCaps(packets[1..])
  }

  /** How many cap calls report a flying cap or one that has just stopped. */
  function CapReports(flying: bool, calls: seq<Call>): nat
    decreases |calls|
  {
    if calls == [] then 0
    else if calls[0].HackCap? then
      (if flying || calls[0].flying then 1 else 0) + CapReports(calls[0].flying, calls[1..])
    else CapReports(flying, calls[1..])
  }

  /** How often the captured flag differs from that of the call before. */
  function Changes(captured: bool, calls: seq<Call>): nat
    decreases |calls|
  {
    if calls == [] then 0
    else if calls[0].Capture? then
      (if calls[0].captured != captured then 1 else 0) + Changes(calls[0].captured, calls[1..])
    else Changes(captured, calls[1..])
  }

  function LastCaptured(captured: bool, calls: seq<Call>): bool
    decreases |calls|
  {
    if calls == [] then captured
    else LastCaptured(if calls[0].Capture? then calls[0].captured else captured, calls[1..])
  }

  function LastFlying(flying: bool, calls: seq<Call>): bool
    decreases |calls|
  {
    if calls == [] then flying
    else LastFlying(if calls[0].HackCap? then calls[0].flying else flying, calls[1..])
  }

  lemma {:induction false} CountOfConcat(a: seq<Packet>, b: seq<Packet>)
    ensures CountCaptures(a + b) == CountCaptures(a) + CountCaptures(b)
  {
    if a == [] {
      assert a + b == b;
    } else {
      assert (a + b)[1..] == a[1..] + b;
      CountOfConcat(a[1..], b);
    }
  }

  lemma {:induction false} HackCapsOfConcat(a: seq<Packet>, b: seq<Packet>)
    ensures CountHackCaps(a + b) == CountHackCaps(a) + CountHackCaps(b)
  {
    if a == [] {
      assert a + b == b;
    } else {
      assert (a + b)[1..] == a[1..] + b;
      HackCapsOfConcat(a[1..], b);
    }
  }

  /** There are as many cap packets as calls with a flying cap, which is sent each time, and stops. */
  lemma {:induction false} OnePacketPerCapReport(s: Sender, names: seq<HackName>, me: Uid, calls: seq<Call>)
    ensures CountHackCaps(AllPackets(s, names, me, calls)) == CapReports(s.sentHack, calls)
    decreases |calls|
  {
    if calls != [] {
      var next := After(s, calls[0]);
      var first := Packets(s, names, me, calls[0]);
      OnePacketPerCapReport(next, names, me, calls[1..]);
      HackCapsOfConcat(first, AllPackets(next, names, me, calls[1..]));
      assert first != [] ==> first[1..] == [];
      hide ConvertName;
    }
  }

  /** There are as many capture packets as changes of the flag, and what was sent last is the flags of
      the last calls. */
  lemma {:induction false} OnePacketPerChange(s: Sender, names: seq<HackName>, me: Uid, calls: seq<Call>)
    ensures CountCaptures(AllPackets(s, names, me, calls)) == Changes(s.sentCapture, calls)
    ensures AfterAll(s, calls).sentCapture == LastCaptured(s.sentCapture, calls)
    ensures AfterAll(s, calls).sentHack == LastFlying(s.sentHack, calls)
    decreases |calls|
  {
    if calls != [] {
      var next := After(s, calls[0]);
      var first := Packets(s, names, me, calls[0]);
      OnePacketPerChange(next, names, me, calls[1..]);
      CountOfConcat(first, AllPackets(next, names, me, calls[1..]));
      assert first != [] ==> first[1..] == [];
      assert CountCaptures(first) == if calls[0].Capture? && calls[0].captured != s.sentCapture then 1 else 0;
    }
  }

  // ---------------------------------------------------------------- the queue and the receiver

  /** A sender, the packets on their way, and the table of a receiver. */
  datatype System = System(sender: Sender, queue: seq<Packet>, table: Table)

  /** A call of the sender, the arrival of its next packet, or that of any other packet. */
  datatype Event = Calls(call: Call) | Deliver | Other(p: Packet)

  /** The sender's other packets do not carry the flags, and it does not disconnect. */
  predicate Enabled(y: System, me: Uid, e: Event) {
    match e
    case Calls(_) => true
    case Deliver => y.queue != []
    case Other(p) => p.id == me ==> p.Connect? || p.PlayerInf?
  }

  function Step(y: System, me: Uid, names: seq<HackName>, strings: seq<Str>, e: Event): System
    requires Enabled(y, me, e)
  {
    match e
    case Calls(call) =>
      System(After(y.sender, call), y.queue + Packets(y.sender, names, me, call), y.table)
    case Deliver => System(y.sender, y.queue[1..], Receive(y.table, y.queue[0], strings))
    case Other(p) => y.(table := Receive(y.table, p, strings))
  }

  /** The receiver knows the player, in a slot that is connected. */
  predicate Knows(t: Table, me: Uid) {
    SlotOf(t.slots, me) >= 0 && t.slots[SlotOf(t.slots, me)].connected
  }

  function MySlot(t: Table, me: Uid): Slot
    requires Knows(t, me)
  {
    t.slots[SlotOf(t.slots, me)]
  }

  datatype Flags = Flags(captured: bool, hack: Str, capThrow: bool)

  function FlagsOf(s: Slot): Flags {
    Flags(s.captured, s.hack, s.capThrow)
  }

  function Set(f: Flags, p: Packet): Flags {
    if p.CaptureInf? then
      if p.hackName != [] then f.(captured := true, hack := p.hackName) else f.(captured := false)
    else if p.HackCapInf? then f.(capThrow := p.visible) else f
  }

  /** The flags once the packets have arrived. */
  function Drained(f: Flags, packets: seq<Packet>): Flags
    decreases |packets|
  {
    if packets == [] then f else Drained(Set(f, packets[0]), packets[1..])
  }

  predicate IsMine(p: Packet, me: Uid) {
    p.id == me && (p.CaptureInf? || p.HackCapInf?)
  }

  lemma {:induction false} DrainedConcat(f: Flags, a: seq<Packet>, b: seq<Packet>)
    ensures Drained(f, a + b) == Drained(Drained(f, a), b)
    decreases |a|
  {
    if a == [] {
      assert a + b == b;
    } else {
      assert (a + b)[1..] == a[1..] + b;
      DrainedConcat(Set(f, a[0]), a[1..], b);
    }
  }

  /** The first slot of an id stays it when another slot is given to somebody else. */
  lemma SlotOfStays(slots: seq<Slot>, me: Uid, j: nat, s: Slot)
    requires SlotOf(slots, me) >= 0 && j < |slots| && j != SlotOf(slots, me) && s.id != me
    ensures SlotOf(slots[j := s], me) == SlotOf(slots, me)
  {
    var k, now := SlotOf(slots, me), slots[j := s];
    assert now[k].id == me && forall i :: 0 <= i < k ==> now[i].id != me;
  }

  lemma SlotOfSame(slots: seq<Slot>, me: Uid, s: Slot)
    requires SlotOf(slots, me) >= 0 && s.id == me
    ensures SlotOf(slots[SlotOf(slots, me) := s], me) == SlotOf(slots, me)
  {
    var k := SlotOf(slots, me);
    var now := slots[k := s];
    assert now[k].id == me && forall i :: 0 <= i < k ==> now[i].id != me;
  }

  /** Packets of others, and those of the player itself that are not about the flags, leave them alone. */
  lemma OtherKeepsFlags(t: Table, me: Uid, p: Packet, strings: seq<Str>)
    requires Knows(t, me) && (p.id == me ==> p.Connect? || p.PlayerInf?)
    ensures var r := Receive(t, p, strings);
            Knows(r, me) && FlagsOf(MySlot(r, me)) == FlagsOf(MySlot(t, me))
  {
    var k, j := SlotOf(t.slots, me), FindPuppet(t.slots, p.id, p.Connect?);
    if j >= 0 {
      var r := Receive(t, p, strings);
      var s := r.slots[j];
      assert r.slots == t.slots[j := s];
      if p.id == me {
        SlotOfSame(t.slots, me, s);
      } else {
        assert j != k && s.id != me;
        SlotOfStays(t.slots, me, j, s);
      }
    }
  }

  lemma MineSetsFlags(t: Table, me: Uid, p: Packet, strings: seq<Str>)
    requires Knows(t, me) && IsMine(p, me)
    ensures var r := Receive(t, p, strings);
            Knows(r, me) && FlagsOf(MySlot(r, me)) == Set(FlagsOf(MySlot(t, me)), p)
  {
    var k := SlotOf(t.slots, me);
    SlotOfSame(t.slots, me, Receive(t, p, strings).slots[k]);
  }

  /** Since `start`, with these calls, everything sent has arrived or is in the queue. */
  predicate Follows(y: System, start: System, me: Uid, names: seq<HackName>, calls: seq<Call>) {
    && Knows(start.table, me) && Knows(y.table, me)
    && (forall i :: 0 <= i < |y.queue| ==> IsMine(y.queue[i], me))
    && y.sender == AfterAll(start.sender, calls)
    && Drained(FlagsOf(MySlot(y.table, me)), y.queue)
       == Drained(FlagsOf(MySlot(start.table, me)), AllPackets(start.sender, names, me, calls))
  }

  function CallOf(e: Event): seq<Call> {
    if e.Calls? then [e.call] else []
  }

  lemma {:induction false} OneCallMore(s: Sender, names: seq<HackName>, me: Uid, calls: seq<Call>, c: Call)
    ensures AfterAll(s, calls + [c]) == After(AfterAll(s, calls), c)
    ensures AllPackets(s, names, me, calls + [c])
            == AllPackets(s, names, me, calls) + Packets(AfterAll(s, calls), names, me, c)
    decreases |calls|
  {
    if calls == [] {
      assert [] + [c] == [c] && [c][1..] == [];
    } else {
      assert (calls + [c])[1..] == calls[1..] + [c];
      OneCallMore(After(s, calls[0]), names, me, calls[1..], c);
    }
  }

  lemma CallFollows(y: System, start: System, me: Uid, names: seq<HackName>, calls: seq<Call>, c: Call)
    requires Follows(y, start, me, names, calls)
    ensures Follows(System(After(y.sender, c), y.queue + Packets(y.sender, names, me, c), y.table),
                    start, me, names, calls + [c])
  {
    var packets := Packets(y.sender, names, me, c);
    assert forall i :: 0 <= i < |packets| ==> IsMine(packets[i], me);
    hide MySlot, Knows, Drained, AfterAll, AllPackets, Packets, After, IsMine, FlagsOf;
    OneCallMore(start.sender, names, me, calls, c);
    DrainedConcat(FlagsOf(MySlot(y.table, me)), y.queue, packets);
    DrainedConcat(FlagsOf(MySlot(start.table, me)), AllPackets(start.sender, names, me, calls), packets);
  }

  lemma DrainedFirst(f: Flags, packets: seq<Packet>)
    requires packets != []
    ensures Drained(f, packets) == Drained(Set(f, packets[0]), packets[1..])
  {
  }

  lemma DeliveryFollows(
      y: System, start: System, me: Uid, names: seq<HackName>, strings: seq<Str>, calls: seq<Call>)
    requires Follows(y, start, me, names, calls) && y.queue != []
    ensures Follows(System(y.sender, y.queue[1..], Receive(y.table, y.queue[0], strings)), start, me, names, calls)
  {
    assert IsMine(y.queue[0], me);
    hide MySlot, Knows, AfterAll, AllPackets, Receive, Set, Drained, IsMine, FlagsOf;
    MineSetsFlags(y.table, me, y.queue[0], strings);
    DrainedFirst(FlagsOf(MySlot(y.table, me)), y.queue);
  }

  lemma OtherFollows(
      y: System, start: System, me: Uid, names: seq<HackName>, strings: seq<Str>, calls: seq<Call>, p: Packet)
    requires Follows(y, start, me, names, calls) && (p.id == me ==> p.Connect? || p.PlayerInf?)
    ensures Follows(y.(table := Receive(y.table, p, strings)), start, me, names, calls)
  {
    hide MySlot, Knows, AfterAll, AllPackets, Receive, Drained, IsMine, FlagsOf;
    OtherKeepsFlags(y.table, me, p, strings);
  }

  lemma StepFollows(
      y: System, start: System, me: Uid, names: seq<HackName>, strings: seq<Str>, calls: seq<Call>, e: Event)
    requires Follows(y, start, me, names, calls) && Enabled(y, me, e)
    ensures Follows(Step(y, me, names, strings, e), start, me, names, calls + CallOf(e))
  {
    assert calls + [] == calls;
    hide Follows, After, Packets, Receive;
    match e
    case Calls(call) => CallFollows(y, start, me, names, calls, call);
    case Deliver => DeliveryFollows(y, start, me, names, strings, calls);
    case Other(p) => OtherFollows(y, start, me, names, strings, calls, p);
  }

  // ---------------------------------------------------------------- what has arrived

  /** Some call reports a flying cap, or any cap if one was flying at the start. */
  predicate CapIsSent(flying: bool, calls: seq<Call>) {
    exists c :: c in calls && c.HackCap? && (flying || c.flying)
  }

  lemma CapIsSentFirst(flying: bool, calls: seq<Call>)
    requires calls != []
    ensures CapIsSent(flying, calls)
            <==> if calls[0].HackCap? then flying || calls[0].flying || CapIsSent(calls[0].flying, calls[1..])
                 else CapIsSent(flying, calls[1..])
  {
    assert calls == [calls[0]] + calls[1..];
  }

  /** The class name of the last capture that began. */
  function LastBegun(captured: bool, calls: seq<Call>): Option<Str>
    decreases |calls|
  {
    if calls == [] then None
    else if calls[0].HackCap? then LastBegun(captured, calls[1..])
    else
      var later := LastBegun(calls[0].captured, calls[1..]);
      if later.None? && calls[0].captured && !captured then Some(calls[0].className) else later
  }

  /** The name it was sent under. */
  function NameSent(names: seq<HackName>, captured: bool, calls: seq<Call>): Str {
    match LastBegun(captured, calls)
    case None => []
    case Some(className) => ConvertName(names, className)
  }

  /** A capture begins only with a change, and one that lasts at the end of calls that change the flag
      has begun during them. */
  lemma {:induction false} BegunByChange(captured: bool, calls: seq<Call>)
    ensures Changes(captured, calls) == 0 ==> LastBegun(captured, calls) == None
    ensures Changes(captured, calls) == 0 ==> LastCaptured(captured, calls) == captured
    ensures Changes(captured, calls) > 0 && LastCaptured(captured, calls) ==> LastBegun(captured, calls).Some?
    decreases |calls|
  {
    if calls != [] {
      BegunByChange(if calls[0].Capture? then calls[0].captured else captured, calls[1..]);
    }
  }

  lemma NothingCalled(flying: bool, captured: bool, calls: seq<Call>)
    requires calls == []
    ensures !CapIsSent(flying, calls) && LastFlying(flying, calls) == flying && Changes(captured, calls) == 0
  {
  }

  /** The flag of the cap after everything that some calls send. */
  lemma {:induction false} CapAfterAll(f: Flags, s: Sender, names: seq<HackName>, me: Uid, calls: seq<Call>)
    ensures Drained(f, AllPackets(s, names, me, calls)).capThrow
            == if CapIsSent(s.sentHack, calls) then LastFlying(s.sentHack, calls) else f.capThrow
    ensures !CapIsSent(s.sentHack, calls) ==> LastFlying(s.sentHack, calls) == s.sentHack
    decreases |calls|
  {
    if calls == [] {
      NothingCalled(s.sentHack, s.sentCapture, calls);
    } else {
      var first, next := Packets(s, names, me, calls[0]), After(s, calls[0]);
      DrainedConcat(f, first, AllPackets(next, names, me, calls[1..]));
      OneDrained(f, first);
      CapIsSentFirst(s.sentHack, calls);
      hide CapIsSent, Drained;
      CapAfterAll(Drained(f, first), next, names, me, calls[1..]);
    }
  }

  lemma OneDrained(f: Flags, packets: seq<Packet>)
    requires |packets| <= 1
    ensures Drained(f, packets) == if packets == [] then f else Set(f, packets[0])
  {
  }

  /** The captured flag after everything that some calls send, and the name with it. */
  lemma {:induction false} CaptureAfterAll(f: Flags, s: Sender, names: seq<HackName>, me: Uid, calls: seq<Call>)
    ensures var g := Drained(f, AllPackets(s, names, me, calls));
            var name := NameSent(names, s.sentCapture, calls);
            if Changes(s.sentCapture, calls) > 0 then
              && g.captured == (LastCaptured(s.sentCapture, calls) && name != [])
              && (g.captured ==> g.hack == name)
            else g.captured == f.captured && g.hack == f.hack
    decreases |calls|
  {
    if calls == [] {
      NothingCalled(s.sentHack, s.sentCapture, calls);
    } else {
      var first, next := Packets(s, names, me, calls[0]), After(s, calls[0]);
      DrainedConcat(f, first, AllPackets(next, names, me, calls[1..]));
      OneDrained(f, first);
      BegunByChange(next.sentCapture, calls[1..]);
      hide Drained;
      CaptureAfterAll(Drained(f, first), next, names, me, calls[1..]);
    }
  }

  // ---------------------------------------------------------------- every run

  predicate IsRun(
      start: System, me: Uid, names: seq<HackName>, strings: seq<Str>, states: seq<System>, events: seq<Event>) {
    && |states| == |events| + 1 && states[0] == start
    && forall i :: 0 <= i < |events| ==>
         Enabled(states[i], me, events[i]) && states[i + 1] == Step(states[i], me, names, strings, events[i])
  }

  /** The calls among the first events. */
  function CallsOf(events: seq<Event>, n: nat): seq<Call>
    requires n <= |events|
  {
    if n == 0 then [] else CallsOf(events, n - 1) + CallOf(events[n - 1])
  }

  lemma RunStep(
      start: System, me: Uid, names: seq<HackName>, strings: seq<Str>,
      states: seq<System>, events: seq<Event>, i: nat)
    requires IsRun(start, me, names, strings, states, events) && i < |events|
    ensures |states| == |events| + 1 && Enabled(states[i], me, events[i])
    ensures states[i + 1] == Step(states[i], me, names, strings, events[i])
  {
  }

  lemma {:induction false} RunFollows(
      start: System, me: Uid, names: seq<HackName>, strings: seq<Str>,
      states: seq<System>, events: seq<Event>, n: nat)
    requires IsRun(start, me, names, strings, states, events) && n <= |events|
    requires start.queue == [] && Knows(start.table, me)
    ensures Follows(states[n], start, me, names, CallsOf(events, n))
    decreases n
  {
    if n == 0 {
      hide Enabled, Step;
    } else {
      RunStep(start, me, names, strings, states, events, n - 1);
      hide IsRun, Follows, Enabled, Step;
      RunFollows(start, me, names, strings, states, events, n - 1);
      StepFollows(states[n - 1], start, me, names, strings, CallsOf(events, n - 1), events[n - 1]);
    }
  }

  /** The receiver's flags once the queue is drained, from any start with an empty queue: those of the
      sender's last calls if and only if one was sent since, or they agreed at the start. A capture shows
      under the name that was sent, and only if that is not empty. */
  lemma FlagsAgreeIff(
      start: System, me: Uid, names: seq<HackName>, strings: seq<Str>,
      states: seq<System>, events: seq<Event>, n: nat)
    requires IsRun(start, me, names, strings, states, events) && n <= |events|
    requires start.queue == [] && Knows(start.table, me) && states[n].queue == []
    ensures Knows(states[n].table, me)
    ensures var before, slot, calls := MySlot(start.table, me), MySlot(states[n].table, me), CallsOf(events, n);
            var s := start.sender;
            var captured, name := LastCaptured(s.sentCapture, calls), NameSent(names, s.sentCapture, calls);
            && (slot.capThrow == LastFlying(s.sentHack, calls)
                <==> CapIsSent(s.sentHack, calls) || before.capThrow == s.sentHack)
            && (slot.captured == captured
                <==> if Changes(s.sentCapture, calls) > 0 then captured ==> name != []
                     else before.captured == s.sentCapture)
            && (Changes(s.sentCapture, calls) > 0 && slot.captured ==> slot.hack == name)
  {
    var s, calls := start.sender, CallsOf(events, n);
    RunFollows(start, me, names, strings, states, events, n);
    CapAfterAll(FlagsOf(MySlot(start.table, me)), s, names, me, calls);
    CaptureAfterAll(FlagsOf(MySlot(start.table, me)), s, names, me, calls);
    BegunByChange(s.sentCapture, calls);
    hide IsRun, CallsOf, AllPackets, CapIsSent, Changes, LastFlying, LastCaptured, AfterAll, NameSent, LastBegun;
  }

  /** Whatever is captured has a class name. */
  predicate HaveClassNames(calls: seq<Call>) {
    forall c :: c in calls && c.Capture? && c.captured ==> c.className != []
  }

  lemma {:induction false} BegunHasClassName(captured: bool, calls: seq<Call>)
    requires HaveClassNames(calls)
    ensures LastBegun(captured, calls).Some? ==> LastBegun(captured, calls).value != []
    decreases |calls|
  {
    if calls != [] {
      BegunHasClassName(if calls[0].Capture? then calls[0].captured else captured, calls[1..]);
      assert calls[0] in calls;
    }
  }

  /** With a table of names like the source's and class names that are not empty: each flag agrees, once
      the queue is drained, if and only if it was sent since the start or agreed at the start. */
  lemma NamedFlagsAgreeIff(
      start: System, me: Uid, names: seq<HackName>, strings: seq<Str>,
      states: seq<System>, events: seq<Event>, n: nat)
    requires IsRun(start, me, names, strings, states, events) && n <= |events|
    requires start.queue == [] && Knows(start.table, me) && states[n].queue == []
    requires AllNamed(names) && HaveClassNames(CallsOf(events, n))
    ensures Knows(states[n].table, me)
    ensures var before, slot, calls := MySlot(start.table, me), MySlot(states[n].table, me), CallsOf(events, n);
            var s := start.sender;
            && (slot.capThrow == LastFlying(s.sentHack, calls)
                <==> CapIsSent(s.sentHack, calls) || before.capThrow == s.sentHack)
            && (slot.captured == LastCaptured(s.sentCapture, calls)
                <==> Changes(s.sentCapture, calls) > 0 || before.captured == s.sentCapture)
  {
    var captured, calls := start.sender.sentCapture, CallsOf(events, n);
    FlagsAgreeIff(start, me, names, strings, states, events, n);
    BegunByChange(captured, calls);
    BegunHasClassName(captured, calls);
    if LastBegun(captured, calls).Some? {
      NameIsEmptyIff(names, LastBegun(captured, calls).value);
    }
    hide IsRun, CallsOf, CapIsSent, Changes, LastFlying, LastCaptured, AllNamed, HaveClassNames, ConvertName,
         LastBegun;
  }

  // ---------------------------------------------------------------- a slot with a past

  lemma FivePackets(t: Table, a: Packet, b: Packet, c: Packet, d: Packet, e: Packet, strings: seq<Str>)
    ensures ReceiveAll(t, [a, b, c, d, e], strings)
            == Receive(Receive(Receive(Receive(Receive(t, a, strings), b, strings), c, strings), d, strings), e,
                       strings)
  {
    hide Receive;
    assert [a, b, c, d, e][..4] == [a, b, c, d] && [a, b, c, d][..3] == [a, b, c];
    assert [a, b, c][..2] == [a, b] && [a, b][..1] == [a] && [a][..0] == [];
    assert ReceiveAll(t, [a], strings) == Receive(t, a, strings);
    assert ReceiveAll(t, [a, b, c], strings) == Receive(Receive(Receive(t, a, strings), b, strings), c, strings);
  }

  /** The packets that arrive at a table with one slot. */
  lemma OnlySlotJoined(t: Table, id: Uid, name: Str, strings: seq<Str>)
    requires |t.slots| == 1 && !t.slots[0].connected
    ensures Receive(t, Connect(id, name), strings).slots == [Joined(t.slots[0], id, name)]
  {
  }

  lemma OnlySlotCaptured(t: Table, id: Uid, hack: Str, strings: seq<Str>)
    requires |t.slots| == 1 && t.slots[0].id == id
    ensures Receive(t, CaptureInf(id, hack), strings).slots == [Captured(t.slots[0], hack)]
  {
  }

  lemma OnlySlotThrown(t: Table, id: Uid, flying: bool, strings: seq<Str>)
    requires |t.slots| == 1 && t.slots[0].id == id
    ensures Receive(t, HackCapInf(id, flying), strings).slots == [t.slots[0].(capThrow := flying)]
  {
  }

  lemma OnlySlotLeft(t: Table, id: Uid, strings: seq<Str>)
    requires |t.slots| == 1 && t.slots[0].id == id && t.slots[0].connected
    ensures Receive(t, Disconnect(id), strings).slots == [Left(t.slots[0])]
  {
  }

  lemma OnlySlotKnown(t: Table, id: Uid)
    requires |t.slots| == 1 && t.slots[0].id == id && t.slots[0].connected
    ensures Knows(t, id) && MySlot(t, id) == t.slots[0]
  {
  }

  /** A slot keeps the flags of the player it had before: the next one to be seated in it appears captured
      and with its cap thrown, though it has sent nothing. */
  lemma ReusedSlotKeepsFlags(a: Uid, b: Uid, hack: Str, strings: seq<Str>)
    requires a != b && a != EMPTY && b != EMPTY && hack != []
    ensures var packets := [Connect(a, []), CaptureInf(a, hack), HackCapInf(a, true), Disconnect(a), Connect(b, [])];
            var t := ReceiveAll(FreshTable(1), packets, strings);
            && Knows(t, b) && MySlot(t, b).captured != QUIET.sentCapture && MySlot(t, b).capThrow != QUIET.sentHack
  {
    var t := FreshTable(1);
    FivePackets(t, Connect(a, []), CaptureInf(a, hack), HackCapInf(a, true), Disconnect(a), Connect(b, []), strings);
    hide Receive, ReceiveAll, PuppetName, Knows, MySlot;
    OnlySlotJoined(t, a, [], strings);
    var joined := Receive(t, Connect(a, []), strings);
    OnlySlotCaptured(joined, a, hack, strings);
    var captured := Receive(joined, CaptureInf(a, hack), strings);
    OnlySlotThrown(captured, a, true, strings);
    var thrown := Receive(captured, HackCapInf(a, true), strings);
    OnlySlotLeft(thrown, a, strings);
    var left := Receive(thrown, Disconnect(a), strings);
    OnlySlotJoined(left, b, [], strings);
    OnlySlotKnown(Receive(left, Connect(b, []), strings), b);
  }

  /** A player that was captured before the receiver knew it is not shown as captured. */
  lemma LateReceiverMissesCapture(me: Uid, s: Sender, strings: seq<Str>)
    requires me != EMPTY && s.sentCapture
    ensures var t := ReceiveAll(FreshTable(1), [Connect(me, [])], strings);
            Knows(t, me) && MySlot(t, me).captured != s.sentCapture
  {
    var t := FreshTable(1);
    ReceiveOne(t, Connect(me, []), strings);
    assert Receive(t, Connect(me, []), strings).slots == [Joined(t.slots[0], me, [])];
  }
}
