/** What a mod's slot table holds after an orderly stream of Connect, Disconnect and player frames:
    exactly the players that the stream has announced and not taken back. */
module SlotCounting {
  import opened PacketHeader
  import opened PuppetTable

  /** The ids a stream of packets has announced and not taken back. */
  function Members(log: seq<Packet>): set<Uid> {
    if log == [] then {}
    else
      var before, p := Members(log[..|log| - 1]), log[|log| - 1];
      if p.Connect? then before + {p.id} else if p.Disconnect? then before - {p.id} else before
  }

  /** Nobody is announced twice in a row or beyond the capacity, and only members send player frames. */
  predicate Orderly(log: seq<Packet>, capacity: nat) {
    log == [] ||
    var before, p := log[..|log| - 1], log[|log| - 1];
    && Orderly(before, capacity)
    && (p.Connect? ==> p.id != EMPTY && p.id !in Members(before) && |Members(before)| < capacity)
    && (p.PlayerInf? ==> p.id in Members(before))
  }

  /** The players connected in a table. */
  function ConnectedIds(slots: seq<Slot>): set<Uid> {
    set s | s in slots && s.connected :: s.id
  }

  /** The slots hold a set of players: one connected slot each, and nobody else. */
  predicate Holds(t: Table, players: set<Uid>) {
    && DistinctIds(t.slots)
    && (forall k :: 0 <= k < |t.slots| && t.slots[k].connected ==> t.slots[k].id != EMPTY)
    && ConnectedIds(t.slots) == players
    && t.connectCount == |players| == CountConnected(t.slots)
  }

  lemma {:induction false} CountIsSize(slots: seq<Slot>)
    requires DistinctIds(slots)
    requires forall k :: 0 <= k < |slots| && slots[k].connected ==> slots[k].id != EMPTY
    ensures |ConnectedIds(slots)| == CountConnected(slots)
  {
    if slots != [] {
      var rest := slots[1..];
      assert forall k :: 0 <= k < |rest| ==> rest[k] == slots[k + 1];
      CountIsSize(rest);
      var s := slots[0];
      if s.connected {
        assert s.id !in ConnectedIds(rest);
        assert ConnectedIds(slots) == ConnectedIds(rest) + {s.id};
      } else {
        assert ConnectedIds(slots) == ConnectedIds(rest);
      }
    }
  }

  lemma {:induction false} FullMeansAll(slots: seq<Slot>)
    requires forall k :: 0 <= k < |slots| ==> slots[k].connected
    ensures CountConnected(slots) == |slots|
  {
    if slots != [] {
      FullMeansAll(slots[1..]);
    }
  }

  /** A free slot is found whenever fewer players are connected than there are slots. */
  lemma RoomIsFound(t: Table, id: Uid, players: set<Uid>)
    requires Holds(t, players) && |players| < |t.slots| && id !in players && id != EMPTY
    ensures FindPuppet(t.slots, id, true) >= 0 && !t.slots[FindPuppet(t.slots, id, true)].connected
  {
    if SlotOf(t.slots, id) < 0 && FreeSlot(t.slots) < 0 {
      FullMeansAll(t.slots);
    }
    ConnectedIsIn(t.slots);
  }

  lemma ConnectedIsIn(slots: seq<Slot>)
    ensures forall j :: 0 <= j < |slots| && slots[j].connected ==> slots[j].id in ConnectedIds(slots)
  {
    forall j | 0 <= j < |slots| && slots[j].connected ensures slots[j].id in ConnectedIds(slots) {
      assert slots[j] in slots;
    }
  }

  lemma IdsOfUpdate(slots: seq<Slot>, k: nat, s: Slot)
    requires k < |slots|
    requires forall j :: 0 <= j < |slots| && j != k && slots[j].connected ==> slots[j].id != slots[k].id
    ensures ConnectedIds(slots[k := s])
            == ConnectedIds(slots) - (if slots[k].connected then {slots[k].id} else {})
               + (if s.connected then {s.id} else {})
  {
    var now := slots[k := s];
    var gone, come := if slots[k].connected then {slots[k].id} else {}, if s.connected then {s.id} else {};
    var expected := ConnectedIds(slots) - gone + come;
    forall x | x in ConnectedIds(now) ensures x in expected {
      var j :| 0 <= j < |now| && now[j].connected && now[j].id == x;
      assert j != k ==> slots[j] == now[j];
    }
    forall x | x in expected ensures x in ConnectedIds(now) {
      if s.connected && x == s.id {
        assert now[k] == s;
      } else {
        var j :| 0 <= j < |slots| && slots[j].connected && slots[j].id == x;
        assert now[j] == slots[j];
      }
    }
  }

  /** A slot rewritten so that the map stays a map. */
  lemma HoldsAfterUpdate(t: Table, players: set<Uid>, k: nat, s: Slot, count: int)
    requires Holds(t, players) && k < |t.slots|
    requires DistinctIds(t.slots[k := s]) && (s.connected ==> s.id != EMPTY)
    requires count == t.connectCount + (if s.connected then 1 else 0) - (if t.slots[k].connected then 1 else 0)
    ensures Holds(Table(t.slots[k := s], count),
                  players - (if t.slots[k].connected then {t.slots[k].id} else {})
                  + (if s.connected then {s.id} else {}))
  {
    hide CountConnected, ConnectedIds;
    var now := t.slots[k := s];
    assert forall j :: 0 <= j < |now| ==> now[j] == if j == k then s else t.slots[j];
    IdsOfConnected(t.slots, k);
    IdsOfUpdate(t.slots, k, s);
    CountOfUpdate(t.slots, k, s);
    CountIsSize(now);
  }

  /** A newcomer gets a slot. */
  lemma ConnectFollows(t: Table, id: Uid, name: Str, players: set<Uid>, strings: seq<Str>)
    requires Holds(t, players) && id != EMPTY && id !in players && |players| < |t.slots|
    ensures Holds(Receive(t, Connect(id, name), strings), players + {id})
  {
    var k := FindPuppet(t.slots, id, true);
    RoomIsFound(t, id, players);
    ReceiveKeepsMap(t, Connect(id, name), strings);
    hide SlotOf, FreeSlot, FindPuppet, ConnectedIds, DistinctIds, CountConnected;
    HoldsAfterUpdate(t, players, k, Joined(t.slots[k], id, name), t.connectCount + 1);
    SetOfUpdate(players, id);
  }

  lemma DisconnectFollows(t: Table, id: Uid, players: set<Uid>, strings: seq<Str>)
    requires Holds(t, players)
    ensures Holds(Receive(t, Disconnect(id), strings), players - {id})
  {
    var k := SlotOf(t.slots, id);
    ReceiveKeepsMap(t, Disconnect(id), strings);
    if k >= 0 && t.slots[k].connected {
      hide SlotOf, ConnectedIds, DistinctIds, CountConnected;
      HoldsAfterUpdate(t, players, k, Left(t.slots[k]), t.connectCount - 1);
      SetOfUpdate(players, id);
    } else {
      NotConnected(t, id);
      assert players - {id} == players;
    }
  }

  lemma PlayerFollows(t: Table, p: Packet, players: set<Uid>, strings: seq<Str>)
    requires Holds(t, players) && !p.Connect? && !p.Disconnect? && (p.PlayerInf? ==> p.id in players)
    ensures Holds(Receive(t, p, strings), players)
  {
    var r, k := Receive(t, p, strings), SlotOf(t.slots, p.id);
    ReceiveKeepsMap(t, p, strings);
    if p.PlayerInf? {
      MemberIsConnected(t, p.id);
    }
    if k >= 0 {
      ConnectedIsIn(t.slots);
      hide SlotOf, ConnectedIds, DistinctIds, CountConnected, Moved, Captured;
      assert r.slots == t.slots[k := r.slots[k]];
      assert r.slots[k].id == t.slots[k].id && r.slots[k].connected == t.slots[k].connected by {
        SameOccupant(t.slots[k], p, strings);
      }
      HoldsAfterUpdate(t, players, k, r.slots[k], r.connectCount);
      SetOfUpdate(players, t.slots[k].id);
    }
  }

  lemma SameOccupant(s: Slot, p: Packet, strings: seq<Str>)
    ensures p.PlayerInf? ==>
              Moved(s, strings, p.act, p.subAct).id == s.id && Moved(s, strings, p.act, p.subAct).connected
    ensures p.CaptureInf? ==> Captured(s, p.hackName).id == s.id && Captured(s, p.hackName).connected == s.connected
  {
  }

  /** One packet of an orderly stream: the table follows the membership. */
  lemma ReceiveFollows(t: Table, p: Packet, players: set<Uid>, strings: seq<Str>)
    requires Holds(t, players)
    requires p.Connect? ==> p.id != EMPTY && p.id !in players && |players| < |t.slots|
    requires p.PlayerInf? ==> p.id in players
    ensures Holds(Receive(t, p, strings),
                  if p.Connect? then players + {p.id} else if p.Disconnect? then players - {p.id} else players)
  {
    hide Receive, Holds;
    match p
    case Connect(id, name) => ConnectFollows(t, id, name, players, strings);
    case Disconnect(id) => DisconnectFollows(t, id, players, strings);
    case _ => PlayerFollows(t, p, players, strings);
  }

  lemma SetOfUpdate(players: set<Uid>, id: Uid)
    ensures players - {} + {id} == players + {id}
    ensures players - {id} + {} == players - {id} && players - {} + {} == players
    ensures id in players ==> players - {id} + {id} == players
  {
  }

  lemma IdsOfConnected(slots: seq<Slot>, k: nat)
    requires DistinctIds(slots) && k < |slots|
    requires forall j :: 0 <= j < |slots| && slots[j].connected ==> slots[j].id != EMPTY
    ensures forall j :: 0 <= j < |slots| && j != k && slots[j].connected ==> slots[j].id != slots[k].id
  {
  }

  lemma NotConnected(t: Table, id: Uid)
    requires DistinctIds(t.slots)
    requires forall j :: 0 <= j < |t.slots| && t.slots[j].connected ==> t.slots[j].id != EMPTY
    requires SlotOf(t.slots, id) < 0 || !t.slots[SlotOf(t.slots, id)].connected
    ensures id !in ConnectedIds(t.slots)
  {
  }

  lemma MemberIsConnected(t: Table, id: Uid)
    requires DistinctIds(t.slots) && id in ConnectedIds(t.slots)
    requires forall j :: 0 <= j < |t.slots| && t.slots[j].connected ==> t.slots[j].id != EMPTY
    ensures SlotOf(t.slots, id) >= 0 && t.slots[SlotOf(t.slots, id)].connected
  {
    var s :| s in t.slots && s.connected && s.id == id;
  }

  /** After every packet of an orderly stream a fresh table holds exactly the members: no newcomer is
      dropped, nobody is revived, and the count is right. */
  lemma {:induction false} TableHoldsMembers(log: seq<Packet>, capacity: nat, strings: seq<Str>)
    requires Orderly(log, capacity)
    ensures Holds(ReceiveAll(FreshTable(capacity), log, strings), Members(log))
    ensures Revivals(FreshTable(capacity), log, strings) == 0
    decreases |log|
  {
    if log == [] {
      FreshIsEmpty(capacity);
    } else {
      var before := log[..|log| - 1];
      TableHoldsMembers(before, capacity, strings);
      ReceiveFollows(ReceiveAll(FreshTable(capacity), before, strings), log[|log| - 1], Members(before), strings);
    }
    TableIsAPartialMap(capacity, log, strings);
  }

  lemma {:induction false} PrefixIsOrderly(log: seq<Packet>, capacity: nat, k: nat)
    requires Orderly(log, capacity) && k <= |log|
    ensures Orderly(log[..k], capacity)
    decreases |log|
  {
    if k < |log| {
      var before := log[..|log| - 1];
      assert before[..k] == log[..k];
      PrefixIsOrderly(before, capacity, k);
    } else {
      assert log[..k] == log;
    }
  }

  /** Whoever an orderly stream announces finds a slot nobody is connected in. */
  lemma NewcomerFindsASlot(log: seq<Packet>, capacity: nat, strings: seq<Str>, k: nat)
    requires Orderly(log, capacity) && k < |log| && log[k].Connect?
    ensures var t := ReceiveAll(FreshTable(capacity), log[..k], strings);
            FindPuppet(t.slots, log[k].id, true) >= 0 && !t.slots[FindPuppet(t.slots, log[k].id, true)].connected
  {
    PrefixIsOrderly(log, capacity, k + 1);
    assert log[..k + 1][..k] == log[..k];
    assert Orderly(log[..k], capacity) && log[k].id !in Members(log[..k]) && |Members(log[..k])| < capacity;
    TableHoldsMembers(log[..k], capacity, strings);
    RoomIsFound(ReceiveAll(FreshTable(capacity), log[..k], strings), log[k].id, Members(log[..k]));
  }

  // ---------------------------------------------------------------- any packet

  /** A table holds one set of players. */
  lemma HoldsOneSet(t: Table, players: set<Uid>, others: set<Uid>)
    requires Holds(t, players)
    ensures Holds(t, others) <==> others == players
  {
  }

  /** A packet leaves the table right exactly when it does not change who is connected. */
  lemma RightIffNotUpset(t: Table, players: set<Uid>, p: Packet, strings: seq<Str>)
    requires Holds(t, players)
    ensures Holds(Receive(t, p, strings), players) <==> !Upsets(t, p)
  {
    var r, k := Receive(t, p, strings), FindPuppet(t.slots, p.id, p.Connect?);
    if Upsets(t, p) {
      CountOfUpdate(t.slots, k, r.slots[k]);
      assert r.slots == t.slots[k := r.slots[k]];
    } else if !p.Connect? && !p.Disconnect? && k >= 0 {
      if p.PlayerInf? {
        ConnectedIsIn(t.slots);
      }
      hide CountConnected, ConnectedIds;
      PlayerFollows(t, p, players, strings);
    }
  }

  /** A second Connect of a connected player changes nothing. */
  lemma SecondConnect(t: Table, id: Uid, name: Str, players: set<Uid>, strings: seq<Str>)
    requires Holds(t, players) && id in players
    ensures Receive(t, Connect(id, name), strings) == t
    ensures FindPuppet(t.slots, id, true) >= 0 && t.slots[FindPuppet(t.slots, id, true)].id == id
  {
    MemberIsConnected(t, id);
  }

  /** A Connect makes sure that a player is seated, given room for it. */
  lemma ConnectSeats(t: Table, id: Uid, name: Str, players: set<Uid>, strings: seq<Str>)
    requires Holds(t, players) && id != EMPTY && |players + {id}| <= |t.slots|
    ensures Holds(Receive(t, Connect(id, name), strings), players + {id})
    ensures var k := FindPuppet(t.slots, id, true); k >= 0 && (t.slots[k].connected ==> t.slots[k].id == id)
  {
    if id in players {
      SecondConnect(t, id, name, players, strings);
      assert players + {id} == players;
    } else {
      assert |players + {id}| == |players| + 1;
      RoomIsFound(t, id, players);
      ConnectFollows(t, id, name, players, strings);
    }
  }

  // ---------------------------------------------------------------- a player taken off by mistake

  /** Packets among which the player neither connects nor moves. */
  predicate WithoutSignOf(packets: seq<Packet>, id: Uid) {
    forall p :: p in packets && p.id == id ==> !p.Connect? && !p.PlayerInf?
  }

  /** One of the packets seats another player in the slot. */
  predicate IsGivenAway(t: Table, packets: seq<Packet>, id: Uid, k: nat, strings: seq<Str>) {
    exists n :: 0 <= n < |packets| && GivesAway(ReceiveAll(t, packets[..n], strings), packets[n], id, k)
  }

  lemma GivenAwayLast(t: Table, packets: seq<Packet>, id: Uid, k: nat, strings: seq<Str>)
    requires packets != []
    ensures var before := packets[..|packets| - 1];
            IsGivenAway(t, packets, id, k, strings)
            <==> IsGivenAway(t, before, id, k, strings)
                 || GivesAway(ReceiveAll(t, before, strings), packets[|packets| - 1], id, k)
  {
    hide GivesAway, ReceiveAll;
    var last := |packets| - 1;
    var before := packets[..last];
    assert forall n :: 0 <= n < last ==> packets[..n] == before[..n] && packets[n] == before[n];
    if n :| 0 <= n < |packets| && GivesAway(ReceiveAll(t, packets[..n], strings), packets[n], id, k) && n != last {
      assert GivesAway(ReceiveAll(t, before[..n], strings), before[n], id, k);
    }
    if n :| 0 <= n < last && GivesAway(ReceiveAll(t, before[..n], strings), before[n], id, k) {
      assert GivesAway(ReceiveAll(t, packets[..n], strings), packets[n], id, k);
    }
  }

  /** The slot of a player that is not connected waits for it until another player is seated there, and
      then the player has none. */
  lemma WaitsOrIsGiven(t: Table, p: Packet, id: Uid, k: nat, strings: seq<Str>)
    requires DistinctIds(t.slots) && id != EMPTY && SlotOf(t.slots, id) == k && !t.slots[k].connected
    requires p.id == id ==> !p.Connect? && !p.PlayerInf?
    ensures var r := Receive(t, p, strings);
            if GivesAway(t, p, id, k) then SlotOf(r.slots, id) < 0
            else SlotOf(r.slots, id) == k && !r.slots[k].connected
  {
    var r := Receive(t, p, strings);
    assert forall j :: 0 <= j < |t.slots| && j != k ==> t.slots[j].id != id;
    if r != t {
      assert forall j :: 0 <= j < |t.slots| && j != k ==> r.slots[j].id != id;
      assert !GivesAway(t, p, id, k) ==> r.slots[k].id == id;
    }
  }

  lemma StaysWithout(t: Table, p: Packet, id: Uid, strings: seq<Str>)
    requires SlotOf(t.slots, id) < 0 && (p.id == id ==> !p.Connect?)
    ensures SlotOf(Receive(t, p, strings).slots, id) < 0
  {
  }

  lemma {:induction false} WaitsUnlessGiven(t: Table, packets: seq<Packet>, id: Uid, k: nat, strings: seq<Str>)
    requires DistinctIds(t.slots) && id != EMPTY && SlotOf(t.slots, id) == k && !t.slots[k].connected
    requires WithoutSignOf(packets, id)
    ensures var r := ReceiveAll(t, packets, strings);
            && DistinctIds(r.slots)
            && if IsGivenAway(t, packets, id, k, strings) then SlotOf(r.slots, id) < 0
               else SlotOf(r.slots, id) == k && !r.slots[k].connected
    decreases |packets|
  {
    if packets != [] {
      var before, p := packets[..|packets| - 1], packets[|packets| - 1];
      assert p in packets && forall q :: q in before ==> q in packets;
      GivenAwayLast(t, packets, id, k, strings);
      var s := ReceiveAll(t, before, strings);
      hide IsGivenAway, SlotOf, DistinctIds, GivesAway, Receive;
      WaitsUnlessGiven(t, before, id, k, strings);
      ReceiveKeepsMap(s, p, strings);
      if IsGivenAway(t, before, id, k, strings) {
        StaysWithout(s, p, id, strings);
      } else {
        WaitsOrIsGiven(s, p, id, k, strings);
      }
    }
  }

  /** A packet that moves a player which is not connected. */
  lemma MovedBack(t: Table, id: Uid, act: PlayerAnims.s32, subAct: PlayerAnims.s32, strings: seq<Str>)
    requires DistinctIds(t.slots) && id != EMPTY
    requires SlotOf(t.slots, id) >= 0 ==> !t.slots[SlotOf(t.slots, id)].connected
    ensures var r := Receive(t, PlayerInf(id, act, subAct), strings);
            && id !in ConnectedIds(t.slots)
            && if SlotOf(t.slots, id) < 0 then r == t
               else ConnectedIds(r.slots) == ConnectedIds(t.slots) + {id} && r.connectCount == t.connectCount
  {
    var k := SlotOf(t.slots, id);
    if k >= 0 {
      var s := Moved(t.slots[k], strings, act, subAct);
      assert s.connected && s.id == id;
      hide SlotOf, Moved, ConnectedIds;
      OthersElsewhere(t.slots, k);
      IdsOfUpdate(t.slots, k, s);
    }
    AbsentIds(t.slots, id);
  }

  lemma OthersElsewhere(slots: seq<Slot>, k: nat)
    requires DistinctIds(slots) && k < |slots| && slots[k].id != EMPTY
    ensures forall j :: 0 <= j < |slots| && j != k ==> slots[j].id != slots[k].id
  {
  }

  lemma AbsentIds(slots: seq<Slot>, id: Uid)
    requires DistinctIds(slots) && id != EMPTY
    requires SlotOf(slots, id) >= 0 ==> !slots[SlotOf(slots, id)].connected
    ensures id !in ConnectedIds(slots)
  {
  }

  lemma TakenOff(t: Table, id: Uid, players: set<Uid>, strings: seq<Str>)
    requires Holds(t, players) && id in players
    ensures var k, gone := SlotOf(t.slots, id), Receive(t, Disconnect(id), strings);
            && id != EMPTY && k >= 0 && DistinctIds(gone.slots)
            && SlotOf(gone.slots, id) == k && !gone.slots[k].connected && gone.slots[k].id == id
  {
    MemberIsConnected(t, id);
    ReceiveKeepsMap(t, Disconnect(id), strings);
    ConnectedIsIn(t.slots);
  }

  /** A player that was taken off by mistake is back at its next PlayerInf, counted one too few, if and
      only if its slot was not given away before that; otherwise the packet changes nothing. */
  lemma ComesBackIff(
      t: Table, id: Uid, players: set<Uid>, between: seq<Packet>,
      act: PlayerAnims.s32, subAct: PlayerAnims.s32, strings: seq<Str>)
    requires Holds(t, players) && id in players && WithoutSignOf(between, id)
    ensures var gone := Receive(t, Disconnect(id), strings);
            var later := ReceiveAll(gone, between, strings);
            var back := Receive(later, PlayerInf(id, act, subAct), strings);
            && id !in ConnectedIds(later.slots)
            && (id in ConnectedIds(back.slots) <==> !IsGivenAway(gone, between, id, SlotOf(t.slots, id), strings))
            && back.connectCount == later.connectCount
            && if id in ConnectedIds(back.slots) then ConnectedIds(back.slots) == ConnectedIds(later.slots) + {id}
               else back == later
  {
    var gone := Receive(t, Disconnect(id), strings);
    TakenOff(t, id, players, strings);
    hide *;
    WaitsUnlessGiven(gone, between, id, SlotOf(t.slots, id), strings);
    MovedBack(ReceiveAll(gone, between, strings), id, act, subAct, strings);
  }

  /** If the packets in between leave the table right for the others, it then holds exactly them and the
      player, and its count is one short. */
  lemma BackButMiscounted(
      t: Table, id: Uid, players: set<Uid>, between: seq<Packet>, others: set<Uid>,
      act: PlayerAnims.s32, subAct: PlayerAnims.s32, strings: seq<Str>)
    requires Holds(t, players) && id in players && WithoutSignOf(between, id)
    requires Holds(ReceiveAll(Receive(t, Disconnect(id), strings), between, strings), others)
    requires !IsGivenAway(Receive(t, Disconnect(id), strings), between, id, SlotOf(t.slots, id), strings)
    ensures var later := ReceiveAll(Receive(t, Disconnect(id), strings), between, strings);
            var back := Receive(later, PlayerInf(id, act, subAct), strings);
            ConnectedIds(back.slots) == others + {id} && back.connectCount == |others + {id}| - 1
  {
    ComesBackIff(t, id, players, between, act, subAct, strings);
  }

  lemma NothingBetween(t: Table, id: Uid, k: nat, strings: seq<Str>)
    ensures ReceiveAll(t, [], strings) == t && WithoutSignOf([], id) && !IsGivenAway(t, [], id, k, strings)
  {
  }

  lemma BackAtOnce(t: Table, move: Packet, players: set<Uid>, strings: seq<Str>)
    requires Holds(t, players) && move.PlayerInf? && move.id in players
    ensures var back := Receive(Receive(t, Disconnect(move.id), strings), move, strings);
            ConnectedIds(back.slots) == players && back.connectCount == |players| - 1
  {
    var gone := Receive(t, Disconnect(move.id), strings);
    DisconnectFollows(t, move.id, players, strings);
    TakenOff(t, move.id, players, strings);
    NothingBetween(gone, move.id, SlotOf(t.slots, move.id), strings);
    hide *;
    BackButMiscounted(t, move.id, players, [], players - {move.id}, move.act, move.subAct, strings);
    assert players - {move.id} + {move.id} == players;
  }
}
