/** The server's list and the mods' slot tables together: what each player is told, step by step, and
    when its table then holds exactly the other connected players. The two sides meet at the level of
    messages, not of bytes (server/Server/Server.cs, mod/src/server/Client.cpp). */
module Roster {
  import opened PacketHeader
  import opened Sessions
  import P = PuppetTable
  import C = SlotCounting

  type Packet = P.Packet

  /** How a mod decodes forwarded frames: in any way, but as packets of their sender. */
  type Decoder = d: (Guid, Bytes) -> Packet | forall id: Guid, body: Bytes :: d(id, body).id == id
    witness (id: Guid, body: Bytes) => P.PlayerInf(id, 0, 0)

  /** What a message means to the slot table. Costumes do not touch it. */
  function PacketsOf(d: Decoder, note: Note): seq<Packet> {
    match note
    case ConnectNote(id) => [P.Connect(id, [])]
    case DisconnectNote(id) => [P.Disconnect(id)]
    case FrameNote(id, body) => [d(id, body)]
    case CostumeNote(_, _) => []
  }

  /** The packets among these messages that go to `r`, in order. */
  function Heard(d: Decoder, messages: seq<Delivery>, r: Ref): seq<Packet> {
    if messages == [] then []
    else (if messages[0].to == r then PacketsOf(d, messages[0].note) else []) + Heard(d, messages[1..], r)
  }

  /** Is this object the entry of a connected player? */
  ghost predicate IsHere(p: Players, r: Ref) {
    r in p.clients && r in p.objects && p.objects[r].connected
  }

  ghost predicate ConnectedAs(p: Players, id: Guid) {
    exists c :: IsHere(p, c) && p.objects[c].id == id
  }

  /** The ids of the connected players, and those of the others. */
  ghost function AllIds(p: Players): set<Guid> {
    set c | c in p.clients && IsHere(p, c) :: p.objects[c].id
  }

  ghost function OtherIds(p: Players, id: Guid): set<Guid> {
    AllIds(p) - {id}
  }

  /** The slots a mod uses once it is told `MaxPlayers`. */
  function Capacity(max: nat): nat {
    if max > 0 then max - 1 else 0
  }

  /** The table of a mod that has received these packets. */
  function TableFor(max: nat, log: seq<Packet>, strings: seq<P.Str>): P.Table {
    P.ReceiveAll(P.FreshTable(Capacity(max)), log, strings)
  }

  /** A connected player's table holds exactly the others. */
  ghost predicate Right(p: Players, max: nat, r: Ref, t: P.Table) {
    IsHere(p, r) ==> C.Holds(t, OtherIds(p, p.objects[r].id))
  }

  ghost predicate Unadmitted(w: World, r: Ref) {
    r !in w.players.objects || exists h :: h in w.handlers && w.handlers[h] == Handler(r, true)
  }

  /** Nobody registers under the empty id. */
  predicate HasId(e: Event) {
    e.First? && e.hello.Connect? ==> e.hello.id != EMPTY
  }

  /** Every player and every admitted session has an id. */
  ghost predicate Named(w: World) {
    && (forall c :: c in w.players.clients && c in w.players.objects ==> w.players.objects[c].id != EMPTY)
    && forall h :: h in w.handlers && !w.handlers[h].first ==>
         w.handlers[h].client in w.players.objects && w.players.objects[w.handlers[h].client].id != EMPTY
  }

  /** Does the event end its handler? */
  ghost predicate Ends(w: World, e: Event)
    requires Enabled(w, e)
  {
    match e
    case Accept(_, _, _) => false
    case First(h, hello, copy, _) => !Admit(w.players, w.max, w.handlers[h].client, hello, copy).1.Admitted?
    case Later(h, id, _, _, _) =>
      var me := w.players.objects[w.handlers[h].client].id;
      id != me && me != EMPTY
    case Close(_) => true
  }

  /** What makes the table of `r` wrong: news that a player has left who is still connected through
      another session, or a forwarded frame that changes who is connected in the table. */
  ghost predicate Misleads(d: Decoder, w: World, e: Event, r: Ref, t: P.Table)
    requires Enabled(w, e)
  {
    IsHere(w.players, r) && !e.Accept? &&
    var was := w.players.objects[w.handlers[e.h].client];
    was.id != w.players.objects[r].id &&
    if Ends(w, e) then was.connected && ConnectedAs(Step(w, e).0.players, was.id)
    else e.Later? && e.forward && P.Upsets(t, d(e.id, e.body))
  }

  // ---------------------------------------------------------------- counting

  lemma IdsOfFirst(p: Players)
    requires p.clients != [] && p.clients[0] in p.objects
    ensures var first := p.objects[p.clients[0]];
            AllIds(p) == AllIds(Players(p.objects, p.clients[1..])) + (if first.connected then {first.id} else {})
  {
    var rest := Players(p.objects, p.clients[1..]);
    assert p.clients == [p.clients[0]] + rest.clients;
    assert forall c :: IsHere(p, c) <==> IsHere(rest, c) || (p.objects[p.clients[0]].connected && c == p.clients[0]);
    hide IsHere;
    assert p.objects[p.clients[0]].connected ==> IsHere(p, p.clients[0]);
  }

  lemma {:induction false} IdsAreCounted(p: Players)
    requires Known(p.objects, p.clients)
    ensures |AllIds(p)| <= CountConnected(p.objects, p.clients)
    decreases |p.clients|
  {
    if p.clients == [] {
      assert AllIds(p) == {};
    } else {
      IdsOfFirst(p);
      hide AllIds;
      IdsAreCounted(Players(p.objects, p.clients[1..]));
    }
  }

  /** A connected player has at most `max - 1` others. */
  lemma FewOthers(p: Players, max: nat, c: Ref)
    requires ListInv(p, max) && IsHere(p, c)
    ensures max > 0 && |OtherIds(p, p.objects[c].id)| <= max - 1
  {
    IdsAreCounted(p);
    assert p.objects[c].id in AllIds(p);
  }

  // ---------------------------------------------------------------- what is heard of a broadcast

  lemma {:induction false} HeardOfConcat(d: Decoder, a: seq<Delivery>, b: seq<Delivery>, r: Ref)
    ensures Heard(d, a + b, r) == Heard(d, a, r) + Heard(d, b, r)
  {
    if a == [] {
      assert a + b == b;
    } else {
      assert (a + b)[1..] == a[1..] + b;
      HeardOfConcat(d, a[1..], b, r);
    }
  }

  lemma {:induction false} HeardOfToEach(d: Decoder, clients: seq<Ref>, note: Note, r: Ref)
    requires forall i, j :: 0 <= i < j < |clients| ==> clients[i] != clients[j]
    ensures Heard(d, ToEach(clients, note), r) == if r in clients then PacketsOf(d, note) else []
  {
    if clients != [] {
      var rest := clients[1..];
      assert ToEach(clients, note)[1..] == ToEach(rest, note);
      HeardOfToEach(d, rest, note, r);
      assert r in clients <==> r == clients[0] || r in rest;
      if r == clients[0] {
        assert r !in rest;
      }
    }
  }

  lemma HeardOfBroadcast(d: Decoder, p: Players, id: Guid, note: Note, r: Ref)
    requires Known(p.objects, p.clients) && DistinctIds(p.objects, p.clients)
    ensures Heard(d, ToEach(Others(p.objects, p.clients, id), note), r)
            == if IsOther(p, id, r) then PacketsOf(d, note) else []
  {
    OthersAreDistinct(p.objects, p.clients, id);
    HeardOfToEach(d, Others(p.objects, p.clients, id), note, r);
  }

  function Arrivals(objects: map<Ref, Player>, order: seq<Ref>): seq<Packet>
    requires Known(objects, order)
  {
    if order == [] then [] else [P.Connect(objects[order[0]].id, [])] + Arrivals(objects, order[1..])
  }

  lemma {:induction false} MetAreKnown(objects: map<Ref, Player>, order: seq<Greeting>)
    requires AllKnown(objects, order)
    ensures Known(objects, Met(order))
  {
    if order != [] {
      assert forall i :: 0 <= i < |order[1..]| ==> order[1..][i] == order[i + 1];
      MetAreKnown(objects, order[1..]);
    }
  }

  function Arrival(objects: map<Ref, Player>, g: Greeting): seq<Packet>
    requires g.other in objects
  {
    if g.Meet? then [P.Connect(objects[g.other].id, [])] else []
  }

  lemma HeardOfGreeting(d: Decoder, objects: map<Ref, Player>, g: Greeting, to: Ref, r: Ref)
    requires g.other in objects
    ensures Heard(d, Greet(objects, g, to), r) == if r == to then Arrival(objects, g) else []
  {
    var first := Greet(objects, g, to);
    assert first != [] ==> first[1..] == [];
  }

  lemma ArrivalsOfMet(objects: map<Ref, Player>, order: seq<Greeting>)
    requires AllKnown(objects, order) && order != []
    ensures Known(objects, Met(order)) && Known(objects, Met(order[1..]))
    ensures Arrivals(objects, Met(order)) == Arrival(objects, order[0]) + Arrivals(objects, Met(order[1..]))
  {
    MetAreKnown(objects, order);
    var rest := Met(order[1..]);
    assert order[0].Meet? ==> ([order[0].other] + rest)[1..] == rest;
    assert order[0].Dress? ==> Met(order) == rest;
  }

  /** The newcomer hears of everybody it meets, whatever costumes come in between. */
  lemma {:induction false} HeardOfWelcome(
      d: Decoder, objects: map<Ref, Player>, order: seq<Greeting>, to: Ref, r: Ref)
    requires AllKnown(objects, order)
    ensures Known(objects, Met(order))
    ensures Heard(d, Welcome(objects, order, to), r) == if r == to then Arrivals(objects, Met(order)) else []
  {
    MetAreKnown(objects, order);
    if order != [] {
      ArrivalsOfMet(objects, order);
      HeardOfGreeting(d, objects, order[0], to, r);
      assert forall i :: 0 <= i < |order[1..]| ==> order[1..][i] == order[i + 1];
      hide Heard, Arrivals, Arrival, Greet, Met;
      HeardOfWelcome(d, objects, order[1..], to, r);
      HeardOfConcat(d, Greet(objects, order[0], to), Welcome(objects, order[1..], to), r);
    }
  }

  // ---------------------------------------------------------------- a new player

  lemma OrderlyNext(log: seq<Packet>, p: Packet, capacity: nat)
    requires C.Orderly(log, capacity)
    requires p.Connect? ==> p.id != EMPTY && p.id !in C.Members(log) && |C.Members(log)| < capacity
    requires p.PlayerInf? ==> p.id in C.Members(log)
    ensures C.Orderly(log + [p], capacity)
    ensures C.Members(log + [p])
            == if p.Connect? then C.Members(log) + {p.id}
               else if p.Disconnect? then C.Members(log) - {p.id} else C.Members(log)
  {
    assert (log + [p])[..|log|] == log;
  }

  ghost function IdsOf(objects: map<Ref, Player>, order: seq<Ref>): set<Guid>
    requires Known(objects, order)
  {
    set r | r in order :: objects[r].id
  }

  lemma IdsOfOrder(objects: map<Ref, Player>, order: seq<Ref>)
    requires Known(objects, order) && order != [] && DistinctIds(objects, order)
    ensures Known(objects, order[1..]) && DistinctIds(objects, order[1..])
    ensures IdsOf(objects, order) == {objects[order[0]].id} + IdsOf(objects, order[1..])
    ensures objects[order[0]].id !in IdsOf(objects, order[1..])
  {
    var rest := order[1..];
    assert forall i :: 0 <= i < |rest| ==> rest[i] == order[i + 1];
    assert order == [order[0]] + rest;
  }

  lemma ArrivalsStart(objects: map<Ref, Player>, log: seq<Packet>, order: seq<Ref>)
    requires Known(objects, order) && order != []
    ensures log + Arrivals(objects, order)
            == log + [P.Connect(objects[order[0]].id, [])] + Arrivals(objects, order[1..])
  {
  }

  lemma AddOne(before: set<Guid>, id: Guid, rest: set<Guid>)
    requires before !! {id} + rest && id !in rest
    ensures before + {id} !! rest && before + {id} + rest == before + ({id} + rest)
    ensures |before + {id}| == |before| + 1
  {
  }

  /** The welcome announces players with distinct ids, so it is orderly however it is ordered. */
  lemma {:induction false} ArrivalsAreOrderly(
      objects: map<Ref, Player>, log: seq<Packet>, order: seq<Ref>, capacity: nat)
    requires Known(objects, order) && DistinctIds(objects, order) && EMPTY !in IdsOf(objects, order)
    requires C.Orderly(log, capacity) && |C.Members(log)| + |order| <= capacity
    requires C.Members(log) !! IdsOf(objects, order)
    ensures C.Orderly(log + Arrivals(objects, order), capacity)
    ensures C.Members(log + Arrivals(objects, order)) == C.Members(log) + IdsOf(objects, order)
    decreases |order|
  {
    if order == [] {
      assert log + Arrivals(objects, order) == log;
    } else {
      var first, rest := objects[order[0]].id, order[1..];
      var p := P.Connect(first, []);
      IdsOfOrder(objects, order);
      ArrivalsStart(objects, log, order);
      hide C.Orderly, C.Members, IdsOf, DistinctIds, Arrivals, Known;
      AddOne(C.Members(log), first, IdsOf(objects, rest));
      OrderlyNext(log, p, capacity);
      ArrivalsAreOrderly(objects, log + [p], rest, capacity);
    }
  }

  // ---------------------------------------------------------------- the order of the welcome

  lemma OrderedIds(p: Players, order: seq<Ref>, id: Guid)
    requires Known(p.objects, p.clients) && Known(p.objects, order)
    requires IsOrderOf(order, Others(p.objects, p.clients, id))
    ensures IdsOf(p.objects, order) == OtherIds(p, id)
  {
    forall x | x in OtherIds(p, id) ensures x in IdsOf(p.objects, order) {
      var c :| c in p.clients && c in p.objects && p.objects[c].connected && p.objects[c].id == x;
      assert c in Others(p.objects, p.clients, id);
    }
  }

  /** However the welcome is ordered, it announces each other player once. */
  lemma OrderIsDistinct(p: Players, order: seq<Ref>, id: Guid)
    requires Known(p.objects, p.clients) && DistinctIds(p.objects, p.clients)
    requires IsOrderOf(order, Others(p.objects, p.clients, id))
    ensures Known(p.objects, order) && DistinctIds(p.objects, order)
    ensures |order| == |Others(p.objects, p.clients, id)|
    ensures IdsOf(p.objects, order) == OtherIds(p, id)
  {
    var others := Others(p.objects, p.clients, id);
    OthersAreDistinct(p.objects, p.clients, id);
    assert |order| == |multiset(order)| == |multiset(others)|;
    assert Known(p.objects, order) by {
      assert forall i :: 0 <= i < |order| ==> order[i] in order;
    }
    OrderedIds(p, order, id);
    forall i, j | 0 <= i < j < |order| ensures p.objects[order[i]].id != p.objects[order[j]].id {
      if order[i] == order[j] {
        TwoIn(order, i, j);
        NoneTwice(others, order[i]);
      }
      assert order[i] in others && order[j] in others;
      OthersDistinct(p, order[i], order[j]);
    }
  }

  /** The others and the player itself are among those connected. */
  lemma {:induction false} OthersCount(objects: map<Ref, Player>, clients: seq<Ref>, c: Ref)
    requires Known(objects, clients) && c in clients && objects[c].connected
    ensures |Others(objects, clients, objects[c].id)| + 1 <= CountConnected(objects, clients)
  {
    if c == clients[0] {
      OthersAtMost(objects, clients[1..], objects[c].id);
    } else {
      OthersCount(objects, clients[1..], c);
    }
  }

  lemma {:induction false} OthersAtMost(objects: map<Ref, Player>, clients: seq<Ref>, id: Guid)
    requires Known(objects, clients)
    ensures |Others(objects, clients, id)| <= CountConnected(objects, clients)
  {
    if clients != [] {
      OthersAtMost(objects, clients[1..], id);
    }
  }

  // ---------------------------------------------------------------- the ids of the others

  lemma OthersDistinct(p: Players, r: Ref, c: Ref)
    requires Known(p.objects, p.clients) && DistinctIds(p.objects, p.clients)
    requires r in p.clients && c in p.clients && r != c
    ensures p.objects[r].id != p.objects[c].id
  {
    var i :| 0 <= i < |p.clients| && p.clients[i] == r;
    var j :| 0 <= j < |p.clients| && p.clients[j] == c;
  }

  lemma IdsBesideLeaver(p: Players, client: Ref)
    requires client in p.objects
    ensures AllIds(Leave(p, client)) - {p.objects[client].id} == AllIds(p) - {p.objects[client].id}
  {
    var q, me := Leave(p, client), p.objects[client];
    forall id | id in AllIds(p) && id != me.id ensures id in AllIds(q) {
      var r :| r in p.clients && r in p.objects && p.objects[r].connected && p.objects[r].id == id;
      assert q.objects[r] == p.objects[r];
    }
  }

  lemma ConnectedAsIsAmong(p: Players, id: Guid)
    ensures ConnectedAs(p, id) <==> id in AllIds(p)
  {
  }

  lemma DropIff(before: set<Guid>, after: set<Guid>, id: Guid, me: Guid)
    requires after - {id} == before - {id} && id != me
    ensures before - {me} - {id} == after - {me} <==> id !in after
  {
    assert before - {me} - {id} == before - {id} - {me};
    if id in after {
      assert id in after - {me};
    } else {
      assert after - {id} == after;
    }
  }

  lemma WornIds(p: Players, client: Ref, costume: Costume)
    requires client in p.objects
    ensures AllIds(Wear(p, client, costume)) == AllIds(p)
  {
    var q := Wear(p, client, costume);
    forall id | id in AllIds(p) ensures id in AllIds(q) {
      var r :| r in p.clients && r in p.objects && p.objects[r].connected && p.objects[r].id == id;
      assert q.objects[r].id == id;
    }
    forall id | id in AllIds(q) ensures id in AllIds(p) {
      var r :| r in q.clients && r in q.objects && q.objects[r].connected && q.objects[r].id == id;
      assert p.objects[r].id == id;
    }
  }

  /** Whoever is here and does not have the newcomer's id stays. */
  lemma AdmittedKeepsOthers(p: Players, max: nat, client: Ref, hello: Hello, copy: Ref, r: Ref)
    requires Known(p.objects, p.clients) && client in p.objects && client !in p.clients && copy !in p.objects
    requires Admit(p, max, client, hello, copy).1.Admitted?
    requires IsHere(p, r) && p.objects[r].id != hello.id
    ensures var q := Admit(p, max, client, hello, copy).0; IsHere(q, r) && q.objects[r] == p.objects[r]
  {
    AdmittedList(p, max, client, hello, copy);
    hide Admit, CountConnected, Known;
    if Listed(p.objects, p.clients, hello.id) {
      StillIn(p.clients, IndexOfId(p.objects, p.clients, hello.id), copy, r);
    }
  }

  /** The newcomer is here under its id, and nobody else was not here before. */
  lemma AdmittedIsHere(p: Players, max: nat, client: Ref, hello: Hello, copy: Ref)
    requires Known(p.objects, p.clients) && client in p.objects && client !in p.clients && copy !in p.objects
    requires Admit(p, max, client, hello, copy).1.Admitted?
    ensures var (q, a) := Admit(p, max, client, hello, copy);
            && IsHere(q, a.client) && q.objects[a.client].id == hello.id
            && forall r :: IsHere(q, r) && r != a.client ==> IsHere(p, r) && q.objects[r] == p.objects[r]
  {
    AdmittedList(p, max, client, hello, copy);
    AdmittedFrame(p, max, client, hello, copy);
    var (q, a) := Admit(p, max, client, hello, copy);
    assert q.clients[|q.clients| - 1] == a.client;
    hide Admit, CountConnected, IndexOfId, Listed;
  }

  /** An admission adds the newcomer's id, if it was not connected already. */
  lemma AdmittedIds(p: Players, max: nat, client: Ref, hello: Hello, copy: Ref)
    requires ListInv(p, max) && client in p.objects && client !in p.clients && copy !in p.objects
    requires Admit(p, max, client, hello, copy).1.Admitted?
    ensures AllIds(Admit(p, max, client, hello, copy).0) == AllIds(p) + {hello.id}
  {
    var q := Admit(p, max, client, hello, copy).0;
    AdmittedIsHere(p, max, client, hello, copy);
    forall r | IsHere(p, r) && p.objects[r].id != hello.id ensures IsHere(q, r) && q.objects[r] == p.objects[r] {
      AdmittedKeepsOthers(p, max, client, hello, copy, r);
    }
    hide Admit, ListInv;
  }

  // ---------------------------------------------------------------- the end of a session

  lemma EndIsHeard(d: Decoder, w: World, h: nat, r: Ref)
    requires WellFormed(w) && DistinctIds(w.players.objects, w.players.clients) && h in w.handlers
    ensures var v, was := EndOf(w, h).0, w.players.objects[w.handlers[h].client];
            Heard(d, EndOf(w, h).1, r)
            == if was.connected && IsOther(v.players, was.id, r) then [P.Disconnect(was.id)] else []
  {
    var v, was := EndOf(w, h).0, w.players.objects[w.handlers[h].client];
    HeardOfBroadcast(d, v.players, was.id, DisconnectNote(was.id), r);
  }

  lemma NotConnectedBefore(p: Players, client: Ref)
    requires client in p.objects && !p.objects[client].connected
    ensures Leave(p, client) == p
  {
  }

  /** A table after the news that somebody has left: right if and only if nobody is connected under that id. */
  lemma LeaverIsDropped(t: P.Table, before: set<Guid>, after: set<Guid>, id: Guid, me: Guid, strings: seq<P.Str>)
    requires C.Holds(t, before - {me}) && after - {id} == before - {id} && id != me
    ensures C.Holds(P.Receive(t, P.Disconnect(id), strings), after - {me}) <==> id !in after
  {
    hide *;
    C.DisconnectFollows(t, id, before - {me}, strings);
    C.HoldsOneSet(P.Receive(t, P.Disconnect(id), strings), before - {me} - {id}, after - {me});
    DropIff(before, after, id, me);
  }

  /** The end of a session leaves the table of a player right if and only if it was not connected, the
      player is not told, or nobody is connected under its id any more. */
  lemma EndKeepsRightIff(d: Decoder, w: World, h: nat, r: Ref, t: P.Table, strings: seq<P.Str>)
    requires WellFormed(w) && DistinctIds(w.players.objects, w.players.clients) && h in w.handlers
    requires IsHere(w.players, r) && r != w.handlers[h].client
    requires C.Holds(t, OtherIds(w.players, w.players.objects[r].id))
    ensures var (v, messages) := EndOf(w, h);
            var me, was := w.players.objects[r].id, w.players.objects[w.handlers[h].client];
            && IsHere(v.players, r) && v.players.objects[r] == w.players.objects[r]
            && (C.Holds(P.ReceiveAll(t, Heard(d, messages, r), strings), OtherIds(v.players, me))
                <==> !(was.connected && was.id != me && ConnectedAs(v.players, was.id)))
  {
    var v, client := EndOf(w, h).0, w.handlers[h].client;
    var me, was := w.players.objects[r].id, w.players.objects[client];
    EndIsHeard(d, w, h, r);
    IdsBesideLeaver(w.players, client);
    ConnectedAsIsAmong(v.players, was.id);
    assert IsHere(v.players, r);
    assert P.ReceiveAll(t, [], strings) == t;
    if was.connected && was.id != me {
      assert IsOther(v.players, was.id, r);
      hide AllIds, Heard, ConnectedAs, Others, DistinctIds, Known, C.Holds, P.ReceiveAll;
      P.ReceiveOne(t, P.Disconnect(was.id), strings);
      LeaverIsDropped(t, AllIds(w.players), AllIds(v.players), was.id, me, strings);
    } else if !was.connected {
      NotConnectedBefore(w.players, client);
    }
    hide AllIds, Heard, ConnectedAs, Others, DistinctIds, Known, C.Holds, P.ReceiveAll;
  }

  // ---------------------------------------------------------------- a later frame

  lemma FrameKeepsRightIff(d: Decoder, p: Players, note: Note, r: Ref, t: P.Table, strings: seq<P.Str>)
    requires Known(p.objects, p.clients) && DistinctIds(p.objects, p.clients) && note.FrameNote?
    requires IsHere(p, r) && C.Holds(t, OtherIds(p, p.objects[r].id))
    ensures var messages := ToEach(Others(p.objects, p.clients, note.id), note);
            C.Holds(P.ReceiveAll(t, Heard(d, messages, r), strings), OtherIds(p, p.objects[r].id))
            <==> note.id == p.objects[r].id || !P.Upsets(t, d(note.id, note.body))
  {
    hide C.Holds, OtherIds, Heard, Others, DistinctIds, P.Upsets, P.Receive;
    HeardOfBroadcast(d, p, note.id, note, r);
    if note.id == p.objects[r].id {
      assert P.ReceiveAll(t, [], strings) == t;
    } else {
      assert IsOther(p, note.id, r);
      P.ReceiveOne(t, d(note.id, note.body), strings);
      C.RightIffNotUpset(t, OtherIds(p, p.objects[r].id), d(note.id, note.body), strings);
    }
  }

  // ---------------------------------------------------------------- an admission

  lemma AdmissionIsHeard(d: Decoder, q: Players, order: seq<Greeting>, client: Ref, id: Guid, r: Ref)
    requires Known(q.objects, q.clients) && DistinctIds(q.objects, q.clients) && AllKnown(q.objects, order)
    requires client in q.objects && q.objects[client].id == id
    ensures Known(q.objects, Met(order))
    ensures Heard(d, Welcome(q.objects, order, client) + ToEach(Others(q.objects, q.clients, id), ConnectNote(id)), r)
            == if r == client then Arrivals(q.objects, Met(order))
               else if IsOther(q, id, r) then [P.Connect(id, [])] else []
  {
    HeardOfConcat(d, Welcome(q.objects, order, client), ToEach(Others(q.objects, q.clients, id), ConnectNote(id)), r);
    HeardOfWelcome(d, q.objects, order, client, r);
    HeardOfBroadcast(d, q, id, ConnectNote(id), r);
  }

  lemma WelcomeIsOrderly(objects: map<Ref, Player>, order: seq<Ref>, others: set<Guid>, capacity: nat)
    requires Known(objects, order) && DistinctIds(objects, order) && IdsOf(objects, order) == others
    requires EMPTY !in others && |order| <= capacity
    ensures C.Orderly(Arrivals(objects, order), capacity)
    ensures C.Members(Arrivals(objects, order)) == others
  {
    hide IdsOf, DistinctIds, Arrivals, Known;
    ArrivalsAreOrderly(objects, [], order, capacity);
    assert [] + Arrivals(objects, order) == Arrivals(objects, order);
    assert {} + others == others;
  }

  lemma OthersHaveIds(p: Players, id: Guid)
    requires forall c :: c in p.clients && c in p.objects ==> p.objects[c].id != EMPTY
    ensures EMPTY !in OtherIds(p, id)
  {
  }

  lemma LengthOfMet(q: Players, max: nat, met: seq<Ref>, c: Ref)
    requires ListInv(q, max) && IsHere(q, c) && |met| == |Others(q.objects, q.clients, q.objects[c].id)|
    ensures max > 0 && |met| <= Capacity(max)
  {
    OthersCount(q.objects, q.clients, c);
  }

  /** The welcome of a newcomer is orderly, and announces exactly the others. */
  lemma NewcomerIsTold(q: Players, max: nat, met: seq<Ref>, c: Ref)
    requires ListInv(q, max) && IsHere(q, c) && EMPTY !in OtherIds(q, q.objects[c].id)
    requires IsOrderOf(met, Others(q.objects, q.clients, q.objects[c].id))
    ensures Known(q.objects, met)
    ensures C.Orderly(Arrivals(q.objects, met), Capacity(max))
    ensures C.Members(Arrivals(q.objects, met)) == OtherIds(q, q.objects[c].id)
  {
    var id := q.objects[c].id;
    assert Known(q.objects, q.clients) && DistinctIds(q.objects, q.clients);
    hide *;
    OrderIsDistinct(q, met, id);
    LengthOfMet(q, max, met, c);
    WelcomeIsOrderly(q.objects, met, OtherIds(q, id), Capacity(max));
  }

  /** Its fresh table then holds them. */
  lemma NewcomerIsRight(q: Players, max: nat, met: seq<Ref>, c: Ref, strings: seq<P.Str>)
    requires ListInv(q, max) && IsHere(q, c) && EMPTY !in OtherIds(q, q.objects[c].id)
    requires IsOrderOf(met, Others(q.objects, q.clients, q.objects[c].id))
    ensures Known(q.objects, met)
    ensures Right(q, max, c, TableFor(max, Arrivals(q.objects, met), strings))
  {
    NewcomerIsTold(q, max, met, c);
    hide C.Holds, C.Orderly, C.Members, Arrivals, OtherIds, ListInv, IsOrderOf;
    C.TableHoldsMembers(Arrivals(q.objects, met), Capacity(max), strings);
  }

  /** The others seat the newcomer, or have it already. */
  lemma OthersStayRight(p: Players, q: Players, max: nat, id: Guid, r: Ref, t: P.Table, strings: seq<P.Str>)
    requires ListInv(q, max) && IsHere(q, r) && r in p.objects && q.objects[r] == p.objects[r]
    requires AllIds(q) == AllIds(p) + {id} && id != EMPTY && id != q.objects[r].id
    requires |t.slots| == Capacity(max) && C.Holds(t, OtherIds(p, q.objects[r].id))
    ensures C.Holds(P.Receive(t, P.Connect(id, []), strings), OtherIds(q, q.objects[r].id))
    ensures var k := P.FindPuppet(t.slots, id, true); k >= 0 && (t.slots[k].connected ==> t.slots[k].id == id)
  {
    var me := q.objects[r].id;
    FewOthers(q, max, r);
    hide AllIds, C.Holds, ListInv;
    assert OtherIds(q, me) == OtherIds(p, me) + {id};
    hide *;
    C.ConnectSeats(t, id, [], OtherIds(p, me), strings);
  }

  // ---------------------------------------------------------------- who has heard nothing yet

  /** A handler that has not admitted its session has sent it nothing. */
  ghost predicate Silent(w: World, r: Ref, log: seq<Packet>) {
    Unadmitted(w, r) ==> log == []
  }

  lemma EndUnadmitted(w: World, h: nat, r: Ref)
    requires Inv(w) && h in w.handlers && Unadmitted(EndOf(w, h).0, r)
    ensures Unadmitted(w, r) && !IsOther(EndOf(w, h).0.players, w.players.objects[w.handlers[h].client].id, r)
  {
    hide ListInv, Others;
    var v := EndOf(w, h).0;
    if r in v.players.objects {
      var g :| g in v.handlers && v.handlers[g] == Handler(r, true);
      assert w.handlers[g] == Handler(r, true);
    }
  }

  lemma FirstUnadmitted(w: World, h: nat, hello: Hello, copy: Ref, r: Ref)
    requires Inv(w) && h in w.handlers && w.handlers[h].first && copy !in w.players.objects
    requires Admit(w.players, w.max, w.handlers[h].client, hello, copy).1.Admitted?
    requires var (q, a) := Admit(w.players, w.max, w.handlers[h].client, hello, copy);
             Unadmitted(World(q, w.handlers[h := Handler(a.client, false)], w.max), r)
    ensures Unadmitted(w, r)
    ensures var (q, a) := Admit(w.players, w.max, w.handlers[h].client, hello, copy);
            r != a.client && !IsOther(q, hello.id, r)
  {
    var (q, a) := Admit(w.players, w.max, w.handlers[h].client, hello, copy);
    AdmittedFrame(w.players, w.max, w.handlers[h].client, hello, copy);
    var handlers := w.handlers[h := Handler(a.client, false)];
    hide Admit, ListInv;
    if r in q.objects {
      var g :| g in handlers && handlers[g] == Handler(r, true);
      assert w.handlers[g] == Handler(r, true);
    }
  }

  lemma FirstSilent(d: Decoder, w: World, h: nat, hello: Hello, copy: Ref, order: seq<Greeting>, r: Ref)
    requires Inv(w) && CanStart(w, h, hello, copy, order)
    requires Admit(w.players, w.max, w.handlers[h].client, hello, copy).1.Admitted?
    requires Unadmitted(FirstStep(w, h, hello, copy, order).0, r)
    ensures Unadmitted(w, r) && Heard(d, FirstStep(w, h, hello, copy, order).1, r) == []
  {
    var client := w.handlers[h].client;
    var (q, a) := Admit(w.players, w.max, client, hello, copy);
    FirstUnadmitted(w, h, hello, copy, r);
    AdmitKeepsListInv(w.players, w.max, client, hello, copy);
    AdmittedList(w.players, w.max, client, hello, copy);
    assert DistinctIds(q.objects, q.clients);
    hide Admit, ListInv, Others, Heard, Unadmitted, IsOther, Welcome;
    AdmissionIsHeard(d, q, order, a.client, hello.id, r);
  }

  lemma EndSilent(d: Decoder, w: World, h: nat, r: Ref)
    requires Inv(w) && h in w.handlers && Unadmitted(EndOf(w, h).0, r)
    ensures Unadmitted(w, r) && Heard(d, EndOf(w, h).1, r) == []
  {
    EndUnadmitted(w, h, r);
    hide Unadmitted, Others, Heard;
    EndIsHeard(d, w, h, r);
  }

  lemma FrameSilent(d: Decoder, w: World, note: Note, r: Ref)
    requires Inv(w) && Unadmitted(w, r)
    ensures Heard(d, ToEach(Others(w.players.objects, w.players.clients, note.id), note), r) == []
  {
    assert !IsOther(w.players, note.id, r);
    hide Unadmitted;
    HeardOfBroadcast(d, w.players, note.id, note, r);
  }

  lemma AcceptSilent(w: World, h: nat, client: Ref, metadata: Ref, r: Ref)
    requires Enabled(w, Accept(h, client, metadata)) && Unadmitted(AcceptStep(w, h, client, metadata), r)
    ensures Unadmitted(w, r)
  {
    var v := AcceptStep(w, h, client, metadata);
    if r in w.players.objects {
      var g :| g in v.handlers && v.handlers[g] == Handler(r, true);
      assert w.handlers[g] == Handler(r, true);
    }
  }

  lemma StepSilent(d: Decoder, w: World, e: Event, r: Ref, log: seq<Packet>)
    requires Inv(w) && Named(w) && Enabled(w, e) && Silent(w, r, log)
    ensures Silent(Step(w, e).0, r, log + Heard(d, Step(w, e).1, r))
  {
    var (v, messages) := Step(w, e);
    if Unadmitted(v, r) {
      match e
      case Accept(h, client, metadata) =>
        AcceptSilent(w, h, client, metadata, r);
      case First(h, hello, copy, order) =>
        if Ends(w, e) {
          hide Inv, Unadmitted, Heard, Admit, EndOf;
          EndSilent(d, w, h, r);
        } else {
          hide Inv, Unadmitted, Heard, FirstStep;
          FirstSilent(d, w, h, hello, copy, order, r);
        }
      case Later(h, id, body, costume, forward) =>
        if Ends(w, e) {
          hide Inv, Unadmitted, Heard, EndOf;
          EndSilent(d, w, h, r);
        } else {
          assert Unadmitted(w, r);
          hide Inv, Unadmitted, Heard, Others;
          FrameSilent(d, w, FrameNote(id, body), r);
        }
      case Close(h) =>
        hide Inv, Unadmitted, Heard, EndOf;
        EndSilent(d, w, h, r);
    }
  }

  // ---------------------------------------------------------------- one step and a table

  lemma TableOfMore(max: nat, log: seq<Packet>, heard: seq<Packet>, strings: seq<P.Str>)
    ensures TableFor(max, log + heard, strings) == P.ReceiveAll(TableFor(max, log, strings), heard, strings)
    ensures |TableFor(max, log, strings).slots| == Capacity(max)
  {
    P.ReceiveConcat(P.FreshTable(Capacity(max)), log, heard, strings);
  }

  lemma AcceptRight(w: World, h: nat, client: Ref, metadata: Ref, r: Ref, t: P.Table)
    requires Inv(w) && Enabled(w, Accept(h, client, metadata)) && Right(w.players, w.max, r, t)
    ensures Right(AcceptStep(w, h, client, metadata).players, w.max, r, t)
  {
    var v := AcceptStep(w, h, client, metadata);
    assert forall c :: IsHere(v.players, c) <==> IsHere(w.players, c);
    assert AllIds(v.players) == AllIds(w.players);
    hide Inv, AllIds, C.Holds;
  }

  lemma EndRightIff(d: Decoder, w: World, h: nat, r: Ref, t: P.Table, strings: seq<P.Str>)
    requires Inv(w) && h in w.handlers && Right(w.players, w.max, r, t)
    ensures var (v, messages) := EndOf(w, h);
            var was := w.players.objects[w.handlers[h].client];
            Right(v.players, w.max, r, P.ReceiveAll(t, Heard(d, messages, r), strings))
            <==> !(IsHere(w.players, r) && was.id != w.players.objects[r].id
                   && was.connected && ConnectedAs(v.players, was.id))
  {
    hide AllIds, OtherIds, C.Holds, P.ReceiveAll, Heard, Others, ConnectedAs;
    if IsHere(w.players, r) && r != w.handlers[h].client {
      EndKeepsRightIff(d, w, h, r, t, strings);
    }
  }

  lemma WearRight(p: Players, client: Ref, costume: Costume, max: nat, r: Ref, t: P.Table)
    requires client in p.objects
    ensures Right(Wear(p, client, costume), max, r, t) <==> Right(p, max, r, t)
  {
    WornIds(p, client, costume);
    hide AllIds, C.Holds;
  }

  lemma LaterRightIff(
      d: Decoder, w: World, note: Note, client: Ref, costume: Costume, forward: bool,
      r: Ref, t: P.Table, strings: seq<P.Str>)
    requires Inv(w) && note.FrameNote? && client in w.players.objects && w.players.objects[client].id == note.id
    requires Right(w.players, w.max, r, t)
    ensures var messages := if forward then ToEach(Others(w.players.objects, w.players.clients, note.id), note) else [];
            Right(Wear(w.players, client, costume), w.max, r, P.ReceiveAll(t, Heard(d, messages, r), strings))
            <==> !(IsHere(w.players, r) && note.id != w.players.objects[r].id
                   && forward && P.Upsets(t, d(note.id, note.body)))
  {
    var messages := if forward then ToEach(Others(w.players.objects, w.players.clients, note.id), note) else [];
    WearRight(w.players, client, costume, w.max, r, P.ReceiveAll(t, Heard(d, messages, r), strings));
    hide OtherIds, C.Holds, Wear, P.Upsets;
    assert !forward ==> P.ReceiveAll(t, Heard(d, messages, r), strings) == t;
    if IsHere(w.players, r) && forward {
      FrameKeepsRightIff(d, w.players, note, r, t, strings);
    }
  }

  lemma AdmittedNamed(w: World, h: nat, hello: Hello, copy: Ref)
    requires Inv(w) && Named(w) && h in w.handlers && w.handlers[h].first && copy !in w.players.objects
    requires Admit(w.players, w.max, w.handlers[h].client, hello, copy).1.Admitted? && hello.id != EMPTY
    ensures var (q, a) := Admit(w.players, w.max, w.handlers[h].client, hello, copy);
            Named(World(q, w.handlers[h := Handler(a.client, false)], w.max))
  {
    var client := w.handlers[h].client;
    AdmittedIsHere(w.players, w.max, client, hello, copy);
    AdmittedFrame(w.players, w.max, client, hello, copy);
    hide Admit, ListInv;
  }

  lemma NewcomerTable(q: Players, max: nat, met: seq<Ref>, c: Ref, strings: seq<P.Str>)
    requires ListInv(q, max) && IsHere(q, c) && EMPTY !in OtherIds(q, q.objects[c].id)
    requires IsOrderOf(met, Others(q.objects, q.clients, q.objects[c].id))
    ensures Known(q.objects, met)
    ensures C.Holds(P.ReceiveAll(TableFor(max, [], strings), Arrivals(q.objects, met), strings),
                    OtherIds(q, q.objects[c].id))
  {
    NewcomerIsRight(q, max, met, c, strings);
    hide ListInv, IsHere, OtherIds, Others, C.Holds, IsOrderOf, Arrivals, TableFor;
    TableOfMore(max, [], Arrivals(q.objects, met), strings);
    assert [] + Arrivals(q.objects, met) == Arrivals(q.objects, met);
  }

  /** An admission, by what it does to the list: every table is right after what its player is told. */
  lemma TellsEverybody(
      d: Decoder, p: Players, q: Players, max: nat, order: seq<Greeting>, c: Ref,
      r: Ref, log: seq<Packet>, strings: seq<P.Str>)
    requires ListInv(q, max) && IsHere(q, c) && IsHere(q, r)
    requires forall x :: x in q.clients && x in q.objects ==> q.objects[x].id != EMPTY
    requires IsWelcome(q.objects, order, Others(q.objects, q.clients, q.objects[c].id)) && AllKnown(q.objects, order)
    requires AllIds(q) == AllIds(p) + {q.objects[c].id}
    requires if r == c then log == [] else IsHere(p, r) && q.objects[r] == p.objects[r]
    requires Right(p, max, r, TableFor(max, log, strings))
    ensures var id := q.objects[c].id;
            var messages := Welcome(q.objects, order, c) + ToEach(Others(q.objects, q.clients, id), ConnectNote(id));
            C.Holds(P.ReceiveAll(TableFor(max, log, strings), Heard(d, messages, r), strings),
                    OtherIds(q, q.objects[r].id))
  {
    var id, t := q.objects[c].id, TableFor(max, log, strings);
    AdmissionIsHeard(d, q, order, c, id, r);
    OthersHaveIds(q, id);
    if r == c {
      assert IsOrderOf(Met(order), Others(q.objects, q.clients, id));
      hide *;
      NewcomerTable(q, max, Met(order), c, strings);
    } else {
      OthersDistinct(q, r, c);
      assert IsOther(q, id, r) && C.Holds(t, OtherIds(p, q.objects[r].id));
      hide *;
      TableOfMore(max, log, [], strings);
      OthersStayRight(p, q, max, id, r, t, strings);
      P.ReceiveOne(t, P.Connect(id, []), strings);
    }
  }

  lemma AdmittedRight(
      d: Decoder, w: World, h: nat, hello: Hello, copy: Ref, order: seq<Greeting>,
      r: Ref, log: seq<Packet>, strings: seq<P.Str>)
    requires Inv(w) && Named(w) && CanStart(w, h, hello, copy, order)
    requires Admit(w.players, w.max, w.handlers[h].client, hello, copy).1.Admitted? && hello.id != EMPTY
    requires Silent(w, r, log) && Right(w.players, w.max, r, TableFor(w.max, log, strings))
    ensures var (v, messages) := FirstStep(w, h, hello, copy, order);
            Right(v.players, w.max, r, P.ReceiveAll(TableFor(w.max, log, strings), Heard(d, messages, r), strings))
  {
    var client := w.handlers[h].client;
    var (q, a) := Admit(w.players, w.max, client, hello, copy);
    var messages := FirstStep(w, h, hello, copy, order).1;
    AdmittedIsHere(w.players, w.max, client, hello, copy);
    AdmittedIds(w.players, w.max, client, hello, copy);
    AdmittedFrame(w.players, w.max, client, hello, copy);
    AdmitKeepsListInv(w.players, w.max, client, hello, copy);
    AdmittedNamed(w, h, hello, copy);
    assert r == a.client ==> Unadmitted(w, r);
    hide Admit, ListInv, Inv, Named, AllIds, IsHere, Others, Heard, Unadmitted, Welcome, IsOrderOf, C.Holds, TableFor;
    if IsHere(q, r) {
      TellsEverybody(d, w.players, q, w.max, order, a.client, r, log, strings);
    }
  }

  lemma EndNamed(w: World, h: nat)
    requires WellFormed(w) && Named(w) && h in w.handlers
    ensures Named(EndOf(w, h).0)
  {
    hide Others;
  }

  lemma StepNamed(w: World, e: Event)
    requires Inv(w) && Named(w) && Enabled(w, e) && HasId(e)
    ensures Named(Step(w, e).0)
  {
    if e.First? && !Ends(w, e) {
      AdmittedHello(w.players, w.max, w.handlers[e.h].client, e.hello, e.copy);
      AdmittedNamed(w, e.h, e.hello, e.copy);
      hide Inv, Admit, Others, Named;
    } else if Ends(w, e) {
      EndNamed(w, e.h);
      hide Inv, Admit, EndOf, Named;
    } else {
      hide Inv, Admit, Others, EndOf;
    }
  }

  lemma AdmittedHello(p: Players, max: nat, client: Ref, hello: Hello, copy: Ref)
    requires Known(p.objects, p.clients) && client in p.objects && Admit(p, max, client, hello, copy).1.Admitted?
    ensures hello.Connect?
  {
  }

  /** One step: a right table stays right, or becomes right, exactly when the step does not mislead. */
  lemma StepRightIff(d: Decoder, w: World, e: Event, r: Ref, log: seq<Packet>, strings: seq<P.Str>)
    requires Inv(w) && Named(w) && Enabled(w, e) && HasId(e) && Silent(w, r, log)
    requires Right(w.players, w.max, r, TableFor(w.max, log, strings))
    ensures var (v, messages) := Step(w, e);
            Right(v.players, v.max, r, TableFor(v.max, log + Heard(d, messages, r), strings))
            <==> !Misleads(d, w, e, r, TableFor(w.max, log, strings))
  {
    var t := TableFor(w.max, log, strings);
    TableOfMore(w.max, log, Heard(d, Step(w, e).1, r), strings);
    match e
    case Accept(h, client, metadata) =>
      hide Right, Inv, TableFor, C.Holds;
      AcceptRight(w, h, client, metadata, r, t);
      assert P.ReceiveAll(t, [], strings) == t;
    case First(h, hello, copy, order) =>
      if Ends(w, e) {
        hide Right, Inv, TableFor, Heard, EndOf, Admit, IsHere, ConnectedAs, P.ReceiveAll;
        EndRightIff(d, w, h, r, t, strings);
      } else {
        AdmittedHello(w.players, w.max, w.handlers[h].client, hello, copy);
        hide Right, Inv, TableFor, Heard, FirstStep, IsHere, ConnectedAs, P.ReceiveAll, Silent, Named;
        AdmittedRight(d, w, h, hello, copy, order, r, log, strings);
      }
    case Later(h, id, body, costume, forward) =>
      if Ends(w, e) {
        hide Right, Inv, TableFor, Heard, EndOf, IsHere, ConnectedAs, P.ReceiveAll;
        EndRightIff(d, w, h, r, t, strings);
      } else {
        assert w.players.objects[w.handlers[h].client].id == id;
        hide Right, Inv, TableFor, Heard, IsHere, ConnectedAs, P.ReceiveAll, P.Upsets, Others, Wear;
        LaterRightIff(d, w, FrameNote(id, body), w.handlers[h].client, costume, forward, r, t, strings);
      }
    case Close(h) =>
      hide Right, Inv, TableFor, Heard, EndOf, IsHere, ConnectedAs, P.ReceiveAll;
      EndRightIff(d, w, h, r, t, strings);
  }

  // ---------------------------------------------------------------- every run

  /** Everything `r` was sent in the first `n` steps of a run. */
  function Log(d: Decoder, states: seq<World>, events: seq<Event>, n: nat, r: Ref): seq<Packet>
    requires n <= |events| && |events| < |states|
    requires forall i :: 0 <= i < n ==> Enabled(states[i], events[i])
  {
    if n == 0 then []
    else Log(d, states, events, n - 1, r) + Heard(d, Step(states[n - 1], events[n - 1]).1, r)
  }

  /** A run in which nobody registers under the empty id. */
  ghost predicate IsNamedRun(max: nat, states: seq<World>, events: seq<Event>) {
    IsRun(max, states, events) && forall i :: 0 <= i < |events| ==> HasId(events[i])
  }

  /** The table of `r` after `n` steps. */
  function TableOf(
      d: Decoder, max: nat, states: seq<World>, events: seq<Event>, n: nat, r: Ref, strings: seq<P.Str>): P.Table
    requires n <= |events| && |events| < |states|
    requires forall i :: 0 <= i < n ==> Enabled(states[i], events[i])
  {
    TableFor(max, Log(d, states, events, n, r), strings)
  }

  /** Agreement after `n` steps. */
  ghost predicate RightAt(
      d: Decoder, max: nat, states: seq<World>, events: seq<Event>, n: nat, r: Ref, strings: seq<P.Str>)
    requires IsNamedRun(max, states, events) && n <= |events|
  {
    Right(states[n].players, max, r, TableOf(d, max, states, events, n, r, strings))
  }

  /** Step `n` misleads `r`. */
  ghost predicate MisleadsAt(
      d: Decoder, max: nat, states: seq<World>, events: seq<Event>, n: nat, r: Ref, strings: seq<P.Str>)
    requires IsNamedRun(max, states, events) && n < |events|
  {
    Misleads(d, states[n], events[n], r, TableOf(d, max, states, events, n, r, strings))
  }

  lemma NamedStep(max: nat, states: seq<World>, events: seq<Event>, n: nat)
    requires IsNamedRun(max, states, events) && n < |events|
    ensures |states| == |events| + 1
    ensures Enabled(states[n], events[n]) && states[n + 1] == Step(states[n], events[n]).0 && HasId(events[n])
  {
    hide Step, Enabled, HasId;
  }

  lemma {:induction false} RunIsSilent(d: Decoder, max: nat, states: seq<World>, events: seq<Event>, n: nat, r: Ref)
    requires IsNamedRun(max, states, events) && n <= |events|
    ensures Named(states[n]) && Silent(states[n], r, Log(d, states, events, n, r))
  {
    hide Enabled, Step, Named, Silent, Heard, HasId;
    if n == 0 {
      InitiallySilent(max, r);
    } else {
      NamedStep(max, states, events, n - 1);
      RunIsSilent(d, max, states, events, n - 1, r);
      EveryRunKeepsInv(max, states, events, n - 1);
      StepNamed(states[n - 1], events[n - 1]);
      StepSilent(d, states[n - 1], events[n - 1], r, Log(d, states, events, n - 1, r));
    }
  }

  lemma InitiallySilent(max: nat, r: Ref)
    ensures Named(Initial(max)) && Silent(Initial(max), r, [])
  {
  }

  lemma RunStepRightIff(
      d: Decoder, max: nat, states: seq<World>, events: seq<Event>, n: nat, r: Ref, strings: seq<P.Str>)
    requires IsNamedRun(max, states, events) && n < |events| && RightAt(d, max, states, events, n, r, strings)
    ensures RightAt(d, max, states, events, n + 1, r, strings) <==> !MisleadsAt(d, max, states, events, n, r, strings)
  {
    hide Enabled, Step, Named, Silent, Heard, HasId, Right, Misleads, TableFor, Inv;
    NamedStep(max, states, events, n);
    RunIsSilent(d, max, states, events, n, r);
    EveryRunKeepsInv(max, states, events, n);
    EveryRunKeepsInv(max, states, events, n + 1);
    StepRightIff(d, states[n], events[n], r, Log(d, states, events, n, r), strings);
  }

  /** Agreement at every moment up to `n`. */
  ghost predicate RightUpTo(
      d: Decoder, max: nat, states: seq<World>, events: seq<Event>, n: nat, r: Ref, strings: seq<P.Str>)
    requires IsNamedRun(max, states, events) && n <= |events|
  {
    forall j :: 0 <= j <= n ==> RightAt(d, max, states, events, j, r, strings)
  }

  /** None of the first `n` steps misleads `r`. */
  ghost predicate NeverMisled(
      d: Decoder, max: nat, states: seq<World>, events: seq<Event>, n: nat, r: Ref, strings: seq<P.Str>)
    requires IsNamedRun(max, states, events) && n <= |events|
  {
    forall i :: 0 <= i < n ==> !MisleadsAt(d, max, states, events, i, r, strings)
  }

  lemma OneStepMore(
      d: Decoder, max: nat, states: seq<World>, events: seq<Event>, n: nat, r: Ref, strings: seq<P.Str>)
    requires IsNamedRun(max, states, events) && 0 < n <= |events|
    ensures RightUpTo(d, max, states, events, n, r, strings)
            <==> RightUpTo(d, max, states, events, n - 1, r, strings) && RightAt(d, max, states, events, n, r, strings)
    ensures NeverMisled(d, max, states, events, n, r, strings)
            <==> NeverMisled(d, max, states, events, n - 1, r, strings)
                 && !MisleadsAt(d, max, states, events, n - 1, r, strings)
    ensures RightUpTo(d, max, states, events, n - 1, r, strings) ==> RightAt(d, max, states, events, n - 1, r, strings)
  {
    hide RightAt, MisleadsAt, IsNamedRun;
  }

  lemma RightAtFirst(d: Decoder, max: nat, states: seq<World>, events: seq<Event>, r: Ref, strings: seq<P.Str>)
    requires IsNamedRun(max, states, events)
    ensures RightUpTo(d, max, states, events, 0, r, strings) && NeverMisled(d, max, states, events, 0, r, strings)
  {
    assert !IsHere(states[0].players, r);
    hide Enabled, Step, HasId, TableFor, C.Holds;
    assert RightAt(d, max, states, events, 0, r, strings);
  }

  /** Over every run, takeovers and all: a player's table holds exactly the other connected players at
      every moment up to `n` if and only if no step before `n` misleads the player. */
  lemma {:induction false} AgreementIff(
      d: Decoder, max: nat, states: seq<World>, events: seq<Event>, n: nat, r: Ref, strings: seq<P.Str>)
    requires IsNamedRun(max, states, events) && n <= |events|
    ensures RightUpTo(d, max, states, events, n, r, strings) <==> NeverMisled(d, max, states, events, n, r, strings)
  {
    hide *;
    if n == 0 {
      RightAtFirst(d, max, states, events, r, strings);
    } else {
      AgreementIff(d, max, states, events, n - 1, r, strings);
      OneStepMore(d, max, states, events, n, r, strings);
      if RightUpTo(d, max, states, events, n - 1, r, strings) {
        RunStepRightIff(d, max, states, events, n - 1, r, strings);
      }
    }
  }

  // ---------------------------------------------------------------- runs without takeovers

  /** No session takes over an id that is still connected. */
  ghost predicate Unsuperseded(w: World, e: Event) {
    e.First? && e.hello.Connect? ==> !ConnectedAs(w.players, e.hello.id)
  }

  /** Every admitted session is connected, and whoever is connected is listed. */
  ghost predicate AllListed(w: World) {
    && (forall r :: r in w.players.objects && w.players.objects[r].connected ==> IsHere(w.players, r))
    && forall h :: h in w.handlers && !w.handlers[h].first ==> IsHere(w.players, w.handlers[h].client)
  }

  lemma AdmittedKeepsListed(w: World, h: nat, hello: Hello, copy: Ref)
    requires Inv(w) && AllListed(w) && h in w.handlers && w.handlers[h].first && copy !in w.players.objects
    requires Admit(w.players, w.max, w.handlers[h].client, hello, copy).1.Admitted?
    requires !ConnectedAs(w.players, hello.id)
    ensures var (q, a) := Admit(w.players, w.max, w.handlers[h].client, hello, copy);
            AllListed(World(q, w.handlers[h := Handler(a.client, false)], w.max))
  {
    var p, client := w.players, w.handlers[h].client;
    var q := Admit(p, w.max, client, hello, copy).0;
    AdmittedIsHere(p, w.max, client, hello, copy);
    AdmittedFrame(p, w.max, client, hello, copy);
    forall r | IsHere(p, r) ensures IsHere(q, r) && q.objects[r] == p.objects[r] {
      assert p.objects[r].id != hello.id;
      AdmittedKeepsOthers(p, w.max, client, hello, copy, r);
    }
    hide Admit, ListInv, ConnectedAs;
  }

  lemma EndKeepsListed(w: World, h: nat)
    requires Inv(w) && AllListed(w) && h in w.handlers
    ensures AllListed(EndOf(w, h).0)
  {
    hide ListInv, Others;
  }

  lemma WearKeepsListed(w: World, client: Ref, costume: Costume)
    requires AllListed(w) && client in w.players.objects
    ensures AllListed(w.(players := Wear(w.players, client, costume)))
  {
  }

  lemma AcceptKeepsListed(w: World, h: nat, client: Ref, metadata: Ref)
    requires AllListed(w) && Enabled(w, Accept(h, client, metadata))
    ensures AllListed(AcceptStep(w, h, client, metadata))
  {
  }

  lemma StepKeepsListed(w: World, e: Event)
    requires Inv(w) && AllListed(w) && Enabled(w, e) && Unsuperseded(w, e)
    ensures AllListed(Step(w, e).0)
  {
    hide Inv, AllListed, Admit, EndOf, Others, Wear, AcceptStep, ConnectedAs;
    match e
    case Accept(h, client, metadata) =>
      AcceptKeepsListed(w, h, client, metadata);
    case First(h, hello, copy, order) =>
      if Ends(w, e) {
        EndKeepsListed(w, h);
      } else {
        AdmittedHello(w.players, w.max, w.handlers[h].client, hello, copy);
        AdmittedKeepsListed(w, h, hello, copy);
      }
    case Later(h, id, body, costume, forward) =>
      EndKeepsListed(w, h);
      WearKeepsListed(w, w.handlers[h].client, costume);
    case Close(h) =>
      EndKeepsListed(w, h);
  }

  /** A session's own frame takes it off the table of `r`. */
  ghost predicate DropsSender(d: Decoder, w: World, e: Event, r: Ref)
    requires Enabled(w, e)
  {
    && IsHere(w.players, r) && e.Later? && !Ends(w, e) && e.forward
    && e.id != w.players.objects[r].id && d(e.id, e.body).Disconnect?
  }

  lemma LeaverIsGone(w: World, h: nat)
    requires Inv(w) && AllListed(w) && h in w.handlers && w.players.objects[w.handlers[h].client].connected
    ensures !ConnectedAs(EndOf(w, h).0.players, w.players.objects[w.handlers[h].client].id)
  {
    var p, client := w.players, w.handlers[h].client;
    var v := EndOf(w, h).0.players;
    forall c | IsHere(v, c) ensures v.objects[c].id != p.objects[client].id {
      OthersDistinct(p, c, client);
    }
  }

  lemma SenderUpsetsIff(t: P.Table, players: set<Guid>, p: Packet)
    requires C.Holds(t, players) && p.id in players
    ensures P.Upsets(t, p) <==> p.Disconnect?
  {
    C.MemberIsConnected(t, p.id);
  }

  /** Without takeovers only a session's own Disconnect frame can mislead. */
  lemma MisleadsIffDropped(d: Decoder, w: World, e: Event, r: Ref, t: P.Table)
    requires Inv(w) && Named(w) && AllListed(w) && Enabled(w, e) && Right(w.players, w.max, r, t)
    ensures Misleads(d, w, e, r, t) <==> DropsSender(d, w, e, r)
  {
    if IsHere(w.players, r) && !e.Accept? {
      var client := w.handlers[e.h].client;
      if Ends(w, e) {
        if w.players.objects[client].connected {
          LeaverIsGone(w, e.h);
        }
        hide Inv, AllListed, Named, Admit, EndOf, ConnectedAs;
      } else if e.Later? {
        assert IsHere(w.players, client);
        assert w.players.objects[client].id in AllIds(w.players);
        hide Inv, AllListed, Others, Wear, P.Upsets, C.Holds, AllIds, IsHere;
        if e.id != w.players.objects[r].id {
          SenderUpsetsIff(t, OtherIds(w.players, w.players.objects[r].id), d(e.id, e.body));
        }
      }
    }
  }

  ghost predicate NobodySuperseded(states: seq<World>, events: seq<Event>, n: nat)
    requires n <= |events| && n <= |states|
  {
    forall i :: 0 <= i < n ==> Unsuperseded(states[i], events[i])
  }

  lemma {:induction false} RunIsListed(max: nat, states: seq<World>, events: seq<Event>, n: nat)
    requires IsNamedRun(max, states, events) && n <= |events| && NobodySuperseded(states, events, n)
    ensures AllListed(states[n])
  {
    if n > 0 {
      hide Enabled, Step, AllListed, Unsuperseded, Inv;
      NamedStep(max, states, events, n - 1);
      RunIsListed(max, states, events, n - 1);
      EveryRunKeepsInv(max, states, events, n - 1);
      StepKeepsListed(states[n - 1], events[n - 1]);
    }
  }

  /** None of the first `n` frames takes its sender off the table of `r`. */
  ghost predicate NeverDropped(
      d: Decoder, max: nat, states: seq<World>, events: seq<Event>, n: nat, r: Ref)
    requires IsNamedRun(max, states, events) && n <= |events|
  {
    forall i :: 0 <= i < n ==> !DropsSender(d, states[i], events[i], r)
  }

  lemma SupersededLater(max: nat, states: seq<World>, events: seq<Event>, n: nat)
    requires IsNamedRun(max, states, events) && 0 < n <= |events| && NobodySuperseded(states, events, n)
    ensures n <= |states| && NobodySuperseded(states, events, n - 1)
  {
    hide Unsuperseded;
  }

  lemma NeverDroppedAtFirst(d: Decoder, max: nat, states: seq<World>, events: seq<Event>, r: Ref)
    requires IsNamedRun(max, states, events)
    ensures NeverDropped(d, max, states, events, 0, r)
  {
  }

  lemma NeverDroppedNext(d: Decoder, max: nat, states: seq<World>, events: seq<Event>, n: nat, r: Ref)
    requires IsNamedRun(max, states, events) && 0 < n <= |events|
    ensures NeverDropped(d, max, states, events, n, r)
            <==> NeverDropped(d, max, states, events, n - 1, r) && !DropsSender(d, states[n - 1], events[n - 1], r)
  {
    hide DropsSender, Step, HasId;
  }

  lemma MisleadsAtIff(
      d: Decoder, max: nat, states: seq<World>, events: seq<Event>, n: nat, r: Ref, strings: seq<P.Str>)
    requires IsNamedRun(max, states, events) && n < |events| && NobodySuperseded(states, events, n)
    requires RightAt(d, max, states, events, n, r, strings)
    ensures MisleadsAt(d, max, states, events, n, r, strings) <==> DropsSender(d, states[n], events[n], r)
  {
    hide Enabled, Step, Named, Silent, Heard, HasId, Right, Misleads, TableFor, Inv, DropsSender, AllListed,
         Unsuperseded;
    NamedStep(max, states, events, n);
    RunIsSilent(d, max, states, events, n, r);
    RunIsListed(max, states, events, n);
    EveryRunKeepsInv(max, states, events, n);
    MisleadsIffDropped(d, states[n], events[n], r, TableOf(d, max, states, events, n, r, strings));
  }

  /** Over every run without takeovers each player's table holds exactly the other connected players, at
      every moment, if and only if no session sends a Disconnect frame of its own that the player gets. */
  lemma {:induction false} TablesHoldTheOthers(
      d: Decoder, max: nat, states: seq<World>, events: seq<Event>, n: nat, r: Ref, strings: seq<P.Str>)
    requires IsNamedRun(max, states, events) && n <= |events| && NobodySuperseded(states, events, n)
    ensures RightUpTo(d, max, states, events, n, r, strings) <==> NeverDropped(d, max, states, events, n, r)
  {
    hide *;
    if n == 0 {
      RightAtFirst(d, max, states, events, r, strings);
      NeverDroppedAtFirst(d, max, states, events, r);
    } else {
      SupersededLater(max, states, events, n);
      TablesHoldTheOthers(d, max, states, events, n - 1, r, strings);
      OneStepMore(d, max, states, events, n, r, strings);
      NeverDroppedNext(d, max, states, events, n, r);
      if RightUpTo(d, max, states, events, n - 1, r, strings) {
        RunStepRightIff(d, max, states, events, n - 1, r, strings);
        MisleadsAtIff(d, max, states, events, n - 1, r, strings);
      }
    }
  }

  // ---------------------------------------------------------------- room for newcomers

  /** The packet is a Connect that finds a slot: a free one, or that of its player. */
  ghost predicate IsSeated(t: P.Table, p: Packet) {
    p.Connect? &&
    var k := P.FindPuppet(t.slots, p.id, true);
    k >= 0 && (t.slots[k].connected ==> t.slots[k].id == p.id)
  }

  lemma {:induction false} ArrivalsConnect(objects: map<Ref, Player>, order: seq<Ref>, k: nat)
    requires Known(objects, order) && k < |Arrivals(objects, order)|
    ensures Arrivals(objects, order)[k].Connect?
  {
    if k > 0 {
      ArrivalsConnect(objects, order[1..], k - 1);
    }
  }

  lemma NewcomerSeats(q: Players, max: nat, met: seq<Ref>, c: Ref, k: nat, strings: seq<P.Str>)
    requires ListInv(q, max) && IsHere(q, c) && EMPTY !in OtherIds(q, q.objects[c].id)
    requires IsOrderOf(met, Others(q.objects, q.clients, q.objects[c].id)) && Known(q.objects, met)
    requires k < |Arrivals(q.objects, met)|
    ensures var packets := Arrivals(q.objects, met);
            IsSeated(P.ReceiveAll(TableFor(max, [], strings), packets[..k], strings), packets[k])
  {
    var packets := Arrivals(q.objects, met);
    NewcomerIsTold(q, max, met, c);
    ArrivalsConnect(q.objects, met, k);
    TableOfMore(max, [], packets[..k], strings);
    assert [] + packets[..k] == packets[..k];
    hide C.Orderly, C.Members, Arrivals, OtherIds, ListInv, IsOrderOf, P.ReceiveAll, P.FindPuppet;
    C.NewcomerFindsASlot(packets, Capacity(max), strings, k);
  }

  lemma SeatOfNewcomer(p: Players, q: Players, max: nat, id: Guid, r: Ref, t: P.Table, strings: seq<P.Str>)
    requires ListInv(q, max) && IsHere(q, r) && r in p.objects && q.objects[r] == p.objects[r]
    requires AllIds(q) == AllIds(p) + {id} && id != EMPTY && id != q.objects[r].id
    requires |t.slots| == Capacity(max) && C.Holds(t, OtherIds(p, q.objects[r].id))
    ensures IsSeated(t, P.Connect(id, []))
  {
    hide ListInv, IsHere, AllIds, OtherIds, C.Holds, P.FindPuppet;
    OthersStayRight(p, q, max, id, r, t, strings);
  }

  lemma AdmissionSeats(
      d: Decoder, p: Players, q: Players, max: nat, order: seq<Greeting>, c: Ref,
      r: Ref, log: seq<Packet>, k: nat, strings: seq<P.Str>)
    requires ListInv(q, max) && IsHere(q, c) && IsHere(q, r)
    requires forall x :: x in q.clients && x in q.objects ==> q.objects[x].id != EMPTY
    requires IsWelcome(q.objects, order, Others(q.objects, q.clients, q.objects[c].id)) && AllKnown(q.objects, order)
    requires AllIds(q) == AllIds(p) + {q.objects[c].id}
    requires if r == c then log == [] else IsHere(p, r) && q.objects[r] == p.objects[r]
    requires Right(p, max, r, TableFor(max, log, strings))
    requires var id := q.objects[c].id;
             k < |Heard(d, Welcome(q.objects, order, c)
                           + ToEach(Others(q.objects, q.clients, id), ConnectNote(id)), r)|
    ensures var id := q.objects[c].id;
            var packets := Heard(d, Welcome(q.objects, order, c)
                                    + ToEach(Others(q.objects, q.clients, id), ConnectNote(id)), r);
            IsSeated(P.ReceiveAll(TableFor(max, log, strings), packets[..k], strings), packets[k])
  {
    hide C.Holds, AllIds, OtherIds, Heard, Others, DistinctIds, CountConnected, Arrivals, Welcome, ToEach, TableFor,
         P.ReceiveAll, IsSeated, IsOrderOf;
    var id, t := q.objects[c].id, TableFor(max, log, strings);
    AdmissionIsHeard(d, q, order, c, id, r);
    OthersHaveIds(q, id);
    if r == c {
      hide ListInv, IsHere;
      NewcomerSeats(q, max, Met(order), c, k, strings);
    } else {
      OthersDistinct(q, r, c);
      assert IsOther(q, id, r);
      hide *;
      TableOfMore(max, log, [], strings);
      RightIsHolding(p, max, r, t);
      SeatOfNewcomer(p, q, max, id, r, t, strings);
      FirstOfOne(t, P.Connect(id, []), strings);
    }
  }

  lemma RightIsHolding(p: Players, max: nat, r: Ref, t: P.Table)
    requires IsHere(p, r) && Right(p, max, r, t)
    ensures r in p.objects && C.Holds(t, OtherIds(p, p.objects[r].id))
  {
  }

  lemma FirstOfOne(t: P.Table, p: Packet, strings: seq<P.Str>)
    ensures [p][..0] == [] && P.ReceiveAll(t, [], strings) == t
  {
  }

  lemma AdmittedSeats(
      d: Decoder, w: World, h: nat, hello: Hello, copy: Ref, order: seq<Greeting>,
      r: Ref, log: seq<Packet>, k: nat, strings: seq<P.Str>)
    requires Inv(w) && Named(w) && CanStart(w, h, hello, copy, order)
    requires Admit(w.players, w.max, w.handlers[h].client, hello, copy).1.Admitted? && hello.id != EMPTY
    requires Silent(w, r, log) && Right(w.players, w.max, r, TableFor(w.max, log, strings))
    requires IsHere(FirstStep(w, h, hello, copy, order).0.players, r)
    requires k < |Heard(d, FirstStep(w, h, hello, copy, order).1, r)|
    ensures var packets := Heard(d, FirstStep(w, h, hello, copy, order).1, r);
            IsSeated(P.ReceiveAll(TableFor(w.max, log, strings), packets[..k], strings), packets[k])
  {
    var client := w.handlers[h].client;
    var (q, a) := Admit(w.players, w.max, client, hello, copy);
    AdmittedIsHere(w.players, w.max, client, hello, copy);
    AdmittedIds(w.players, w.max, client, hello, copy);
    AdmittedFrame(w.players, w.max, client, hello, copy);
    AdmitKeepsListInv(w.players, w.max, client, hello, copy);
    AdmittedNamed(w, h, hello, copy);
    assert r == a.client ==> Unadmitted(w, r);
    hide Admit, ListInv, Inv, Named, AllIds, IsHere, Others, Heard, Unadmitted, Welcome, IsOrderOf, C.Holds, TableFor,
         IsSeated, P.ReceiveAll;
    AdmissionSeats(d, w.players, q, w.max, order, a.client, r, log, k, strings);
  }

  /** In every run, whenever somebody is admitted: every Connect that a player with a right table is sent
      finds a slot among the `MaxPlayers - 1`, and so does every one of the newcomer's welcome. */
  lemma NewcomersFindSlots(
      d: Decoder, max: nat, states: seq<World>, events: seq<Event>, n: nat, r: Ref, strings: seq<P.Str>, k: nat)
    requires IsNamedRun(max, states, events) && n < |events| && RightAt(d, max, states, events, n, r, strings)
    requires events[n].First? && !Ends(states[n], events[n]) && IsHere(states[n + 1].players, r)
    requires k < |Heard(d, Step(states[n], events[n]).1, r)|
    ensures var packets := Heard(d, Step(states[n], events[n]).1, r);
            IsSeated(TableFor(max, Log(d, states, events, n, r) + packets[..k], strings), packets[k])
  {
    var w, e, log := states[n], events[n], Log(d, states, events, n, r);
    NamedStep(max, states, events, n);
    RunIsSilent(d, max, states, events, n, r);
    EveryRunKeepsInv(max, states, events, n);
    AdmittedHello(w.players, w.max, w.handlers[e.h].client, e.hello, e.copy);
    TableOfMore(max, log, Heard(d, Step(w, e).1, r)[..k], strings);
    hide Admit, Inv, Named, IsHere, Heard, TableFor, IsSeated, P.ReceiveAll, FirstStep, CanStart, Right, Silent,
         IsRun, Log;
    AdmittedSeats(d, w, e.h, e.hello, e.copy, e.order, r, log, k, strings);
  }

  // ---------------------------------------------------------------- a takeover

  /** After a takeover the old session's handler lives on, with an object that is still connected. */
  lemma SupersessionLeaves(w: World, h: nat, hello: Hello, copy: Ref, g: nat)
    requires Inv(w) && h in w.handlers && w.handlers[h].first && copy !in w.players.objects && g in w.handlers
    requires Admit(w.players, w.max, w.handlers[h].client, hello, copy).1.Admitted?
    requires IsHere(w.players, w.handlers[g].client) && w.players.objects[w.handlers[g].client].id == hello.id
    ensures var (q, a) := Admit(w.players, w.max, w.handlers[h].client, hello, copy);
            var was := w.handlers[g].client;
            && g != h && a.client == copy != was && was !in q.clients
            && was in q.objects && q.objects[was].connected && q.objects[was].id == hello.id
  {
    var p, client, was := w.players, w.handlers[h].client, w.handlers[g].client;
    EntryIs(p, hello.id, was);
    AdmitReplaces(p, w.max, client, hello, copy);
    var m := p.clients[IndexOfId(p.objects, p.clients, hello.id)];
    if m != was {
      OthersDistinct(p, m, was);
    }
    hide Admit, IndexOfId, ListInv;
  }

  /** A session that is doubled: another one is here under its id. */
  ghost predicate Doubled(v: World, g: nat, copy: Ref) {
    && g in v.handlers && v.handlers[g].client in v.players.objects && v.handlers[g].client != copy
    && IsHere(v.players, copy) && v.players.objects[v.handlers[g].client].connected
    && v.players.objects[v.handlers[g].client].id == v.players.objects[copy].id
  }

  /** The end of a doubled session makes every right table of another player wrong. */
  lemma DoubledExitIsWrong(
      d: Decoder, v: World, g: nat, copy: Ref, r: Ref, log: seq<Packet>, strings: seq<P.Str>)
    requires Inv(v) && Doubled(v, g, copy) && IsHere(v.players, r)
    requires v.players.objects[r].id != v.players.objects[copy].id
    requires Right(v.players, v.max, r, TableFor(v.max, log, strings))
    ensures Enabled(v, Close(g)) && IsHere(EndOf(v, g).0.players, r)
    ensures !Right(EndOf(v, g).0.players, v.max, r, TableFor(v.max, log + Heard(d, EndOf(v, g).1, r), strings))
  {
    hide ListInv, Heard, TableFor, P.ReceiveAll, Others, C.Holds, OtherIds;
    TableOfMore(v.max, log, Heard(d, EndOf(v, g).1, r), strings);
    assert ConnectedAs(EndOf(v, g).0.players, v.players.objects[copy].id) by {
      assert IsHere(EndOf(v, g).0.players, copy);
    }
    EndRightIff(d, v, g, r, TableFor(v.max, log, strings), strings);
  }

  /** The end of a doubled session takes nobody off, and its id remains. */
  lemma DoubledExitIds(v: World, g: nat, copy: Ref)
    requires Inv(v) && Doubled(v, g, copy)
    ensures AllIds(EndOf(v, g).0.players) == AllIds(v.players)
    ensures v.players.objects[copy].id in AllIds(v.players)
  {
    var p, q := v.players, EndOf(v, g).0.players;
    assert IsHere(q, copy);
    IdsBesideLeaver(p, v.handlers[g].client);
    assert p.objects[copy].id in AllIds(p) && p.objects[copy].id in AllIds(q);
    hide AllIds, Inv, IsHere, Doubled, EndOf;
    assert forall x :: x in AllIds(q) <==> x in AllIds(p) by {
      assert forall x :: x in AllIds(q) - {p.objects[copy].id} <==> x in AllIds(p) - {p.objects[copy].id};
    }
  }

  /** All that another player is told at the end of a doubled session is to take off somebody who is still
      to be held. */
  lemma DoubledExitTells(d: Decoder, v: World, g: nat, copy: Ref, r: Ref)
    requires Inv(v) && Doubled(v, g, copy) && IsHere(v.players, r)
    requires v.players.objects[r].id != v.players.objects[copy].id
    ensures var id, me, q := v.players.objects[copy].id, v.players.objects[r].id, EndOf(v, g).0.players;
            && Heard(d, EndOf(v, g).1, r) == [P.Disconnect(id)]
            && OtherIds(q, me) == OtherIds(v.players, me) && id in OtherIds(q, me)
  {
    EndIsHeard(d, v, g, r);
    DoubledExitIds(v, g, copy);
    assert IsOther(EndOf(v, g).0.players, v.players.objects[copy].id, r);
  }

  /** If nothing comes in between, the next PlayerInf of the player whose session was doubled makes the table
      of another player hold the others again, with a count that is one short. */
  lemma DoubledExitHeals(
      d: Decoder, v: World, g: nat, copy: Ref, r: Ref, t: P.Table, move: Packet, strings: seq<P.Str>)
    requires Inv(v) && Doubled(v, g, copy) && IsHere(v.players, r) && Right(v.players, v.max, r, t)
    requires v.players.objects[r].id != v.players.objects[copy].id
    requires move.PlayerInf? && move.id == v.players.objects[copy].id
    ensures var others := OtherIds(EndOf(v, g).0.players, v.players.objects[r].id);
            var back := P.ReceiveAll(t, Heard(d, EndOf(v, g).1, r) + [move], strings);
            C.ConnectedIds(back.slots) == others && back.connectCount == |others| - 1
  {
    var id, others := move.id, OtherIds(v.players, v.players.objects[r].id);
    DoubledExitTells(d, v, g, copy, r);
    assert C.Holds(t, others);
    hide *;
    var gone := P.Receive(t, P.Disconnect(id), strings);
    P.ReceiveConcat(t, [P.Disconnect(id)], [move], strings);
    P.ReceiveOne(t, P.Disconnect(id), strings);
    P.ReceiveOne(gone, move, strings);
    C.BackAtOnce(t, move, others, strings);
  }

  lemma FirstIs(w: World, h: nat, hello: Hello, copy: Ref, order: seq<Greeting>)
    requires WellFormed(w) && CanStart(w, h, hello, copy, order)
    requires Admit(w.players, w.max, w.handlers[h].client, hello, copy).1.Admitted?
    ensures var (q, a) := Admit(w.players, w.max, w.handlers[h].client, hello, copy);
            FirstStep(w, h, hello, copy, order).0 == World(q, w.handlers[h := Handler(a.client, false)], w.max)
  {
    hide Admit, Others;
  }

  /** A takeover leaves the old session doubled, and the others here. */
  lemma TakeoverDoubles(w: World, h: nat, hello: Hello, copy: Ref, g: nat, r: Ref)
    requires Inv(w) && h in w.handlers && w.handlers[h].first && copy !in w.players.objects && g in w.handlers
    requires Admit(w.players, w.max, w.handlers[h].client, hello, copy).1.Admitted?
    requires IsHere(w.players, w.handlers[g].client) && w.players.objects[w.handlers[g].client].id == hello.id
    requires IsHere(w.players, r) && w.players.objects[r].id != hello.id
    ensures var (q, a) := Admit(w.players, w.max, w.handlers[h].client, hello, copy);
            && Doubled(World(q, w.handlers[h := Handler(a.client, false)], w.max), g, copy)
            && q.objects[copy].id == hello.id && IsHere(q, r) && q.objects[r] == w.players.objects[r]
  {
    var client := w.handlers[h].client;
    SupersessionLeaves(w, h, hello, copy, g);
    AdmittedIsHere(w.players, w.max, client, hello, copy);
    AdmittedKeepsOthers(w.players, w.max, client, hello, copy, r);
    hide Admit, Inv, IsHere;
  }

  lemma TakeoverKeepsRight(
      d: Decoder, w: World, h: nat, hello: Hello, copy: Ref, order: seq<Greeting>,
      r: Ref, log: seq<Packet>, strings: seq<P.Str>)
    requires Inv(w) && Named(w) && CanStart(w, h, hello, copy, order) && hello.Connect? && hello.id != EMPTY
    requires Admit(w.players, w.max, w.handlers[h].client, hello, copy).1.Admitted?
    requires IsHere(w.players, r) && Right(w.players, w.max, r, TableFor(w.max, log, strings))
    ensures var (v, news) := FirstStep(w, h, hello, copy, order);
            Right(v.players, w.max, r, TableFor(w.max, log + Heard(d, news, r), strings))
  {
    assert Silent(w, r, log);
    hide Admit, Inv, Heard, TableFor, P.ReceiveAll, Silent, Right, Named, IsHere, FirstStep;
    AdmittedRight(d, w, h, hello, copy, order, r, log, strings);
    TableOfMore(w.max, log, Heard(d, FirstStep(w, h, hello, copy, order).1, r), strings);
  }

  /** After a takeover the end of the old session makes the table of every other player wrong: it drops
      the one who has reconnected. */
  lemma SupersededExitMisleads(
      d: Decoder, w: World, h: nat, hello: Hello, copy: Ref, order: seq<Greeting>, g: nat,
      r: Ref, log: seq<Packet>, strings: seq<P.Str>)
    requires Inv(w) && Named(w) && CanStart(w, h, hello, copy, order) && g in w.handlers && hello.Connect?
    requires Admit(w.players, w.max, w.handlers[h].client, hello, copy).1.Admitted?
    requires IsHere(w.players, w.handlers[g].client) && w.players.objects[w.handlers[g].client].id == hello.id
    requires IsHere(w.players, r) && w.players.objects[r].id != hello.id
    requires Right(w.players, w.max, r, TableFor(w.max, log, strings))
    ensures var (v, news) := FirstStep(w, h, hello, copy, order);
            var after := log + Heard(d, news, r);
            && IsHere(v.players, r) && Right(v.players, v.max, r, TableFor(v.max, after, strings))
            && Enabled(v, Close(g)) && IsHere(EndOf(v, g).0.players, r)
            && !Right(EndOf(v, g).0.players, v.max, r, TableFor(v.max, after + Heard(d, EndOf(v, g).1, r), strings))
  {
    var (v, news) := FirstStep(w, h, hello, copy, order);
    FirstIs(w, h, hello, copy, order);
    assert w.players.objects[w.handlers[g].client].id != EMPTY;
    assert h in w.handlers && w.handlers[h].first && copy !in w.players.objects;
    hide *;
    FirstKeepsInv(w, h, hello, copy, order);
    TakeoverDoubles(w, h, hello, copy, g, r);
    TakeoverKeepsRight(d, w, h, hello, copy, order, r, log, strings);
    DoubledExitIsWrong(d, v, g, copy, r, log + Heard(d, news, r), strings);
  }
}
