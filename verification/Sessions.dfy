/** The session protocol of the server as a transition system: every iteration of a socket handler is
    one step, and any number of handlers interleave (server/Server/Server.cs, server/Server/Client.cs). */
module Sessions {
  import opened PacketHeader

  /** The identity of a client object or of a `Metadata` dictionary. */
  type Ref = nat
  type Bytes = seq<byte>

  datatype Costume = NoCostume | Costume(body: Bytes)

  /** The fields of a client object. */
  datatype Player = Player(id: Guid, connected: bool, costume: Costume, metadata: Ref)

  /** The client objects that exist, and the list `Clients`. */
  datatype Players = Players(objects: map<Ref, Player>, clients: seq<Ref>)

  predicate Known(objects: map<Ref, Player>, clients: seq<Ref>) {
    forall i :: 0 <= i < |clients| ==> clients[i] in objects
  }

  // ---------------------------------------------------------------- the list

  function CountConnected(objects: map<Ref, Player>, clients: seq<Ref>): nat
    requires Known(objects, clients)
  {
    if clients == [] then 0
    else (if objects[clients[0]].connected then 1 else 0) + CountConnected(objects, clients[1..])
  }

  /** Is there an entry with this id? */
  predicate Listed(objects: map<Ref, Player>, clients: seq<Ref>, id: Guid)
    requires Known(objects, clients)
  {
    exists i :: 0 <= i < |clients| && objects[clients[i]].id == id
  }

  /** `FindExistingClient`: the position of the first entry with this id. */
  function IndexOfId(objects: map<Ref, Player>, clients: seq<Ref>, id: Guid): (k: nat)
    requires Known(objects, clients) && Listed(objects, clients, id)
    ensures k < |clients| && objects[clients[k]].id == id
    ensures forall j :: 0 <= j < k ==> objects[clients[j]].id != id
  {
    if objects[clients[0]].id == id then 0
    else
      assert exists i :: 0 <= i < |clients[1..]| && objects[clients[1..][i]].id == id by {
        var i :| 0 <= i < |clients| && objects[clients[i]].id == id;
        assert clients[1..][i - 1] == clients[i];
      }
      1 + IndexOfId(objects, clients[1..], id)
  }

  /** The entries without this id. */
  function Without(objects: map<Ref, Player>, clients: seq<Ref>, id: Guid): (kept: seq<Ref>)
    requires Known(objects, clients)
    ensures forall r :: r in kept <==> r in clients && objects[r].id != id
  {
    if clients == [] then []
    else (if objects[clients[0]].id == id then [] else [clients[0]]) + Without(objects, clients[1..], id)
  }

  /** The entries a broadcast by a client with this id is sent to. */
  function Others(objects: map<Ref, Player>, clients: seq<Ref>, id: Guid): (others: seq<Ref>)
    requires Known(objects, clients)
    ensures forall r :: r in others <==> r in clients && objects[r].connected && objects[r].id != id
    ensures Known(objects, others)
  {
    if clients == [] then []
    else (if objects[clients[0]].connected && objects[clients[0]].id != id then [clients[0]] else [])
         + Others(objects, clients[1..], id)
  }

  // ---------------------------------------------------------------- the handler's actions

  datatype Kind = FirstConnection | Reconnecting | Invalid

  /** What the first frame of a session decodes to. */
  datatype Hello = NotConnect | Malformed | Connect(id: Guid, kind: Kind)

  datatype Admission = Failed | TurnedAway | Admitted(client: Ref, first: bool)

  /** The admission under the lock; `client` is the session's own object, `copy` one for a reconnect. */
  function Admit(p: Players, max: nat, client: Ref, hello: Hello, copy: Ref): (result: (Players, Admission))
    requires Known(p.objects, p.clients) && client in p.objects
    ensures Known(result.0.objects, result.0.clients) && p.objects.Keys <= result.0.objects.Keys
    ensures result.1.Admitted? ==> result.1.client in result.0.objects
  {
    if !hello.Connect? then (p, Failed)
    else if CountConnected(p.objects, p.clients) == max then (p, TurnedAway)
    else if hello.kind == Invalid then (p, Failed)
    else Seat(p.(objects := p.objects[client := p.objects[client].(id := hello.id)]), client, hello.id, copy)
  }

  /** The place in the list of a session whose object has its id: that of the entry with the same id,
      taken by a copy of it, or a new one. */
  function Seat(p: Players, client: Ref, id: Guid, copy: Ref): (result: (Players, Admission))
    requires Known(p.objects, p.clients) && client in p.objects
    ensures Known(result.0.objects, result.0.clients) && p.objects.Keys <= result.0.objects.Keys
    ensures result.1.Admitted? && result.1.client in result.0.objects
  {
    if Listed(p.objects, p.clients, id) then
      var k := IndexOfId(p.objects, p.clients, id);
      var entry := p.objects[p.clients[k]].(connected := true);
      (Players(p.objects[copy := entry], p.clients[..k] + p.clients[k + 1..] + [copy]), Admitted(copy, false))
    else
      var objects := p.objects[client := p.objects[client].(connected := true)];
      (Players(objects, Without(p.objects, p.clients, id) + [client]), Admitted(client, true))
  }

  /** The end of a handler: its object is marked as gone but stays where it is. */
  function Leave(p: Players, client: Ref): Players
    requires client in p.objects
  {
    p.(objects := p.objects[client := p.objects[client].(connected := false)])
  }

  function Wear(p: Players, client: Ref, costume: Costume): Players
    requires client in p.objects
  {
    if costume == NoCostume then p
    else p.(objects := p.objects[client := p.objects[client].(costume := costume)])
  }

  // ---------------------------------------------------------------- the transition system

  /** What is written to a socket: the id in the header and the kind of frame. */
  datatype Note =
    | ConnectNote(id: Guid)
    | CostumeNote(id: Guid, costume: Bytes)
    | DisconnectNote(id: Guid)
    | FrameNote(id: Guid, body: Bytes)

  datatype Delivery = Delivery(to: Ref, note: Note)

  datatype Handler = Handler(client: Ref, first: bool)

  datatype World = World(players: Players, handlers: map<nat, Handler>, max: nat)

  /** A message of the welcome: that a player is there, or what it wears. */
  datatype Greeting = Meet(other: Ref) | Dress(other: Ref)

  /** One iteration of handler `h`. A later frame carries the id of its header, what it puts on, and
      whether the packet handler lets it be forwarded; `order` is the order of the welcome messages. */
  datatype Event =
    | Accept(h: nat, client: Ref, metadata: Ref)
    | First(h: nat, hello: Hello, copy: Ref, order: seq<Greeting>)
    | Later(h: nat, id: Guid, body: Bytes, costume: Costume, forward: bool)
    | Close(h: nat)

  function Initial(max: nat): World {
    World(Players(map[], []), map[], max)
  }

  ghost predicate WellFormed(w: World) {
    && Known(w.players.objects, w.players.clients)
    && forall h :: h in w.handlers ==> w.handlers[h].client in w.players.objects
  }

  /** A first frame, with a fresh identity for the copy and a possible order of the welcome. */
  ghost predicate CanStart(w: World, h: nat, hello: Hello, copy: Ref, order: seq<Greeting>)
    requires WellFormed(w)
  {
    && h in w.handlers && w.handlers[h].first && copy !in w.players.objects
    && var (q, a) := Admit(w.players, w.max, w.handlers[h].client, hello, copy);
       a.Admitted? ==> IsWelcome(q.objects, order, Others(q.objects, q.clients, hello.id))
  }

  ghost predicate Enabled(w: World, e: Event) {
    && WellFormed(w)
    && match e
       case Accept(h, client, metadata) =>
         && h !in w.handlers && client !in w.players.objects
         && forall r :: r in w.players.objects ==> w.players.objects[r].metadata != metadata
       case First(h, hello, copy, order) => CanStart(w, h, hello, copy, order)
       case Later(h, _, _, _, _) => h in w.handlers && !w.handlers[h].first
       case Close(h) => h in w.handlers
  }

  ghost predicate IsOrderOf(order: seq<Ref>, refs: seq<Ref>) {
    && multiset(order) == multiset(refs)
    && forall r :: r in order <==> r in refs
  }

  /** The players met in a welcome, in order, and those whose costume is told. */
  function Met(order: seq<Greeting>): seq<Ref> {
    if order == [] then [] else (if order[0].Meet? then [order[0].other] else []) + Met(order[1..])
  }

  function Dressed(order: seq<Greeting>): seq<Ref> {
    if order == [] then [] else (if order[0].Dress? then [order[0].other] else []) + Dressed(order[1..])
  }

  function Wearers(objects: map<Ref, Player>, refs: seq<Ref>): (wearers: seq<Ref>)
    requires Known(objects, refs)
    ensures forall r :: r in wearers <==> r in refs && objects[r].costume.Costume?
  {
    if refs == [] then []
    else (if objects[refs[0]].costume.Costume? then [refs[0]] else []) + Wearers(objects, refs[1..])
  }

  /** Everybody is met once and every costume told once, after its player was met; the players are
      served in parallel, so nothing else is said about the order. */
  ghost predicate IsWelcome(objects: map<Ref, Player>, order: seq<Greeting>, others: seq<Ref>)
    requires Known(objects, others)
  {
    && IsOrderOf(Met(order), others) && IsOrderOf(Dressed(order), Wearers(objects, others))
    && (forall j :: 0 <= j < |order| ==> order[j].other in others)
    && forall j :: 0 <= j < |order| && order[j].Dress? ==> Meet(order[j].other) in order[..j]
  }

  /** A message to each of a list of clients. */
  function ToEach(clients: seq<Ref>, note: Note): seq<Delivery> {
    seq(|clients|, i requires 0 <= i < |clients| => Delivery(clients[i], note))
  }

  predicate AllKnown(objects: map<Ref, Player>, order: seq<Greeting>) {
    forall i :: 0 <= i < |order| ==> order[i].other in objects
  }

  function Greet(objects: map<Ref, Player>, g: Greeting, to: Ref): seq<Delivery>
    requires g.other in objects
  {
    var other := objects[g.other];
    if g.Meet? then [Delivery(to, ConnectNote(other.id))]
    else if other.costume.Costume? then [Delivery(to, CostumeNote(other.id, other.costume.body))]
    else []
  }

  /** The welcome of a new session: who is there, and what they wear. */
  function Welcome(objects: map<Ref, Player>, order: seq<Greeting>, to: Ref): seq<Delivery>
    requires AllKnown(objects, order)
  {
    if order == [] then [] else Greet(objects, order[0], to) + Welcome(objects, order[1..], to)
  }

  /** The end of handler `h`: the others are told if its client was connected. */
  function EndOf(w: World, h: nat): (World, seq<Delivery>)
    requires WellFormed(w) && h in w.handlers
  {
    var client := w.handlers[h].client;
    var gone := Leave(w.players, client);
    var was := w.players.objects[client];
    (World(gone, w.handlers - {h}, w.max),
     if was.connected then ToEach(Others(gone.objects, gone.clients, was.id), DisconnectNote(was.id)) else [])
  }

  function AcceptStep(w: World, h: nat, client: Ref, metadata: Ref): World {
    var objects := w.players.objects[client := Player(EMPTY, false, NoCostume, metadata)];
    World(w.players.(objects := objects), w.handlers[h := Handler(client, true)], w.max)
  }

  /** The welcome of an admitted session, and the news to the others. */
  function AdmittedStep(
      w: World, h: nat, q: Players, client: Ref, id: Guid, order: seq<Greeting>): (World, seq<Delivery>)
    requires Known(q.objects, q.clients) && AllKnown(q.objects, order)
  {
    (World(q, w.handlers[h := Handler(client, false)], w.max),
     Welcome(q.objects, order, client) + ToEach(Others(q.objects, q.clients, id), ConnectNote(id)))
  }

  /** The first frame: admission, or the end of the handler. */
  function FirstStep(w: World, h: nat, hello: Hello, copy: Ref, order: seq<Greeting>): (World, seq<Delivery>)
    requires WellFormed(w) && CanStart(w, h, hello, copy, order)
  {
    var (q, a) := Admit(w.players, w.max, w.handlers[h].client, hello, copy);
    if a.Admitted? then AdmittedStep(w, h, q, a.client, hello.id, order) else EndOf(w, h)
  }

  /** A later frame: the id check, the packet handler, and the broadcast. */
  function LaterStep(w: World, h: nat, id: Guid, body: Bytes, costume: Costume, forward: bool): (World, seq<Delivery>)
    requires WellFormed(w) && h in w.handlers
  {
    var client := w.handlers[h].client;
    var me := w.players.objects[client].id;
    if id != me && me != EMPTY then EndOf(w, h)
    else
      (w.(players := Wear(w.players, client, costume)),
       if forward then ToEach(Others(w.players.objects, w.players.clients, me), FrameNote(id, body)) else [])
  }

  function Step(w: World, e: Event): (World, seq<Delivery>)
    requires Enabled(w, e)
  {
    match e
    case Accept(h, client, metadata) => (AcceptStep(w, h, client, metadata), [])
    case First(h, hello, copy, order) => FirstStep(w, h, hello, copy, order)
    case Later(h, id, body, costume, forward) => LaterStep(w, h, id, body, costume, forward)
    case Close(h) => EndOf(w, h)
  }

  /** A run of the server: the states it passes through, from the start, one step after the other. */
  ghost predicate IsRun(max: nat, states: seq<World>, events: seq<Event>) {
    && |states| == |events| + 1
    && states[0] == Initial(max)
    && forall i :: 0 <= i < |events| ==> Enabled(states[i], events[i]) && states[i + 1] == Step(states[i], events[i]).0
  }

  // ---------------------------------------------------------------- the invariant

  predicate DistinctIds(objects: map<Ref, Player>, clients: seq<Ref>)
    requires Known(objects, clients)
  {
    forall i, j :: 0 <= i < j < |clients| ==> objects[clients[i]].id != objects[clients[j]].id
  }

  /** No two entries with the same id, and never more of them connected than the maximum. */
  ghost predicate ListInv(p: Players, max: nat) {
    && Known(p.objects, p.clients)
    && DistinctIds(p.objects, p.clients)
    && CountConnected(p.objects, p.clients) <= max
  }

  ghost predicate Inv(w: World) {
    var p := w.players;
    && WellFormed(w)
    && ListInv(p, w.max)
    && (forall g, h :: g in w.handlers && h in w.handlers && g != h ==> w.handlers[g].client != w.handlers[h].client)
    // a session that has not been admitted is not in the list and not connected
    && (forall h :: h in w.handlers && w.handlers[h].first ==>
          w.handlers[h].client !in p.clients && !p.objects[w.handlers[h].client].connected)
    // whoever is connected has a live handler
    && (forall r :: r in p.objects && p.objects[r].connected ==>
          exists h :: h in w.handlers && w.handlers[h] == Handler(r, false))
  }

  lemma {:induction false} CountOfConcat(objects: map<Ref, Player>, a: seq<Ref>, b: seq<Ref>)
    requires Known(objects, a) && Known(objects, b) && Known(objects, a + b)
    ensures CountConnected(objects, a + b) == CountConnected(objects, a) + CountConnected(objects, b)
  {
    if a == [] {
      assert a + b == b;
    } else {
      assert (a + b)[1..] == a[1..] + b;
      CountOfConcat(objects, a[1..], b);
    }
  }

  /** Fewer connections among the same entries, or the same ones. */
  lemma {:induction false} CountOfUpdate(before: map<Ref, Player>, after: map<Ref, Player>, clients: seq<Ref>)
    requires Known(before, clients) && Known(after, clients)
    requires forall i :: 0 <= i < |clients| ==> after[clients[i]].connected ==> before[clients[i]].connected
    ensures CountConnected(after, clients) <= CountConnected(before, clients)
    ensures (forall i :: 0 <= i < |clients| ==> after[clients[i]].connected == before[clients[i]].connected)
            ==> CountConnected(after, clients) == CountConnected(before, clients)
  {
    if clients != [] {
      assert forall i :: 0 <= i < |clients[1..]| ==> clients[1..][i] == clients[i + 1];
      CountOfUpdate(before, after, clients[1..]);
    }
  }

  lemma {:induction false} WithoutUnlisted(objects: map<Ref, Player>, clients: seq<Ref>, id: Guid)
    requires Known(objects, clients) && !Listed(objects, clients, id)
    ensures Without(objects, clients, id) == clients
  {
    if clients != [] {
      assert forall i :: 0 <= i < |clients[1..]| ==> clients[1..][i] == clients[i + 1];
      WithoutUnlisted(objects, clients[1..], id);
    }
  }

  lemma SameIndex(before: map<Ref, Player>, after: map<Ref, Player>, clients: seq<Ref>, id: Guid)
    requires Known(before, clients) && Known(after, clients)
    requires forall i :: 0 <= i < |clients| ==> after[clients[i]].id == before[clients[i]].id
    ensures Listed(after, clients, id) == Listed(before, clients, id)
    ensures Listed(before, clients, id) ==> IndexOfId(after, clients, id) == IndexOfId(before, clients, id)
  {
    hide IndexOfId;
    if Listed(before, clients, id) {
      var i :| 0 <= i < |clients| && before[clients[i]].id == id;
      assert after[clients[i]].id == id;
    }
  }

  // ---------------------------------------------------------------- who is admitted

  /** The entries that are connected. */
  function ConnectedEntries(p: Players): set<Ref> {
    set c | c in p.clients && c in p.objects && p.objects[c].connected
  }

  lemma EntriesOfFirst(p: Players)
    requires Known(p.objects, p.clients) && DistinctIds(p.objects, p.clients) && p.clients != []
    ensures var c, rest := p.clients[0], Players(p.objects, p.clients[1..]);
            && c !in ConnectedEntries(rest) && Known(rest.objects, rest.clients)
            && DistinctIds(rest.objects, rest.clients)
            && ConnectedEntries(p) == ConnectedEntries(rest) + if p.objects[c].connected then {c} else {}
  {
    var rest := p.clients[1..];
    assert forall i :: 0 <= i < |rest| ==> rest[i] == p.clients[i + 1];
    assert p.clients == [p.clients[0]] + rest;
    assert p.clients[0] !in rest;
    hide DistinctIds;
  }

  lemma {:induction false} CountIsSize(p: Players)
    requires Known(p.objects, p.clients) && DistinctIds(p.objects, p.clients)
    ensures CountConnected(p.objects, p.clients) == |ConnectedEntries(p)|
    decreases |p.clients|
  {
    if p.clients != [] {
      EntriesOfFirst(p);
      hide ConnectedEntries, DistinctIds;
      CountIsSize(Players(p.objects, p.clients[1..]));
    } else {
      assert ConnectedEntries(p) == {};
    }
  }

  lemma StillIn(clients: seq<Ref>, k: nat, copy: Ref, r: Ref)
    requires k < |clients| && r in clients && r != clients[k]
    ensures r in clients[..k] + clients[k + 1..] + [copy]
  {
    var i :| 0 <= i < |clients| && clients[i] == r;
    var now := clients[..k] + clients[k + 1..] + [copy];
    assert now[if i < k then i else i - 1] == r;
  }

  /** A session is admitted if and only if its first frame is a well-formed Connect of a known kind, first
      connection or reconnect alike, and the server is not full. A refusal leaves everybody as they were. */
  lemma AdmittedIff(p: Players, max: nat, client: Ref, hello: Hello, copy: Ref)
    requires Known(p.objects, p.clients) && client in p.objects
    ensures var (q, a) := Admit(p, max, client, hello, copy);
            && (a.Admitted? <==> hello.Connect? && hello.kind != Invalid && CountConnected(p.objects, p.clients) != max)
            && (!a.Admitted? ==> q == p)
  {
    hide CountConnected, Seat;
  }

  /** What an admission does to the list: a first connection is appended, a reconnect takes the place
      of the entry with its id. */
  lemma AdmittedList(p: Players, max: nat, client: Ref, hello: Hello, copy: Ref)
    requires Known(p.objects, p.clients) && client in p.objects && client !in p.clients && copy !in p.objects
    requires Admit(p, max, client, hello, copy).1.Admitted?
    ensures var (q, a) := Admit(p, max, client, hello, copy);
            && CountConnected(p.objects, p.clients) != max
            && q.objects[a.client].id == hello.id && q.objects[a.client].connected
            && (Listed(p.objects, p.clients, hello.id) ==>
                  var k := IndexOfId(p.objects, p.clients, hello.id);
                  && a == Admitted(copy, false)
                  && q.clients == p.clients[..k] + p.clients[k + 1..] + [copy]
                  && q.objects == p.objects[client := p.objects[client].(id := hello.id)]
                                           [copy := p.objects[p.clients[k]].(connected := true)])
            && (!Listed(p.objects, p.clients, hello.id) ==>
                  && a == Admitted(client, true)
                  && q.clients == p.clients + [client]
                  && q.objects == p.objects[client := p.objects[client].(id := hello.id, connected := true)])
  {
    hide CountConnected, Listed, IndexOfId, Without;
    var objects := p.objects[client := p.objects[client].(id := hello.id)];
    SameIndex(p.objects, objects, p.clients, hello.id);
    if !Listed(p.objects, p.clients, hello.id) {
      WithoutUnlisted(objects, p.clients, hello.id);
    }
  }

  lemma CountWithout(objects: map<Ref, Player>, clients: seq<Ref>, k: nat)
    requires Known(objects, clients) && k < |clients|
    ensures Known(objects, clients[..k] + clients[k + 1..])
    ensures CountConnected(objects, clients[..k] + clients[k + 1..]) <= CountConnected(objects, clients)
  {
    assert clients == clients[..k] + ([clients[k]] + clients[k + 1..]);
    CountOfConcat(objects, clients[..k], clients[k + 1..]);
    CountOfConcat(objects, clients[..k], [clients[k]] + clients[k + 1..]);
    CountOfConcat(objects, [clients[k]], clients[k + 1..]);
  }

  /** Taking one entry out leaves the ids distinct, its own absent, and no more connections. */
  lemma RemovalKeepsList(objects: map<Ref, Player>, clients: seq<Ref>, k: nat)
    requires Known(objects, clients) && DistinctIds(objects, clients) && k < |clients|
    ensures var kept := clients[..k] + clients[k + 1..];
            && Known(objects, kept) && DistinctIds(objects, kept)
            && !Listed(objects, kept, objects[clients[k]].id)
            && CountConnected(objects, kept) <= CountConnected(objects, clients)
  {
    hide CountConnected;
    CountWithout(objects, clients, k);
    var kept := clients[..k] + clients[k + 1..];
    assert forall i :: 0 <= i < |kept| ==> kept[i] == if i < k then clients[i] else clients[i + 1];
  }

  /** Appending a connected entry with a new id to a list below the maximum. */
  lemma AppendKeepsList(before: map<Ref, Player>, after: map<Ref, Player>, kept: seq<Ref>, r: Ref, max: nat)
    requires Known(before, kept) && DistinctIds(before, kept) && CountConnected(before, kept) < max
    requires forall i :: 0 <= i < |kept| ==> kept[i] in after && after[kept[i]] == before[kept[i]]
    requires r in after && !Listed(before, kept, after[r].id)
    ensures ListInv(Players(after, kept + [r]), max)
  {
    CountOfConcat(after, kept, [r]);
    CountOfUpdate(before, after, kept);
  }

  /** Admission keeps the ids distinct and the number of connections within the maximum. */
  lemma AdmitKeepsListInv(p: Players, max: nat, client: Ref, hello: Hello, copy: Ref)
    requires ListInv(p, max) && client in p.objects && client !in p.clients && copy !in p.objects
    ensures ListInv(Admit(p, max, client, hello, copy).0, max)
  {
    var (q, a) := Admit(p, max, client, hello, copy);
    if a.Admitted? {
      AdmittedList(p, max, client, hello, copy);
      hide CountConnected, DistinctIds, Admit;
      if Listed(p.objects, p.clients, hello.id) {
        var k := IndexOfId(p.objects, p.clients, hello.id);
        RemovalKeepsList(p.objects, p.clients, k);
        AppendKeepsList(p.objects, q.objects, p.clients[..k] + p.clients[k + 1..], copy, max);
      } else {
        AppendKeepsList(p.objects, q.objects, p.clients, client, max);
      }
    }
  }

  lemma EndKeepsInv(w: World, h: nat)
    requires Inv(w) && h in w.handlers
    ensures Inv(EndOf(w, h).0)
  {
    hide Others, ToEach, CountConnected;
    var v := EndOf(w, h).0;
    CountOfUpdate(w.players.objects, v.players.objects, w.players.clients);
    forall r | r in v.players.objects && v.players.objects[r].connected
      ensures exists g :: g in v.handlers && v.handlers[g] == Handler(r, false)
    {
      var g :| g in w.handlers && w.handlers[g] == Handler(r, false);
      assert g in v.handlers;
    }
  }

  /** What an admission leaves alone: every object but the session's own and its copy. */
  lemma AdmittedFrame(p: Players, max: nat, client: Ref, hello: Hello, copy: Ref)
    requires Known(p.objects, p.clients) && client in p.objects && client !in p.clients && copy !in p.objects
    requires Admit(p, max, client, hello, copy).1.Admitted?
    ensures var (q, a) := Admit(p, max, client, hello, copy);
            && (a.client == client || a.client == copy)
            && (forall r :: r in p.objects && r != client ==> q.objects[r] == p.objects[r])
            && (forall r :: r in q.objects ==> r in p.objects || r == a.client)
            && (forall r :: r in q.clients ==> r in p.clients || r == a.client)
            && (a.client == copy ==> q.objects[client].connected == p.objects[client].connected)
  {
    AdmittedList(p, max, client, hello, copy);
    hide Admit, CountConnected, IndexOfId;
  }

  lemma AdmittedKeepsInv(w: World, h: nat, hello: Hello, copy: Ref)
    requires Inv(w) && h in w.handlers && w.handlers[h].first && copy !in w.players.objects
    requires Admit(w.players, w.max, w.handlers[h].client, hello, copy).1.Admitted?
    ensures var (q, a) := Admit(w.players, w.max, w.handlers[h].client, hello, copy);
            Inv(World(q, w.handlers[h := Handler(a.client, false)], w.max))
  {
    var client := w.handlers[h].client;
    AdmittedFrame(w.players, w.max, client, hello, copy);
    AdmitKeepsListInv(w.players, w.max, client, hello, copy);
    var (q, a) := Admit(w.players, w.max, client, hello, copy);
    var v := World(q, w.handlers[h := Handler(a.client, false)], w.max);
    hide Admit, ListInv;
    forall r | r in q.objects && q.objects[r].connected
      ensures exists g :: g in v.handlers && v.handlers[g] == Handler(r, false)
    {
      if r == a.client {
        assert v.handlers[h] == Handler(r, false);
      } else {
        assert w.players.objects[r].connected;
        var g :| g in w.handlers && w.handlers[g] == Handler(r, false);
        assert v.handlers[g] == Handler(r, false);
      }
    }
  }

  lemma FirstKeepsInv(w: World, h: nat, hello: Hello, copy: Ref, order: seq<Greeting>)
    requires Inv(w) && Enabled(w, First(h, hello, copy, order))
    ensures Inv(FirstStep(w, h, hello, copy, order).0)
  {
    if Admit(w.players, w.max, w.handlers[h].client, hello, copy).1.Admitted? {
      AdmittedKeepsInv(w, h, hello, copy);
    } else {
      EndKeepsInv(w, h);
    }
    hide Admit, ListInv, WellFormed;
  }

  lemma WearKeepsInv(w: World, client: Ref, costume: Costume)
    requires Inv(w) && client in w.players.objects
    ensures Inv(w.(players := Wear(w.players, client, costume)))
  {
    hide CountConnected;
    if costume != NoCostume {
      var v := w.(players := Wear(w.players, client, costume));
      CountOfUpdate(w.players.objects, v.players.objects, w.players.clients);
      forall r | r in v.players.objects && v.players.objects[r].connected
        ensures exists g :: g in v.handlers && v.handlers[g] == Handler(r, false)
      {
        assert w.players.objects[r].connected;
      }
    }
  }

  lemma LaterKeepsInv(w: World, h: nat, id: Guid, body: Bytes, costume: Costume, forward: bool)
    requires Inv(w) && h in w.handlers
    ensures Inv(LaterStep(w, h, id, body, costume, forward).0)
  {
    EndKeepsInv(w, h);
    WearKeepsInv(w, w.handlers[h].client, costume);
    hide Others, ToEach, ListInv, Wear, EndOf;
  }

  lemma AcceptKeepsInv(w: World, h: nat, client: Ref, metadata: Ref)
    requires Inv(w) && Enabled(w, Accept(h, client, metadata))
    ensures Inv(AcceptStep(w, h, client, metadata))
  {
    hide CountConnected;
    var v := AcceptStep(w, h, client, metadata);
    CountOfUpdate(w.players.objects, v.players.objects, w.players.clients);
    forall r | r in v.players.objects && v.players.objects[r].connected
      ensures exists g :: g in v.handlers && v.handlers[g] == Handler(r, false)
    {
      var g :| g in w.handlers && w.handlers[g] == Handler(r, false);
      assert v.handlers[g] == Handler(r, false);
    }
  }

  lemma StepKeepsInv(w: World, e: Event)
    requires Inv(w) && Enabled(w, e)
    ensures Inv(Step(w, e).0)
  {
    match e
    case Accept(h, client, metadata) => AcceptKeepsInv(w, h, client, metadata);
    case First(h, hello, copy, order) => FirstKeepsInv(w, h, hello, copy, order);
    case Later(h, id, body, costume, forward) => LaterKeepsInv(w, h, id, body, costume, forward);
    case Close(h) => EndKeepsInv(w, h);
  }

  /** Over every interleaving: no id twice in the list, never more connections than the maximum, and a
      live handler behind every connection. */
  lemma {:induction false} EveryRunKeepsInv(max: nat, states: seq<World>, events: seq<Event>, i: nat)
    requires IsRun(max, states, events) && i < |states|
    ensures Inv(states[i]) && states[i].max == max
  {
    if i > 0 {
      EveryRunKeepsInv(max, states, events, i - 1);
      StepKeepsInv(states[i - 1], events[i - 1]);
    }
  }

  lemma RefusalIsSilent(w: World, h: nat, hello: Hello, copy: Ref, order: seq<Greeting>)
    requires Inv(w) && CanStart(w, h, hello, copy, order)
    requires !Admit(w.players, w.max, w.handlers[h].client, hello, copy).1.Admitted?
    ensures FirstStep(w, h, hello, copy, order) == (w.(handlers := w.handlers - {h}), [])
  {
    var client := w.handlers[h].client;
    hide Admit, ListInv, Others;
    assert w.players.objects[client := w.players.objects[client]] == w.players.objects;
  }

  lemma AdmissionSeats(w: World, h: nat, hello: Hello, copy: Ref, order: seq<Greeting>)
    requires Inv(w) && CanStart(w, h, hello, copy, order)
    requires Admit(w.players, w.max, w.handlers[h].client, hello, copy).1.Admitted?
    ensures var v := FirstStep(w, h, hello, copy, order).0;
            && h in v.handlers && !v.handlers[h].first && v.handlers[h].client in v.players.clients
            && v.handlers[h].client in v.players.objects
            && v.players.objects[v.handlers[h].client].id == hello.id
            && v.players.objects[v.handlers[h].client].connected
  {
    AdmittedList(w.players, w.max, w.handlers[h].client, hello, copy);
    hide Admit, ListInv, Others, IndexOfId, Listed, Welcome, CountConnected;
    var q := Admit(w.players, w.max, w.handlers[h].client, hello, copy).0;
    assert q.clients[|q.clients| - 1] in q.clients;
  }

  /** In every reachable state the first frame of a session decides: a Connect of a known kind is admitted
      under its id as long as fewer than the maximum are connected; anything else ends the session, changes
      nobody and tells nobody. */
  lemma FirstFrameDecides(max: nat, states: seq<World>, events: seq<Event>, i: nat)
    requires IsRun(max, states, events) && i < |events| && events[i].First?
    ensures var w, e, v := states[i], events[i], states[i + 1];
            if e.hello.Connect? && e.hello.kind != Invalid && |ConnectedEntries(w.players)| < max then
              && e.h in v.handlers && !v.handlers[e.h].first
              && var r := v.handlers[e.h].client;
                 r in ConnectedEntries(v.players) && v.players.objects[r].id == e.hello.id
            else v == w.(handlers := w.handlers - {e.h}) && Step(w, e).1 == []
  {
    var w, e := states[i], events[i];
    EveryRunKeepsInv(max, states, events, i);
    AdmittedIff(w.players, w.max, w.handlers[e.h].client, e.hello, e.copy);
    CountIsSize(w.players);
    hide Admit, CountConnected, DistinctIds, FirstStep;
    if Admit(w.players, w.max, w.handlers[e.h].client, e.hello, e.copy).1.Admitted? {
      AdmissionSeats(w, e.h, e.hello, e.copy, e.order);
    } else {
      RefusalIsSilent(w, e.h, e.hello, e.copy, e.order);
    }
  }

  // ---------------------------------------------------------------- reconnects

  /** An admitted object that is no longer in the list. */
  ghost predicate Retired(w: World, r: Ref) {
    && r in w.players.objects && r !in w.players.clients
    && forall h :: h in w.handlers && w.handlers[h].client == r ==> !w.handlers[h].first
  }

  lemma AdmitReplaces(p: Players, max: nat, client: Ref, hello: Hello, copy: Ref)
    requires ListInv(p, max) && client in p.objects && client !in p.clients && copy !in p.objects
    requires Admit(p, max, client, hello, copy).1.Admitted? && Listed(p.objects, p.clients, hello.id)
    ensures var was := p.clients[IndexOfId(p.objects, p.clients, hello.id)];
            var (q, a) := Admit(p, max, client, hello, copy);
            && a == Admitted(copy, false)
            && copy in q.clients && was !in q.clients && was in p.clients
            && q.objects[copy] == p.objects[was].(connected := true)
            && q.objects[was] == p.objects[was]
  {
    AdmittedList(p, max, client, hello, copy);
    var q := Admit(p, max, client, hello, copy).0;
    var k := IndexOfId(p.objects, p.clients, hello.id);
    hide Admit, IndexOfId, CountConnected, Listed;
    assert q.clients[|q.clients| - 1] == copy;
    assert p.clients[k] !in p.clients[..k] && p.clients[k] !in p.clients[k + 1..];
  }

  /** A reconnect puts a new entry in the place of the old one, which shares its id and metadata and
      keeps its costume; the old object is as it was, but retired. */
  lemma ReconnectReplaces(w: World, h: nat, hello: Hello, copy: Ref, order: seq<Greeting>)
    requires Inv(w) && Enabled(w, First(h, hello, copy, order))
    requires Admit(w.players, w.max, w.handlers[h].client, hello, copy).1.Admitted?
    requires Listed(w.players.objects, w.players.clients, hello.id)
    ensures var was := w.players.clients[IndexOfId(w.players.objects, w.players.clients, hello.id)];
            var v := FirstStep(w, h, hello, copy, order).0;
            && copy in v.players.clients
            && v.players.objects[copy] == w.players.objects[was].(connected := true)
            && v.players.objects[was] == w.players.objects[was]
            && v.handlers[h] == Handler(copy, false)
            && Retired(v, was)
  {
    AdmitReplaces(w.players, w.max, w.handlers[h].client, hello, copy);
    hide Admit, IndexOfId, Listed, ListInv, Others;
  }

  lemma AdmitKeepsRetired(p: Players, max: nat, client: Ref, hello: Hello, copy: Ref, r: Ref)
    requires Known(p.objects, p.clients) && client in p.objects && client !in p.clients && copy !in p.objects
    requires r in p.objects && r !in p.clients && r != client
    ensures var q := Admit(p, max, client, hello, copy).0; r in q.objects && r !in q.clients
  {
    if Admit(p, max, client, hello, copy).1.Admitted? {
      AdmittedFrame(p, max, client, hello, copy);
      hide Admit;
    }
  }

  lemma RetiredStays(w: World, e: Event, r: Ref)
    requires Inv(w) && Enabled(w, e) && Retired(w, r)
    ensures Retired(Step(w, e).0, r)
  {
    if e.First? {
      AdmitKeepsRetired(w.players, w.max, w.handlers[e.h].client, e.hello, e.copy, r);
      hide Admit, Others, ListInv;
    }
  }

  /** The handler of an event, by its client object. */
  predicate ActsFor(w: World, e: Event, r: Ref) {
    !e.Accept? && e.h in w.handlers && w.handlers[e.h].client == r
  }

  lemma RetiredStepIsHarmless(w: World, e: Event, r: Ref)
    requires Inv(w) && Enabled(w, e) && Retired(w, r) && ActsFor(w, e, r)
    ensures var v := Step(w, e).0;
            && v.players.clients == w.players.clients
            && forall c :: c in w.players.clients ==> v.players.objects[c] == w.players.objects[c]
  {
  }

  /** Once a client object has been replaced, no later step of its handler, however far into the run,
      changes the list or any entry in it. */
  lemma {:induction false} SupersededHandlerIsHarmless(
      max: nat, states: seq<World>, events: seq<Event>, i: nat, j: nat, r: Ref)
    requires IsRun(max, states, events) && i <= j < |events|
    requires Retired(states[i], r)
    ensures Retired(states[j], r)
    ensures ActsFor(states[j], events[j], r) ==>
              && states[j + 1].players.clients == states[j].players.clients
              && forall c :: c in states[j].players.clients ==>
                   states[j + 1].players.objects[c] == states[j].players.objects[c]
    decreases j
  {
    hide Step, Enabled, Inv, Retired, ActsFor;
    EveryRunKeepsInv(max, states, events, j);
    if i < j {
      SupersededHandlerIsHarmless(max, states, events, i, j - 1, r);
      EveryRunKeepsInv(max, states, events, j - 1);
      RetiredStays(states[j - 1], events[j - 1], r);
    }
    if ActsFor(states[j], events[j], r) {
      RetiredStepIsHarmless(states[j], events[j], r);
    }
  }

  /** The entry of an id. */
  function EntryOf(p: Players, id: Guid): Player
    requires Known(p.objects, p.clients) && Listed(p.objects, p.clients, id)
  {
    p.objects[p.clients[IndexOfId(p.objects, p.clients, id)]]
  }

  lemma EntryIs(p: Players, id: Guid, c: Ref)
    requires Known(p.objects, p.clients) && DistinctIds(p.objects, p.clients)
    requires c in p.clients && p.objects[c].id == id
    ensures Listed(p.objects, p.clients, id) && EntryOf(p, id) == p.objects[c]
  {
    var i :| 0 <= i < |p.clients| && p.clients[i] == c;
    var k := IndexOfId(p.objects, p.clients, id);
  }

  lemma AppendKeepsEntry(p: Players, q: Players, client: Ref, id: Guid)
    requires Known(p.objects, p.clients) && Known(q.objects, q.clients) && DistinctIds(q.objects, q.clients)
    requires Listed(p.objects, p.clients, id) && q.clients == p.clients + [client]
    requires forall i :: 0 <= i < |p.clients| ==>
               p.clients[i] in q.objects && q.objects[p.clients[i]] == p.objects[p.clients[i]]
    ensures Listed(q.objects, q.clients, id) && EntryOf(q, id) == EntryOf(p, id)
  {
    var k := IndexOfId(p.objects, p.clients, id);
    assert q.clients[k] == p.clients[k];
    hide IndexOfId;
    EntryIs(q, id, p.clients[k]);
  }

  lemma ReplacingKeepsMetadata(p: Players, q: Players, m: nat, copy: Ref, id: Guid)
    requires Known(p.objects, p.clients) && DistinctIds(p.objects, p.clients) && m < |p.clients|
    requires Known(q.objects, q.clients) && DistinctIds(q.objects, q.clients)
    requires Listed(p.objects, p.clients, id) && q.clients == p.clients[..m] + p.clients[m + 1..] + [copy]
    requires forall i :: 0 <= i < |p.clients| && i != m ==>
               p.clients[i] in q.objects && q.objects[p.clients[i]] == p.objects[p.clients[i]]
    requires copy in q.objects && q.objects[copy].id == p.objects[p.clients[m]].id
    requires q.objects[copy].metadata == p.objects[p.clients[m]].metadata
    ensures Listed(q.objects, q.clients, id) && EntryOf(q, id).metadata == EntryOf(p, id).metadata
  {
    var k := IndexOfId(p.objects, p.clients, id);
    hide IndexOfId;
    if k == m {
      assert q.clients[|q.clients| - 1] == copy;
      EntryIs(q, id, copy);
    } else {
      assert p.clients[k] == if k < m then q.clients[k] else q.clients[k - 1];
      EntryIs(q, id, p.clients[k]);
    }
  }

  lemma AdmitKeepsMetadata(p: Players, max: nat, client: Ref, hello: Hello, copy: Ref, id: Guid)
    requires ListInv(p, max) && client in p.objects && client !in p.clients && copy !in p.objects
    requires Admit(p, max, client, hello, copy).1.Admitted? && Listed(p.objects, p.clients, id)
    ensures var q := Admit(p, max, client, hello, copy).0;
            Listed(q.objects, q.clients, id) && EntryOf(q, id).metadata == EntryOf(p, id).metadata
  {
    AdmittedList(p, max, client, hello, copy);
    AdmittedFrame(p, max, client, hello, copy);
    AdmitKeepsListInv(p, max, client, hello, copy);
    var q := Admit(p, max, client, hello, copy).0;
    assert DistinctIds(q.objects, q.clients);
    hide Admit, CountConnected, DistinctIds, IndexOfId, Listed, EntryOf;
    if !Listed(p.objects, p.clients, hello.id) {
      AppendKeepsEntry(p, q, client, id);
    } else {
      ReplacingKeepsMetadata(p, q, IndexOfId(p.objects, p.clients, hello.id), copy, id);
    }
  }

  lemma StepKeepsMetadata(w: World, e: Event, id: Guid)
    requires Inv(w) && Enabled(w, e) && Listed(w.players.objects, w.players.clients, id)
    ensures var v := Step(w, e).0;
            && Known(v.players.objects, v.players.clients) && Listed(v.players.objects, v.players.clients, id)
            && EntryOf(v.players, id).metadata == EntryOf(w.players, id).metadata
  {
    hide Others, ToEach, Welcome, CountConnected, IsWelcome;
    StepKeepsInv(w, e);
    var v := Step(w, e).0;
    if e.First? && Admit(w.players, w.max, w.handlers[e.h].client, e.hello, e.copy).1.Admitted? {
      AdmitKeepsMetadata(w.players, w.max, w.handlers[e.h].client, e.hello, e.copy, id);
      hide Admit;
    } else {
      var c := w.players.clients[IndexOfId(w.players.objects, w.players.clients, id)];
      hide IndexOfId, EntryOf, CountConnected;
      assert v.players.clients == w.players.clients;
      assert v.players.objects[c].metadata == w.players.objects[c].metadata && v.players.objects[c].id == id;
      EntryIs(v.players, id, c);
      EntryIs(w.players, id, c);
    }
  }

  /** A player that was ever listed stays listed, and every later entry for it shares the metadata. */
  lemma {:induction false} MetadataSurvives(max: nat, states: seq<World>, events: seq<Event>, i: nat, j: nat, id: Guid)
    requires IsRun(max, states, events) && i <= j < |states|
    requires Known(states[i].players.objects, states[i].players.clients)
    requires Listed(states[i].players.objects, states[i].players.clients, id)
    ensures Known(states[j].players.objects, states[j].players.clients)
    ensures Listed(states[j].players.objects, states[j].players.clients, id)
    ensures EntryOf(states[j].players, id).metadata == EntryOf(states[i].players, id).metadata
    decreases j
  {
    hide Step, Enabled, Inv, EntryOf, Listed, Known;
    if i < j {
      MetadataSurvives(max, states, events, i, j - 1, id);
      EveryRunKeepsInv(max, states, events, j - 1);
      StepKeepsMetadata(states[j - 1], events[j - 1], id);
    }
  }

  // ---------------------------------------------------------------- forwarding

  lemma {:induction false} OthersAreDistinct(objects: map<Ref, Player>, clients: seq<Ref>, id: Guid)
    requires Known(objects, clients) && DistinctIds(objects, clients)
    ensures forall i, j :: 0 <= i < j < |Others(objects, clients, id)| ==>
              Others(objects, clients, id)[i] != Others(objects, clients, id)[j]
  {
    if clients != [] {
      assert forall i :: 0 <= i < |clients[1..]| ==> clients[1..][i] == clients[i + 1];
      OthersAreDistinct(objects, clients[1..], id);
      assert clients[0] !in clients[1..];
      assert clients[0] !in Others(objects, clients[1..], id);
    }
  }

  lemma {:induction false} NoneTwice(refs: seq<Ref>, x: Ref)
    requires forall i, j :: 0 <= i < j < |refs| ==> refs[i] != refs[j]
    ensures multiset(refs)[x] <= 1
  {
    if refs != [] {
      NoneTwice(refs[1..], x);
      assert refs == [refs[0]] + refs[1..];
      assert x == refs[0] ==> x !in refs[1..];
    }
  }

  lemma TwoIn(refs: seq<Ref>, i: nat, j: nat)
    requires i < j < |refs| && refs[i] == refs[j]
    ensures multiset(refs)[refs[i]] >= 2
  {
    assert refs == refs[..i] + [refs[i]] + refs[i + 1..j] + [refs[j]] + refs[j + 1..];
  }

  /** A connected player in the list under another id. */
  predicate IsOther(p: Players, id: Guid, c: Ref) {
    c in p.clients && c in p.objects && p.objects[c].connected && p.objects[c].id != id
  }

  /** Exactly one of the messages goes to this client. */
  ghost predicate HandedOnce(messages: seq<Delivery>, to: Ref, note: Note) {
    exists i :: 0 <= i < |messages| && messages[i] == Delivery(to, note)
                && forall j :: 0 <= j < |messages| && messages[j].to == to ==> j == i
  }

  /** A message to the others reaches every other connected player once, and nobody else. */
  lemma BroadcastReachesOthersOnce(p: Players, id: Guid, note: Note)
    requires Known(p.objects, p.clients) && DistinctIds(p.objects, p.clients)
    ensures var messages := ToEach(Others(p.objects, p.clients, id), note);
            && (forall c :: IsOther(p, id, c) ==> HandedOnce(messages, c, note))
            && (forall m :: m in messages ==> m.note == note && IsOther(p, id, m.to))
  {
    var others := Others(p.objects, p.clients, id);
    var messages := ToEach(others, note);
    OthersAreDistinct(p.objects, p.clients, id);
    forall c | IsOther(p, id, c) ensures HandedOnce(messages, c, note) {
      var i :| 0 <= i < |others| && others[i] == c;
      assert messages[i] == Delivery(c, note);
      forall j | 0 <= j < |messages| && messages[j].to == c ensures j == i {
        assert others[j] == c;
      }
    }
    forall m | m in messages ensures m.note == note && IsOther(p, id, m.to) {
      var k :| 0 <= k < |messages| && messages[k] == m;
      assert others[k] in others;
    }
  }

  /** In every reachable state a later frame ends its session if and only if the session has an id and the
      frame carries another one; nothing of such a frame is forwarded. What a session forwards otherwise is
      the frame, handed once to each other connected player, and never to the sender's own id. */
  lemma ForwardedFrames(max: nat, states: seq<World>, events: seq<Event>, i: nat)
    requires IsRun(max, states, events) && i < |events| && events[i].Later?
    ensures var w, e := states[i], events[i];
            var me, (v, messages) := w.players.objects[w.handlers[e.h].client].id, Step(w, e);
            && (e.h !in v.handlers <==> e.id != me && me != EMPTY)
            && if e.h !in v.handlers then forall m :: m in messages ==> m.note == DisconnectNote(me)
               else if !e.forward then messages == []
               else
                 && (forall c :: IsOther(w.players, me, c) ==> HandedOnce(messages, c, FrameNote(e.id, e.body)))
                 && (forall m :: m in messages ==> m.note == FrameNote(e.id, e.body) && IsOther(w.players, me, m.to))
  {
    EveryRunKeepsInv(max, states, events, i);
    var w, e := states[i], events[i];
    var me := w.players.objects[w.handlers[e.h].client].id;
    BroadcastReachesOthersOnce(w.players, me, FrameNote(e.id, e.body));
  }
}
