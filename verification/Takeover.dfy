/** One run of the server in which a takeover ends in a wrong table: `a` and `b` join, `a` reconnects
    while it is still connected, and then the handler of its first session ends
    (server/Server/Server.cs). */
module Takeover {
  import opened PacketHeader
  import opened Sessions
  import R = Roster
  import P = PuppetTable

  const MAX: nat := 3

  function Somebody(id: Guid, connected: bool, metadata: Ref): Player {
    Player(id, connected, NoCostume, metadata)
  }

  function Accepted(): World {
    World(Players(map[0 := Somebody(EMPTY, false, 0)], []), map[0 := Handler(0, true)], MAX)
  }

  function BothAccepted(): World {
    World(Players(map[0 := Somebody(EMPTY, false, 0), 1 := Somebody(EMPTY, false, 1)], []),
          map[0 := Handler(0, true), 1 := Handler(1, true)], MAX)
  }

  function FirstJoined(a: Guid): World {
    World(Players(map[0 := Somebody(a, true, 0), 1 := Somebody(EMPTY, false, 1)], [0]),
          map[0 := Handler(0, false), 1 := Handler(1, true)], MAX)
  }

  function BothJoined(a: Guid, b: Guid): World {
    World(Players(map[0 := Somebody(a, true, 0), 1 := Somebody(b, true, 1)], [0, 1]),
          map[0 := Handler(0, false), 1 := Handler(1, false)], MAX)
  }

  function ThirdAccepted(a: Guid, b: Guid): World {
    World(Players(map[0 := Somebody(a, true, 0), 1 := Somebody(b, true, 1), 2 := Somebody(EMPTY, false, 2)], [0, 1]),
          map[0 := Handler(0, false), 1 := Handler(1, false), 2 := Handler(2, true)], MAX)
  }

  /** Object 3 is the copy of object 0, which is still connected. */
  function TakenOver(a: Guid, b: Guid): World {
    World(Players(map[0 := Somebody(a, true, 0), 1 := Somebody(b, true, 1),
                      2 := Somebody(a, false, 2), 3 := Somebody(a, true, 0)], [1, 3]),
          map[0 := Handler(0, false), 1 := Handler(1, false), 2 := Handler(3, false)], MAX)
  }

  function FirstEnded(a: Guid, b: Guid): World {
    World(Players(map[0 := Somebody(a, false, 0), 1 := Somebody(b, true, 1),
                      2 := Somebody(a, false, 2), 3 := Somebody(a, true, 0)], [1, 3]),
          map[1 := Handler(1, false), 2 := Handler(3, false)], MAX)
  }

  lemma FirstAccept()
    ensures Enabled(Initial(MAX), Accept(0, 0, 0)) && Step(Initial(MAX), Accept(0, 0, 0)).0 == Accepted()
  {
  }

  lemma SecondAccept()
    ensures Enabled(Accepted(), Accept(1, 1, 1)) && Step(Accepted(), Accept(1, 1, 1)).0 == BothAccepted()
  {
  }

  lemma ThirdAccept(a: Guid, b: Guid)
    ensures Enabled(BothJoined(a, b), Accept(2, 2, 2))
    ensures Step(BothJoined(a, b), Accept(2, 2, 2)).0 == ThirdAccepted(a, b)
  {
    hide Others, CountConnected;
  }

  /** A first connection of an id that is not listed. */
  lemma FirstConnectionIs(w: World, h: nat, id: Guid, order: seq<Greeting>)
    requires WellFormed(w) && h in w.handlers && w.handlers[h].first && 3 !in w.players.objects
    requires !Listed(w.players.objects, w.players.clients, id) && w.handlers[h].client !in w.players.clients
    requires CountConnected(w.players.objects, w.players.clients) != w.max
    requires var p, client := w.players, w.handlers[h].client;
             var objects := p.objects[client := p.objects[client].(id := id, connected := true)];
             Known(objects, p.clients + [client])
             && IsWelcome(objects, order, Others(objects, p.clients + [client], id))
    ensures var e := First(h, Connect(id, FirstConnection), 3, order);
            var p, client := w.players, w.handlers[h].client;
            var objects := p.objects[client := p.objects[client].(id := id, connected := true)];
            && Enabled(w, e) && !R.Ends(w, e)
            && Step(w, e).0
               == World(Players(objects, p.clients + [client]), w.handlers[h := Handler(client, false)], w.max)
  {
    var hello := Connect(id, FirstConnection);
    assert Admit(w.players, w.max, w.handlers[h].client, hello, 3).1.Admitted?;
    AdmittedList(w.players, w.max, w.handlers[h].client, hello, 3);
    hide Admit, Others, IsWelcome, Listed, CountConnected;
  }

  /** The others in a list of one, of two. */
  lemma OthersOfOne(objects: map<Ref, Player>, c: Ref, id: Guid)
    requires c in objects && objects[c].connected
    ensures Others(objects, [c], id) == if objects[c].id != id then [c] else []
  {
    assert [c][1..] == [];
  }

  lemma OthersOfTwo(objects: map<Ref, Player>, b: Ref, c: Ref, id: Guid)
    requires b in objects && objects[b].connected && c in objects && objects[c].connected
    requires objects[b].id != id && objects[c].id == id
    ensures Others(objects, [b, c], id) == [b]
  {
    assert [b, c][1..] == [c];
    OthersOfOne(objects, c, id);
  }

  lemma NobodyToMeet(objects: map<Ref, Player>)
    ensures IsWelcome(objects, [], [])
  {
  }

  lemma OneToMeet(objects: map<Ref, Player>, c: Ref)
    requires c in objects && objects[c].costume == NoCostume
    ensures IsWelcome(objects, [Meet(c)], [c])
  {
    var nobody: seq<Ref> := [];
    assert [Meet(c)][1..] == [] && [c][1..] == [];
    assert Met([Meet(c)]) == [c] + Met([]);
    assert Dressed([]) == nobody && Wearers(objects, nobody) == nobody && nobody + nobody == nobody;
    assert Dressed([Meet(c)]) == nobody + Dressed([]);
    assert Wearers(objects, [c]) == nobody + Wearers(objects, nobody);
  }

  lemma FirstJoins(a: Guid)
    ensures var e := First(0, Connect(a, FirstConnection), 3, []);
            && Enabled(BothAccepted(), e) && !R.Ends(BothAccepted(), e)
            && Step(BothAccepted(), e).0 == FirstJoined(a)
  {
    hide Step, Enabled, R.Ends, Others, IsWelcome;
    var w := BothAccepted();
    var objects := w.players.objects[0 := Somebody(a, true, 0)];
    assert [] + [0] == [0];
    OthersOfOne(objects, 0, a);
    NobodyToMeet(objects);
    FirstConnectionIs(w, 0, a, []);
  }

  lemma SecondJoins(a: Guid, b: Guid)
    requires a != b
    ensures var e := First(1, Connect(b, FirstConnection), 3, [Meet(0)]);
            && Enabled(FirstJoined(a), e) && !R.Ends(FirstJoined(a), e)
            && Step(FirstJoined(a), e).0 == BothJoined(a, b)
  {
    hide Step, Enabled, R.Ends, Others, IsWelcome;
    var w := FirstJoined(a);
    var objects := w.players.objects[1 := Somebody(b, true, 1)];
    assert [0] + [1] == [0, 1] && [0][1..] == [];
    OthersOfTwo(objects, 0, 1, b);
    OneToMeet(objects, 0);
    FirstConnectionIs(w, 1, b, [Meet(0)]);
  }

  lemma CountOfTwo(objects: map<Ref, Player>, b: Ref, c: Ref)
    requires b in objects && objects[b].connected && c in objects && objects[c].connected
    ensures CountConnected(objects, [b, c]) == 2
  {
    assert [b, c][1..] == [c] && [c][1..] == [];
    assert CountConnected(objects, [c]) == 1;
  }

  /** A reconnect of the id of the first entry of two. */
  lemma ReconnectIs(w: World, h: nat, b: Ref, c: Ref, id: Guid, order: seq<Greeting>)
    requires WellFormed(w) && h in w.handlers && w.handlers[h].first && 3 !in w.players.objects
    requires w.players.clients == [b, c] && b in w.players.objects
    requires w.players.objects[b].id == id && w.players.objects[b].connected
    requires w.handlers[h].client !in [b, c] && CountConnected(w.players.objects, [b, c]) != w.max
    requires var p, client := w.players, w.handlers[h].client;
             var objects := p.objects[client := p.objects[client].(id := id)][3 := p.objects[b]];
             Known(objects, [c, 3]) && IsWelcome(objects, order, Others(objects, [c, 3], id))
    ensures var e := First(h, Connect(id, Reconnecting), 3, order);
            var p, client := w.players, w.handlers[h].client;
            var objects := p.objects[client := p.objects[client].(id := id)][3 := p.objects[b]];
            && Enabled(w, e) && !R.Ends(w, e)
            && Step(w, e).0 == World(Players(objects, [c, 3]), w.handlers[h := Handler(3, false)], w.max)
  {
    var p, hello := w.players, Connect(id, Reconnecting);
    assert p.objects[p.clients[0]].id == id && Listed(p.objects, p.clients, id);
    assert IndexOfId(p.objects, p.clients, id) == 0;
    assert [b, c][..0] + [b, c][0 + 1..] + [3] == [c, 3];
    assert Admit(p, w.max, w.handlers[h].client, hello, 3).1.Admitted?;
    AdmittedList(p, w.max, w.handlers[h].client, hello, 3);
    hide Admit, Others, IsWelcome, CountConnected, Listed, IndexOfId;
  }

  /** The third session takes over the entry of the first. */
  lemma ThirdTakesOver(a: Guid, b: Guid)
    requires a != b
    ensures var e := First(2, Connect(a, Reconnecting), 3, [Meet(1)]);
            && Enabled(ThirdAccepted(a, b), e) && !R.Ends(ThirdAccepted(a, b), e)
            && Step(ThirdAccepted(a, b), e).0 == TakenOver(a, b)
  {
    hide Step, Enabled, R.Ends, Others, IsWelcome, CountConnected;
    var w := ThirdAccepted(a, b);
    var objects := TakenOver(a, b).players.objects;
    CountOfTwo(w.players.objects, 0, 1);
    OthersOfTwo(objects, 1, 3, a);
    OneToMeet(objects, 1);
    assert objects == w.players.objects[2 := Somebody(a, false, 2)][3 := Somebody(a, true, 0)];
    ReconnectIs(w, 2, 0, 1, a, [Meet(1)]);
  }

  lemma FirstEnds(a: Guid, b: Guid)
    ensures Enabled(TakenOver(a, b), Close(0)) && Step(TakenOver(a, b), Close(0)).0 == FirstEnded(a, b)
  {
    hide Others, ToEach;
    var w := TakenOver(a, b);
    assert w.handlers - {0} == map[1 := Handler(1, false), 2 := Handler(3, false)];
    assert w.players.objects[0 := Somebody(a, false, 0)] == FirstEnded(a, b).players.objects;
  }

  function States(a: Guid, b: Guid): seq<World> {
    [Initial(MAX), Accepted(), BothAccepted(), FirstJoined(a), BothJoined(a, b), ThirdAccepted(a, b),
     TakenOver(a, b), FirstEnded(a, b)]
  }

  function Events(a: Guid, b: Guid): seq<Event> {
    [Accept(0, 0, 0), Accept(1, 1, 1), First(0, Connect(a, FirstConnection), 3, []),
     First(1, Connect(b, FirstConnection), 3, [Meet(0)]), Accept(2, 2, 2),
     First(2, Connect(a, Reconnecting), 3, [Meet(1)]), Close(0)]
  }

  /** One step after the other; only the last ends its handler. */
  lemma StepAt(a: Guid, b: Guid, i: nat)
    requires a != b && a != EMPTY && b != EMPTY && i < 7
    ensures Enabled(States(a, b)[i], Events(a, b)[i]) && R.HasId(Events(a, b)[i])
    ensures States(a, b)[i + 1] == Step(States(a, b)[i], Events(a, b)[i]).0
    ensures i < 6 ==> Events(a, b)[i].Accept? || (Events(a, b)[i].First? && !R.Ends(States(a, b)[i], Events(a, b)[i]))
  {
    hide Enabled, Step, R.Ends, Accepted, BothAccepted, FirstJoined, BothJoined, ThirdAccepted, TakenOver,
         FirstEnded, Initial;
    match i
    case 0 => FirstAccept();
    case 1 => SecondAccept();
    case 2 => FirstJoins(a);
    case 3 => SecondJoins(a, b);
    case 4 => ThirdAccept(a, b);
    case 5 => ThirdTakesOver(a, b);
    case _ =>
      assert i == 6;
      FirstEnds(a, b);
  }

  lemma IsOneRun(a: Guid, b: Guid)
    requires a != b && a != EMPTY && b != EMPTY
    ensures R.IsNamedRun(MAX, States(a, b), Events(a, b))
  {
    var states, events := States(a, b), Events(a, b);
    assert |states| == 8 && |events| == 7 && states[0] == Initial(MAX);
    forall i | 0 <= i < 7 ensures Enabled(states[i], events[i]) && R.HasId(events[i]) {
      StepAt(a, b, i);
    }
    hide Enabled, Step, States, Events, R.HasId;
    forall i | 0 <= i < 7 ensures states[i + 1] == Step(states[i], events[i]).0 {
      StepAt(a, b, i);
    }
  }

  lemma SixStepsAreRight(a: Guid, b: Guid, d: R.Decoder, strings: seq<P.Str>)
    requires a != b && a != EMPTY && b != EMPTY && R.IsNamedRun(MAX, States(a, b), Events(a, b))
    ensures R.RightUpTo(d, MAX, States(a, b), Events(a, b), 6, 1, strings)
  {
    var states, events := States(a, b), Events(a, b);
    assert |events| == 7;
    hide Enabled, Step, States, Events, R.IsHere, R.Ends, R.ConnectedAs, R.IsNamedRun, R.TableOf;
    forall i | 0 <= i < 6 ensures !R.MisleadsAt(d, MAX, states, events, i, 1, strings) {
      StepAt(a, b, i);
    }
    R.AgreementIff(d, MAX, states, events, 6, 1, strings);
  }

  /** In this run the table of the other player is right until the first session ends, and then wrong:
      both are still connected, and it has dropped the one who reconnected. */
  lemma TakeoverGoesWrong(a: Guid, b: Guid, d: R.Decoder, strings: seq<P.Str>)
    requires a != b && a != EMPTY && b != EMPTY
    ensures R.IsNamedRun(MAX, States(a, b), Events(a, b))
    ensures R.RightUpTo(d, MAX, States(a, b), Events(a, b), 6, 1, strings)
    ensures !R.RightAt(d, MAX, States(a, b), Events(a, b), 7, 1, strings)
    ensures R.IsHere(States(a, b)[7].players, 1) && R.ConnectedAs(States(a, b)[7].players, a)
  {
    IsOneRun(a, b);
    SixStepsAreRight(a, b, d, strings);
    StepAt(a, b, 6);
    BothStillHere(a, b);
    LastStepMisleads(a, b, R.TableOf(d, MAX, States(a, b), Events(a, b), 6, 1, strings), d);
    hide Enabled, Step, States, Events, R.IsHere, R.Ends, R.ConnectedAs, R.IsNamedRun, R.TableOf, R.RightAt, R.Misleads;
    R.RunStepRightIff(d, MAX, States(a, b), Events(a, b), 6, 1, strings);
  }

  lemma BothStillHere(a: Guid, b: Guid)
    ensures R.IsHere(FirstEnded(a, b).players, 1) && R.ConnectedAs(FirstEnded(a, b).players, a)
  {
    assert R.IsHere(FirstEnded(a, b).players, 3);
  }

  lemma LastStepMisleads(a: Guid, b: Guid, t: P.Table, d: R.Decoder)
    requires a != b && Enabled(TakenOver(a, b), Close(0))
    ensures R.Misleads(d, TakenOver(a, b), Close(0), 1, t)
  {
    FirstEnds(a, b);
    BothStillHere(a, b);
    hide Step, Enabled, R.ConnectedAs, FirstEnded;
  }
}
