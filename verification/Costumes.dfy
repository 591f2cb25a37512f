/** What the players wear, over runs of the server: every entry of the list wears what its player last put
    on, through disconnects and reconnects, and a newcomer is told just that (server/Server/Server.cs,
    server/Server/Program.cs). */
module Costumes {
  import opened PacketHeader
  import opened Sessions

  /** The event is a costume frame of the session that is listed under the id. */
  predicate PutsOn(w: World, e: Event, id: Guid) {
    && e.Later? && e.costume.Costume? && (e.id == id || id == EMPTY) && e.h in w.handlers
    && var c := w.handlers[e.h].client;
       c in w.players.clients && c in w.players.objects && w.players.objects[c].id == id
  }

  /** The costume in the last such frame of the first `n` events. */
  function LastWorn(states: seq<World>, events: seq<Event>, n: nat, id: Guid): Costume
    requires n <= |events| && n <= |states|
  {
    if n == 0 then NoCostume
    else if PutsOn(states[n - 1], events[n - 1], id) then events[n - 1].costume
    else LastWorn(states, events, n - 1, id)
  }

  predicate IsEntry(p: Players, c: Ref, id: Guid) {
    c in p.clients && c in p.objects && p.objects[c].id == id
  }

  /** Everybody in the list wears what its player has put on, nobody else has put on anything, and a session
      before its admission wears nothing. */
  ghost predicate WearsLast(w: World, worn: Guid -> Costume) {
    && (forall c, id :: IsEntry(w.players, c, id) ==> w.players.objects[c].costume == worn(id))
    && (forall id :: worn(id) == NoCostume || exists c :: IsEntry(w.players, c, id))
    && (forall h :: h in w.handlers && w.handlers[h].first && w.handlers[h].client in w.players.objects ==>
          w.players.objects[w.handlers[h].client].costume == NoCostume)
  }

  // ---------------------------------------------------------------- one step

  /** Only entries have changed that are not about costumes. */
  lemma SameEntries(w: World, v: World, worn: Guid -> Costume)
    requires WearsLast(w, worn) && v.players.clients == w.players.clients
    requires forall c :: c in w.players.clients && c in v.players.objects ==>
               c in w.players.objects && v.players.objects[c].id == w.players.objects[c].id
               && v.players.objects[c].costume == w.players.objects[c].costume
    requires forall c :: c in w.players.objects ==> c in v.players.objects
    requires forall h :: h in v.handlers && v.handlers[h].first && v.handlers[h].client in v.players.objects ==>
               v.players.objects[v.handlers[h].client].costume == NoCostume
    ensures WearsLast(v, worn)
  {
    forall id | worn(id) != NoCostume ensures exists c :: IsEntry(v.players, c, id) {
      var c :| IsEntry(w.players, c, id);
      assert IsEntry(v.players, c, id);
    }
    forall c, id | IsEntry(v.players, c, id) ensures v.players.objects[c].costume == worn(id) {
      assert IsEntry(w.players, c, id);
    }
  }

  lemma AcceptDresses(w: World, h: nat, client: Ref, metadata: Ref, worn: Guid -> Costume)
    requires Inv(w) && Enabled(w, Accept(h, client, metadata)) && WearsLast(w, worn)
    ensures WearsLast(AcceptStep(w, h, client, metadata), worn)
  {
    hide ListInv;
    SameEntries(w, AcceptStep(w, h, client, metadata), worn);
  }

  lemma EndDresses(w: World, h: nat, worn: Guid -> Costume)
    requires Inv(w) && h in w.handlers && WearsLast(w, worn)
    ensures WearsLast(EndOf(w, h).0, worn)
  {
    hide ListInv;
    SameEntries(w, EndOf(w, h).0, worn);
  }

  /** A costume put on by an entry changes that entry alone; one put on by anybody else changes no entry. */
  lemma WearDresses(w: World, h: nat, costume: Costume, worn: Guid -> Costume, next: Guid -> Costume)
    requires Inv(w) && h in w.handlers && !w.handlers[h].first && WearsLast(w, worn)
    requires forall id :: next(id) == if costume.Costume? && IsEntry(w.players, w.handlers[h].client, id)
                                      then costume else worn(id)
    ensures WearsLast(w.(players := Wear(w.players, w.handlers[h].client, costume)), next)
  {
    var client, p := w.handlers[h].client, w.players;
    var v := w.(players := Wear(p, client, costume));
    assert p.clients == v.players.clients && DistinctIds(p.objects, p.clients);
    forall c, id | IsEntry(v.players, c, id) ensures v.players.objects[c].costume == next(id) {
      assert IsEntry(p, c, id);
      if c != client && IsEntry(p, client, id) {
        OneEntry(p, c, client);
        assert false;
      }
    }
    forall id | next(id) != NoCostume ensures exists c :: IsEntry(v.players, c, id) {
      var c :| IsEntry(p, c, id);
      assert IsEntry(v.players, c, id);
    }
    hide ListInv, WearsLast;
    assert forall g :: g in w.handlers && w.handlers[g].first ==> w.handlers[g].client != client;
  }

  lemma OneEntry(p: Players, c: Ref, d: Ref)
    requires Known(p.objects, p.clients) && DistinctIds(p.objects, p.clients)
    requires c in p.clients && d in p.clients && p.objects[c].id == p.objects[d].id
    ensures c == d
  {
    var i :| 0 <= i < |p.clients| && p.clients[i] == c;
    var j :| 0 <= j < |p.clients| && p.clients[j] == d;
  }

  /** Whoever is in the list after an admission was there before, takes the place of somebody who was, or
      is a first connection under an id that was not. */
  lemma AdmittedEntry(p: Players, max: nat, client: Ref, hello: Hello, copy: Ref, c: Ref, id: Guid)
    requires Known(p.objects, p.clients) && client in p.objects && client !in p.clients && copy !in p.objects
    requires Admit(p, max, client, hello, copy).1.Admitted?
    requires IsEntry(Admit(p, max, client, hello, copy).0, c, id)
    ensures var q := Admit(p, max, client, hello, copy).0;
            || (exists d :: IsEntry(p, d, id) && p.objects[d].costume == q.objects[c].costume)
            || (q.objects[c].costume == p.objects[client].costume && !Listed(p.objects, p.clients, id))
  {
    AdmittedList(p, max, client, hello, copy);
    AdmittedFrame(p, max, client, hello, copy);
    var (q, a) := Admit(p, max, client, hello, copy);
    hide Admit, CountConnected;
    if c == a.client {
      if Listed(p.objects, p.clients, hello.id) {
        var d := p.clients[IndexOfId(p.objects, p.clients, hello.id)];
        assert IsEntry(p, d, id) && p.objects[d].costume == q.objects[c].costume;
      }
    } else {
      assert IsEntry(p, c, id) && p.objects[c] == q.objects[c];
    }
  }

  /** Every id that was listed still is. */
  lemma EntryStays(p: Players, max: nat, client: Ref, hello: Hello, copy: Ref, c: Ref, id: Guid)
    requires Known(p.objects, p.clients) && client in p.objects && client !in p.clients && copy !in p.objects
    requires Admit(p, max, client, hello, copy).1.Admitted? && IsEntry(p, c, id)
    ensures exists d :: IsEntry(Admit(p, max, client, hello, copy).0, d, id)
  {
    AdmittedList(p, max, client, hello, copy);
    AdmittedFrame(p, max, client, hello, copy);
    var (q, a) := Admit(p, max, client, hello, copy);
    hide Admit, CountConnected;
    hide Known;
    if !Listed(p.objects, p.clients, hello.id) {
      assert IsEntry(q, c, id);
    } else {
      var k := IndexOfId(p.objects, p.clients, hello.id);
      hide IndexOfId, Listed;
      if c == p.clients[k] {
        assert q.clients[|q.clients| - 1] == copy;
        assert IsEntry(q, copy, id);
      } else {
        StillIn(p.clients, k, copy, c);
        assert IsEntry(q, c, id);
      }
    }
  }

  lemma ListedIff(p: Players, id: Guid)
    requires Known(p.objects, p.clients)
    ensures Listed(p.objects, p.clients, id) <==> exists c :: IsEntry(p, c, id)
  {
    if Listed(p.objects, p.clients, id) {
      var i :| 0 <= i < |p.clients| && p.objects[p.clients[i]].id == id;
      assert IsEntry(p, p.clients[i], id);
    }
    if c :| IsEntry(p, c, id) {
      var i :| 0 <= i < |p.clients| && p.clients[i] == c;
    }
  }

  /** A first connection wears nothing, a reconnect what the entry it replaces wears. */
  lemma AdmissionDresses(w: World, h: nat, hello: Hello, copy: Ref, worn: Guid -> Costume)
    requires Inv(w) && WearsLast(w, worn)
    requires h in w.handlers && w.handlers[h].first && copy !in w.players.objects
    requires Admit(w.players, w.max, w.handlers[h].client, hello, copy).1.Admitted?
    ensures var (q, a) := Admit(w.players, w.max, w.handlers[h].client, hello, copy);
            WearsLast(World(q, w.handlers[h := Handler(a.client, false)], w.max), worn)
  {
    var p, client := w.players, w.handlers[h].client;
    AdmittedFrame(p, w.max, client, hello, copy);
    var (q, a) := Admit(p, w.max, client, hello, copy);
    hide Admit, ListInv, IsEntry;
    forall c, id | IsEntry(q, c, id) ensures c in q.objects && q.objects[c].costume == worn(id) {
      AdmittedEntry(p, w.max, client, hello, copy, c, id);
      ListedIff(p, id);
      HasObject(q, c, id);
    }
    forall id | worn(id) != NoCostume ensures exists c :: IsEntry(q, c, id) {
      var c :| IsEntry(p, c, id);
      EntryStays(p, w.max, client, hello, copy, c, id);
    }
  }

  lemma HasObject(p: Players, c: Ref, id: Guid)
    requires IsEntry(p, c, id)
    ensures c in p.objects
  {
  }

  lemma FirstDresses(w: World, h: nat, hello: Hello, copy: Ref, order: seq<Greeting>, worn: Guid -> Costume)
    requires Inv(w) && Enabled(w, First(h, hello, copy, order)) && WearsLast(w, worn)
    ensures WearsLast(FirstStep(w, h, hello, copy, order).0, worn)
  {
    hide Admit, ListInv, WearsLast, Others;
    if Admit(w.players, w.max, w.handlers[h].client, hello, copy).1.Admitted? {
      AdmissionDresses(w, h, hello, copy, worn);
    } else {
      EndDresses(w, h, worn);
    }
  }

  lemma SameWorn(w: World, worn: Guid -> Costume, next: Guid -> Costume)
    requires WearsLast(w, worn) && forall id :: next(id) == worn(id)
    ensures WearsLast(w, next)
  {
  }

  lemma StepDresses(w: World, e: Event, worn: Guid -> Costume, next: Guid -> Costume)
    requires Inv(w) && Enabled(w, e) && WearsLast(w, worn)
    requires forall id :: next(id) == if PutsOn(w, e, id) then e.costume else worn(id)
    ensures WearsLast(Step(w, e).0, next)
  {
    hide ListInv, WearsLast, Wear, FirstStep, AcceptStep, EndOf, CanStart;
    match e
    case Accept(h, client, metadata) =>
      SameWorn(w, worn, next);
      AcceptDresses(w, h, client, metadata, next);
    case First(h, hello, copy, order) =>
      SameWorn(w, worn, next);
      FirstDresses(w, h, hello, copy, order, next);
    case Close(h) =>
      SameWorn(w, worn, next);
      EndDresses(w, h, next);
    case Later(h, id, _, costume, _) =>
      var me := w.players.objects[w.handlers[h].client].id;
      if id != me && me != EMPTY {
        SameWorn(w, worn, next);
        EndDresses(w, h, next);
      } else {
        WearDresses(w, h, costume, worn, next);
      }
  }

  // ---------------------------------------------------------------- every run

  ghost function WornAt(states: seq<World>, events: seq<Event>, n: nat): Guid -> Costume
    requires n <= |events| && n <= |states|
  {
    (id: Guid) => LastWorn(states, events, n, id)
  }

  lemma {:induction false} RunDresses(max: nat, states: seq<World>, events: seq<Event>, n: nat)
    requires IsRun(max, states, events) && n <= |events|
    ensures WearsLast(states[n], WornAt(states, events, n))
  {
    hide Enabled, Step, Inv;
    if n > 0 {
      RunDresses(max, states, events, n - 1);
      EveryRunKeepsInv(max, states, events, n - 1);
      StepDresses(states[n - 1], events[n - 1], WornAt(states, events, n - 1), WornAt(states, events, n));
    }
  }

  /** In every reachable state each entry of the list, connected or not, wears what its player last put on
      in a session that was listed then; disconnects, reconnects and superseded sessions change nothing. */
  lemma EntriesWearLast(max: nat, states: seq<World>, events: seq<Event>, n: nat, c: Ref)
    requires IsRun(max, states, events) && n <= |events|
    requires c in states[n].players.clients && c in states[n].players.objects
    ensures var entry := states[n].players.objects[c]; entry.costume == LastWorn(states, events, n, entry.id)
  {
    RunDresses(max, states, events, n);
    assert IsEntry(states[n].players, c, states[n].players.objects[c].id);
  }

  // ---------------------------------------------------------------- what a newcomer is told

  /** The costumes that are told to a client, in order. */
  function CostumesTold(messages: seq<Delivery>, to: Ref): seq<Note> {
    if messages == [] then []
    else (if messages[0].to == to && messages[0].note.CostumeNote? then [messages[0].note] else [])
         + CostumesTold(messages[1..], to)
  }

  lemma {:induction false} ToldOfConcat(a: seq<Delivery>, b: seq<Delivery>, to: Ref)
    ensures CostumesTold(a + b, to) == CostumesTold(a, to) + CostumesTold(b, to)
  {
    if a == [] {
      assert a + b == b;
    } else {
      assert (a + b)[1..] == a[1..] + b;
      ToldOfConcat(a[1..], b, to);
    }
  }

  lemma {:induction false} NoCostumesTold(messages: seq<Delivery>, to: Ref)
    requires forall m :: m in messages ==> !m.note.CostumeNote?
    ensures CostumesTold(messages, to) == []
  {
    if messages != [] {
      NoCostumesTold(messages[1..], to);
    }
  }

  /** The costumes of these players, under their ids. */
  function Worn(objects: map<Ref, Player>, refs: seq<Ref>): seq<Note>
    requires forall r :: r in refs ==> r in objects && objects[r].costume.Costume?
  {
    seq(|refs|, i requires 0 <= i < |refs| => CostumeNote(objects[refs[i]].id, objects[refs[i]].costume.body))
  }

  lemma ToldOfGreeting(objects: map<Ref, Player>, g: Greeting, to: Ref)
    requires g.other in objects
    ensures CostumesTold(Greet(objects, g, to), to)
            == if g.Dress? && objects[g.other].costume.Costume?
               then [CostumeNote(objects[g.other].id, objects[g.other].costume.body)] else []
  {
    var first := Greet(objects, g, to);
    assert first != [] ==> first[1..] == [];
  }

  lemma WornFirst(objects: map<Ref, Player>, r: Ref, refs: seq<Ref>)
    requires forall s :: s in [r] + refs ==> s in objects && objects[s].costume.Costume?
    ensures forall s :: s in refs ==> s in objects && objects[s].costume.Costume?
    ensures r in objects && objects[r].costume.Costume?
    ensures Worn(objects, [r] + refs)
            == [CostumeNote(objects[r].id, objects[r].costume.body)] + Worn(objects, refs)
  {
    assert r in [r] + refs && forall s :: s in refs ==> s in [r] + refs;
  }

  lemma {:induction false} ToldOfWelcome(objects: map<Ref, Player>, order: seq<Greeting>, to: Ref)
    requires AllKnown(objects, order)
    requires forall r :: r in Dressed(order) ==> r in objects && objects[r].costume.Costume?
    ensures CostumesTold(Welcome(objects, order, to), to) == Worn(objects, Dressed(order))
  {
    if order != [] {
      var rest := order[1..];
      assert forall i :: 0 <= i < |rest| ==> rest[i] == order[i + 1];
      if order[0].Dress? {
        WornFirst(objects, order[0].other, Dressed(rest));
      }
      ToldOfGreeting(objects, order[0], to);
      hide Greet, Worn, CostumesTold;
      ToldOfWelcome(objects, rest, to);
      ToldOfConcat(Greet(objects, order[0], to), Welcome(objects, rest, to), to);
    }
  }

  predicate Distinct(refs: seq<Ref>) {
    forall i, j :: 0 <= i < j < |refs| ==> refs[i] != refs[j]
  }

  lemma {:induction false} WearersAreDistinct(objects: map<Ref, Player>, refs: seq<Ref>)
    requires Known(objects, refs) && Distinct(refs)
    ensures Distinct(Wearers(objects, refs))
  {
    if refs != [] {
      assert forall i :: 0 <= i < |refs[1..]| ==> refs[1..][i] == refs[i + 1];
      WearersAreDistinct(objects, refs[1..]);
      assert refs[0] !in Wearers(objects, refs[1..]);
    }
  }

  lemma OrderOfDistinct(order: seq<Ref>, refs: seq<Ref>)
    requires IsOrderOf(order, refs) && Distinct(refs)
    ensures Distinct(order)
  {
    forall i, j | 0 <= i < j < |order| ensures order[i] != order[j] {
      if order[i] == order[j] {
        TwoIn(order, i, j);
        NoneTwice(refs, order[i]);
      }
    }
  }

  /** Those whose costumes a welcome tells: every other connected player that wears one, once. */
  lemma DressedOnce(p: Players, order: seq<Greeting>, id: Guid)
    requires Known(p.objects, p.clients) && DistinctIds(p.objects, p.clients)
    requires IsWelcome(p.objects, order, Others(p.objects, p.clients, id))
    ensures var who := Dressed(order);
            && Distinct(who)
            && forall c :: c in who <==> IsOther(p, id, c) && p.objects[c].costume.Costume?
  {
    var others := Others(p.objects, p.clients, id);
    OthersAreDistinct(p.objects, p.clients, id);
    hide Dressed, Met, DistinctIds, Wearers, Others;
    WearersAreDistinct(p.objects, others);
    assert IsOrderOf(Dressed(order), Wearers(p.objects, others));
    OrderOfDistinct(Dressed(order), Wearers(p.objects, others));
  }

  lemma WelcomeTells(w: World, h: nat, hello: Hello, copy: Ref, order: seq<Greeting>)
    requires Inv(w) && Enabled(w, First(h, hello, copy, order))
    requires Admit(w.players, w.max, w.handlers[h].client, hello, copy).1.Admitted?
    ensures var (q, a) := Admit(w.players, w.max, w.handlers[h].client, hello, copy);
            var (messages, who) := (FirstStep(w, h, hello, copy, order).1, Dressed(order));
            && Distinct(who)
            && (forall c :: c in who <==> IsOther(q, hello.id, c) && q.objects[c].costume.Costume?)
            && CostumesTold(messages, a.client) == Worn(q.objects, who)
  {
    FirstKeepsInv(w, h, hello, copy, order);
    var (q, a) := Admit(w.players, w.max, w.handlers[h].client, hello, copy);
    var news := ToEach(Others(q.objects, q.clients, hello.id), ConnectNote(hello.id));
    hide Admit, CostumesTold, Welcome, Worn, Others, CountConnected, Dressed, Met, DistinctIds;
    DressedOnce(q, order, hello.id);
    assert AllKnown(q.objects, order);
    ToldOfWelcome(q.objects, order, a.client);
    ToldOfConcat(Welcome(q.objects, order, a.client), news, a.client);
    NoCostumesTold(news, a.client);
  }

  lemma AdmittedIfHandled(w: World, h: nat, hello: Hello, copy: Ref, order: seq<Greeting>)
    requires Inv(w) && Enabled(w, First(h, hello, copy, order))
    requires h in FirstStep(w, h, hello, copy, order).0.handlers
    ensures var ((q, a), v) := (Admit(w.players, w.max, w.handlers[h].client, hello, copy),
                                FirstStep(w, h, hello, copy, order).0);
            a.Admitted? && v.players == q && v.handlers[h].client == a.client
  {
    if !Admit(w.players, w.max, w.handlers[h].client, hello, copy).1.Admitted? {
      RefusalIsSilent(w, h, hello, copy, order);
    }
    hide Admit, Welcome, Others, ListInv;
  }

  /** A newcomer is told the costume of each other connected player that wears one, once, under its id, and
      it is the one that the player last put on. */
  lemma NewcomerIsTold(max: nat, states: seq<World>, events: seq<Event>, i: nat)
    requires IsRun(max, states, events) && i < |events| && events[i].First?
    requires events[i].h in states[i + 1].handlers
    ensures var e, (v, messages) := events[i], Step(states[i], events[i]);
            var (told, who) := (CostumesTold(messages, v.handlers[e.h].client), Dressed(e.order));
            && |told| == |who| && Distinct(who)
            && (forall c :: c in who <==>
                  IsOther(v.players, e.hello.id, c)
                  && LastWorn(states, events, i + 1, v.players.objects[c].id).Costume?)
            && forall k :: 0 <= k < |who| ==>
                 && who[k] in v.players.objects
                 && var id := v.players.objects[who[k]].id;
                    told[k].CostumeNote? && told[k].id == id
                    && LastWorn(states, events, i + 1, id) == Costume(told[k].costume)
  {
    var w, e, v := states[i], events[i], states[i + 1];
    EveryRunKeepsInv(max, states, events, i);
    AdmittedIfHandled(w, e.h, e.hello, e.copy, e.order);
    WelcomeTells(w, e.h, e.hello, e.copy, e.order);
    assert Step(w, e) == FirstStep(w, e.h, e.hello, e.copy, e.order) && v == Step(w, e).0;
    var who, worn := Dressed(e.order), WornAt(states, events, i + 1);
    hide *;
    forall c | c in v.players.clients && c in v.players.objects
      ensures v.players.objects[c].costume == LastWorn(states, events, i + 1, v.players.objects[c].id)
    {
      EntriesWearLast(max, states, events, i + 1, c);
    }
    WornAtIs(states, events, i + 1);
    forall c | c in who
      ensures c in v.players.objects && v.players.objects[c].costume.Costume?
      ensures v.players.objects[c].costume == worn(v.players.objects[c].id)
    {
      OtherIsListed(v.players, e.hello.id, c);
    }
    forall c | IsOther(v.players, e.hello.id, c)
      ensures c in v.players.objects
              && v.players.objects[c].costume == LastWorn(states, events, i + 1, v.players.objects[c].id)
    {
      OtherIsListed(v.players, e.hello.id, c);
    }
    ToldIsLast(v.players.objects, who, worn);
  }

  lemma WornAtIs(states: seq<World>, events: seq<Event>, n: nat)
    requires n <= |events| && n <= |states|
    ensures forall id: Guid :: WornAt(states, events, n)(id) == LastWorn(states, events, n, id)
  {
  }

  lemma OtherIsListed(p: Players, id: Guid, c: Ref)
    requires IsOther(p, id, c)
    ensures c in p.clients && c in p.objects
  {
  }

  lemma ToldIsLast(objects: map<Ref, Player>, who: seq<Ref>, worn: Guid -> Costume)
    requires forall c :: c in who ==>
               c in objects && objects[c].costume.Costume? && objects[c].costume == worn(objects[c].id)
    ensures var told := Worn(objects, who);
            |told| == |who| && forall k :: 0 <= k < |who| ==>
              && who[k] in objects && told[k].CostumeNote? && told[k].id == objects[who[k]].id
              && worn(told[k].id) == Costume(told[k].costume)
  {
  }
}
