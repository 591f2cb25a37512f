/** The synchronisation as the server runs it: the global set and the players' metadata changed in place
    by the packet handler and the console (server/Server/Program.cs). Every method is proved to be a step
    of the transition system in module `ShineSync`. */
module ShineServer {
  import opened PacketHeader
  import S = ShineSync

  class Metadata {
    var shineSync: seq<int>
    var loadedSave: bool
    var speedrun: bool
    var hasGamePacket: bool

    constructor ()
      ensures AsMeta() == S.JOINED
    {
      shineSync, loadedSave, speedrun, hasGamePacket := [], false, false, false;
    }

    method Add(shine: int)
      modifies this
      ensures AsMeta() == old(AsMeta()).(bag := old(shineSync) + [shine])
    {
      shineSync := shineSync + [shine];
    }

    method Clear()
      modifies this
      ensures AsMeta() == old(AsMeta()).(bag := [])
    {
      shineSync := [];
    }

    function AsMeta(): S.Meta
      reads this
    {
      S.Meta(shineSync, loadedSave, speedrun, hasGamePacket)
    }
  }

  /** How many sends to a player succeed before its socket fails; without an entry, all. */
  type Stops = map<Guid, nat>

  class Program {
    var shineBag: set<int>
    var enabled: bool
    /** The metadata of every player that ever joined; the client objects of a player share it. */
    var players: map<Guid, Metadata>
    var connected: set<Guid>

    ghost predicate Valid()
      reads this
    {
      forall a, b :: a in players && b in players && a != b ==> players[a] != players[b]
    }

    ghost function View(): (w: S.World)
      reads this, players.Values
      ensures w.metas.Keys == players.Keys
    {
      S.World(enabled, shineBag, map id | id in players :: players[id].AsMeta(), connected)
    }

    /** Startup: what the persisted file holds. */
    constructor (enabled: bool, persisted: set<int>)
      ensures Valid() && View() == S.Initial(enabled, persisted)
    {
      shineBag, this.enabled, players, connected := persisted, enabled, map[], {};
    }

    /** Only the metadata of one player has changed. */
    twostate lemma OneChanged(id: Guid)
      requires Valid() && id in players && players == old(players)
      requires forall a :: a in players && a != id ==> players[a].AsMeta() == old(players[a].AsMeta())
      ensures View().metas == old(View()).metas[id := players[id].AsMeta()]
    {
    }

    method ClientJoined(id: Guid)
      requires Valid() && id !in players
      modifies this
      ensures Valid() && View() == S.Step(old(View()), S.Join(id))
    {
      var metadata := new Metadata();
      players := players[id := metadata];
      connected := connected + {id};
    }

    /** A reconnect keeps the metadata. */
    method Reconnect(id: Guid)
      requires Valid() && id in players
      modifies this`connected
      ensures View() == S.Step(old(View()), S.Reconnect(id))
    {
      connected := connected + {id};
    }

    method Disconnect(id: Guid)
      requires Valid() && id in players
      modifies this`connected
      ensures View() == S.Step(old(View()), S.Disconnect(id))
    {
      connected := connected - {id};
    }

    /** `shine set`. */
    method SetEnabled(value: bool)
      requires Valid()
      modifies this`enabled
      ensures View() == S.Step(old(View()), S.SetEnabled(value))
    {
      enabled := value;
    }

    /** What is missing, in the order in which it is enumerated, until the socket fails. */
    method ClientSyncShineBag(id: Guid, stops: Stops) returns (sent: seq<int>)
      requires Valid() && id in players
      modifies players[id]
      ensures S.CanSend(old(View()), id, sent)
      ensures View() == S.Handed(old(View()), map[id := sent])
      ensures id !in stops && enabled && !old(players[id].speedrun) ==> S.Elements(sent) == S.Missing(old(View()), id)
      ensures id in stops ==> |sent| <= stops[id]
    {
      sent := [];
      var metadata := players[id];
      ghost var w, m := View(), metadata.AsMeta();
      assert m.bag + [] == m.bag;
      hide S.Handed;
      if !enabled || metadata.speedrun {
        OneChanged(id);
        S.HandedToOne(w, id, sent);
        return;
      }
      var rest := set s | s in shineBag && s !in metadata.shineSync;
      while rest != {} && (id in stops ==> |sent| < stops[id])
        invariant metadata.AsMeta() == m.(bag := m.bag + sent)
        invariant S.NoDuplicates(sent)
        invariant S.Elements(sent) + rest == S.Missing(w, id) && S.Elements(sent) !! rest
        invariant id in stops ==> |sent| <= stops[id]
        decreases rest
      {
        SomeIn(rest);
        var shine :| shine in rest;
        hide S.Elements, S.NoDuplicates, S.Missing;
        Appended(sent, shine, rest);
        assert m.bag + (sent + [shine]) == m.bag + sent + [shine];
        metadata.Add(shine);
        sent := sent + [shine];
        rest := rest - {shine};
      }
      OneChanged(id);
      S.HandedToOne(w, id, sent);
    }

    static lemma SomeIn(rest: set<int>)
      ensures rest == {} || exists s :: s in rest
    {
      if forall s :: s !in rest {
        assert rest == {};
      }
    }

    static lemma Appended(sent: seq<int>, shine: int, rest: set<int>)
      requires S.NoDuplicates(sent) && shine in rest && S.Elements(sent) !! rest
      ensures S.NoDuplicates(sent + [shine])
      ensures S.Elements(sent + [shine]) + (rest - {shine}) == S.Elements(sent) + rest
      ensures S.Elements(sent + [shine]) !! rest - {shine}
    {
      assert S.Elements(sent + [shine]) == S.Elements(sent) + {shine} by {
        assert forall x :: x in sent + [shine] <==> x in sent || x == shine;
      }
      assert forall x :: x in sent ==> x in S.Elements(sent);
      S.NoDuplicatesInConcat(sent, [shine]);
    }

    /** The players `SyncShineBag` visits. */
    function ClientsConnected(): set<Guid>
      reads this, players.Values
    {
      set id | id in connected && id in players && players[id].hasGamePacket
    }

    /** `SyncShineBag`: every player in the game, in any order. */
    method SyncShineBag(stops: Stops) returns (sends: S.Sends)
      requires Valid()
      modifies players.Values
      ensures S.CanSendAll(old(View()), sends) && View() == S.Handed(old(View()), sends)
      ensures stops == map[] ==> S.Completed(old(View()), sends)
      ensures stops == map[] && enabled ==> S.EverybodyHasAll(View()) && S.SentDifference(old(View()), sends)
    {
      ghost var w := View();
      sends := map[];
      var rest := ClientsConnected();
      S.HandedNothing(w);
      while rest != {}
        invariant rest + sends.Keys == S.ClientsConnected(w) && rest !! sends.Keys
        invariant S.CanSendAll(w, sends) && View() == S.Handed(w, sends)
        invariant stops == map[] ==> S.AllSent(w, sends)
        decreases rest
      {
        SomeGuidIn(rest);
        var id :| id in rest;
        ghost var v := View();
        assert v.enabled == w.enabled && v.metas[id].speedrun == w.metas[id].speedrun == players[id].speedrun;
        var sent := ClientSyncShineBag(id, stops);
        hide S.Handed, S.CanSend, S.Missing, S.Elements, S.CanSendAll, S.AllSent, View;
        S.HandedNext(w, sends, id, sent);
        S.SendsNext(w, sends, id, sent);
        Visited(rest, sends, id, sent);
        sends := sends[id := sent];
        rest := rest - {id};
      }
      Converged(w, sends, stops);
    }

    static lemma Converged(w: S.World, sends: S.Sends, stops: Stops)
      requires S.CanSendAll(w, sends) && sends.Keys == S.ClientsConnected(w)
      requires stops == map[] ==> S.AllSent(w, sends)
      ensures stops == map[] && w.enabled ==>
                S.EverybodyHasAll(S.Handed(w, sends)) && S.SentDifference(w, sends)
    {
      if stops == map[] && w.enabled {
        S.AllConverge(w, sends);
      }
    }

    static lemma Visited(rest: set<Guid>, sends: S.Sends, id: Guid, sent: seq<int>)
      requires id in rest && rest !! sends.Keys
      ensures rest - {id} + sends[id := sent].Keys == rest + sends.Keys && rest - {id} !! sends[id := sent].Keys
    {
    }

    static lemma SomeGuidIn(rest: set<Guid>)
      ensures rest == {} || exists id :: id in rest
    {
      if forall id :: id !in rest {
        assert rest == {};
      }
    }

    /** The Game case of the packet handler; `later` says that a sync was scheduled. */
    method HandleGame(id: Guid, stage: string, scenario: byte) returns (later: bool)
      requires Valid() && id in players
      modifies this`shineBag, players[id]
      ensures View() == S.Step(old(View()), S.Game(id, stage, scenario))
      ensures id in S.ClientsConnected(View()) <==> id in connected
      ensures later <==> stage == S.CASCADE && old(players[id].speedrun)
    {
      var metadata := players[id];
      metadata.hasGamePacket := true;
      later := false;
      if stage == S.CAP && scenario == 0 {
        metadata.speedrun := true;
        metadata.Clear();
        shineBag := {};
      } else if stage == S.CASCADE {
        later := metadata.speedrun;
        metadata.speedrun := false;
      }
      OneChanged(id);
    }

    /** The Costume case: what was missed is sent before the save counts as loaded. */
    method HandleCostume(id: Guid, stops: Stops) returns (sent: seq<int>)
      requires Valid() && id in players
      modifies players[id]
      ensures S.Enabled(old(View()), S.Costume(id, sent)) && View() == S.Step(old(View()), S.Costume(id, sent))
      ensures id !in stops && enabled && !players[id].speedrun ==>
                S.Elements(sent) == S.Missing(old(View()), id) && shineBag <= S.Elements(players[id].shineSync)
    {
      ghost var w := View();
      sent := ClientSyncShineBag(id, stops);
      label synced:
      players[id].loadedSave := true;
      OneChanged@synced(id);
      S.CaughtUp(w, id, sent);
    }

    /** The Shine case; the result says whether the packet is forwarded. */
    method HandleShine(id: Guid, shine: int, stops: Stops) returns (forward: bool, sends: S.Sends)
      requires Valid() && id in players
      modifies this`shineBag, players.Values
      ensures S.Enabled(old(View()), S.Shine(id, shine, sends))
      ensures View() == S.Step(old(View()), S.Shine(id, shine, sends))
      ensures forward == enabled
      ensures stops == map[] && S.IsNews(old(View()), id, shine) ==>
                S.Completed(S.Reported(old(View()), id, shine), sends) && S.EverybodyHasAll(View())
    {
      sends := map[];
      S.HandedNothing(S.Reported(View(), id, shine));
      var metadata := players[id];
      if !enabled {
        return false, sends;
      }
      if !metadata.loadedSave {
        return true, sends;
      }
      shineBag := shineBag + {shine};
      if shine in metadata.shineSync {
        return true, sends;
      }
      metadata.Add(shine);
      OneChanged(id);
      sends := SyncShineBag(stops);
      return true, sends;
    }

    method ClearBag(id: Guid)
      requires Valid() && id in players
      modifies players[id]
      ensures View() == old(View()).(metas := old(View()).metas[id := old(View()).metas[id].(bag := [])])
    {
      players[id].Clear();
      OneChanged(id);
    }

    /** `shine clear`. */
    method ClearShines()
      requires Valid()
      modifies this`shineBag, players.Values
      ensures View() == S.Step(old(View()), S.Clear)
    {
      ghost var w := View();
      shineBag := {};
      var rest := players.Keys;
      assert View().metas == w.metas;
      PartlyCases(w);
      while rest != {}
        invariant rest <= players.Keys && shineBag == {}
        invariant View().metas == PartlyCleared(w, rest)
        decreases rest
      {
        SomeGuidIn(rest);
        var id :| id in rest;
        hide View, PartlyCleared, S.Cleared;
        ClearBag(id);
        PartlyNext(w, rest, id);
        rest := rest - {id};
      }
      hide PartlyCleared, S.Cleared;
    }

    /** The bags of all players but these have been emptied. */
    static ghost function PartlyCleared(w: S.World, rest: set<Guid>): map<Guid, S.Meta> {
      map id | id in w.metas :: if id in rest then w.metas[id] else w.metas[id].(bag := [])
    }

    static lemma PartlyCases(w: S.World)
      ensures PartlyCleared(w, w.metas.Keys) == w.metas
      ensures S.Cleared(w) == w.(global := {}, metas := PartlyCleared(w, {}))
    {
    }

    static lemma PartlyNext(w: S.World, rest: set<Guid>, id: Guid)
      requires id in rest && rest <= w.metas.Keys
      ensures id in PartlyCleared(w, rest) && PartlyCleared(w, rest)[id] == w.metas[id]
      ensures PartlyCleared(w, rest)[id := w.metas[id].(bag := [])] == PartlyCleared(w, rest - {id})
    {
    }
  }
}
