/** Moon ("shine") synchronisation on the server: the global set, the bag kept for each player in its
    metadata, and every way the two change (server/Server/Program.cs). A sync writes to sockets that can
    fail, so how far it gets is part of the event. */
module ShineSync {
  import opened PacketHeader

  const CAP := "CapWorldHomeStage"
  const CASCADE := "WaterfallWorldHomeStage"

  /** The entries of a player's `Metadata` that the synchronisation reads and writes; `inGame` says that
      there is a `lastGamePacket`. */
  datatype Meta = Meta(bag: seq<int>, loadedSave: bool, speedrun: bool, inGame: bool)

  const JOINED := Meta([], false, false, false)

  datatype World = World(enabled: bool, global: set<int>, metas: map<Guid, Meta>, connected: set<Guid>)

  /** What was sent to each player. */
  type Sends = map<Guid, seq<int>>

  datatype Event =
    | Join(id: Guid)
    | Reconnect(id: Guid)
    | Disconnect(id: Guid)
    | Game(id: Guid, stage: string, scenario: byte)
    | Costume(id: Guid, sent: seq<int>)
    | Shine(id: Guid, shine: int, sends: Sends)
    | DelayedSync(id: Guid, sent: seq<int>)
    | SyncAll(sends: Sends)
    | Clear
    | SetEnabled(value: bool)

  function Initial(enabled: bool, persisted: set<int>): World {
    World(enabled, persisted, map[], {})
  }

  function Elements(s: seq<int>): set<int> {
    set x | x in s
  }

  predicate NoDuplicates(s: seq<int>) {
    forall i, j :: 0 <= i < j < |s| ==> s[i] != s[j]
  }

  // ---------------------------------------------------------------- a sync

  /** `shineBag.Except(clientBag)`. */
  function Missing(w: World, id: Guid): set<int>
    requires id in w.metas
  {
    set s | s in w.global && s !in w.metas[id].bag
  }

  /** What one `ClientSyncShineBag` may send: some of what is missing, each once, or nothing. */
  predicate CanSend(w: World, id: Guid, sent: seq<int>) {
    && id in w.metas
    && NoDuplicates(sent) && Elements(sent) <= Missing(w, id)
    && (!w.enabled || w.metas[id].speedrun ==> sent == [])
  }

  function ClientsConnected(w: World): set<Guid> {
    set id | id in w.connected && id in w.metas && w.metas[id].inGame
  }

  predicate CanSendAll(w: World, sends: Sends) {
    forall id :: id in sends ==> id in ClientsConnected(w) && CanSend(w, id, sends[id])
  }

  /** Whatever was sent is added to the bag of its player. */
  function Handed(w: World, sends: Sends): World {
    w.(metas := map id | id in w.metas ::
         if id in sends then w.metas[id].(bag := w.metas[id].bag + sends[id]) else w.metas[id])
  }

  lemma HandedToOne(w: World, id: Guid, sent: seq<int>)
    requires id in w.metas
    ensures Handed(w, map[id := sent]) == w.(metas := w.metas[id := w.metas[id].(bag := w.metas[id].bag + sent)])
  {
  }

  lemma HandedNothing(w: World)
    ensures Handed(w, map[]) == w
  {
  }

  /** The sends to different players do not affect each other. */
  lemma HandedNext(w: World, sends: Sends, id: Guid, sent: seq<int>)
    requires id in w.metas && id !in sends
    ensures Handed(Handed(w, sends), map[id := sent]) == Handed(w, sends[id := sent])
    ensures CanSend(Handed(w, sends), id, sent) <==> CanSend(w, id, sent)
    ensures Missing(Handed(w, sends), id) == Missing(w, id)
  {
  }

  /** No send has failed so far. */
  predicate AllSent(w: World, sends: Sends) {
    forall id :: id in sends && id in w.metas && w.enabled && !w.metas[id].speedrun ==>
      Elements(sends[id]) == Missing(w, id)
  }

  lemma SendsNext(w: World, sends: Sends, id: Guid, sent: seq<int>)
    requires id in ClientsConnected(w) && id !in sends && CanSendAll(w, sends) && CanSend(w, id, sent)
    ensures CanSendAll(w, sends[id := sent])
    ensures AllSent(w, sends) && (w.enabled && !w.metas[id].speedrun ==> Elements(sent) == Missing(w, id)) ==>
              AllSent(w, sends[id := sent])
  {
    hide CanSend, Elements, Missing;
  }

  // ---------------------------------------------------------------- the packets

  function GameStep(w: World, id: Guid, stage: string, scenario: byte): World
    requires id in w.metas
  {
    var m := w.metas[id].(inGame := true);
    if stage == CAP && scenario == 0 then
      w.(global := {}, metas := w.metas[id := m.(speedrun := true, bag := [])])
    else if stage == CASCADE then w.(metas := w.metas[id := m.(speedrun := false)])
    else w.(metas := w.metas[id := m])
  }

  function CostumeStep(w: World, id: Guid, sent: seq<int>): World
    requires id in w.metas
  {
    var v := Handed(w, map[id := sent]);
    v.(metas := v.metas[id := v.metas[id].(loadedSave := true)])
  }

  /** A report counts once the save was loaded. */
  predicate Accepts(w: World, id: Guid) {
    id in w.metas && w.enabled && w.metas[id].loadedSave
  }

  predicate IsNews(w: World, id: Guid, shine: int) {
    Accepts(w, id) && shine !in w.metas[id].bag
  }

  function Reported(w: World, id: Guid, shine: int): World
    requires id in w.metas
  {
    if !Accepts(w, id) then w
    else if shine in w.metas[id].bag then w.(global := w.global + {shine})
    else w.(global := w.global + {shine},
            metas := w.metas[id := w.metas[id].(bag := w.metas[id].bag + [shine])])
  }

  function Cleared(w: World): World {
    w.(global := {}, metas := map id | id in w.metas :: w.metas[id].(bag := []))
  }

  predicate Enabled(w: World, e: Event) {
    match e
    case Join(id) => id !in w.metas
    case Reconnect(id) => id in w.metas
    case Disconnect(id) => id in w.metas
    case Game(id, _, _) => id in w.metas
    case Costume(id, sent) => CanSend(w, id, sent)
    case Shine(id, shine, sends) =>
      id in w.metas && if IsNews(w, id, shine) then CanSendAll(Reported(w, id, shine), sends) else sends == map[]
    case DelayedSync(id, sent) => CanSend(w, id, sent)
    case SyncAll(sends) => CanSendAll(w, sends)
    case Clear => true
    case SetEnabled(_) => true
  }

  function Step(w: World, e: Event): World
    requires Enabled(w, e)
  {
    match e
    case Join(id) => w.(metas := w.metas[id := JOINED], connected := w.connected + {id})
    case Reconnect(id) => w.(connected := w.connected + {id})
    case Disconnect(id) => w.(connected := w.connected - {id})
    case Game(id, stage, scenario) => GameStep(w, id, stage, scenario)
    case Costume(id, sent) => CostumeStep(w, id, sent)
    case Shine(id, shine, sends) => Handed(Reported(w, id, shine), sends)
    case DelayedSync(id, sent) => Handed(w, map[id := sent])
    case SyncAll(sends) => Handed(w, sends)
    case Clear => Cleared(w)
    case SetEnabled(value) => w.(enabled := value)
  }

  predicate IsRun(enabled: bool, persisted: set<int>, states: seq<World>, events: seq<Event>) {
    && |states| == |events| + 1
    && states[0] == Initial(enabled, persisted)
    && forall i :: 0 <= i < |events| ==> Enabled(states[i], events[i]) && states[i + 1] == Step(states[i], events[i])
  }

  // ---------------------------------------------------------------- what an event does to a bag

  /** What the sync path sends to a player in an event. */
  function SentIn(e: Event, id: Guid): seq<int> {
    match e
    case Costume(to, sent) => if to == id then sent else []
    case DelayedSync(to, sent) => if to == id then sent else []
    case Shine(_, _, sends) => if id in sends then sends[id] else []
    case SyncAll(sends) => if id in sends then sends[id] else []
    case _ => []
  }

  predicate NewSaveInCap(e: Event, id: Guid) {
    e.Game? && e.id == id && e.stage == CAP && e.scenario == 0
  }

  predicate EntersCascade(e: Event, id: Guid) {
    e.Game? && e.id == id && e.stage == CASCADE
  }

  /** The event empties the player's bag. */
  predicate Clears(e: Event, id: Guid) {
    e.Clear? || NewSaveInCap(e, id)
  }

  function OwnNews(w: World, e: Event, id: Guid): seq<int> {
    if e.Shine? && e.id == id && IsNews(w, id, e.shine) then [e.shine] else []
  }

  /** A bag grows by the player's own news and by what it is sent, and by nothing else. */
  lemma BagGrowsBy(w: World, e: Event, id: Guid)
    requires Enabled(w, e) && id in w.metas
    ensures id in Step(w, e).metas
    ensures Step(w, e).metas[id].bag
            == if Clears(e, id) then [] else w.metas[id].bag + OwnNews(w, e, id) + SentIn(e, id)
  {
    var bag := w.metas[id].bag;
    assert bag + [] == bag && bag + [] + [] == bag;
    if !Clears(e, id) {
      assert bag + OwnNews(w, e, id) + [] == bag + OwnNews(w, e, id);
    }
  }

  /** What is sent is new to the player, each moon once. */
  lemma SentIsNew(w: World, e: Event, id: Guid)
    requires Enabled(w, e) && id in w.metas
    ensures NoDuplicates(SentIn(e, id))
    ensures forall s :: s in SentIn(e, id) ==> s !in w.metas[id].bag + OwnNews(w, e, id)
    ensures w.metas[id].speedrun || !w.enabled ==> SentIn(e, id) == []
  {
    if SentIn(e, id) != [] {
      var v := if e.Shine? then Reported(w, e.id, e.shine) else w;
      assert CanSend(v, id, SentIn(e, id));
      assert v.metas[id].bag == w.metas[id].bag + OwnNews(w, e, id);
      forall s | s in SentIn(e, id) ensures s !in v.metas[id].bag {
        assert s in Elements(SentIn(e, id));
      }
    }
  }

  // ---------------------------------------------------------------- exactly once

  /** Everything the sync path sent to a player in events `i` to `j`. */
  function SentTo(events: seq<Event>, i: nat, j: nat, id: Guid): seq<int>
    requires i <= j <= |events|
  {
    if i == j then [] else SentTo(events, i, j - 1, id) + SentIn(events[j - 1], id)
  }

  predicate NoClear(events: seq<Event>, i: nat, j: nat, id: Guid)
    requires i <= j <= |events|
  {
    forall k :: i <= k < j ==> !Clears(events[k], id)
  }

  lemma NoDuplicatesInConcat(a: seq<int>, b: seq<int>)
    requires NoDuplicates(a) && NoDuplicates(b) && forall s :: s in b ==> s !in a
    ensures NoDuplicates(a + b)
  {
    forall i, j | 0 <= i < j < |a + b| ensures (a + b)[i] != (a + b)[j] {
      if i < |a| && |a| <= j {
        assert b[j - |a|] in b && a[i] in a;
      }
    }
  }

  /** Once a player has joined it stays known, and no bag ever holds a moon twice. */
  lemma {:induction false} BagsHaveNoDuplicates(
      enabled: bool, persisted: set<int>, states: seq<World>, events: seq<Event>, j: nat)
    requires IsRun(enabled, persisted, states, events) && j < |states|
    ensures forall id :: id in states[j].metas ==> NoDuplicates(states[j].metas[id].bag)
  {
    if j > 0 {
      BagsHaveNoDuplicates(enabled, persisted, states, events, j - 1);
      var w, e, v := states[j - 1], events[j - 1], states[j];
      forall id | id in v.metas ensures NoDuplicates(v.metas[id].bag) {
        if id in w.metas {
          BagGrowsBy(w, e, id);
          SentIsNew(w, e, id);
          NoDuplicatesInConcat(w.metas[id].bag, OwnNews(w, e, id));
          NoDuplicatesInConcat(w.metas[id].bag + OwnNews(w, e, id), SentIn(e, id));
        }
      }
    }
  }

  lemma SentToABag(start: seq<int>, bag: seq<int>, own: seq<int>, sent: seq<int>, before: seq<int>)
    requires NoDuplicates(before) && forall s :: s in before ==> s !in start && s in bag
    requires forall s :: s in start ==> s in bag
    requires NoDuplicates(sent) && forall s :: s in sent ==> s !in bag + own
    ensures NoDuplicates(before + sent) && forall s :: s in before + sent ==> s !in start && s in bag + own + sent
    ensures forall s :: s in start ==> s in bag + own + sent
  {
    NoDuplicatesInConcat(before, sent);
  }

  /** Between two clears of a player's bag the sync path sends it each moon at most once, and none that
      is already in its bag. */
  lemma {:induction false} SentOnce(
      enabled: bool, persisted: set<int>, states: seq<World>, events: seq<Event>, i: nat, j: nat, id: Guid)
    requires IsRun(enabled, persisted, states, events) && i <= j <= |events|
    requires id in states[i].metas && NoClear(events, i, j, id)
    ensures id in states[j].metas && NoDuplicates(SentTo(events, i, j, id))
    ensures forall s :: s in SentTo(events, i, j, id) ==> s !in states[i].metas[id].bag && s in states[j].metas[id].bag
    ensures forall s :: s in states[i].metas[id].bag ==> s in states[j].metas[id].bag
    decreases j
  {
    if i < j {
      SentOnce(enabled, persisted, states, events, i, j - 1, id);
      var w, e := states[j - 1], events[j - 1];
      RunStep(enabled, persisted, states, events, j - 1);
      SentLast(events, i, j, id);
      var before := SentTo(events, i, j - 1, id);
      hide *;
      BagGrowsBy(w, e, id);
      SentIsNew(w, e, id);
      SentToABag(states[i].metas[id].bag, w.metas[id].bag, OwnNews(w, e, id), SentIn(e, id), before);
    }
  }

  /** A moon the player has reported itself, after its save was loaded, is not sent to it again before
      its bag is cleared. */
  lemma ReportedIsNotSentBack(
      enabled: bool, persisted: set<int>, states: seq<World>, events: seq<Event>, k: nat, j: nat)
    requires IsRun(enabled, persisted, states, events) && k < j <= |events|
    requires events[k].Shine? && Accepts(states[k], events[k].id) && NoClear(events, k, j, events[k].id)
    ensures events[k].shine !in SentTo(events, k, j, events[k].id)
  {
    var id, s := events[k].id, events[k].shine;
    BagGrowsBy(states[k], events[k], id);
    SentIsNew(states[k], events[k], id);
    assert s in states[k].metas[id].bag + OwnNews(states[k], events[k], id);
    assert s in states[k + 1].metas[id].bag && s !in SentIn(events[k], id);
    hide Step, Enabled, SentIn, OwnNews;
    SentOnce(enabled, persisted, states, events, k + 1, j, id);
    SentFrom(events, k, j, id);
  }

  lemma {:induction false} SentFrom(events: seq<Event>, i: nat, j: nat, id: Guid)
    requires i < j <= |events|
    ensures SentTo(events, i, j, id) == SentIn(events[i], id) + SentTo(events, i + 1, j, id)
    decreases j
  {
    if i + 1 < j {
      SentLast(events, i, j, id);
      SentLast(events, i + 1, j, id);
      hide *;
      SentFrom(events, i, j - 1, id);
    }
  }

  // ---------------------------------------------------------------- convergence

  /** Every player in the game was synchronised, and no send failed. */
  predicate Completed(w: World, sends: Sends) {
    sends.Keys == ClientsConnected(w) && AllSent(w, sends)
  }

  /** After a completed sync every player in the game and outside a speedrun has the whole global set,
      and was sent just the difference. */
  lemma SyncConverges(w: World, sends: Sends, id: Guid)
    requires CanSendAll(w, sends) && Completed(w, sends) && w.enabled
    requires id in ClientsConnected(w) && !w.metas[id].speedrun
    ensures var v := Step(w, SyncAll(sends));
            && v.global == w.global && v.global <= Elements(v.metas[id].bag)
            && Elements(sends[id]) == w.global - Elements(w.metas[id].bag) && NoDuplicates(sends[id])
            && Missing(v, id) == {}
  {
    var v := Step(w, SyncAll(sends));
    forall s | s in w.global ensures s in v.metas[id].bag {
      if s !in w.metas[id].bag {
        assert s in Elements(sends[id]);
      }
    }
  }

  /** Whoever was sent all that it missed has the whole global set. */
  lemma CaughtUp(w: World, id: Guid, sent: seq<int>)
    requires id in w.metas
    ensures Elements(sent) == Missing(w, id) ==> w.global <= Elements(w.metas[id].bag + sent)
  {
    if Elements(sent) == Missing(w, id) {
      forall s | s in w.global ensures s in w.metas[id].bag + sent {
        assert s in w.metas[id].bag || s in Elements(sent);
      }
    }
  }

  /** Every player in the game and outside a speedrun has the whole global set. */
  predicate EverybodyHasAll(w: World) {
    forall id :: id in ClientsConnected(w) && !w.metas[id].speedrun ==> w.global <= Elements(w.metas[id].bag)
  }

  /** Each of them was sent just what it did not have, each moon once. */
  predicate SentDifference(w: World, sends: Sends) {
    forall id :: id in ClientsConnected(w) && !w.metas[id].speedrun ==>
      id in sends && Elements(sends[id]) == w.global - Elements(w.metas[id].bag) && NoDuplicates(sends[id])
  }

  lemma AllConverge(w: World, sends: Sends)
    requires CanSendAll(w, sends) && Completed(w, sends) && w.enabled
    ensures EverybodyHasAll(Handed(w, sends)) && SentDifference(w, sends)
  {
    assert ClientsConnected(Handed(w, sends)) == ClientsConnected(w);
    hide CanSendAll, Completed, Elements, NoDuplicates, Missing;
    forall id | id in ClientsConnected(w) && !w.metas[id].speedrun
      ensures id in sends && Elements(sends[id]) == w.global - Elements(w.metas[id].bag) && NoDuplicates(sends[id])
      ensures w.global <= Elements(Handed(w, sends).metas[id].bag)
    {
      SyncConverges(w, sends, id);
    }
  }

  /** A report that is news and a completed sync: everybody in the game has it, whoever reported it. */
  lemma NewsReachesEverybody(w: World, reporter: Guid, shine: int, sends: Sends, id: Guid)
    requires Enabled(w, Shine(reporter, shine, sends)) && IsNews(w, reporter, shine)
    requires Completed(Reported(w, reporter, shine), sends)
    requires id in ClientsConnected(w) && !w.metas[id].speedrun
    ensures var v := Step(w, Shine(reporter, shine, sends));
            && v.global == w.global + {shine} && v.global <= Elements(v.metas[id].bag)
            && (id != reporter ==> Elements(sends[id]) == v.global - Elements(w.metas[id].bag))
            && (id == reporter ==> Elements(sends[id]) == v.global - Elements(w.metas[id].bag) - {shine})
  {
    var u := Reported(w, reporter, shine);
    SyncConverges(u, sends, id);
    assert Elements(w.metas[reporter].bag + [shine]) == Elements(w.metas[reporter].bag) + {shine};
  }

  lemma NoElements(s: seq<int>)
    ensures Elements(s) == {} ==> s == []
  {
    if s != [] {
      assert s[0] in Elements(s);
    }
  }

  /** A second sync has nothing left to send. */
  lemma SecondSyncIsSilent(w: World, sends: Sends, again: Sends, id: Guid)
    requires CanSendAll(w, sends) && Completed(w, sends)
    requires CanSendAll(Step(w, SyncAll(sends)), again) && id in again
    ensures again[id] == []
  {
    var v := Step(w, SyncAll(sends));
    assert id in ClientsConnected(w);
    if w.enabled && !w.metas[id].speedrun {
      SyncConverges(w, sends, id);
      NoElements(again[id]);
    }
  }

  // ---------------------------------------------------------------- provenance

  /** The moons reported by players whose save was loaded, in the first `n` events. */
  function Reports(states: seq<World>, events: seq<Event>, n: nat): set<int>
    requires n <= |events| && n <= |states|
  {
    if n == 0 then {}
    else
      var w, e := states[n - 1], events[n - 1];
      Reports(states, events, n - 1) + if e.Shine? && Accepts(w, e.id) then {e.shine} else {}
  }

  /** Whatever is in the global set or in a bag was reported by a player with a loaded save or comes
      from the persisted file. */
  lemma {:induction false} Provenance(
      enabled: bool, persisted: set<int>, states: seq<World>, events: seq<Event>, n: nat)
    requires IsRun(enabled, persisted, states, events) && n <= |events|
    ensures states[n].global <= persisted + Reports(states, events, n)
    ensures forall id :: id in states[n].metas ==>
              Elements(states[n].metas[id].bag) <= persisted + Reports(states, events, n)
  {
    if n > 0 {
      Provenance(enabled, persisted, states, events, n - 1);
      var w, e, v := states[n - 1], events[n - 1], states[n];
      var before, sources := persisted + Reports(states, events, n - 1), persisted + Reports(states, events, n);
      forall id | id in v.metas ensures Elements(v.metas[id].bag) <= sources {
        if id in w.metas {
          BagGrowsBy(w, e, id);
          SentComesFrom(w, e, id, sources);
          assert Elements(w.metas[id].bag) <= before;
          forall s | s in v.metas[id].bag ensures s in sources {
            assert s in w.metas[id].bag ==> s in Elements(w.metas[id].bag);
          }
        }
      }
    }
  }

  lemma SentComesFrom(w: World, e: Event, id: Guid, sources: set<int>)
    requires Enabled(w, e) && id in w.metas && w.global <= sources
    requires e.Shine? && Accepts(w, e.id) ==> e.shine in sources
    ensures forall s :: s in SentIn(e, id) ==> s in sources
  {
    if SentIn(e, id) != [] {
      var v := if e.Shine? then Reported(w, e.id, e.shine) else w;
      assert CanSend(v, id, SentIn(e, id));
      forall s | s in SentIn(e, id) ensures s in sources {
        assert s in Elements(SentIn(e, id));
      }
    }
  }

  // ---------------------------------------------------------------- a speedrun

  lemma StaysSpeedrun(w: World, e: Event, id: Guid)
    requires Enabled(w, e) && id in w.metas && w.metas[id].speedrun && !EntersCascade(e, id)
    ensures id in Step(w, e).metas && Step(w, e).metas[id].speedrun
  {
  }

  lemma StartsSpeedrun(w: World, e: Event, id: Guid)
    requires Enabled(w, e) && NewSaveInCap(e, id)
    ensures id in Step(w, e).metas && Step(w, e).metas[id].speedrun && SentIn(e, id) == []
  {
  }

  predicate NoCascade(events: seq<Event>, i: nat, j: nat, id: Guid)
    requires i <= j <= |events|
  {
    forall k :: i <= k < j ==> !EntersCascade(events[k], id)
  }

  /** From a new save in Cap until Cascade the sync path sends the player nothing. */
  lemma {:induction false} NothingSentUntilCascade(
      enabled: bool, persisted: set<int>, states: seq<World>, events: seq<Event>, i: nat, j: nat, id: Guid)
    requires IsRun(enabled, persisted, states, events) && i < j <= |events|
    requires NewSaveInCap(events[i], id) && NoCascade(events, i + 1, j, id)
    ensures id in states[j].metas && states[j].metas[id].speedrun
    ensures SentTo(events, i, j, id) == []
    decreases j
  {
    hide *;
    RunStep(enabled, persisted, states, events, j - 1);
    var w, e := states[j - 1], events[j - 1];
    SentLast(events, i, j, id);
    if i + 1 == j {
      StartsSpeedrun(w, e, id);
      SentNone(events, i, id);
    } else {
      NoCascadeLast(events, i + 1, j, id);
      NothingSentUntilCascade(enabled, persisted, states, events, i, j - 1, id);
      SentIsNew(w, e, id);
      StaysSpeedrun(w, e, id);
    }
  }

  lemma NoCascadeLast(events: seq<Event>, i: nat, j: nat, id: Guid)
    requires i < j <= |events| && NoCascade(events, i, j, id)
    ensures NoCascade(events, i, j - 1, id) && !EntersCascade(events[j - 1], id)
  {
  }

  lemma SentNone(events: seq<Event>, i: nat, id: Guid)
    requires i <= |events|
    ensures SentTo(events, i, i, id) == []
  {
  }

  lemma RunStep(enabled: bool, persisted: set<int>, states: seq<World>, events: seq<Event>, k: nat)
    requires IsRun(enabled, persisted, states, events) && k < |events|
    ensures |states| == |events| + 1 && Enabled(states[k], events[k]) && states[k + 1] == Step(states[k], events[k])
  {
  }

  lemma SentLast(events: seq<Event>, i: nat, j: nat, id: Guid)
    requires i < j <= |events|
    ensures SentTo(events, i, j, id) == SentTo(events, i, j - 1, id) + SentIn(events[j - 1], id)
  {
  }

  /** The player is between a new save in Cap and Cascade. */
  predicate BeforeCascade(events: seq<Event>, j: nat, id: Guid)
    requires j <= |events|
  {
    exists i :: 0 <= i < j && NewSaveInCap(events[i], id) && NoCascade(events, i + 1, j, id)
  }

  lemma {:induction false} PlayersStayKnown(
      enabled: bool, persisted: set<int>, states: seq<World>, events: seq<Event>, i: nat, j: nat, id: Guid)
    requires IsRun(enabled, persisted, states, events) && i <= j <= |events| && id in states[i].metas
    ensures id in states[j].metas
    decreases j
  {
    if i < j {
      PlayersStayKnown(enabled, persisted, states, events, i, j - 1, id);
      RunStep(enabled, persisted, states, events, j - 1);
      hide *;
      BagGrowsBy(states[j - 1], events[j - 1], id);
    }
  }

  lemma BeforeCascadeNext(events: seq<Event>, j: nat, id: Guid)
    requires 0 < j <= |events|
    ensures NewSaveInCap(events[j - 1], id) ==> BeforeCascade(events, j, id)
    ensures !NewSaveInCap(events[j - 1], id) ==>
              (BeforeCascade(events, j, id) <==> BeforeCascade(events, j - 1, id) && !EntersCascade(events[j - 1], id))
  {
    hide NewSaveInCap, EntersCascade;
    if NewSaveInCap(events[j - 1], id) {
      assert NoCascade(events, j - 1 + 1, j, id);
    } else {
      if BeforeCascade(events, j, id) {
        var i :| 0 <= i < j && NewSaveInCap(events[i], id) && NoCascade(events, i + 1, j, id);
        assert i < j - 1 && NoCascade(events, i + 1, j - 1, id);
      }
      if BeforeCascade(events, j - 1, id) && !EntersCascade(events[j - 1], id) {
        var i :| 0 <= i < j - 1 && NewSaveInCap(events[i], id) && NoCascade(events, i + 1, j - 1, id);
        assert NoCascade(events, i + 1, j, id);
      }
    }
  }

  lemma SpeedrunStep(w: World, e: Event, id: Guid)
    requires Enabled(w, e) && id in Step(w, e).metas
    ensures id !in w.metas ==> !Step(w, e).metas[id].speedrun && !NewSaveInCap(e, id)
    ensures id in w.metas ==>
              (Step(w, e).metas[id].speedrun
               <==> NewSaveInCap(e, id) || (w.metas[id].speedrun && !EntersCascade(e, id)))
  {
    assert |CAP| != |CASCADE|;
  }

  /** The sync is off for a player exactly between a new save in Cap and Cascade. */
  lemma {:induction false} SpeedrunExactly(
      enabled: bool, persisted: set<int>, states: seq<World>, events: seq<Event>, j: nat, id: Guid)
    requires IsRun(enabled, persisted, states, events) && j <= |events| && id in states[j].metas
    ensures states[j].metas[id].speedrun <==> BeforeCascade(events, j, id)
    decreases j
  {
    if j > 0 {
      RunStep(enabled, persisted, states, events, j - 1);
      if id !in states[j - 1].metas {
        NeverBefore(enabled, persisted, states, events, j - 1, id);
      }
      hide *;
      SpeedrunStep(states[j - 1], events[j - 1], id);
      BeforeCascadeNext(events, j, id);
      if id in states[j - 1].metas {
        SpeedrunExactly(enabled, persisted, states, events, j - 1, id);
      }
    }
  }

  lemma NeverBefore(enabled: bool, persisted: set<int>, states: seq<World>, events: seq<Event>, j: nat, id: Guid)
    requires IsRun(enabled, persisted, states, events) && j <= |events| && id !in states[j].metas
    ensures !BeforeCascade(events, j, id)
  {
    if BeforeCascade(events, j, id) {
      var i :| 0 <= i < j && NewSaveInCap(events[i], id) && NoCascade(events, i + 1, j, id);
      RunStep(enabled, persisted, states, events, i);
      PlayersStayKnown(enabled, persisted, states, events, i, j, id);
    }
  }

  /** A bag is emptied by a new save in Cap, with the global set, and by the `shine clear` command. */
  lemma ClearedBags(w: World, e: Event, id: Guid)
    requires Enabled(w, e) && id in w.metas
    ensures Clears(e, id) ==> Step(w, e).metas[id].bag == [] && Step(w, e).global == {}
    ensures !Clears(e, id) ==> w.metas[id].bag <= Step(w, e).metas[id].bag
  {
    BagGrowsBy(w, e, id);
  }

  // ---------------------------------------------------------------- who is in the game

  predicate GoesOnline(e: Event, id: Guid) {
    (e.Join? || e.Reconnect?) && e.id == id
  }

  predicate GoesOffline(e: Event, id: Guid) {
    e.Disconnect? && e.id == id
  }

  /** The player has joined or come back, and has not left since. */
  predicate IsOnline(events: seq<Event>, n: nat, id: Guid)
    requires n <= |events|
  {
    exists k :: 0 <= k < n && GoesOnline(events[k], id) && forall j :: k < j < n ==> !GoesOffline(events[j], id)
  }

  lemma IsOnlineNext(events: seq<Event>, n: nat, id: Guid)
    requires n < |events|
    ensures IsOnline(events, n + 1, id)
            <==> GoesOnline(events[n], id) || (IsOnline(events, n, id) && !GoesOffline(events[n], id))
  {
    if IsOnline(events, n, id) && !GoesOffline(events[n], id) {
      var k :| 0 <= k < n && GoesOnline(events[k], id) && forall j :: k < j < n ==> !GoesOffline(events[j], id);
      assert GoesOnline(events[k], id) && forall j :: k < j < n + 1 ==> !GoesOffline(events[j], id);
    }
    if IsOnline(events, n + 1, id) && !GoesOnline(events[n], id) {
      var k :| 0 <= k < n + 1 && GoesOnline(events[k], id) && forall j :: k < j < n + 1 ==> !GoesOffline(events[j], id);
      assert k < n && forall j :: k < j < n ==> !GoesOffline(events[j], id);
    }
  }

  /** The player has sent a Game packet. */
  predicate HasPlayed(events: seq<Event>, n: nat, id: Guid)
    requires n <= |events|
  {
    exists k :: 0 <= k < n && events[k].Game? && events[k].id == id
  }

  /** The player has sent a Costume packet. */
  predicate HasDressed(events: seq<Event>, n: nat, id: Guid)
    requires n <= |events|
  {
    exists k :: 0 <= k < n && events[k].Costume? && events[k].id == id
  }

  lemma HasPlayedNext(events: seq<Event>, n: nat, id: Guid)
    requires n < |events|
    ensures HasPlayed(events, n + 1, id) <==> HasPlayed(events, n, id) || (events[n].Game? && events[n].id == id)
    ensures HasDressed(events, n + 1, id) <==> HasDressed(events, n, id) || (events[n].Costume? && events[n].id == id)
  {
  }

  /** A Game packet puts its player in the game, if it is connected. */
  lemma GamePutsInGame(w: World, id: Guid, stage: string, scenario: byte)
    requires Enabled(w, Game(id, stage, scenario))
    ensures var v := Step(w, Game(id, stage, scenario));
            && (id in ClientsConnected(v) <==> id in w.connected)
            && forall other :: other != id ==> (other in ClientsConnected(v) <==> other in ClientsConnected(w))
  {
  }

  /** What one event does to a player's presence. */
  lemma PresenceNext(w: World, e: Event, id: Guid)
    requires Enabled(w, e)
    ensures var v := Step(w, e);
            && (id in v.connected <==> GoesOnline(e, id) || (id in w.connected && !GoesOffline(e, id)))
            && (id in v.metas <==> id in w.metas || (e.Join? && e.id == id))
            && (id in v.metas ==>
                  && (v.metas[id].inGame <==> (id in w.metas && w.metas[id].inGame) || (e.Game? && e.id == id))
                  && (v.metas[id].loadedSave <==>
                        (id in w.metas && w.metas[id].loadedSave) || (e.Costume? && e.id == id)))
            && (id !in w.metas ==> !(e.Game? && e.id == id) && !(e.Costume? && e.id == id))
  {
  }

  /** Over every run the players that a sync visits are exactly those who are online, by the last Join,
      Reconnect or Disconnect, and have sent a Game packet; and whose reports count, while the sync is on,
      are exactly those who have sent a Costume packet. */
  lemma {:induction false} PlayersInGame(
      enabled: bool, persisted: set<int>, states: seq<World>, events: seq<Event>, n: nat, id: Guid)
    requires IsRun(enabled, persisted, states, events) && n <= |events|
    ensures id in states[n].connected <==> IsOnline(events, n, id)
    ensures id in states[n].metas && states[n].metas[id].inGame <==> HasPlayed(events, n, id)
    ensures id in states[n].metas && states[n].metas[id].loadedSave <==> HasDressed(events, n, id)
    ensures id in ClientsConnected(states[n]) <==> IsOnline(events, n, id) && HasPlayed(events, n, id)
    decreases n
  {
    if n > 0 {
      RunStep(enabled, persisted, states, events, n - 1);
      hide IsRun, Step, Enabled, IsOnline, HasPlayed, HasDressed, GoesOnline, GoesOffline;
      PlayersInGame(enabled, persisted, states, events, n - 1, id);
      IsOnlineNext(events, n - 1, id);
      HasPlayedNext(events, n - 1, id);
      PresenceNext(states[n - 1], events[n - 1], id);
    }
  }

  // ---------------------------------------------------------------- the global set

  predicate ClearsAll(e: Event) {
    e.Clear? || (e.Game? && e.stage == CAP && e.scenario == 0)
  }

  /** Nothing was cleared after event `k`, or since the start. */
  predicate NoClearAfter(events: seq<Event>, k: int, n: nat)
    requires -1 <= k && n <= |events|
  {
    forall j :: k < j < n ==> !ClearsAll(events[j])
  }

  /** The event is a report that counts. */
  predicate ReportCounts(w: World, e: Event, shine: int) {
    e.Shine? && e.shine == shine && Accepts(w, e.id)
  }

  /** The moon was reported, or was there at the start, and nothing has been cleared since. */
  predicate IsKnownMoon(persisted: set<int>, states: seq<World>, events: seq<Event>, n: nat, shine: int)
    requires n <= |events| && n <= |states|
  {
    || (shine in persisted && NoClearAfter(events, -1, n))
    || exists k :: 0 <= k < n && ReportCounts(states[k], events[k], shine) && NoClearAfter(events, k, n)
  }

  lemma NoClearAfterNext(events: seq<Event>, k: int, n: nat)
    requires -1 <= k < n < |events|
    ensures NoClearAfter(events, k, n + 1) <==> NoClearAfter(events, k, n) && !ClearsAll(events[n])
  {
  }

  lemma IsKnownMoonNext(persisted: set<int>, states: seq<World>, events: seq<Event>, n: nat, shine: int)
    requires n < |events| && n < |states|
    ensures IsKnownMoon(persisted, states, events, n + 1, shine)
            <==> ReportCounts(states[n], events[n], shine)
                 || (IsKnownMoon(persisted, states, events, n, shine) && !ClearsAll(events[n]))
  {
    NothingSince(events, n);
    hide ReportCounts, ClearsAll, NoClearAfter;
    NoClearAfterNext(events, -1, n);
    forall k: nat | k < n
      ensures NoClearAfter(events, k, n + 1) <==> NoClearAfter(events, k, n) && !ClearsAll(events[n])
    {
      NoClearAfterNext(events, k, n);
    }
    if k :| 0 <= k < n && ReportCounts(states[k], events[k], shine) && NoClearAfter(events, k, n)
            && !ClearsAll(events[n]) {
      assert ReportCounts(states[k], events[k], shine) && NoClearAfter(events, k, n + 1);
    }
  }

  lemma NothingSince(events: seq<Event>, n: nat)
    requires n < |events|
    ensures NoClearAfter(events, n, n + 1)
  {
  }

  lemma GlobalNext(w: World, e: Event, shine: int)
    requires Enabled(w, e)
    ensures shine in Step(w, e).global <==> ReportCounts(w, e, shine) || (shine in w.global && !ClearsAll(e))
  {
  }

  lemma GlobalAtStart(enabled: bool, persisted: set<int>, states: seq<World>, events: seq<Event>, shine: int)
    requires IsRun(enabled, persisted, states, events)
    ensures |states| > 0 && (shine in states[0].global <==> IsKnownMoon(persisted, states, events, 0, shine))
  {
    hide ReportCounts, Step, Enabled, ClearsAll;
  }

  /** Over every run the global set is exactly the moons that were reported by somebody whose reports count, or
      persisted, and not cleared since. */
  lemma {:induction false} GlobalExactly(
      enabled: bool, persisted: set<int>, states: seq<World>, events: seq<Event>, n: nat, shine: int)
    requires IsRun(enabled, persisted, states, events) && n <= |events|
    ensures shine in states[n].global <==> IsKnownMoon(persisted, states, events, n, shine)
    decreases n
  {
    hide *;
    if n > 0 {
      RunStep(enabled, persisted, states, events, n - 1);
      GlobalExactly(enabled, persisted, states, events, n - 1, shine);
      IsKnownMoonNext(persisted, states, events, n - 1, shine);
      GlobalNext(states[n - 1], events[n - 1], shine);
    } else {
      GlobalAtStart(enabled, persisted, states, events, shine);
    }
  }

  /** `value` is that of the last switch of the setting, or the first value. */
  predicate IsSetting(first: bool, events: seq<Event>, n: nat, value: bool)
    requires n <= |events|
  {
    if n == 0 then value == first
    else if events[n - 1].SetEnabled? then value == events[n - 1].value
    else IsSetting(first, events, n - 1, value)
  }

  lemma {:induction false} SettingExactly(
      enabled: bool, persisted: set<int>, states: seq<World>, events: seq<Event>, n: nat)
    requires IsRun(enabled, persisted, states, events) && n <= |events|
    ensures IsSetting(enabled, events, n, states[n].enabled)
    decreases n
  {
    if n > 0 {
      SettingExactly(enabled, persisted, states, events, n - 1);
      RunStep(enabled, persisted, states, events, n - 1);
      hide IsRun;
    }
  }
}
