/** The server's list of client objects and the actions of a socket handler on it, updated in place
    (server/Server/Server.cs, server/Server/Client.cs). Each action is proved to be the step of the
    transition system in module `Sessions`. */
module Server {
  import opened PacketHeader
  import S = Sessions

  class Client {
    const handle: S.Ref
    const metadata: S.Ref
    var connected: bool
    var currentCostume: S.Costume
    var id: Guid

    constructor (handle: S.Ref, metadata: S.Ref)
      ensures this.handle == handle
      ensures AsPlayer() == S.Player(EMPTY, false, S.NoCostume, metadata)
    {
      this.handle, this.metadata := handle, metadata;
      connected, currentCostume, id := false, S.NoCostume, EMPTY;
    }

    /** The copy made for a reconnected session. */
    constructor Copy(other: Client, handle: S.Ref)
      ensures this.handle == handle && AsPlayer() == other.AsPlayer()
    {
      this.handle, metadata := handle, other.metadata;
      connected, currentCostume, id := other.connected, other.currentCostume, other.id;
    }

    function AsPlayer(): S.Player
      reads this
    {
      S.Player(id, connected, currentCostume, metadata)
    }
  }

  ghost function Handles(clients: seq<Client>): (handles: seq<S.Ref>)
    ensures |handles| == |clients|
    ensures forall i :: 0 <= i < |clients| ==> handles[i] == clients[i].handle
  {
    seq(|clients|, i requires 0 <= i < |clients| => clients[i].handle)
  }

  class Server {
    const maxPlayers: nat
    var clients: seq<Client>
    /** Every client object that was ever made, by its identity. */
    ghost var objects: map<S.Ref, Client>

    ghost predicate Valid()
      reads this, objects.Values
    {
      && (forall r :: r in objects ==> objects[r].handle == r)
      && (forall i :: 0 <= i < |clients| ==> clients[i].handle in objects && objects[clients[i].handle] == clients[i])
    }

    ghost function View(): S.Players
      reads this, objects.Values
    {
      S.Players(map r | r in objects :: objects[r].AsPlayer(), Handles(clients))
    }

    constructor (max: nat)
      ensures Valid() && maxPlayers == max && View() == S.Players(map[], [])
    {
      maxPlayers, clients, objects := max, [], map[];
    }

    lemma ViewIsKnown()
      requires Valid()
      ensures S.Known(View().objects, View().clients)
    {
    }

    lemma ViewAt(i: nat)
      requires Valid() && i < |clients|
      ensures var p := View();
              && |p.clients| == |clients| && p.clients[i] == clients[i].handle && clients[i].handle in p.objects
              && p.objects[clients[i].handle] == clients[i].AsPlayer()
      ensures clients[i].handle in objects && objects[clients[i].handle] == clients[i]
    {
    }

    /** A new handler's client object. */
    method Accept(handle: S.Ref, metadata: S.Ref) returns (client: Client)
      requires Valid() && handle !in objects
      modifies this`objects
      ensures Valid() && fresh(client) && objects == old(objects)[handle := client] && client.handle == handle
      ensures var player := S.Player(EMPTY, false, S.NoCostume, metadata);
              View() == old(View()).(objects := old(View()).objects[handle := player])
    {
      client := new Client(handle, metadata);
      objects := objects[handle := client];
    }

    /** `Clients.Count(x => x.Connected)`. */
    method CountConnected() returns (n: nat)
      requires Valid()
      ensures S.Known(View().objects, View().clients)
      ensures n == S.CountConnected(View().objects, View().clients)
    {
      ViewIsKnown();
      ghost var v := View();
      n := 0;
      assert v.clients[..0] == [];
      for i := 0 to |clients|
        invariant n == S.CountConnected(v.objects, v.clients[..i])
      {
        assert v.clients[..i + 1] == v.clients[..i] + [v.clients[i]];
        S.CountOfConcat(v.objects, v.clients[..i], [v.clients[i]]);
        assert v.objects[v.clients[i]] == clients[i].AsPlayer();
        if clients[i].connected { n := n + 1; }
      }
      assert v.clients[..|clients|] == v.clients;
    }

    /** `FindExistingClient`. */
    method FindExistingClient(id: Guid) returns (k: int)
      requires Valid()
      ensures S.Known(View().objects, View().clients)
      ensures if S.Listed(View().objects, View().clients, id)
              then k == S.IndexOfId(View().objects, View().clients, id) else k == -1
    {
      ViewIsKnown();
      for i := 0 to |clients|
        invariant forall j :: 0 <= j < i ==> clients[j].id != id
      {
        if clients[i].id == id {
          ghost var v := View();
          assert v.objects[v.clients[i]] == clients[i].AsPlayer();
          assert forall j :: 0 <= j < i ==> v.objects[v.clients[j]] == clients[j].AsPlayer();
          return i;
        }
      }
      assert forall j :: 0 <= j < |clients| ==> View().objects[View().clients[j]] == clients[j].AsPlayer();
      return -1;
    }

    /** `Clients.Where(c => c.Connected && c != sender)`: the receivers of a broadcast. Clients are
        compared by id. */
    method Receivers(id: Guid) returns (others: seq<Client>)
      requires Valid()
      ensures S.Known(View().objects, View().clients)
      ensures Handles(others) == S.Others(View().objects, View().clients, id)
    {
      ViewIsKnown();
      ghost var v := View();
      others := [];
      for i := 0 to |clients|
        invariant Handles(others) == S.Others(v.objects, v.clients[..i], id)
      {
        ViewAt(i);
        hide Handles, S.Others, S.Known, View, Valid;
        OthersNext(v.objects, v.clients, i, id);
        if clients[i].connected && clients[i].id != id {
          HandlesNext(others, clients[i]);
          others := others + [clients[i]];
        }
      }
      assert v.clients[..|clients|] == v.clients;
    }

    /** The admission of a first frame under the lock. */
    method Admit(client: Client, hello: S.Hello, copy: S.Ref) returns (admitted: bool, now: Client)
      requires Valid() && client.handle in objects && objects[client.handle] == client && client !in clients
      requires copy !in objects
      modifies this, client
      ensures Valid() && S.Known(old(View()).objects, old(View()).clients)
      ensures now.handle in objects && objects[now.handle] == now
      ensures var (p, a) := S.Admit(old(View()), maxPlayers, client.handle, hello, copy);
              View() == p && admitted == a.Admitted? && (admitted ==> a.client == now.handle)
      ensures admitted <==> hello.Connect? && hello.kind != S.Invalid
                            && S.CountConnected(old(View()).objects, old(View()).clients) != maxPlayers
      ensures !admitted ==> View() == old(View()) && now == client
    {
      hide S.CountConnected, S.IndexOfId, S.Listed, S.Without;
      ViewIsKnown();
      now := client;
      if !hello.Connect? {
        return false, now;
      }
      var connected := CountConnected();
      if connected == maxPlayers {
        return false, now;
      }
      if hello.kind == S.Invalid {
        return false, now;
      }
      ghost var v := View();
      client.id := hello.id;
      assert View().objects == v.objects[client.handle := v.objects[client.handle].(id := hello.id)];
      admitted := true;
      hide S.Seat;
      now := Seat(client, hello.id, copy);
    }

    method Seat(client: Client, id: Guid, copy: S.Ref) returns (now: Client)
      requires Valid() && client.handle in objects && objects[client.handle] == client && copy !in objects
      modifies this, client`connected
      ensures Valid() && S.Known(old(View()).objects, old(View()).clients)
      ensures now.handle in objects && objects[now.handle] == now
      ensures var (p, a) := S.Seat(old(View()), client.handle, id, copy); View() == p && a.client == now.handle
    {
      hide S.IndexOfId, S.Listed, S.Without;
      var k := FindExistingClient(id);
      if k != -1 {
        now := Replace(k, copy);
      } else {
        Append(client, id);
        now := client;
      }
    }

    /** The reconnect branch: the entry at `k` makes way for a connected copy of it. */
    method Replace(k: nat, copy: S.Ref) returns (client: Client)
      requires Valid() && k < |clients| && copy !in objects
      modifies this
      ensures Valid() && fresh(client) && client.handle == copy
      ensures objects == old(objects)[copy := client]
      ensures var p := old(View());
              View() == S.Players(p.objects[copy := p.objects[p.clients[k]].(connected := true)],
                                     p.clients[..k] + p.clients[k + 1..] + [copy])
    {
      ghost var v := View();
      var oldClient := clients[k];
      client := new Client.Copy(oldClient, copy);
      objects := objects[copy := client];
      clients := clients[..k] + clients[k + 1..] + [client];
      client.connected := true;
      assert View().objects == v.objects[copy := v.objects[v.clients[k]].(connected := true)];
    }

    /** The first-connection branch. */
    method Append(client: Client, id: Guid)
      requires Valid() && client.handle in objects && objects[client.handle] == client
      modifies this`clients, client`connected
      ensures Valid() && S.Known(old(View()).objects, old(View()).clients)
      ensures var p := old(View());
              View() == S.Players(p.objects[client.handle := p.objects[client.handle].(connected := true)],
                                  S.Without(p.objects, p.clients, id) + [client.handle])
    {
      hide S.Without;
      ghost var v := View();
      RemoveAll(id);
      HandlesNext(clients, client);
      clients := clients + [client];
      client.connected := true;
      assert View().objects == v.objects[client.handle := v.objects[client.handle].(connected := true)];
    }

    /** `Clients.RemoveAll(c => c.Id == id)`. */
    method RemoveAll(id: Guid)
      requires Valid()
      modifies this`clients
      ensures Valid() && S.Known(old(View()).objects, old(View()).clients)
      ensures View() == S.Players(old(View()).objects, S.Without(old(View()).objects, old(View()).clients, id))
    {
      hide S.Without;
      var kept := Kept(id);
      ghost var v := View();
      clients := kept;
      assert View().objects == v.objects;
    }

    method Kept(id: Guid) returns (kept: seq<Client>)
      requires Valid()
      ensures S.Known(View().objects, View().clients)
      ensures Handles(kept) == S.Without(View().objects, View().clients, id)
      ensures forall j :: 0 <= j < |kept| ==> kept[j].handle in objects && objects[kept[j].handle] == kept[j]
    {
      ViewIsKnown();
      ghost var v := View();
      kept := [];
      for i := 0 to |clients|
        invariant forall j :: 0 <= j < |kept| ==> kept[j] in clients
        invariant Handles(kept) == S.Without(v.objects, v.clients[..i], id)
      {
        ViewAt(i);
        hide Handles, S.Without, S.Known, View, Valid;
        WithoutNext(v.objects, v.clients, i, id);
        if clients[i].id != id {
          HandlesNext(kept, clients[i]);
          kept := kept + [clients[i]];
        }
      }
      assert v.clients[..|clients|] == v.clients;
    }

    /** The end of a handler: the object is marked, and the others are told if it was connected. */
    method Leave(client: Client) returns (told: seq<Client>)
      requires Valid() && client.handle in objects && objects[client.handle] == client
      modifies client`connected
      ensures Valid() && View() == S.Leave(old(View()), client.handle)
      ensures S.Known(View().objects, View().clients)
      ensures Handles(told) == if old(client.connected) then S.Others(View().objects, View().clients, client.id) else []
    {
      hide S.Others, Handles, S.Known;
      var wasConnected := client.connected;
      ghost var v := View();
      client.connected := false;
      assert View().objects == v.objects[client.handle := v.objects[client.handle].(connected := false)];
      told := [];
      ViewIsKnown();
      if wasConnected {
        told := Receivers(client.id);
      }
    }

    /** A later frame: whether its id is accepted, and who gets it. */
    method LaterFrame(
        client: Client, id: Guid, costume: S.Costume, forward: bool) returns (ok: bool, receivers: seq<Client>)
      requires Valid() && client.handle in objects && objects[client.handle] == client
      modifies client`currentCostume
      ensures Valid() && S.Known(old(View()).objects, old(View()).clients)
      ensures ok <==> id == client.id || client.id == EMPTY
      ensures View() == if ok then S.Wear(old(View()), client.handle, costume) else old(View())
      ensures Handles(receivers)
              == if ok && forward then S.Others(old(View()).objects, old(View()).clients, client.id) else []
    {
      hide S.Others, Handles, S.Known;
      ViewIsKnown();
      receivers := [];
      if id != client.id && client.id != EMPTY {
        return false, receivers;
      }
      if forward {
        receivers := Receivers(client.id);
      }
      hide View, S.Wear;
      PutOn(client, costume);
      ok := true;
    }

    /** A costume frame changes the sender's costume. */
    method PutOn(client: Client, costume: S.Costume)
      requires Valid() && client.handle in objects && objects[client.handle] == client
      modifies client`currentCostume
      ensures Valid() && client.handle in old(View()).objects && View() == S.Wear(old(View()), client.handle, costume)
    {
      hide S.Others, Handles, S.Known;
      ghost var v := View();
      if costume != S.NoCostume {
        client.currentCostume := costume;
        assert View().objects == v.objects[client.handle := v.objects[client.handle].(costume := costume)];
      }
    }
  }

  lemma HandlesNext(clients: seq<Client>, c: Client)
    ensures Handles(clients + [c]) == Handles(clients) + [c.handle]
  {
  }

  lemma WithoutNext(objects: map<S.Ref, S.Player>, clients: seq<S.Ref>, i: nat, id: Guid)
    requires S.Known(objects, clients) && i < |clients|
    ensures S.Without(objects, clients[..i + 1], id)
            == S.Without(objects, clients[..i], id) + (if objects[clients[i]].id != id then [clients[i]] else [])
  {
    assert clients[..i + 1] == clients[..i] + [clients[i]];
    WithoutOfConcat(objects, clients[..i], [clients[i]], id);
  }

  lemma {:induction false} WithoutOfConcat(objects: map<S.Ref, S.Player>, a: seq<S.Ref>, b: seq<S.Ref>, id: Guid)
    requires S.Known(objects, a) && S.Known(objects, b) && S.Known(objects, a + b)
    ensures S.Without(objects, a + b, id) == S.Without(objects, a, id) + S.Without(objects, b, id)
  {
    if a == [] {
      assert a + b == b;
    } else {
      assert (a + b)[1..] == a[1..] + b;
      WithoutOfConcat(objects, a[1..], b, id);
    }
  }

  lemma OthersNext(objects: map<S.Ref, S.Player>, clients: seq<S.Ref>, i: nat, id: Guid)
    requires S.Known(objects, clients) && i < |clients|
    ensures S.Others(objects, clients[..i + 1], id) == S.Others(objects, clients[..i], id)
            + (if objects[clients[i]].connected && objects[clients[i]].id != id then [clients[i]] else [])
  {
    assert clients[..i + 1] == clients[..i] + [clients[i]];
    OthersOfConcat(objects, clients[..i], [clients[i]], id);
  }

  lemma {:induction false} OthersOfConcat(objects: map<S.Ref, S.Player>, a: seq<S.Ref>, b: seq<S.Ref>, id: Guid)
    requires S.Known(objects, a) && S.Known(objects, b) && S.Known(objects, a + b)
    ensures S.Others(objects, a + b, id) == S.Others(objects, a, id) + S.Others(objects, b, id)
  {
    if a == [] {
      assert a + b == b;
    } else {
      assert (a + b)[1..] == a[1..] + b;
      OthersOfConcat(objects, a[1..], b, id);
    }
  }
}
