/** The slot table as the mod keeps it: an array of `PuppetInfo` objects updated in place by the
    packet receivers (mod/src/server/Client.cpp). Every receiver is proved to be the step of module
    `PuppetTable` on the slots in use. */
module ModClient {
  import opened PacketHeader
  import PlayerAnims
  import P = PuppetTable

  const MAX_PUPPETS: nat := 32

  class PuppetInfo {
    var playerID: P.Uid
    var isConnected: bool
    var puppetName: P.Str
    var scenarioNo: nat
    var stageName: P.Str
    var isInSameStage: bool
    var curAnimStr: P.Str
    var curSubAnimStr: P.Str
    var isCaptured: bool
    var curHack: P.Str
    var isCapThrow: bool

    constructor ()
      ensures AsSlot() == P.FRESH_SLOT
    {
      playerID, isConnected, puppetName := EMPTY, false, [];
      scenarioNo, stageName, isInSameStage := 255, [], false;
      curAnimStr, curSubAnimStr := [], [];
      isCaptured, curHack, isCapThrow := false, [], false;
    }

    function AsSlot(): P.Slot
      reads this
    {
      P.Slot(playerID, isConnected, puppetName, scenarioNo, stageName, isInSameStage,
             curAnimStr, curSubAnimStr, isCaptured, curHack, isCapThrow)
    }

    method Join(id: P.Uid, name: P.Str)
      modifies this
      ensures AsSlot() == P.Joined(old(AsSlot()), id, name)
    {
      playerID := id;
      isConnected := true;
      puppetName := name;
    }

    method Leave()
      modifies this
      ensures AsSlot() == P.Left(old(AsSlot()))
    {
      isConnected := false;
      scenarioNo := 255;
      stageName := [];
      isInSameStage := false;
    }

    method Move(act: PlayerAnims.s32, subAct: PlayerAnims.s32, strings: seq<P.Str>)
      modifies this
      ensures AsSlot() == P.Moved(old(AsSlot()), strings, act, subAct)
    {
      if !isConnected {
        isConnected := true;
      }
      if PlayerAnims.FromWire(act) != PlayerAnims.UNKNOWN {
        curAnimStr := PlayerAnims.FindStr(strings, PlayerAnims.FromWire(act));
      } else {
        curAnimStr := PlayerAnims.WAIT;
      }
      if PlayerAnims.FromWire(subAct) != PlayerAnims.UNKNOWN {
        curSubAnimStr := PlayerAnims.FindStr(strings, PlayerAnims.FromWire(subAct));
      } else {
        curSubAnimStr := [];
      }
    }

    method Capture(hackName: P.Str)
      modifies this
      ensures AsSlot() == P.Captured(old(AsSlot()), hackName)
    {
      isCaptured := |hackName| > 0;
      if isCaptured {
        curHack := hackName;
      }
    }
  }

  /** What a list of objects stores. */
  function SlotsOf(infos: seq<PuppetInfo>): (slots: seq<P.Slot>)
    reads infos
    ensures |slots| == |infos|
    ensures forall i :: 0 <= i < |infos| ==> slots[i] == infos[i].AsSlot()
  {
    if infos == [] then [] else [infos[0].AsSlot()] + SlotsOf(infos[1..])
  }

  class Client {
    /** The pointers are set once; what they point to changes. */
    const puppetInfos: seq<PuppetInfo>
    const maxPuppets: nat
    var connectCount: int

    predicate Valid()
    {
      && |puppetInfos| == MAX_PUPPETS && maxPuppets <= MAX_PUPPETS
      && forall i, j :: 0 <= i < j < MAX_PUPPETS ==> puppetInfos[i] != puppetInfos[j]
    }

    ghost function View(): (t: P.Table)
      reads this, puppetInfos
      requires Valid()
      ensures |t.slots| == maxPuppets
    {
      P.Table(SlotsOf(puppetInfos[..maxPuppets]), connectCount)
    }

    constructor (maxPuppets: nat)
      requires maxPuppets <= MAX_PUPPETS
      ensures Valid() && this.maxPuppets == maxPuppets && View() == P.FreshTable(maxPuppets)
    {
      hide P.PuppetName;
      var infos: seq<PuppetInfo> := [];
      for i := 0 to MAX_PUPPETS
        invariant |infos| == i
        invariant forall j :: 0 <= j < i ==> infos[j].AsSlot() == P.FreshSlot(j)
        invariant forall j, k :: 0 <= j < k < i ==> infos[j] != infos[k]
      {
        var info := new PuppetInfo();
        info.puppetName := P.PuppetName(i);
        infos := infos + [info];
      }
      this.maxPuppets, puppetInfos, connectCount := maxPuppets, infos, 0;
    }

    /** The object of a slot, if there is one. */
    ghost predicate IsInfoOf(info: PuppetInfo?, k: int)
      requires Valid() && -1 <= k < maxPuppets
    {
      if k < 0 then info == null else info == puppetInfos[k]
    }

    /** `findPuppetInfo`: one pass that remembers the first free slot. */
    method FindPuppetInfo(id: P.Uid, isFindAvailable: bool) returns (info: PuppetInfo?)
      requires Valid()
      ensures IsInfoOf(info, P.FindPuppet(View().slots, id, isFindAvailable))
    {
      hide P.FindPuppet;
      ghost var slots, free := View().slots, -1;
      info := null;
      for i := 0 to maxPuppets
        invariant forall j :: 0 <= j < i ==> slots[j].id != id
        invariant -1 <= free < i && (info == null <==> free < 0)
        invariant free >= 0 ==> info == puppetInfos[free] && isFindAvailable && !slots[free].connected
        invariant isFindAvailable ==> forall j :: 0 <= j < (if free < 0 then i else free) ==> slots[j].connected
      {
        var curInfo := puppetInfos[i];
        assert slots[i] == curInfo.AsSlot();
        if curInfo.playerID == id {
          P.FoundById(slots, id, isFindAvailable, i);
          return curInfo;
        } else if isFindAvailable && info == null && !curInfo.isConnected {
          info, free := curInfo, i;
        }
      }
      P.FoundFree(slots, id, isFindAvailable, free);
    }

    /** Only the object of slot `k` was changed. */
    twostate lemma OneSlotChanged(k: nat)
      requires Valid() && k < maxPuppets
      requires forall i :: 0 <= i < maxPuppets && i != k ==> puppetInfos[i].AsSlot() == old(puppetInfos[i].AsSlot())
      ensures View().slots == old(View()).slots[k := puppetInfos[k].AsSlot()]
    {
    }

    method UpdatePlayerConnect(id: P.Uid, name: P.Str)
      requires Valid()
      modifies this`connectCount, puppetInfos
      ensures View() == P.Receive(old(View()), P.Connect(id, name), [])
    {
      hide P.Joined, P.SlotOf, P.FreeSlot, P.FindPuppet;
      ghost var t := View();
      ghost var k := P.FindPuppet(t.slots, id, true);
      var curInfo := FindPuppetInfo(id, true);
      if curInfo == null {
        return;
      }
      assert t.slots[k] == curInfo.AsSlot();
      if !curInfo.isConnected {
        curInfo.Join(id, name);
        connectCount := connectCount + 1;
        OneSlotChanged(k);
      }
    }

    method DisconnectPlayer(id: P.Uid)
      requires Valid()
      modifies this`connectCount, puppetInfos
      ensures View() == P.Receive(old(View()), P.Disconnect(id), [])
    {
      hide P.Left, P.SlotOf, P.FreeSlot, P.FindPuppet;
      ghost var t := View();
      ghost var k := P.FindPuppet(t.slots, id, false);
      var curInfo := FindPuppetInfo(id, false);
      if curInfo == null {
        return;
      }
      assert t.slots[k] == curInfo.AsSlot();
      if curInfo.isConnected {
        curInfo.Leave();
        connectCount := connectCount - 1;
        OneSlotChanged(k);
      }
    }

    method UpdatePlayerInfo(id: P.Uid, act: PlayerAnims.s32, subAct: PlayerAnims.s32, strings: seq<P.Str>)
      requires Valid()
      modifies puppetInfos
      ensures View() == P.Receive(old(View()), P.PlayerInf(id, act, subAct), strings)
    {
      hide P.Moved, P.SlotOf, P.FreeSlot, P.FindPuppet;
      ghost var t := View();
      ghost var k := P.FindPuppet(t.slots, id, false);
      var curInfo := FindPuppetInfo(id, false);
      if curInfo == null {
        return;
      }
      curInfo.Move(act, subAct, strings);
      OneSlotChanged(k);
    }

    method UpdateHackCapInfo(id: P.Uid, visible: bool)
      requires Valid()
      modifies puppetInfos
      ensures View() == P.Receive(old(View()), P.HackCapInf(id, visible), [])
    {
      hide P.SlotOf, P.FreeSlot, P.FindPuppet;
      ghost var t := View();
      ghost var k := P.FindPuppet(t.slots, id, false);
      var curInfo := FindPuppetInfo(id, false);
      if curInfo != null {
        curInfo.isCapThrow := visible;
        OneSlotChanged(k);
      }
    }

    method UpdateCaptureInfo(id: P.Uid, hackName: P.Str)
      requires Valid()
      modifies puppetInfos
      ensures View() == P.Receive(old(View()), P.CaptureInf(id, hackName), [])
    {
      hide P.Captured, P.SlotOf, P.FreeSlot, P.FindPuppet;
      ghost var t := View();
      ghost var k := P.FindPuppet(t.slots, id, false);
      var curInfo := FindPuppetInfo(id, false);
      if curInfo == null {
        return;
      }
      curInfo.Capture(hackName);
      OneSlotChanged(k);
    }
  }
}
