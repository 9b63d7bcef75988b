// One attached device as the proxy core keeps it: fields updated in place by the handlers.
// The state it shares with the HTTP server of its port, behind a lock, is the field `shared`.

module DeviceRuntimes {
  import opened Wrappers
  import opened Rpc
  import opened RuntimeModel
  import RI = RuntimeInvariants

  // ---------------------------------------------------------------------------
  // Sorting the page list
  // ---------------------------------------------------------------------------

  function Insert(entries: seq<PageEntry>, e: PageEntry): seq<PageEntry>
    decreases |entries|
  {
    if entries == [] || entries[|entries| - 1].pageNum < e.pageNum then entries + [e]
    else Insert(entries[..|entries| - 1], e) + [entries[|entries| - 1]]
  }

  predicate Sorted(entries: seq<PageEntry>) {
    forall i, j | 0 <= i < j < |entries| :: entries[i].pageNum < entries[j].pageNum
  }

  lemma {:induction false} InsertKeeps(entries: seq<PageEntry>, e: PageEntry)
    requires Sorted(entries)
    requires forall i | 0 <= i < |entries| :: entries[i].pageNum != e.pageNum
    ensures Sorted(Insert(entries, e))
    ensures forall x :: x in Insert(entries, e) <==> x == e || x in entries
    decreases |entries|
  {
    if entries != [] && entries[|entries| - 1].pageNum >= e.pageNum {
      var front, last := entries[..|entries| - 1], entries[|entries| - 1];
      InsertKeeps(front, e);
      assert entries == front + [last];
      var inner := Insert(front, e);
      forall i | 0 <= i < |inner| ensures inner[i].pageNum < last.pageNum {
        assert inner[i] in inner;
        assert inner[i] == e || inner[i] in front;
      }
    }
  }

  /** A sorted list of the entries of all pages is the projection of the page table. */
  lemma CollectedIsProjection(entries: seq<PageEntry>, pages: map<nat, PageInfo>)
    requires RI.KeyedByNumber(pages) && Sorted(entries)
    requires forall x :: x in entries <==> exists n | n in pages :: x == Entry(pages[n])
    ensures entries == Project(pages)
  {
    forall i | 0 <= i < |entries|
      ensures entries[i].pageNum in pages && entries[i] == Entry(pages[entries[i].pageNum])
    {
      assert entries[i] in entries;
    }
    forall n | n in pages ensures RI.Shows(entries, n) {
      assert Entry(pages[n]) in entries;
      var i :| 0 <= i < |entries| && entries[i] == Entry(pages[n]);
      assert entries[i].pageNum == n;
    }
    RI.ProjectionUnique(entries, pages);
  }

  class DeviceRuntime {
    const port: nat
    const deviceId: Option<string>
    const deviceName: Option<string>
    const osVersion: nat
    var connected: bool
    var appIds: set<string>
    var currentApp: Option<RpcApp>
    var pages: map<nat, PageInfo>
    var maxPageNum: nat
    var shared: PortState
    var wsClients: map<string, WsClientInfo>
    var wsClientTxs: map<string, nat>
    /** Everything handed to the device's write channel, and everything put into client channels. */
    var sent: seq<Sent>
    var delivered: seq<Delivery>

    ghost function Model(): Runtime
      reads this
    {
      Runtime(port, deviceId, deviceName, osVersion, connected, appIds, currentApp, pages, maxPageNum,
              shared, wsClients, wsClientTxs, sent, delivered)
    }

    ghost predicate Valid()
      reads this
    {
      RI.Coherent(Model())
    }

    constructor (port: nat, deviceId: string, deviceName: string, osVersion: nat)
      ensures Valid()
      ensures Model() == Fresh(port, deviceId, deviceName, osVersion)
    {
      this.port, this.deviceId, this.deviceName, this.osVersion := port, Some(deviceId), Some(deviceName), osVersion;
      connected, appIds, currentApp := false, {}, None;
      pages, maxPageNum := map[], 0;
      wsClients, wsClientTxs := map[], map[];
      sent, delivered := [SentIdentifier], [];
      shared := PortState(false, []);
    }

    /** Collects the pages in whatever order the table yields them and publishes them sorted. */
    method SyncPages()
      requires RI.KeyedByNumber(pages)
      modifies this`shared
      ensures Model() == RuntimeModel.SyncPages(old(Model()))
    {
      var entries: seq<PageEntry> := [];
      var todo := pages.Keys;
      while todo != {}
        invariant Model() == old(Model()) && todo <= pages.Keys
        invariant Sorted(entries)
        invariant forall x :: x in entries <==> exists n | n in pages && n !in todo :: x == Entry(pages[n])
        decreases |todo|
      {
        var n :| n in todo;
        forall i | 0 <= i < |entries| ensures entries[i].pageNum != n {
          assert entries[i] in entries;
        }
        InsertKeeps(entries, Entry(pages[n]));
        entries := Insert(entries, Entry(pages[n]));
        todo := todo - {n};
      }
      CollectedIsProjection(entries, pages);
      shared := shared.(pages := entries);
    }

    method AddAppId(appId: string)
      requires Valid()
      modifies this`appIds, this`sent
      ensures Valid()
      ensures Model() == RuntimeModel.AddAppId(old(Model()), appId)
    {
      if appId !in appIds {
        appIds := appIds + {appId};
        sent := sent + [SentGetListing(appId)];
      }
    }

    method AddApps(apps: seq<RpcApp>)
      requires Valid()
      modifies this`appIds, this`sent, this`currentApp
      ensures Valid()
      ensures Model() == RuntimeModel.AddApps(old(Model()), apps)
    {
      ghost var start := Model();
      assert apps[0..] == apps;
      for i := 0 to |apps|
        invariant Valid()
        invariant RuntimeModel.AddApps(Model(), apps[i..]) == RuntimeModel.AddApps(start, apps)
      {
        assert apps[i..][0] == apps[i] && apps[i..][1..] == apps[i + 1..];
        AddAppId(apps[i].appId);
        currentApp := Some(apps[i]);
      }
    }

    method RemoveAppId(appId: string)
      requires Valid()
      modifies this`appIds, this`pages, this`shared
      ensures Valid()
      ensures Model() == RuntimeModel.RemoveAppId(old(Model()), appId)
      ensures forall n :: n in pages <==> n in old(pages) && old(pages)[n].appId != appId
      ensures forall n | n in pages :: pages[n] == old(pages)[n]
    {
      RI.RemoveAppIdCoherent(Model(), appId);
      ghost var before := pages;
      appIds := appIds - {appId};
      var nums := set n | n in pages && pages[n].appId == appId;
      RemovePages(nums);
      assert pages == WithoutApp(before, appId);
      SyncPages();
    }

    method RemovePages(nums: set<nat>)
      requires nums <= pages.Keys
      modifies this`pages
      ensures pages == old(pages) - nums
    {
      var todo := nums;
      while todo != {}
        invariant todo <= nums
        invariant pages == old(pages) - (nums - todo)
        decreases |todo|
      {
        var n :| n in todo;
        pages := pages - {n};
        todo := todo - {n};
      }
    }

    /** Works one listed page into the table; `find` may yield any page that fits. */
    method ListOne(appId: string, page: RpcPage)
      requires RI.WellKept(pages)
      modifies this`pages, this`maxPageNum
      ensures RI.WellKept(pages)
      ensures Model() == RuntimeModel.ListOne(old(Model()), appId, page)
    {
      RI.ListOneKept(Model(), appId, page);
      if n :| n in pages && pages[n].appId == appId && pages[n].pageId == page.pageId {
        assert IsPage(pages[n], appId, page.pageId);
        var num := pages[n].pageNum;
        if num in pages {
          pages := pages[num := Refreshed(pages[num], page)];
        }
      } else {
        assert !Holds(pages, appId, page.pageId);
        maxPageNum := NextNum(maxPageNum);
        pages := pages[maxPageNum := NewPage(maxPageNum, appId, page)];
      }
    }

    method MergeListing(appId: string, listed: seq<RpcPage>)
      requires RI.WellKept(pages)
      modifies this`pages, this`maxPageNum
      ensures Model() == ListAll(old(Model()), appId, listed)
    {
      ghost var start := Model();
      for i := 0 to |listed|
        invariant RI.WellKept(pages)
        invariant Model() == ListAll(start, appId, listed[..i])
      {
        assert listed[..i + 1][..|listed[..i + 1]| - 1] == listed[..i];
        ListOne(appId, listed[i]);
      }
      assert listed[..|listed|] == listed;
    }

    method PrunePages(appId: string, listed: seq<RpcPage>)
      modifies this`pages
      ensures pages == Prune(old(pages), appId, listed)
    {
      var gone := set n | n in pages && pages[n].appId == appId && !Lists(listed, pages[n].pageId);
      RemovePages(gone);
    }

    method HandlePageListing(appId: string, listed: seq<RpcPage>)
      requires Valid()
      modifies this`pages, this`maxPageNum, this`shared
      ensures Valid()
      ensures Model() == PageListing(old(Model()), appId, listed)
    {
      RI.PageListingCoherent(Model(), appId, listed);
      RI.ListAllKept(Model(), appId, listed);
      MergeListing(appId, listed);
      PrunePages(appId, listed);
      SyncPages();
    }

    method HandleAppData(destId: string, data: Bytes)
      requires Valid()
      modifies this`delivered
      ensures Valid()
      ensures Model() == AppData(old(Model()), destId, data)
    {
      if destId in wsClientTxs {
        delivered := delivered + [Delivery(wsClientTxs[destId], data)];
      }
    }

    method HandleWsRegistration(reg: Registration)
      requires Valid()
      modifies this`wsClients, this`wsClientTxs
      ensures Valid()
      ensures Model() == Register(old(Model()), reg)
    {
      wsClients := wsClients[reg.wsId := WsClientInfo(reg.pageNum, reg.wsId)];
      wsClientTxs := wsClientTxs[reg.wsId := reg.channel];
    }

    method StopDevtools(pageNum: nat)
      requires Valid()
      modifies this`pages, this`sent
      ensures Valid()
      ensures Model() == RuntimeModel.StopDevtools(old(Model()), pageNum)
    {
      RI.StopDevtoolsCoherent(Model(), pageNum);
      if n :| n in pages && pages[n].pageNum == pageNum {
        var page := pages[n];
        if page.senderId == None {
          return;
        }
        sent := sent + [SentDidClose(pageNum, page.appId, page.pageId, page.senderId.value)];
      }
      if n :| n in pages && pages[n].pageNum == pageNum {
        pages := pages[n := pages[n].(senderId := None, wsClientId := None)];
      }
    }

    method ClientOf(pageNum: nat) returns (wsId: Option<string>)
      requires Valid()
      ensures wsId == if pageNum in pages then pages[pageNum].wsClientId else None
    {
      wsId := None;
      if n :| n in pages && pages[n].pageNum == pageNum {
        wsId := pages[n].wsClientId;
      }
    }

    method OpenSession(wsId: string, pageNum: nat)
      requires Valid()
      modifies this`pages, this`sent
      ensures Valid()
      ensures Model() == RuntimeModel.OpenSession(old(Model()), wsId, pageNum)
    {
      RI.OpenSessionCoherent(Model(), wsId, pageNum);
      if n :| n in pages && pages[n].pageNum == pageNum {
        pages := pages[n := pages[n].(senderId := Some(wsId), wsClientId := Some(wsId))];
        sent := sent + [SentSetup(pageNum, pages[n].appId, pages[n].pageId, wsId)];
      }
    }

    method SendForwardSocketSetup(wsId: string, pageNum: nat)
      requires Valid()
      modifies this`pages, this`sent
      ensures Valid()
      ensures Model() == SocketSetup(old(Model()), wsId, pageNum)
    {
      var oldWsId := ClientOf(pageNum);
      if oldWsId.Some? && oldWsId.value != wsId {
        StopDevtools(pageNum);
      }
      OpenSession(wsId, pageNum);
    }

    method HandleWsMessage(msg: WsMessage)
      requires Valid()
      modifies this`pages, this`sent, this`wsClients, this`wsClientTxs
      ensures Valid()
      ensures Model() == HandleWs(old(Model()), msg)
    {
      if msg.isClose {
        StopDevtools(msg.pageNum);
        wsClients := wsClients - {msg.wsId};
        wsClientTxs := wsClientTxs - {msg.wsId};
        return;
      }
      if msg.data == [] {
        SendForwardSocketSetup(msg.wsId, msg.pageNum);
        return;
      }
      if n :| n in pages && pages[n].pageNum == msg.pageNum {
        var page := pages[n];
        var sender := if page.senderId.Some? then page.senderId.value else msg.wsId;
        sent := sent + [SentData(msg.pageNum, page.appId, page.pageId, sender, msg.data, msg.wsId)];
      }
    }

    method Connect()
      requires Valid()
      modifies this`connected, this`shared
      ensures Valid()
      ensures Model() == RuntimeModel.Connect(old(Model()))
    {
      connected := true;
      shared := shared.(connected := true);
    }

    /** Everything a device's message does to its own runtime. */
    method ReportApplications(apps: seq<RpcApp>)
      requires Valid()
      modifies this
      ensures Valid()
      ensures Model() == RuntimeModel.HandleRpc(old(Model()), ReportConnectedApplicationList(apps))
    {
      if !connected { Connect(); }
      AddApps(apps);
    }

    method ReportApplication(app: RpcApp)
      requires Valid()
      modifies this
      ensures Valid()
      ensures Model() == RuntimeModel.HandleRpc(old(Model()), ApplicationConnected(app))
    {
      currentApp := Some(app);
      AddAppId(app.appId);
    }

    method HandleRpc(msg: RpcMessage)
      requires Valid()
      modifies this
      ensures Valid()
      ensures Model() == RuntimeModel.HandleRpc(old(Model()), msg)
    {
      match msg
      case ReportSetup => Connect();
      case ReportConnectedApplicationList(apps) => ReportApplications(apps);
      case ApplicationConnected(app) => ReportApplication(app);
      case ApplicationDisconnected(app) => RemoveAppId(app.appId);
      case ApplicationSentListing(appId, listed) => HandlePageListing(appId, listed);
      case ApplicationSentData(_, destId, data) => HandleAppData(destId, data);
      case ApplicationUpdated(_, updatedId) => AddAppId(updatedId);
      case UnknownSelector(_) =>
    }

    method HandleEvent(e: Event)
      requires Valid()
      modifies this
      ensures Valid()
      ensures Model() == Handle(old(Model()), e)
    {
      match e
      case Rpc(msg) => HandleRpc(msg);
      case Ws(msg) => HandleWsMessage(msg);
      case Reg(reg) => HandleWsRegistration(reg);
    }

    /** The check the HTTP side makes before it upgrades a WebSocket. */
    method PageExists(pageNum: nat) returns (found: bool)
      requires Valid()
      ensures found <==> pageNum in pages
    {
      var entries := shared.pages;
      found := false;
      for i := 0 to |entries|
        invariant found <==> exists k | 0 <= k < i :: entries[k].pageNum == pageNum
      {
        if entries[i].pageNum == pageNum {
          found := true;
        }
      }
      RI.UpgradeCheckExact(Model(), pageNum);
      assert found <==> RI.Shows(entries, pageNum);
    }
  }
}
