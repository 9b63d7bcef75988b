// What every handler keeps for one attached device.

module RuntimeInvariants {
  import opened Wrappers
  import opened Rpc
  import opened RuntimeModel

  /** Each page is stored under its own number. */
  predicate KeyedByNumber(pages: map<nat, PageInfo>) {
    forall n | n in pages :: pages[n].pageNum == n
  }

  /** No two pages have the same application and page identifier. */
  predicate Distinct(pages: map<nat, PageInfo>) {
    forall m, n | m in pages && n in pages &&
      pages[m].appId == pages[n].appId && pages[m].pageId == pages[n].pageId :: m == n
  }

  predicate SameFace(e: PageEntry, p: PageInfo) {
    && e.pageNum == p.pageNum && e.appId == p.appId && e.pageId == p.pageId
    && e.title == p.title && e.url == p.url
  }

  predicate Shows(entries: seq<PageEntry>, n: nat) {
    exists i | 0 <= i < |entries| :: entries[i].pageNum == n
  }

  /**
   * The published list is strictly sorted by number and shows exactly the pages, each with its
   * own application, identifier, title and address. The sender shown may be out of date.
   */
  predicate CacheAgrees(entries: seq<PageEntry>, pages: map<nat, PageInfo>) {
    && (forall i, j | 0 <= i < j < |entries| :: entries[i].pageNum < entries[j].pageNum)
    && (forall i | 0 <= i < |entries| ::
          entries[i].pageNum in pages && SameFace(entries[i], pages[entries[i].pageNum]))
    && (forall n | n in pages :: Shows(entries, n))
  }

  predicate SessionFieldsAgree(pages: map<nat, PageInfo>) {
    forall n | n in pages :: pages[n].senderId == pages[n].wsClientId
  }

  predicate WellKept(pages: map<nat, PageInfo>) {
    KeyedByNumber(pages) && Distinct(pages) && SessionFieldsAgree(pages)
  }

  /** The invariant of a device that no event can break, counter wrap-around included. */
  predicate Coherent(rt: Runtime) {
    && WellKept(rt.pages)
    && CacheAgrees(rt.shared.pages, rt.pages)
    && rt.shared.connected == rt.connected
    && rt.wsClients.Keys == rt.wsClientTxs.Keys
    && rt.deviceId.Some?
  }

  // ---------------------------------------------------------------------------
  // The page cache
  // ---------------------------------------------------------------------------

  lemma ProjectAgrees(pages: map<nat, PageInfo>)
    requires KeyedByNumber(pages)
    ensures CacheAgrees(Project(pages), pages)
  {
    var nums := SortedNums(pages.Keys);
    var es := Project(pages);
    forall i | 0 <= i < |es|
      ensures es[i].pageNum == nums[i] && nums[i] in pages && es[i] == Entry(pages[nums[i]])
    {
      assert nums[i] in nums;
    }
    forall n | n in pages ensures Shows(es, n) {
      assert n in nums;
      var i :| 0 <= i < |nums| && nums[i] == n;
      assert es[i].pageNum == n;
    }
  }

  lemma NumbersShown(entries: seq<PageEntry>, pages: map<nat, PageInfo>, nums: seq<nat>)
    requires CacheAgrees(entries, pages) && |nums| == |entries|
    requires forall i | 0 <= i < |nums| :: nums[i] == entries[i].pageNum
    ensures Ascending(nums) && forall n :: n in nums <==> n in pages.Keys
  {
    forall n | n in pages.Keys ensures n in nums {
      assert Shows(entries, n);
      var i :| 0 <= i < |entries| && entries[i].pageNum == n;
      assert nums[i] == n;
    }
  }

  /** A list that shows the pages in order, with nothing missing, is the projection. */
  lemma ProjectionUnique(entries: seq<PageEntry>, pages: map<nat, PageInfo>)
    requires KeyedByNumber(pages)
    requires CacheAgrees(entries, pages)
    requires forall i | 0 <= i < |entries| :: entries[i] == Entry(pages[entries[i].pageNum])
    ensures entries == Project(pages)
  {
    var nums := seq(|entries|, i requires 0 <= i < |entries| => entries[i].pageNum);
    NumbersShown(entries, pages, nums);
    AscendingUnique(nums, SortedNums(pages.Keys));
  }

  /** The check made before a WebSocket upgrade accepts exactly the numbers of live pages. */
  lemma UpgradeCheckExact(rt: Runtime, n: nat)
    requires Coherent(rt)
    ensures Shows(rt.shared.pages, n) <==> n in rt.pages
  {
  }

  lemma SyncCoherent(rt: Runtime)
    requires WellKept(rt.pages)
    requires rt.shared.connected == rt.connected
    requires rt.wsClients.Keys == rt.wsClientTxs.Keys && rt.deviceId.Some?
    ensures Coherent(SyncPages(rt))
  {
    ProjectAgrees(rt.pages);
  }

  // ---------------------------------------------------------------------------
  // Every handler keeps the invariant
  // ---------------------------------------------------------------------------

  lemma {:induction false} AddAppsFrame(rt: Runtime, apps: seq<RpcApp>)
    ensures var r := AddApps(rt, apps);
      r == rt.(appIds := r.appIds, currentApp := r.currentApp, sent := r.sent)
    decreases |apps|
  {
    if apps != [] {
      AddAppsFrame(AddAppId(rt, apps[0].appId).(currentApp := Some(apps[0])), apps[1..]);
    }
  }

  lemma {:induction false} ListAllFrame(rt: Runtime, appId: string, listed: seq<RpcPage>)
    ensures var r := ListAll(rt, appId, listed);
      r == rt.(pages := r.pages, maxPageNum := r.maxPageNum)
    decreases |listed|
  {
    if listed != [] {
      ListAllFrame(rt, appId, listed[..|listed| - 1]);
    }
  }

  lemma ListOneKept(rt: Runtime, appId: string, page: RpcPage)
    requires WellKept(rt.pages)
    ensures WellKept(ListOne(rt, appId, page).pages)
  {
    if !Holds(rt.pages, appId, page.pageId) {
      assert forall n | n in rt.pages :: !IsPage(rt.pages[n], appId, page.pageId);
    }
  }

  lemma {:induction false} ListAllKept(rt: Runtime, appId: string, listed: seq<RpcPage>)
    requires WellKept(rt.pages)
    ensures WellKept(ListAll(rt, appId, listed).pages)
    decreases |listed|
  {
    if listed != [] {
      ListAllKept(rt, appId, listed[..|listed| - 1]);
      ListOneKept(ListAll(rt, appId, listed[..|listed| - 1]), appId, listed[|listed| - 1]);
    }
  }

  lemma PageListingCoherent(rt: Runtime, appId: string, listed: seq<RpcPage>)
    requires Coherent(rt)
    ensures Coherent(PageListing(rt, appId, listed))
  {
    ListAllKept(rt, appId, listed);
    ListAllFrame(rt, appId, listed);
    var all := ListAll(rt, appId, listed);
    SyncCoherent(all.(pages := Prune(all.pages, appId, listed)));
  }

  lemma RemoveAppIdCoherent(rt: Runtime, appId: string)
    requires Coherent(rt)
    ensures Coherent(RemoveAppId(rt, appId))
  {
    SyncCoherent(rt.(appIds := rt.appIds - {appId}, pages := WithoutApp(rt.pages, appId)));
  }

  lemma HandleRpcCoherent(rt: Runtime, msg: RpcMessage)
    requires Coherent(rt)
    ensures Coherent(HandleRpc(rt, msg))
  {
    match msg
    case ReportConnectedApplicationList(apps) =>
      AddAppsFrame(if rt.connected then rt else Connect(rt), apps);
    case ApplicationDisconnected(app) =>
      RemoveAppIdCoherent(rt, app.appId);
    case ApplicationSentListing(appId, pages) =>
      PageListingCoherent(rt, appId, pages);
    case _ =>
  }

  /** Rewriting the session fields of one page disturbs neither the page table nor the cache. */
  lemma SessionUpdateCoherent(rt: Runtime, n: nat, s: Option<string>)
    requires Coherent(rt) && n in rt.pages
    ensures Coherent(rt.(pages := rt.pages[n := rt.pages[n].(senderId := s, wsClientId := s)]))
  {
    var pages := rt.pages[n := rt.pages[n].(senderId := s, wsClientId := s)];
    assert WellKept(pages);
    assert CacheAgrees(rt.shared.pages, pages);
  }

  lemma StopDevtoolsCoherent(rt: Runtime, n: nat)
    requires Coherent(rt)
    ensures Coherent(StopDevtools(rt, n))
  {
    if n in rt.pages && rt.pages[n].senderId.Some? {
      SessionUpdateCoherent(rt, n, None);
      var calm := rt.(pages := StopDevtools(rt, n).pages);
      assert StopDevtools(rt, n) == calm.(sent := StopDevtools(rt, n).sent);
    }
  }

  lemma OpenSessionCoherent(rt: Runtime, wsId: string, n: nat)
    requires Coherent(rt)
    ensures Coherent(OpenSession(rt, wsId, n))
  {
    if n in rt.pages {
      SessionUpdateCoherent(rt, n, Some(wsId));
    }
  }

  lemma ForgetCoherent(rt: Runtime, wsId: string)
    requires Coherent(rt)
    ensures Coherent(Forget(rt, wsId))
  {
  }

  lemma SocketSetupCoherent(rt: Runtime, wsId: string, n: nat)
    requires Coherent(rt)
    ensures Coherent(SocketSetup(rt, wsId, n))
  {
    if n in rt.pages && rt.pages[n].wsClientId.Some? && rt.pages[n].wsClientId.value != wsId {
      StopDevtoolsCoherent(rt, n);
      OpenSessionCoherent(StopDevtools(rt, n), wsId, n);
    } else {
      OpenSessionCoherent(rt, wsId, n);
    }
  }

  lemma ForwardDataCoherent(rt: Runtime, msg: WsMessage)
    requires Coherent(rt)
    ensures Coherent(ForwardData(rt, msg))
  {
  }

  lemma HandleWsCoherent(rt: Runtime, msg: WsMessage)
    requires Coherent(rt)
    ensures Coherent(HandleWs(rt, msg))
  {
    if msg.isClose {
      StopDevtoolsCoherent(rt, msg.pageNum);
      ForgetCoherent(StopDevtools(rt, msg.pageNum), msg.wsId);
    } else if msg.data == [] {
      SocketSetupCoherent(rt, msg.wsId, msg.pageNum);
    } else {
      ForwardDataCoherent(rt, msg);
    }
  }

  lemma HandleCoherent(rt: Runtime, e: Event)
    requires Coherent(rt)
    ensures Coherent(Handle(rt, e))
  {
    match e
    case Rpc(msg) => HandleRpcCoherent(rt, msg);
    case Ws(msg) => HandleWsCoherent(rt, msg);
    case Reg(reg) =>
  }

  /** Between any two events the invariant holds, whatever the events and their order. */
  lemma {:induction false} RunCoherent(rt: Runtime, es: seq<Event>)
    requires Coherent(rt)
    ensures Coherent(Run(rt, es))
    decreases |es|
  {
    if es != [] {
      RunCoherent(rt, es[..|es| - 1]);
      HandleCoherent(Run(rt, es[..|es| - 1]), es[|es| - 1]);
    }
  }
}
