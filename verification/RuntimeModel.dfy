// The state of one attached device and what each handler of the proxy core does to it,
// as functions from state to state. The classes in DeviceRuntime.dfy and ProxyBridge.dfy are
// proved to implement these functions; the theorems about runs are proved on them.

module RuntimeModel {
  import opened Wrappers
  import opened Rpc

  datatype PageInfo = PageInfo(
    pageNum: nat,
    pageType: PageType,
    appId: string,
    pageId: nat,
    connectionId: Option<string>,
    title: Option<string>,
    url: Option<string>,
    senderId: Option<string>,
    wsClientId: Option<string>)

  /** A row of the page list the HTTP side reads. */
  datatype PageEntry = PageEntry(
    pageNum: nat,
    appId: string,
    pageId: nat,
    title: Option<string>,
    url: Option<string>,
    senderId: Option<string>)

  /** What the proxy core shares with the HTTP server of a device port. */
  datatype PortState = PortState(connected: bool, pages: seq<PageEntry>)

  datatype WsClientInfo = WsClientInfo(pageNum: nat, senderId: string)

  datatype Runtime = Runtime(
    port: nat,
    deviceId: Option<string>,
    deviceName: Option<string>,
    osVersion: nat,
    connected: bool,
    appIds: set<string>,
    currentApp: Option<RpcApp>,
    pages: map<nat, PageInfo>,
    maxPageNum: nat,
    shared: PortState,
    wsClients: map<string, WsClientInfo>,
    wsClientTxs: map<string, nat>,
    sent: seq<Sent>,
    delivered: seq<Delivery>)

  /** The state in which a device enters the table: only the identifier has been reported. */
  function Fresh(port: nat, deviceId: string, deviceName: string, osVersion: nat): Runtime {
    Runtime(port, Some(deviceId), Some(deviceName), osVersion, false, {}, None, map[], 0,
            PortState(false, []), map[], map[], [SentIdentifier], [])
  }

  function Info(rt: Runtime): DeviceInfo {
    DeviceInfo(
      if rt.deviceId.Some? then rt.deviceId.value else "",
      if rt.deviceName.Some? then rt.deviceName.value else "",
      rt.osVersion,
      rt.port)
  }

  // ---------------------------------------------------------------------------
  // The page list
  // ---------------------------------------------------------------------------

  function Entry(p: PageInfo): PageEntry {
    PageEntry(p.pageNum, p.appId, p.pageId, p.title, p.url, p.senderId)
  }

  ghost predicate Ascending(nums: seq<nat>) {
    forall i, j | 0 <= i < j < |nums| :: nums[i] < nums[j]
  }

  lemma {:induction false} LargestExists(s: set<nat>)
    requires s != {}
    ensures exists m :: m in s && forall x | x in s :: x <= m
    decreases |s|
  {
    var y :| y in s;
    var rest := s - {y};
    assert forall x | x in s :: x == y || x in rest;
    if rest == {} {
      assert y in s && forall x | x in s :: x <= y;
    } else {
      LargestExists(rest);
      var m :| m in rest && forall x | x in rest :: x <= m;
      var best := if y <= m then m else y;
      assert best in s && forall x | x in s :: x <= best;
    }
  }

  ghost function SortedNums(s: set<nat>): (nums: seq<nat>)
    ensures Ascending(nums)
    ensures forall n :: n in nums <==> n in s
    decreases |s|
  {
    if s == {} then []
    else
      LargestExists(s);
      var m :| m in s && forall x | x in s :: x <= m;
      SortedNums(s - {m}) + [m]
  }

  /** The last element of an ascending sequence bounds them all. */
  lemma LastBounds(a: seq<nat>, x: nat)
    requires Ascending(a) && x in a
    ensures x <= a[|a| - 1]
  {
    var i :| 0 <= i < |a| && a[i] == x;
    assert i == |a| - 1 || a[i] < a[|a| - 1];
  }

  lemma DropLast(a: seq<nat>, n: nat)
    requires Ascending(a) && a != []
    ensures n in a[..|a| - 1] <==> n in a && n != a[|a| - 1]
  {
    var x := a[|a| - 1];
    assert a == a[..|a| - 1] + [x];
  }

  /** Ascending sequences with the same members are the same sequence. */
  lemma {:induction false} AscendingUnique(a: seq<nat>, b: seq<nat>)
    requires Ascending(a) && Ascending(b)
    requires forall n :: n in a <==> n in b
    ensures a == b
    decreases |a|
  {
    assert |a| > 0 ==> a[0] in b;
    assert |b| > 0 ==> b[0] in a;
    if a != [] && b != [] {
      var x, y := a[|a| - 1], b[|b| - 1];
      assert x in b && y in a;
      LastBounds(a, y);
      LastBounds(b, x);
      var a', b' := a[..|a| - 1], b[..|b| - 1];
      forall n ensures n in a' <==> n in b' {
        DropLast(a, n);
        DropLast(b, n);
      }
      AscendingUnique(a', b');
      assert a == a' + [x] && b == b' + [x];
    }
  }

  /** The page list as it is published: one entry per page, by ascending page number. */
  ghost function Project(pages: map<nat, PageInfo>): seq<PageEntry> {
    var nums := SortedNums(pages.Keys);
    seq(|nums|, i requires 0 <= i < |nums| => assert nums[i] in nums; Entry(pages[nums[i]]))
  }

  ghost function SyncPages(rt: Runtime): Runtime {
    rt.(shared := rt.shared.(pages := Project(rt.pages)))
  }

  // ---------------------------------------------------------------------------
  // Applications and pages
  // ---------------------------------------------------------------------------

  function AddAppId(rt: Runtime, appId: string): Runtime {
    if appId in rt.appIds then rt
    else rt.(appIds := rt.appIds + {appId}, sent := rt.sent + [SentGetListing(appId)])
  }

  function AddApps(rt: Runtime, apps: seq<RpcApp>): Runtime
    decreases |apps|
  {
    if apps == [] then rt
    else AddApps(AddAppId(rt, apps[0].appId).(currentApp := Some(apps[0])), apps[1..])
  }

  function WithoutApp(pages: map<nat, PageInfo>, appId: string): map<nat, PageInfo> {
    map n | n in pages && pages[n].appId != appId :: pages[n]
  }

  ghost function RemoveAppId(rt: Runtime, appId: string): Runtime {
    SyncPages(rt.(appIds := rt.appIds - {appId}, pages := WithoutApp(rt.pages, appId)))
  }

  predicate IsPage(p: PageInfo, appId: string, pageId: nat) {
    p.appId == appId && p.pageId == pageId
  }

  predicate Holds(pages: map<nat, PageInfo>, appId: string, pageId: nat) {
    exists n | n in pages :: IsPage(pages[n], appId, pageId)
  }

  ghost function FindPage(pages: map<nat, PageInfo>, appId: string, pageId: nat): (n: nat)
    requires Holds(pages, appId, pageId)
    ensures n in pages && IsPage(pages[n], appId, pageId)
  {
    var n :| n in pages && IsPage(pages[n], appId, pageId);
    n
  }

  /** `max_page_num += 1` on an unsigned 32-bit counter; the wrap-around of a release build. */
  function NextNum(m: nat): nat {
    if m >= U32_MAX then 0 else m + 1
  }

  function NewPage(num: nat, appId: string, page: RpcPage): PageInfo {
    PageInfo(num, page.pageType, appId, page.pageId, page.connectionId, page.title, page.url, None, None)
  }

  function Refreshed(p: PageInfo, page: RpcPage): PageInfo {
    p.(title := page.title, url := page.url, connectionId := page.connectionId)
  }

  ghost function ListOne(rt: Runtime, appId: string, page: RpcPage): Runtime {
    if Holds(rt.pages, appId, page.pageId) then
      var n := FindPage(rt.pages, appId, page.pageId);
      rt.(pages := rt.pages[n := Refreshed(rt.pages[n], page)])
    else
      var n := NextNum(rt.maxPageNum);
      rt.(maxPageNum := n, pages := rt.pages[n := NewPage(n, appId, page)])
  }

  ghost function ListAll(rt: Runtime, appId: string, listed: seq<RpcPage>): Runtime
    decreases |listed|
  {
    if listed == [] then rt
    else ListOne(ListAll(rt, appId, listed[..|listed| - 1]), appId, listed[|listed| - 1])
  }

  predicate Lists(listed: seq<RpcPage>, pageId: nat) {
    exists i | 0 <= i < |listed| :: listed[i].pageId == pageId
  }

  function Prune(pages: map<nat, PageInfo>, appId: string, listed: seq<RpcPage>): map<nat, PageInfo> {
    map n | n in pages && (pages[n].appId != appId || Lists(listed, pages[n].pageId)) :: pages[n]
  }

  ghost function PageListing(rt: Runtime, appId: string, listed: seq<RpcPage>): Runtime {
    var all := ListAll(rt, appId, listed);
    SyncPages(all.(pages := Prune(all.pages, appId, listed)))
  }

  // ---------------------------------------------------------------------------
  // Debug sessions
  // ---------------------------------------------------------------------------

  /** Device data goes to the channel registered for its destination, if there is one. */
  function AppData(rt: Runtime, destId: string, data: Bytes): Runtime {
    if destId in rt.wsClientTxs
    then rt.(delivered := rt.delivered + [Delivery(rt.wsClientTxs[destId], data)])
    else rt
  }

  function Register(rt: Runtime, reg: Registration): Runtime {
    rt.(wsClients := rt.wsClients[reg.wsId := WsClientInfo(reg.pageNum, reg.wsId)],
        wsClientTxs := rt.wsClientTxs[reg.wsId := reg.channel])
  }

  function StopDevtools(rt: Runtime, n: nat): Runtime {
    if n in rt.pages && rt.pages[n].senderId.Some? then
      var p := rt.pages[n];
      rt.(sent := rt.sent + [SentDidClose(n, p.appId, p.pageId, p.senderId.value)],
          pages := rt.pages[n := p.(senderId := None, wsClientId := None)])
    else rt
  }

  function OpenSession(rt: Runtime, wsId: string, n: nat): Runtime {
    if n in rt.pages then
      var p := rt.pages[n];
      rt.(pages := rt.pages[n := p.(senderId := Some(wsId), wsClientId := Some(wsId))],
          sent := rt.sent + [SentSetup(n, p.appId, p.pageId, wsId)])
    else rt
  }

  function SocketSetup(rt: Runtime, wsId: string, n: nat): Runtime {
    if n in rt.pages && rt.pages[n].wsClientId.Some? && rt.pages[n].wsClientId.value != wsId
    then OpenSession(StopDevtools(rt, n), wsId, n)
    else OpenSession(rt, wsId, n)
  }

  function ForwardData(rt: Runtime, msg: WsMessage): Runtime {
    if msg.pageNum in rt.pages then
      var p := rt.pages[msg.pageNum];
      var sender := if p.senderId.Some? then p.senderId.value else msg.wsId;
      rt.(sent := rt.sent + [SentData(msg.pageNum, p.appId, p.pageId, sender, msg.data, msg.wsId)])
    else rt
  }

  function Forget(rt: Runtime, wsId: string): Runtime {
    rt.(wsClients := rt.wsClients - {wsId}, wsClientTxs := rt.wsClientTxs - {wsId})
  }

  function HandleWs(rt: Runtime, msg: WsMessage): Runtime {
    if msg.isClose then Forget(StopDevtools(rt, msg.pageNum), msg.wsId)
    else if msg.data == [] then SocketSetup(rt, msg.wsId, msg.pageNum)
    else ForwardData(rt, msg)
  }

  // ---------------------------------------------------------------------------
  // Events and runs
  // ---------------------------------------------------------------------------

  function Connect(rt: Runtime): Runtime {
    rt.(connected := true, shared := rt.shared.(connected := true))
  }

  ghost function HandleRpc(rt: Runtime, msg: RpcMessage): Runtime {
    match msg
    case ReportSetup => Connect(rt)
    case ReportConnectedApplicationList(apps) => AddApps(if rt.connected then rt else Connect(rt), apps)
    case ApplicationConnected(app) => AddAppId(rt.(currentApp := Some(app)), app.appId)
    case ApplicationDisconnected(app) => RemoveAppId(rt, app.appId)
    case ApplicationSentListing(appId, pages) => PageListing(rt, appId, pages)
    case ApplicationSentData(_, destId, data) => AppData(rt, destId, data)
    case ApplicationUpdated(_, updatedId) => AddAppId(rt, updatedId)
    case UnknownSelector(_) => rt
  }

  /** Whatever the event loop may hand to one attached device, in any order. */
  datatype Event =
    | Rpc(rpc: RpcMessage)
    | Ws(ws: WsMessage)
    | Reg(reg: Registration)

  ghost function Handle(rt: Runtime, e: Event): Runtime {
    match e
    case Rpc(msg) => HandleRpc(rt, msg)
    case Ws(msg) => HandleWs(rt, msg)
    case Reg(reg) => Register(rt, reg)
  }

  ghost function Run(rt: Runtime, es: seq<Event>): Runtime
    decreases |es|
  {
    if es == [] then rt else Handle(Run(rt, es[..|es| - 1]), es[|es| - 1])
  }

  lemma {:induction false} RunAppend(rt: Runtime, a: seq<Event>, b: seq<Event>)
    ensures Run(rt, a + b) == Run(Run(rt, a), b)
    decreases |b|
  {
    if b == [] {
      assert a + b == a;
    } else {
      var b', e := b[..|b| - 1], b[|b| - 1];
      assert (a + b)[..|a + b| - 1] == a + b' && (a + b)[|a + b| - 1] == e;
      RunAppend(rt, a, b');
    }
  }
}
