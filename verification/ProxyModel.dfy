// The proxy core: the device table, the published device list and the calls made to the
// device listener, with one step per event of the event loop.

module ProxyModel {
  import opened Wrappers
  import opened Rpc
  import RM = RuntimeModel

  /** The configured WebSocket ports, `end` excluded. */
  datatype PortRange = PortRange(first: nat, end: nat)

  datatype Config = Config(devicePorts: Option<PortRange>, hasListener: bool)

  /** One page as the listener is told about it; the WebSocket address is built from port and number. */
  datatype PageNotice = PageNotice(pageNum: nat, pageType: PageType, name: string)

  datatype Note =
    | Connected(info: DeviceInfo)
    | Disconnected(info: DeviceInfo)
    | PagesChanged(info: DeviceInfo, pages: set<PageNotice>)

  /**
   * How the outside world answers one attempt to attach a device: whether the port could be bound,
   * which port the system assigned, whether WebInspector was reached, and what the device says of itself.
   */
  datatype Attempt = Attempt(bound: bool, autoPort: nat, reached: bool, deviceName: string, osVersion: nat)

  datatype Proxy = Proxy(devices: map<string, RM.Runtime>, deviceList: multiset<DeviceInfo>, notes: seq<Note>)

  const SIMULATOR := "SIMULATOR"

  const START := Proxy(map[], multiset{}, [])

  // ---------------------------------------------------------------------------
  // Ports
  // ---------------------------------------------------------------------------

  function UsedPorts(devices: map<string, RM.Runtime>): set<nat> {
    set id | id in devices :: devices[id].port
  }

  /** The first number from `p` on, below `end`, that is not in use. */
  function FirstFree(p: nat, end: nat, used: set<nat>): Option<nat>
    decreases if p < end then end - p else 0
  {
    if p >= end then None
    else if p !in used then Some(p)
    else FirstFree(p + 1, end, used)
  }

  function ChoosePort(cfg: Config, px: Proxy, attempt: Attempt): Option<nat> {
    match cfg.devicePorts
    case Some(range) =>
      var free := FirstFree(range.first, range.end, UsedPorts(px.devices));
      if free.Some? && attempt.bound then free else None
    case None =>
      if attempt.bound && attempt.autoPort != 0 then Some(attempt.autoPort) else None
  }

  // ---------------------------------------------------------------------------
  // Handlers
  // ---------------------------------------------------------------------------

  /** The device list shows the connected devices of the table. */
  function ListOf(devices: map<string, RM.Runtime>): multiset<DeviceInfo> {
    multiset(set id | id in devices && devices[id].connected && devices[id].deviceId.Some? :: RM.Info(devices[id]))
  }

  function UpdateList(px: Proxy): Proxy {
    px.(deviceList := ListOf(px.devices))
  }

  function Note1(cfg: Config, px: Proxy, note: Note): Proxy {
    if cfg.hasListener then px.(notes := px.notes + [note]) else px
  }

  function ConnectDevice(cfg: Config, px: Proxy, id: string, attempt: Attempt): Proxy {
    if id in px.devices then px
    else
      var port := ChoosePort(cfg, px, attempt);
      if port.None? || !attempt.reached then px
      else
        var sim := id == SIMULATOR;
        var rt := RM.Fresh(port.value, id, if sim then SIMULATOR else attempt.deviceName, if sim then 0 else attempt.osVersion);
        UpdateList(px.(devices := px.devices[id := rt]))
  }

  /** The device is out of the table, and the listener knows it if the device was connected. */
  function Without(cfg: Config, px: Proxy, id: string): Proxy {
    if id in px.devices then
      var noted := if px.devices[id].connected then Note1(cfg, px, Disconnected(RM.Info(px.devices[id]))) else px;
      noted.(devices := px.devices - {id})
    else px
  }

  function DisconnectDevice(cfg: Config, px: Proxy, id: string): Proxy {
    UpdateList(Without(cfg, px, id))
  }

  function NoticeOf(p: RM.PageInfo): PageNotice {
    PageNotice(p.pageNum, p.pageType, if p.title.Some? then p.title.value else "")
  }

  function Notices(pages: map<nat, RM.PageInfo>): set<PageNotice> {
    set n | n in pages :: NoticeOf(pages[n])
  }

  /** The device table after an event for device `id`. */
  ghost function Table(px: Proxy, id: string, e: RM.Event): map<string, RM.Runtime> {
    if id in px.devices then px.devices[id := RM.Handle(px.devices[id], e)] else px.devices
  }

  /** List and notifications after a message, the device's own runtime being up to date. */
  function Published(cfg: Config, px: Proxy, id: string, msg: RpcMessage, newlyConnected: bool, info: DeviceInfo): Proxy
    requires id in px.devices
  {
    match msg
    case ReportSetup => Note1(cfg, UpdateList(px), Connected(info))
    case ReportConnectedApplicationList(_) =>
      if newlyConnected then Note1(cfg, UpdateList(px), Connected(info)) else px
    case ApplicationDisconnected(_) => Note1(cfg, px, PagesChanged(info, Notices(px.devices[id].pages)))
    case ApplicationSentListing(_, _) => Note1(cfg, px, PagesChanged(info, Notices(px.devices[id].pages)))
    case _ => px
  }

  ghost function HandleRpc(cfg: Config, px: Proxy, id: string, msg: RpcMessage): Proxy {
    if id in px.devices then
      Published(cfg, px.(devices := Table(px, id, RM.Rpc(msg))), id, msg, !px.devices[id].connected, RM.Info(px.devices[id]))
    else if msg.ReportSetup? then UpdateList(px)
    else px
  }

  // ---------------------------------------------------------------------------
  // The event loop
  // ---------------------------------------------------------------------------

  datatype Event =
    | Attached(id: string, attempt: Attempt)
    | Detached(id: string)
    | FromDevice(id: string, msg: RpcMessage)
    | FromClient(id: string, ws: WsMessage)
    | Registering(id: string, reg: Registration)

  ghost function Step(cfg: Config, px: Proxy, ev: Event): Proxy {
    match ev
    case Attached(id, attempt) => ConnectDevice(cfg, px, id, attempt)
    case Detached(id) => DisconnectDevice(cfg, px, id)
    case FromDevice(id, msg) => HandleRpc(cfg, px, id, msg)
    case FromClient(id, ws) => px.(devices := Table(px, id, RM.Ws(ws)))
    case Registering(id, reg) => px.(devices := Table(px, id, RM.Reg(reg)))
  }

  ghost function Run(cfg: Config, px: Proxy, evs: seq<Event>): Proxy
    decreases |evs|
  {
    if evs == [] then px else Step(cfg, Run(cfg, px, evs[..|evs| - 1]), evs[|evs| - 1])
  }

  /** The clean-up after the loop: every device is disconnected, in the order given. */
  function Shutdown(cfg: Config, px: Proxy, order: seq<string>): Proxy
    decreases |order|
  {
    if order == [] then px
    else DisconnectDevice(cfg, Shutdown(cfg, px, order[..|order| - 1]), order[|order| - 1])
  }
}
