// What one event of the loop does to the table, the device list and the listener, field by field.

module ProxySteps {
  import opened Wrappers
  import opened Rpc
  import opened ProxyModel
  import opened ProxyInvariants
  import opened ProxyRuns
  import opened PageNotices
  import RM = RuntimeModel
  import PT = PageTables

  // ---------------------------------------------------------------------------
  // Attaching
  // ---------------------------------------------------------------------------

  predicate InUse(devices: map<string, RM.Runtime>, port: nat) {
    exists d | d in devices :: devices[d].port == port
  }

  /** The least port of the range that no device uses. */
  predicate LeastUnused(range: PortRange, devices: map<string, RM.Runtime>, port: nat) {
    && range.first <= port < range.end && !InUse(devices, port)
    && forall k | range.first <= k < port :: InUse(devices, k)
  }

  /** There is a port: one of the range if one is configured, else the one the system assigned. */
  predicate HasPort(cfg: Config, devices: map<string, RM.Runtime>, attempt: Attempt) {
    match cfg.devicePorts
    case Some(range) => exists k | range.first <= k < range.end :: !InUse(devices, k)
    case None => attempt.autoPort != 0
  }

  /** A device that has reported its identifier and nothing else; the simulator has a name and version of its own. */
  predicate JustAttached(rt: RM.Runtime, id: string, attempt: Attempt) {
    && rt.deviceId == Some(id)
    && rt.deviceName == Some(if id == "SIMULATOR" then "SIMULATOR" else attempt.deviceName)
    && rt.osVersion == (if id == "SIMULATOR" then 0 else attempt.osVersion)
    && !rt.connected && rt.shared == RM.PortState(false, [])
    && rt.appIds == {} && rt.currentApp == None && rt.pages == map[] && rt.maxPageNum == 0
    && rt.wsClients == map[] && rt.wsClientTxs == map[]
    && rt.sent == [SentIdentifier] && rt.delivered == []
  }

  lemma UsedIffInUse(devices: map<string, RM.Runtime>, port: nat)
    ensures port in UsedPorts(devices) <==> InUse(devices, port)
  {
  }

  lemma ChosenPort(cfg: Config, px: Proxy, attempt: Attempt)
    ensures var port := ChoosePort(cfg, px, attempt);
      && (port.Some? <==> attempt.bound && HasPort(cfg, px.devices, attempt))
      && (port.Some? ==>
            match cfg.devicePorts
            case Some(range) => LeastUnused(range, px.devices, port.value)
            case None => port.value == attempt.autoPort)
  {
    if cfg.devicePorts.Some? {
      var range, used := cfg.devicePorts.value, UsedPorts(px.devices);
      FirstFreeIsLeast(range.first, range.end, used);
      forall k: nat ensures k in used <==> InUse(px.devices, k) {
        UsedIffInUse(px.devices, k);
      }
    }
  }

  lemma UnconnectedNotListed(devices: map<string, RM.Runtime>, id: string, rt: RM.Runtime)
    requires id !in devices && !rt.connected
    ensures ListOf(devices[id := rt]) == ListOf(devices)
  {
    var after := devices[id := rt];
    var listed := set d | d in devices && devices[d].connected && devices[d].deviceId.Some? :: RM.Info(devices[d]);
    var now := set d | d in after && after[d].connected && after[d].deviceId.Some? :: RM.Info(after[d]);
    forall info | info in listed ensures info in now {
      var d :| d in devices && devices[d].connected && devices[d].deviceId.Some? && RM.Info(devices[d]) == info;
      assert d in after && after[d] == devices[d];
    }
    assert now == listed;
  }

  lemma NewDevice(cfg: Config, px: Proxy, id: string, attempt: Attempt)
    requires id !in px.devices && px.deviceList == ListOf(px.devices)
    ensures var r := ConnectDevice(cfg, px, id, attempt);
      && r.notes == px.notes && r.deviceList == px.deviceList
      && (id in r.devices <==> attempt.bound && attempt.reached && HasPort(cfg, px.devices, attempt))
      && (id !in r.devices ==> r.devices == px.devices)
      && (id in r.devices ==>
            && r.devices == px.devices[id := r.devices[id]] && JustAttached(r.devices[id], id, attempt)
            && match cfg.devicePorts
               case Some(range) => LeastUnused(range, px.devices, r.devices[id].port)
               case None => r.devices[id].port == attempt.autoPort)
  {
    var r := ConnectDevice(cfg, px, id, attempt);
    ChosenPort(cfg, px, attempt);
    if id in r.devices {
      UnconnectedNotListed(px.devices, id, r.devices[id]);
    }
  }

  /**
   * A device that is attached already stays as it is. Another one is attached if and only if there
   * is a port, it could be bound and the device was reached, and nothing changes if it is not. It gets
   * the least unused port of the range, or the one assigned, and starts with nothing but its
   * identifier reported. Neither the list nor the listener sees it yet.
   */
  lemma AttachExact(cfg: Config, evs: seq<Event>, id: string, attempt: Attempt)
    ensures var px := Run(cfg, START, evs);
      var r := Step(cfg, px, Attached(id, attempt));
      && r.notes == px.notes && r.deviceList == px.deviceList
      && (forall d | d in px.devices :: d in r.devices && r.devices[d] == px.devices[d])
      && (forall d | d in r.devices && d !in px.devices :: d == id)
      && (id !in px.devices ==>
            (id in r.devices <==> attempt.bound && attempt.reached && HasPort(cfg, px.devices, attempt)))
      && (id in r.devices && id !in px.devices ==>
            && JustAttached(r.devices[id], id, attempt)
            && match cfg.devicePorts
               case Some(range) => LeastUnused(range, px.devices, r.devices[id].port)
               case None => r.devices[id].port == attempt.autoPort)
  {
    var px := Run(cfg, START, evs);
    ReachableSound(cfg, evs);
    if id !in px.devices {
      NewDevice(cfg, px, id, attempt);
    }
  }

  // ---------------------------------------------------------------------------
  // What the listener is told
  // ---------------------------------------------------------------------------

  /** A device that goes leaves the others alone; the listener is told if the device was connected. */
  lemma DetachExact(cfg: Config, evs: seq<Event>, id: string)
    ensures var px := Run(cfg, START, evs);
      var r := Step(cfg, px, Detached(id));
      && (forall d :: d in r.devices <==> d in px.devices && d != id)
      && (forall d | d in r.devices :: r.devices[d] == px.devices[d])
      && (if cfg.hasListener && id in px.devices && px.devices[id].connected
          then exists info :: Describes(info, id, px.devices[id]) && r.notes == px.notes + [Disconnected(info)]
          else r.notes == px.notes)
  {
    var px := Run(cfg, START, evs);
    ReachableSound(cfg, evs);
    if id in px.devices {
      InfoDescribes(px.devices, id, RM.Info(px.devices[id]));
    }
  }

  /** The one thing the listener is told after a message, `pages` being those after it. */
  ghost predicate Tells(before: seq<Note>, after: seq<Note>, info: DeviceInfo, connected: bool, msg: RpcMessage,
                        pages: map<nat, RM.PageInfo>) {
    match msg
    case ReportSetup => after == before + [Connected(info)]
    case ReportConnectedApplicationList(_) => after == if connected then before else before + [Connected(info)]
    case ApplicationDisconnected(_) =>
      exists shown :: ShowsExactly(shown, pages) && after == before + [PagesChanged(info, shown)]
    case ApplicationSentListing(_, _) =>
      exists shown :: ShowsExactly(shown, pages) && after == before + [PagesChanged(info, shown)]
    case _ => after == before
  }

  lemma PublishedTells(cfg: Config, px: Proxy, id: string, msg: RpcMessage, newly: bool, info: DeviceInfo)
    requires cfg.hasListener && Keyed(px.devices) && id in px.devices
    ensures Tells(px.notes, Published(cfg, px, id, msg, newly, info).notes, info, !newly, msg, px.devices[id].pages)
  {
    NoticesShow(px.devices[id].pages);
  }

  lemma PublishedSilent(cfg: Config, px: Proxy, id: string, msg: RpcMessage, newly: bool, info: DeviceInfo)
    requires !cfg.hasListener && id in px.devices
    ensures Published(cfg, px, id, msg, newly, info).notes == px.notes
  {
  }

  lemma OneDeviceMoves(cfg: Config, px: Proxy, id: string, msg: RpcMessage)
    ensures var r := HandleRpc(cfg, px, id, msg);
      && r.devices.Keys == px.devices.Keys
      && (forall d | d in px.devices && d != id :: r.devices[d] == px.devices[d])
      && (id !in px.devices ==> r.notes == px.notes)
  {
    MessageTable(cfg, px, id, msg);
  }

  lemma KnownDeviceHeard(cfg: Config, px: Proxy, id: string, msg: RpcMessage)
    requires Keyed(px.devices) && id in px.devices
    ensures var r := HandleRpc(cfg, px, id, msg);
      if cfg.hasListener
      then exists info :: Describes(info, id, px.devices[id]) &&
             Tells(px.notes, r.notes, info, px.devices[id].connected, msg, r.devices[id].pages)
      else r.notes == px.notes
  {
    var info, mid := RM.Info(px.devices[id]), px.(devices := Table(px, id, RM.Rpc(msg)));
    MessageTable(cfg, px, id, msg);
    InfoDescribes(px.devices, id, info);
    TableKeyed(px.devices, id, RM.Rpc(msg));
    if cfg.hasListener {
      PublishedTells(cfg, mid, id, msg, !px.devices[id].connected, info);
    } else {
      PublishedSilent(cfg, mid, id, msg, !px.devices[id].connected, info);
    }
  }

  /**
   * The listener hears of every set-up report and of the first application list, of every listing and
   * every application that goes, with the pages left, and of no other message. A message from
   * a device leaves the others as they are, and one from an unknown device is not heard of.
   */
  lemma MessageHeard(cfg: Config, evs: seq<Event>, id: string, msg: RpcMessage)
    ensures var px := Run(cfg, START, evs);
      var r := Step(cfg, px, FromDevice(id, msg));
      && r.devices.Keys == px.devices.Keys
      && (forall d | d in px.devices && d != id :: r.devices[d] == px.devices[d])
      && (if cfg.hasListener && id in px.devices
          then exists info :: Describes(info, id, px.devices[id]) &&
                 Tells(px.notes, r.notes, info, px.devices[id].connected, msg, r.devices[id].pages)
          else r.notes == px.notes)
  {
    var px := Run(cfg, START, evs);
    ReachableSound(cfg, evs);
    OneDeviceMoves(cfg, px, id, msg);
    if id in px.devices {
      KnownDeviceHeard(cfg, px, id, msg);
    }
  }

  /** A client's message or registration concerns its device only, and neither the list nor the listener. */
  lemma ClientsUnheard(cfg: Config, px: Proxy, ev: Event)
    requires ev.FromClient? || ev.Registering?
    ensures var r := Step(cfg, px, ev);
      && r.notes == px.notes && r.deviceList == px.deviceList && r.devices.Keys == px.devices.Keys
      && forall d | d in px.devices && d != ev.id :: r.devices[d] == px.devices[d]
  {
  }

  // ---------------------------------------------------------------------------
  // The pages of every device
  // ---------------------------------------------------------------------------

  /**
   * In every reachable state each attached device holds exactly the pages its listings and
   * disconnections since its attachment come to, if none of those listings lacked a number, as none
   * does before the page counter overflows.
   */
  lemma EveryDeviceHoldsItsListings(cfg: Config, evs: seq<Event>, id: string)
    requires id in Run(cfg, START, evs).devices
    ensures var rt, es := Run(cfg, START, evs).devices[id], History(cfg, evs, id);
      && rt.deviceId.Some? && rt.deviceName.Some?
      && (NeverWraps(cfg, evs) ==> PT.RunsWithRoom(Origin(rt), es))
      && (PT.RunsWithRoom(Origin(rt), es) ==> PT.Keeps(rt.pages, es))
  {
    DeviceIsItsOwnRun(cfg, evs, id);
    var rt, es := Run(cfg, START, evs).devices[id], History(cfg, evs, id);
    if NeverWraps(cfg, evs) {
      PT.NoOverflowHasRoom(Origin(rt), es);
    }
    if PT.RunsWithRoom(Origin(rt), es) {
      PT.PagesFollowListings(Origin(rt), es);
    }
  }
}
