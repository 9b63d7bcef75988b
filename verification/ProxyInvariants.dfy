// What holds of the whole proxy between any two events, over every run, and after shutdown.

module ProxyInvariants {
  import opened Wrappers
  import opened Rpc
  import opened Cardinals
  import RM = RuntimeModel
  import RI = RuntimeInvariants
  import opened ProxyModel

  // ---------------------------------------------------------------------------
  // Notifications
  // ---------------------------------------------------------------------------

  datatype Call = Up | Down

  /** The connection calls the listener gets for one device. */
  function Calls(notes: seq<Note>, id: string): seq<Call>
    decreases |notes|
  {
    if notes == [] then []
    else
      var before := Calls(notes[..|notes| - 1], id);
      match notes[|notes| - 1]
      case Connected(info) => if info.deviceId == id then before + [Up] else before
      case Disconnected(info) => if info.deviceId == id then before + [Down] else before
      case PagesChanged(_, _) => before
  }

  /** A prefix of a word of (Up+ Down)*: no Down comes first, and none follows a Down. */
  predicate Rounds(calls: seq<Call>) {
    forall i | 0 <= i < |calls| && calls[i] == Down :: i > 0 && calls[i - 1] == Up
  }

  predicate EndsUp(calls: seq<Call>) {
    calls != [] && calls[|calls| - 1] == Up
  }

  // ---------------------------------------------------------------------------
  // The invariant
  // ---------------------------------------------------------------------------

  predicate IsUp(px: Proxy, id: string) {
    id in px.devices && px.devices[id].connected
  }

  predicate Keyed(devices: map<string, RM.Runtime>) {
    forall id | id in devices ::
      devices[id].deviceId == Some(id) && devices[id].deviceName.Some? && RI.Coherent(devices[id])
  }

  predicate PortsAllocated(cfg: Config, devices: map<string, RM.Runtime>) {
    cfg.devicePorts.Some? ==>
      var range := cfg.devicePorts.value;
      && (forall id | id in devices :: range.first <= devices[id].port < range.end)
      && (forall id, other | id in devices && other in devices && devices[id].port == devices[other].port :: id == other)
  }

  ghost predicate NotesAgree(cfg: Config, px: Proxy) {
    forall id :: Rounds(Calls(px.notes, id)) && (EndsUp(Calls(px.notes, id)) <==> cfg.hasListener && IsUp(px, id))
  }

  ghost predicate Sound(cfg: Config, px: Proxy) {
    && Keyed(px.devices)
    && PortsAllocated(cfg, px.devices)
    && px.deviceList == ListOf(px.devices)
    && NotesAgree(cfg, px)
  }

  lemma CallsAppend(notes: seq<Note>, note: Note, id: string)
    ensures Calls(notes + [note], id) ==
      match note
      case Connected(info) => if info.deviceId == id then Calls(notes, id) + [Up] else Calls(notes, id)
      case Disconnected(info) => if info.deviceId == id then Calls(notes, id) + [Down] else Calls(notes, id)
      case PagesChanged(_, _) => Calls(notes, id)
  {
    assert (notes + [note])[..|notes + [note]| - 1] == notes;
  }

  lemma CallsStayRounds(calls: seq<Call>, call: Call)
    requires Rounds(calls)
    requires call == Down ==> EndsUp(calls)
    ensures Rounds(calls + [call])
  {
  }

  /** Recording one call keeps the language if the table moves with it. */
  lemma NoteKeeps(cfg: Config, px: Proxy, r: Proxy, note: Note, id: string)
    requires NotesAgree(cfg, px)
    requires r.notes == Note1(cfg, px, note).notes
    requires note.info.deviceId == id
    requires note.Disconnected? ==> IsUp(px, id)
    requires IsUp(r, id) <==> if note.Connected? then true else if note.Disconnected? then false else IsUp(px, id)
    requires forall other | other != id :: IsUp(r, other) <==> IsUp(px, other)
    ensures NotesAgree(cfg, r)
  {
    forall other
      ensures Rounds(Calls(r.notes, other)) && (EndsUp(Calls(r.notes, other)) <==> cfg.hasListener && IsUp(r, other))
    {
      assert Rounds(Calls(px.notes, other));
      assert EndsUp(Calls(px.notes, other)) <==> cfg.hasListener && IsUp(px, other);
      if cfg.hasListener {
        CallsAppend(px.notes, note, other);
        if other == id && !note.PagesChanged? {
          CallsStayRounds(Calls(px.notes, id), if note.Connected? then Up else Down);
        }
      }
    }
  }

  lemma SilentKeeps(cfg: Config, px: Proxy, r: Proxy)
    requires NotesAgree(cfg, px) && r.notes == px.notes
    requires forall id :: IsUp(r, id) <==> IsUp(px, id)
    ensures NotesAgree(cfg, r)
  {
    forall id
      ensures Rounds(Calls(r.notes, id)) && (EndsUp(Calls(r.notes, id)) <==> cfg.hasListener && IsUp(r, id))
    {
      assert Rounds(Calls(px.notes, id));
    }
  }

  // ---------------------------------------------------------------------------
  // Ports
  // ---------------------------------------------------------------------------

  /** The search returns the least unused number of the range, and fails only if all are in use. */
  lemma {:induction false} FirstFreeIsLeast(p: nat, end: nat, used: set<nat>)
    ensures match FirstFree(p, end, used)
      case Some(q) => p <= q < end && q !in used && forall k | p <= k < q :: k in used
      case None => forall k | p <= k < end :: k in used
    decreases if p < end then end - p else 0
  {
    if p < end && p in used {
      FirstFreeIsLeast(p + 1, end, used);
    }
  }

  function Length(range: PortRange): nat {
    if range.first < range.end then range.end - range.first else 0
  }

  /** Devices with distinct ports use as many ports as there are devices. */
  lemma UsedPortsSize(devices: map<string, RM.Runtime>)
    requires forall id, other | id in devices && other in devices && devices[id].port == devices[other].port :: id == other
    ensures |UsedPorts(devices)| == |devices|
  {
    var port := map id | id in devices :: devices[id].port;
    ImageSize(devices.Keys, port);
    assert UsedPorts(devices) == Image(devices.Keys, port);
    assert |devices| == |devices.Keys|;
  }

  lemma SearchFailsIffFull(range: PortRange, used: set<nat>)
    requires used <= Interval(range.first, range.end)
    ensures |used| <= Length(range)
    ensures FirstFree(range.first, range.end, used) == None <==> |used| == Length(range)
  {
    var all := Interval(range.first, range.end);
    FirstFreeIsLeast(range.first, range.end, used);
    IntervalSize(range.first, range.end);
    SubsetSize(used, all);
    if FirstFree(range.first, range.end, used) == None {
      assert used == all;
    }
  }

  lemma FullIff(devices: map<string, RM.Runtime>, range: PortRange)
    requires PortsAllocated(Config(Some(range), false), devices)
    ensures |devices| <= Length(range)
    ensures FirstFree(range.first, range.end, UsedPorts(devices)) == None <==> |devices| == Length(range)
  {
    UsedPortsSize(devices);
    SearchFailsIffFull(range, UsedPorts(devices));
  }

  /** The port search fails exactly when there are as many devices as configured ports. */
  lemma PortSearchFailsIffFull(cfg: Config, px: Proxy)
    requires Sound(cfg, px) && cfg.devicePorts.Some?
    ensures var range := cfg.devicePorts.value;
      FirstFree(range.first, range.end, UsedPorts(px.devices)) == None <==> |px.devices| == Length(range)
  {
    FullIff(px.devices, cfg.devicePorts.value);
  }

  // ---------------------------------------------------------------------------
  // Every step keeps the invariant
  // ---------------------------------------------------------------------------

  lemma ConnectDevicePorts(cfg: Config, px: Proxy, id: string, attempt: Attempt)
    requires PortsAllocated(cfg, px.devices)
    ensures PortsAllocated(cfg, ConnectDevice(cfg, px, id, attempt).devices)
  {
    if cfg.devicePorts.Some? {
      FirstFreeIsLeast(cfg.devicePorts.value.first, cfg.devicePorts.value.end, UsedPorts(px.devices));
      assert forall other | other in px.devices :: px.devices[other].port in UsedPorts(px.devices);
    }
  }

  lemma ConnectDeviceKeyed(cfg: Config, px: Proxy, id: string, attempt: Attempt)
    requires Keyed(px.devices)
    ensures Keyed(ConnectDevice(cfg, px, id, attempt).devices)
  {
  }

  lemma ConnectDeviceList(cfg: Config, px: Proxy, id: string, attempt: Attempt)
    requires px.deviceList == ListOf(px.devices)
    ensures var r := ConnectDevice(cfg, px, id, attempt);
      r.deviceList == ListOf(r.devices) && r.notes == px.notes && forall other :: IsUp(r, other) <==> IsUp(px, other)
  {
  }

  lemma ConnectDeviceSound(cfg: Config, px: Proxy, id: string, attempt: Attempt)
    requires Sound(cfg, px)
    ensures Sound(cfg, ConnectDevice(cfg, px, id, attempt))
  {
    var r := ConnectDevice(cfg, px, id, attempt);
    ConnectDeviceList(cfg, px, id, attempt);
    SilentKeeps(cfg, px, r);
    ConnectDevicePorts(cfg, px, id, attempt);
    ConnectDeviceKeyed(cfg, px, id, attempt);
  }

  lemma DisconnectDeviceNotes(cfg: Config, px: Proxy, id: string)
    requires NotesAgree(cfg, px) && Keyed(px.devices)
    ensures NotesAgree(cfg, DisconnectDevice(cfg, px, id))
  {
    var r := DisconnectDevice(cfg, px, id);
    assert forall other :: IsUp(r, other) <==> other != id && IsUp(px, other);
    if IsUp(px, id) {
      NoteKeeps(cfg, px, r, Disconnected(RM.Info(px.devices[id])), id);
    } else {
      SilentKeeps(cfg, px, r);
    }
  }

  lemma DisconnectDeviceSound(cfg: Config, px: Proxy, id: string)
    requires Sound(cfg, px)
    ensures Sound(cfg, DisconnectDevice(cfg, px, id))
  {
    DisconnectDeviceNotes(cfg, px, id);
  }

  predicate SameDevice(rt: RM.Runtime, r: RM.Runtime) {
    r.port == rt.port && r.deviceId == rt.deviceId && r.deviceName == rt.deviceName && r.osVersion == rt.osVersion
  }

  /** Messages leave a device's identity and port alone; only two of them set `connected`. */
  lemma HandleRpcFrame(rt: RM.Runtime, msg: RpcMessage)
    ensures var r := RM.HandleRpc(rt, msg);
      && SameDevice(rt, r)
      && r.connected == (rt.connected || msg.ReportSetup? || msg.ReportConnectedApplicationList?)
  {
    match msg
    case ReportConnectedApplicationList(apps) =>
      RI.AddAppsFrame(if rt.connected then rt else RM.Connect(rt), apps);
    case ApplicationSentListing(appId, pages) =>
      RI.ListAllFrame(rt, appId, pages);
    case _ =>
  }

  lemma StopFrame(rt: RM.Runtime, n: nat)
    ensures SameDevice(rt, RM.StopDevtools(rt, n)) && RM.StopDevtools(rt, n).connected == rt.connected
  {
  }

  lemma OpenFrame(rt: RM.Runtime, wsId: string, n: nat)
    ensures SameDevice(rt, RM.OpenSession(rt, wsId, n)) && RM.OpenSession(rt, wsId, n).connected == rt.connected
  {
  }

  lemma HandleWsFrame(rt: RM.Runtime, msg: WsMessage)
    ensures SameDevice(rt, RM.HandleWs(rt, msg)) && RM.HandleWs(rt, msg).connected == rt.connected
  {
    StopFrame(rt, msg.pageNum);
    OpenFrame(rt, msg.wsId, msg.pageNum);
    OpenFrame(RM.StopDevtools(rt, msg.pageNum), msg.wsId, msg.pageNum);
  }

  lemma HandleFrame(rt: RM.Runtime, e: RM.Event)
    ensures var r := RM.Handle(rt, e);
      && SameDevice(rt, r)
      && (!e.Rpc? ==> r.connected == rt.connected)
  {
    match e
    case Rpc(msg) => HandleRpcFrame(rt, msg);
    case Ws(msg) => HandleWsFrame(rt, msg);
    case Reg(reg) =>
  }

  lemma TableKeyed(devices: map<string, RM.Runtime>, id: string, e: RM.Event)
    requires Keyed(devices) && id in devices
    ensures Keyed(devices[id := RM.Handle(devices[id], e)])
  {
    RI.HandleCoherent(devices[id], e);
    HandleFrame(devices[id], e);
  }

  lemma TablePorts(cfg: Config, px: Proxy, id: string, e: RM.Event)
    requires PortsAllocated(cfg, px.devices)
    ensures PortsAllocated(cfg, Table(px, id, e))
    ensures id in px.devices ==> RM.Info(Table(px, id, e)[id]) == RM.Info(px.devices[id])
  {
    if id in px.devices {
      HandleFrame(px.devices[id], e);
    }
  }

  lemma TableSound(cfg: Config, px: Proxy, id: string, e: RM.Event)
    requires Keyed(px.devices) && PortsAllocated(cfg, px.devices)
    ensures var devices := Table(px, id, e);
      && Keyed(devices) && PortsAllocated(cfg, devices)
      && (id in px.devices ==> RM.Info(devices[id]) == RM.Info(px.devices[id]))
  {
    TablePorts(cfg, px, id, e);
    if id in px.devices {
      TableKeyed(px.devices, id, e);
    }
  }

  /** The list depends on the table only through who is connected and how each is described. */
  lemma SameList(devices: map<string, RM.Runtime>, after: map<string, RM.Runtime>)
    requires after.Keys == devices.Keys
    requires forall id | id in devices ::
      RM.Info(after[id]) == RM.Info(devices[id]) && after[id].connected == devices[id].connected &&
      after[id].deviceId == devices[id].deviceId
    ensures ListOf(after) == ListOf(devices)
  {
    assert (set id | id in after && after[id].connected && after[id].deviceId.Some? :: RM.Info(after[id])) ==
           (set id | id in devices && devices[id].connected && devices[id].deviceId.Some? :: RM.Info(devices[id]));
  }

  lemma HandleRpcUp(cfg: Config, px: Proxy, id: string, msg: RpcMessage)
    ensures var r := HandleRpc(cfg, px, id, msg);
      && (forall other | other != id :: IsUp(r, other) <==> IsUp(px, other))
      && (IsUp(r, id) <==>
            (IsUp(px, id) || (id in px.devices && (msg.ReportSetup? || msg.ReportConnectedApplicationList?))))
  {
    if id in px.devices {
      HandleRpcFrame(px.devices[id], msg);
    }
  }

  lemma HandleRpcNotes(cfg: Config, px: Proxy, id: string, msg: RpcMessage)
    requires NotesAgree(cfg, px) && Keyed(px.devices)
    ensures NotesAgree(cfg, HandleRpc(cfg, px, id, msg))
  {
    var r := HandleRpc(cfg, px, id, msg);
    HandleRpcUp(cfg, px, id, msg);
    if id !in px.devices {
      SilentKeeps(cfg, px, r);
    } else if msg.ReportSetup? || (msg.ReportConnectedApplicationList? && !px.devices[id].connected) {
      NoteKeeps(cfg, px, r, Connected(RM.Info(px.devices[id])), id);
    } else if msg.ApplicationDisconnected? || msg.ApplicationSentListing? {
      NoteKeeps(cfg, px, r, PagesChanged(RM.Info(px.devices[id]), Notices(r.devices[id].pages)), id);
    } else {
      SilentKeeps(cfg, px, r);
    }
  }

  lemma SameListAt(px: Proxy, id: string, msg: RpcMessage)
    requires id in px.devices ==> px.devices[id].connected || !(msg.ReportSetup? || msg.ReportConnectedApplicationList?)
    ensures ListOf(Table(px, id, RM.Rpc(msg))) == ListOf(px.devices)
  {
    if id in px.devices { HandleRpcFrame(px.devices[id], msg); }
    SameList(px.devices, Table(px, id, RM.Rpc(msg)));
  }

  lemma HandleRpcList(cfg: Config, px: Proxy, id: string, msg: RpcMessage)
    requires px.deviceList == ListOf(px.devices)
    ensures HandleRpc(cfg, px, id, msg).deviceList == ListOf(HandleRpc(cfg, px, id, msg).devices)
  {
    if id in px.devices && !msg.ReportSetup? && (msg.ReportConnectedApplicationList? ==> px.devices[id].connected) {
      SameListAt(px, id, msg);
    }
  }

  lemma HandleRpcSound(cfg: Config, px: Proxy, id: string, msg: RpcMessage)
    requires Sound(cfg, px)
    ensures Sound(cfg, HandleRpc(cfg, px, id, msg))
  {
    TableSound(cfg, px, id, RM.Rpc(msg));
    HandleRpcNotes(cfg, px, id, msg);
    HandleRpcList(cfg, px, id, msg);
  }

  lemma ClientNotes(cfg: Config, px: Proxy, id: string, e: RM.Event)
    requires NotesAgree(cfg, px) && (e.Ws? || e.Reg?)
    ensures NotesAgree(cfg, px.(devices := Table(px, id, e)))
    ensures ListOf(Table(px, id, e)) == ListOf(px.devices)
  {
    if id in px.devices { HandleFrame(px.devices[id], e); }
    SameList(px.devices, Table(px, id, e));
    SilentKeeps(cfg, px, px.(devices := Table(px, id, e)));
  }

  lemma ClientSound(cfg: Config, px: Proxy, id: string, e: RM.Event)
    requires Sound(cfg, px) && (e.Ws? || e.Reg?)
    ensures Sound(cfg, px.(devices := Table(px, id, e)))
  {
    TableSound(cfg, px, id, e);
    ClientNotes(cfg, px, id, e);
  }

  lemma StepSound(cfg: Config, px: Proxy, ev: Event)
    requires Sound(cfg, px)
    ensures Sound(cfg, Step(cfg, px, ev))
  {
    match ev
    case Attached(id, attempt) => ConnectDeviceSound(cfg, px, id, attempt);
    case Detached(id) => DisconnectDeviceSound(cfg, px, id);
    case FromDevice(id, msg) => HandleRpcSound(cfg, px, id, msg);
    case FromClient(id, ws) => ClientSound(cfg, px, id, RM.Ws(ws));
    case Registering(id, reg) => ClientSound(cfg, px, id, RM.Reg(reg));
  }

  lemma {:induction false} RunSound(cfg: Config, px: Proxy, evs: seq<Event>)
    requires Sound(cfg, px)
    ensures Sound(cfg, Run(cfg, px, evs))
    decreases |evs|
  {
    if evs != [] {
      RunSound(cfg, px, evs[..|evs| - 1]);
      StepSound(cfg, Run(cfg, px, evs[..|evs| - 1]), evs[|evs| - 1]);
    }
  }

  lemma StartSound(cfg: Config)
    ensures Sound(cfg, START)
  {
    assert ListOf(START.devices) == multiset{};
    forall id ensures Calls(START.notes, id) == [] {}
  }
}
