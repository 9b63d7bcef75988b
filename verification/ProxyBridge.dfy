// The proxy core as it runs: one table of devices, the published device list, one event at a time.

module ProxyBridges {
  import opened Wrappers
  import opened Rpc
  import opened DeviceRuntimes
  import opened ProxyModel
  import RM = RuntimeModel
  import PX = ProxyInvariants
  import PR = ProxyRuns

  // ---------------------------------------------------------------------------
  // Building the device list one device at a time
  // ---------------------------------------------------------------------------

  predicate Named(table: map<string, RM.Runtime>) {
    forall id | id in table :: table[id].deviceId == Some(id)
  }

  /** How often a description is listed when the devices in `ids` are. */
  function Times(table: map<string, RM.Runtime>, ids: set<string>, info: DeviceInfo): nat {
    if info.deviceId in ids && info.deviceId in table && table[info.deviceId].connected && RM.Info(table[info.deviceId]) == info
    then 1 else 0
  }

  ghost predicate ListsExactly(list: seq<DeviceInfo>, table: map<string, RM.Runtime>, ids: set<string>) {
    forall info :: multiset(list)[info] == Times(table, ids, info)
  }

  function Extended(list: seq<DeviceInfo>, rt: RM.Runtime): seq<DeviceInfo> {
    if rt.connected && rt.deviceId.Some? then list + [RM.Info(rt)] else list
  }

  lemma ListsOneMore(list: seq<DeviceInfo>, table: map<string, RM.Runtime>, ids: set<string>, id: string)
    requires Named(table) && id in table && id !in ids
    requires ListsExactly(list, table, ids)
    ensures ListsExactly(Extended(list, table[id]), table, ids + {id})
  {
    assert RM.Info(table[id]).deviceId == id;
  }

  lemma DoneWith(all: set<string>, todo: set<string>, id: string)
    requires todo <= all && id in todo
    ensures todo - {id} <= all && all - (todo - {id}) == (all - todo) + {id}
  {
  }

  lemma ListsAll(list: seq<DeviceInfo>, table: map<string, RM.Runtime>)
    requires Named(table) && ListsExactly(list, table, table.Keys)
    ensures multiset(list) == ListOf(table)
  {
    var shown := set id | id in table && table[id].connected && table[id].deviceId.Some? :: RM.Info(table[id]);
    forall info ensures multiset(list)[info] == multiset(shown)[info] {
      assert info in shown <==> Times(table, table.Keys, info) == 1;
    }
  }

  lemma CleanUpStep(cfg: Config, px: Proxy, order: seq<string>, id: string)
    ensures Shutdown(cfg, px, order + [id]) == ProxyModel.DisconnectDevice(cfg, Shutdown(cfg, px, order), id)
  {
    assert (order + [id])[..|order + [id]| - 1] == order;
  }

  /** Every device is either disconnected already or still to be. */
  predicate Covered(px: Proxy, order: seq<string>, todo: set<string>) {
    forall id | id in px.devices :: id in order || id in todo
  }

  lemma CoveredStep(px: Proxy, order: seq<string>, todo: set<string>, id: string)
    requires Covered(px, order, todo)
    ensures Covered(px, order + [id], todo - {id})
  {
  }

  lemma Disconnects(cfg: Config, px: Proxy, taken: Proxy, r: Proxy, id: string)
    requires taken == Without(cfg, px, id) && r == UpdateList(taken)
    ensures r == ProxyModel.DisconnectDevice(cfg, px, id)
  {
  }

  lemma KeyedWithFresh(table: map<string, RM.Runtime>, id: string, port: nat, name: string, osVersion: nat)
    requires PX.Keyed(table)
    ensures PX.Keyed(table[id := RM.Fresh(port, id, name, osVersion)])
  {
  }

  class ProxyBridge {
    const cfg: Config
    var devices: map<string, DeviceRuntime>
    /** The list shared with the list page, behind a lock. */
    var deviceList: seq<DeviceInfo>
    /** The calls made to the device listener. */
    var notes: seq<Note>
    /** What the devices stand for. */
    ghost var table: map<string, RM.Runtime>

    ghost function Model(): Proxy
      reads this
    {
      Proxy(table, multiset(deviceList), notes)
    }

    ghost function Objects(): set<object>
      reads this
    {
      set id | id in devices :: devices[id]
    }

    /** The devices share nothing. */
    ghost predicate Separate()
      reads this
    {
      forall a, b | a in devices && b in devices && a != b :: devices[a] != devices[b]
    }

    /** The table says what each device is. */
    ghost predicate Linked()
      reads this, Objects()
    {
      && table.Keys == devices.Keys
      && (forall id | id in devices :: devices[id].Model() == table[id])
      && Separate()
    }

    ghost predicate Valid()
      reads this, Objects()
    {
      Linked() && PX.Keyed(table)
    }

    constructor (cfg: Config)
      ensures Valid() && devices == map[]
      ensures this.cfg == cfg && Model() == START
    {
      this.cfg := cfg;
      devices, table := map[], map[];
      deviceList, notes := [], [];
    }

    // -------------------------------------------------------------------------
    // The device list
    // -------------------------------------------------------------------------

    static function Describe(d: DeviceRuntime): (info: DeviceInfo)
      reads d
      ensures info == RM.Info(d.Model())
    {
      DeviceInfo(
        if d.deviceId.Some? then d.deviceId.value else "",
        if d.deviceName.Some? then d.deviceName.value else "",
        d.osVersion,
        d.port)
    }

    static function Append(list: seq<DeviceInfo>, d: DeviceRuntime): (longer: seq<DeviceInfo>)
      reads d
      ensures longer == Extended(list, d.Model())
    {
      if d.connected && d.deviceId.Some? then list + [Describe(d)] else list
    }

    /** Walks a table in whatever order it yields its devices. */
    static method CollectInfos(devices: map<string, DeviceRuntime>, ghost table: map<string, RM.Runtime>)
      returns (list: seq<DeviceInfo>)
      requires table.Keys == devices.Keys && forall id | id in devices :: devices[id].Model() == table[id]
      requires Named(table)
      ensures multiset(list) == ListOf(table)
    {
      ghost var done: set<string> := {};
      list := [];
      var todo := devices.Keys;
      while todo != {}
        invariant todo <= table.Keys && done == table.Keys - todo
        invariant ListsExactly(list, table, done)
        decreases |todo|
      {
        var id :| id in todo;
        ListsOneMore(list, table, done, id);
        list := Append(list, devices[id]);
        DoneWith(table.Keys, todo, id);
        todo, done := todo - {id}, done + {id};
      }
      ListsAll(list, table);
    }

    method UpdateDeviceList()
      requires Valid()
      modifies this`deviceList
      ensures Valid()
      ensures Model() == UpdateList(old(Model()))
    {
      var list := CollectInfos(devices, table);
      deviceList := list;
    }

    method Notify(note: Note)
      requires Valid()
      modifies this`notes
      ensures Valid()
      ensures Model() == Note1(cfg, old(Model()), note)
    {
      if cfg.hasListener {
        notes := notes + [note];
      }
    }

    // -------------------------------------------------------------------------
    // Attaching and detaching
    // -------------------------------------------------------------------------

    /** Walks a range up to the first number not in use. */
    static method FirstUnused(range: PortRange, used: set<nat>) returns (found: Option<nat>)
      ensures found == FirstFree(range.first, range.end, used)
    {
      found := None;
      var p := range.first;
      while p < range.end
        invariant FirstFree(range.first, range.end, used) == FirstFree(p, range.end, used)
      {
        if p !in used {
          found := Some(p);
          return;
        }
        p := p + 1;
      }
    }

    method FindPort(range: PortRange) returns (found: Option<nat>)
      requires Valid()
      ensures found == FirstFree(range.first, range.end, UsedPorts(table))
    {
      var used := set id | id in devices :: devices[id].port;
      assert used == UsedPorts(table) by {
        assert forall id | id in devices :: table[id].port == devices[id].port;
      }
      found := FirstUnused(range, used);
    }

    method AllocatePort(attempt: Attempt) returns (port: Option<nat>)
      requires Valid()
      ensures port == ChoosePort(cfg, Model(), attempt)
    {
      if cfg.devicePorts.Some? {
        port := FindPort(cfg.devicePorts.value);
        if !attempt.bound {
          port := None;
        }
      } else if attempt.bound && attempt.autoPort != 0 {
        port := Some(attempt.autoPort);
      } else {
        port := None;
      }
    }

    method Insert(id: string, d: DeviceRuntime)
      requires Linked() && id !in devices && d !in Objects()
      modifies this`devices, this`table
      ensures Linked() && devices == old(devices)[id := d] && table == old(table)[id := d.Model()]
      ensures Objects() <= old(Objects()) + {d}
    {
      assert forall other | other in devices :: devices[other] in Objects();
      devices := devices[id := d];
      table := table[id := d.Model()];
    }

    static method Create(id: string, port: nat, name: string, osVersion: nat) returns (d: DeviceRuntime)
      ensures fresh(d) && d.Model() == RM.Fresh(port, id, name, osVersion)
    {
      d := new DeviceRuntime(port, id, name, osVersion);
    }

    method Attach(id: string, port: nat, name: string, osVersion: nat)
      requires Valid() && id !in devices
      modifies this`devices, this`table
      ensures Valid() && fresh(Objects() - old(Objects()))
      ensures table == old(table)[id := RM.Fresh(port, id, name, osVersion)]
    {
      KeyedWithFresh(table, id, port, name, osVersion);
      var d := Create(id, port, name, osVersion);
      Insert(id, d);
    }

    method ConnectDevice(id: string, attempt: Attempt)
      requires Valid()
      modifies this
      ensures Valid() && fresh(Objects() - old(Objects()))
      ensures Model() == ProxyModel.ConnectDevice(cfg, old(Model()), id, attempt)
    {
      if id in devices {
        return;
      }
      var port := AllocatePort(attempt);
      if port.None? || !attempt.reached {
        return;
      }
      var isSim := id == SIMULATOR;
      Attach(id, port.value, if isSim then SIMULATOR else attempt.deviceName, if isSim then 0 else attempt.osVersion);
      UpdateDeviceList();
    }

    method Remove(id: string)
      requires Valid()
      modifies this`devices, this`table
      ensures Valid() && devices == old(devices) - {id} && table == old(table) - {id}
    {
      devices := devices - {id};
      table := table - {id};
    }

    /** Takes a device out of the table, if it is there, and tells the listener if it was connected. */
    method Detach(id: string)
      requires Valid()
      modifies this`devices, this`table, this`notes
      ensures Valid() && devices == old(devices) - {id}
      ensures Model() == Without(cfg, old(Model()), id)
    {
      if id in devices {
        var connected, info := devices[id].connected, Describe(devices[id]);
        assert connected == table[id].connected && info == RM.Info(table[id]);
        Remove(id);
        if connected {
          Notify(Disconnected(info));
        }
      }
    }

    method DisconnectDevice(id: string)
      requires Valid()
      modifies this
      ensures Valid() && devices == old(devices) - {id}
      ensures Model() == ProxyModel.DisconnectDevice(cfg, old(Model()), id)
    {
      ghost var start := Model();
      Detach(id);
      ghost var taken := Model();
      UpdateDeviceList();
      Disconnects(cfg, start, taken, Model(), id);
    }

    // -------------------------------------------------------------------------
    // Messages
    // -------------------------------------------------------------------------

    /** Only the device under `id` may have changed. */
    ghost predicate OthersAgree(id: string)
      reads this, Objects()
    {
      && table.Keys == devices.Keys && Separate()
      && (forall other | other in devices && other != id :: devices[other].Model() == table[other])
    }

    method Refresh(id: string)
      requires id in devices && OthersAgree(id)
      modifies this`table
      ensures Linked() && table == old(table)[id := devices[id].Model()]
    {
      ghost var rt := devices[id].Model();
      table := table[id := rt];
      forall other | other in devices ensures devices[other].Model() == table[other] {
        if other == id {
          assert devices[id].Model() == rt;
        }
      }
    }

    method DeliverTo(id: string, e: RM.Event)
      requires Valid() && id in devices
      modifies this`table, devices[id]
      ensures Valid()
      ensures table == old(table)[id := RM.Handle(old(table)[id], e)]
    {
      PX.TableKeyed(table, id, e);
      var d := devices[id];
      d.HandleEvent(e);
      assert OthersAgree(id) by {
        assert forall other | other in devices && other != id :: devices[other] != d;
      }
      Refresh(id);
    }

    /** Hands one event to the device it is for, if that device is attached. */
    method ToDevice(id: string, e: RM.Event)
      requires Valid()
      modifies this`table, Objects()
      ensures Valid()
      ensures Model() == old(Model()).(devices := ProxyModel.Table(old(Model()), id, e))
    {
      if id in devices {
        DeliverTo(id, e);
      }
    }

    /** What follows a device's message once its runtime has been updated. */
    method Publish(id: string, msg: RpcMessage, newlyConnected: bool, info: DeviceInfo)
      requires Valid() && id in devices
      modifies this`deviceList, this`notes
      ensures Valid()
      ensures Model() == Published(cfg, old(Model()), id, msg, newlyConnected, info)
    {
      match msg
      case ReportSetup =>
        UpdateDeviceList();
        Notify(Connected(info));
      case ReportConnectedApplicationList(_) =>
        if newlyConnected {
          UpdateDeviceList();
          Notify(Connected(info));
        }
      case ApplicationDisconnected(_) =>
        assert devices[id].pages == table[id].pages;
        Notify(PagesChanged(info, Notices(devices[id].pages)));
      case ApplicationSentListing(_, _) =>
        assert devices[id].pages == table[id].pages;
        Notify(PagesChanged(info, Notices(devices[id].pages)));
      case _ =>
    }

    method HandleKnown(id: string, msg: RpcMessage)
      requires Valid() && id in devices
      modifies this`table, this`deviceList, this`notes, Objects()
      ensures Valid()
      ensures Model() == ProxyModel.HandleRpc(cfg, old(Model()), id, msg)
    {
      ghost var before := Model();
      var newly, info := !devices[id].connected, Describe(devices[id]);
      assert newly == !before.devices[id].connected && info == RM.Info(before.devices[id]);
      ToDevice(id, RM.Rpc(msg));
      Publish(id, msg, newly, info);
    }

    method HandleRpcMessage(id: string, msg: RpcMessage)
      requires Valid()
      modifies this`table, this`deviceList, this`notes, Objects()
      ensures Valid()
      ensures Model() == ProxyModel.HandleRpc(cfg, old(Model()), id, msg)
    {
      if id in devices {
        HandleKnown(id, msg);
      } else if msg.ReportSetup? {
        UpdateDeviceList();
      }
    }

    // -------------------------------------------------------------------------
    // The event loop
    // -------------------------------------------------------------------------

    method HandleEvent(ev: Event)
      requires Valid()
      modifies this, Objects()
      ensures Valid() && fresh(Objects() - old(Objects()))
      ensures Model() == Step(cfg, old(Model()), ev)
    {
      match ev
      case Attached(id, attempt) => ConnectDevice(id, attempt);
      case Detached(id) => DisconnectDevice(id);
      case FromDevice(id, msg) => HandleRpcMessage(id, msg);
      case FromClient(id, ws) => ToDevice(id, RM.Ws(ws));
      case Registering(id, reg) => ToDevice(id, RM.Reg(reg));
    }

    method HandleAll(evs: seq<Event>)
      requires Valid() && devices == map[]
      modifies this
      ensures Valid()
      ensures Model() == ProxyModel.Run(cfg, old(Model()), evs)
    {
      ghost var start := Model();
      for i := 0 to |evs|
        invariant Valid() && fresh(Objects())
        invariant Model() == ProxyModel.Run(cfg, start, evs[..i])
      {
        assert evs[..i + 1][..|evs[..i + 1]| - 1] == evs[..i];
        HandleEvent(evs[i]);
      }
      assert evs[..|evs|] == evs;
    }

    /** Disconnects one more device; `order` names those disconnected since the state was `start`. */
    method DisconnectNext(ghost start: Proxy, ghost order: seq<string>, id: string)
      requires Valid() && Model() == Shutdown(cfg, start, order)
      modifies this
      ensures Valid() && Model() == Shutdown(cfg, start, order + [id])
    {
      CleanUpStep(cfg, start, order, id);
      DisconnectDevice(id);
    }

    /** Disconnects every device, in whatever order the table yields their names. */
    method CleanUp() returns (ghost order: seq<string>)
      requires Valid()
      modifies this
      ensures Valid() && PR.Enumerates(order, old(Model()))
      ensures Model() == Shutdown(cfg, old(Model()), order)
    {
      ghost var start := Model();
      order := [];
      var todo := devices.Keys;
      while todo != {}
        invariant Valid()
        invariant Model() == Shutdown(cfg, start, order)
        invariant Covered(start, order, todo)
        decreases todo
      {
        var id :| id in todo;
        CoveredStep(start, order, todo, id);
        todo := todo - {id};
        DisconnectNext(start, order, id);
        order := order + [id];
      }
    }

    /**
     * The whole life of the proxy: the simulator is tried first, the events are handled in the
     * order in which the loop happens to pick them, and the table is emptied at the end.
     */
    method Run(simulator: Attempt, evs: seq<Event>) returns (ghost order: seq<string>)
      requires Valid() && devices == map[] && Model() == START
      modifies this
      ensures Valid() && devices == map[] && deviceList == []
      ensures PR.Enumerates(order, ProxyModel.Run(cfg, START, [Attached(SIMULATOR, simulator)] + evs))
      ensures Model() == Shutdown(cfg, ProxyModel.Run(cfg, START, [Attached(SIMULATOR, simulator)] + evs), order)
    {
      HandleAll([Attached(SIMULATOR, simulator)] + evs);
      order := CleanUp();
      PR.ShutdownLeavesNothing(cfg, [Attached(SIMULATOR, simulator)] + evs, order);
      assert |multiset(deviceList)| == 0;
    }
  }
}
