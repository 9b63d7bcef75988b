// The main results about the proxy as a whole: every reachable state, every order of events.

module ProxyRuns {
  import opened Wrappers
  import opened Rpc
  import RM = RuntimeModel
  import RI = RuntimeInvariants
  import PI = PageIdentity
  import PC = PageCache
  import S = Sessions
  import SL = SessionLimits
  import opened ProxyModel
  import opened ProxyInvariants

  /** The invariant holds after any events whatsoever. */
  lemma ReachableSound(cfg: Config, evs: seq<Event>)
    ensures Sound(cfg, Run(cfg, START, evs))
  {
    StartSound(cfg);
    RunSound(cfg, START, evs);
  }

  // ---------------------------------------------------------------------------
  // Ports
  // ---------------------------------------------------------------------------

  /** With a configured range the ports of the attached devices are in it and differ. */
  lemma PortsInRangeAndDistinct(cfg: Config, evs: seq<Event>, id: string, other: string)
    requires cfg.devicePorts.Some?
    requires id in Run(cfg, START, evs).devices && other in Run(cfg, START, evs).devices
    ensures var px := Run(cfg, START, evs);
      && cfg.devicePorts.value.first <= px.devices[id].port < cfg.devicePorts.value.end
      && (px.devices[id].port == px.devices[other].port ==> id == other)
  {
    ReachableSound(cfg, evs);
  }

  lemma AttachToRange(cfg: Config, px: Proxy, range: PortRange, id: string, attempt: Attempt)
    requires cfg.devicePorts == Some(range) && PortsAllocated(Config(Some(range), false), px.devices)
    requires id !in px.devices && attempt.bound && attempt.reached
    ensures var r := ConnectDevice(cfg, px, id, attempt);
      && (id in r.devices <==> |px.devices| < Length(range))
      && (id in r.devices ==>
            FirstFree(range.first, range.end, UsedPorts(px.devices)) == Some(r.devices[id].port))
  {
    FullIff(px.devices, range);
  }

  /**
   * A new device that answers is attached exactly when fewer devices are attached than ports are
   * configured, and then it gets the least port of the range that no device uses.
   */
  lemma AttachOutcome(cfg: Config, evs: seq<Event>, id: string, attempt: Attempt)
    requires cfg.devicePorts.Some? && id !in Run(cfg, START, evs).devices
    requires attempt.bound && attempt.reached
    ensures var px, range := Run(cfg, START, evs), cfg.devicePorts.value;
      var r := Step(cfg, px, Attached(id, attempt));
      && (id in r.devices <==> |px.devices| < Length(range))
      && (id in r.devices ==>
            var port := r.devices[id].port;
            && range.first <= port < range.end && port !in UsedPorts(px.devices)
            && forall k | range.first <= k < port :: k in UsedPorts(px.devices))
  {
    var px, range := Run(cfg, START, evs), cfg.devicePorts.value;
    ReachableSound(cfg, evs);
    AttachToRange(cfg, px, range, id, attempt);
    FirstFreeIsLeast(range.first, range.end, UsedPorts(px.devices));
  }

  // ---------------------------------------------------------------------------
  // Published state
  // ---------------------------------------------------------------------------

  /** The description is that of the device `id`: its id, its name, its version and its port. */
  predicate Describes(info: DeviceInfo, id: string, rt: RM.Runtime) {
    && info.deviceId == id && rt.deviceName == Some(info.deviceName)
    && info.osVersion == rt.osVersion && info.port == rt.port
  }

  lemma InfoDescribes(devices: map<string, RM.Runtime>, id: string, info: DeviceInfo)
    requires Keyed(devices) && id in devices
    ensures info == RM.Info(devices[id]) <==> Describes(info, id, devices[id])
  {
  }

  /** A description is in the device list once if it is a connected device's, and otherwise not at all. */
  lemma DeviceListExact(cfg: Config, evs: seq<Event>, info: DeviceInfo)
    ensures var px := Run(cfg, START, evs);
      px.deviceList[info] ==
        if info.deviceId in px.devices && px.devices[info.deviceId].connected &&
           Describes(info, info.deviceId, px.devices[info.deviceId])
        then 1 else 0
  {
    ReachableSound(cfg, evs);
    var px := Run(cfg, START, evs);
    var shown := set id | id in px.devices && px.devices[id].connected && px.devices[id].deviceId.Some? :: RM.Info(px.devices[id]);
    assert info in shown <==>
      exists id :: id in px.devices && px.devices[id].connected && px.devices[id].deviceId.Some? && RM.Info(px.devices[id]) == info;
    assert px.deviceList[info] == multiset(shown)[info];
    if info.deviceId in px.devices {
      InfoDescribes(px.devices, info.deviceId, info);
    }
  }

  /**
   * For every attached device the shared flag is the runtime's flag, and the shared page list is
   * strictly sorted and agrees with the pages, so the upgrade check accepts the live pages only.
   */
  lemma SharedStateAgrees(cfg: Config, evs: seq<Event>, id: string, n: nat)
    requires id in Run(cfg, START, evs).devices
    ensures var rt := Run(cfg, START, evs).devices[id];
      && rt.shared.connected == rt.connected
      && rt.deviceId == Some(id)
      && RI.CacheAgrees(rt.shared.pages, rt.pages)
      && (RI.Shows(rt.shared.pages, n) <==> n in rt.pages)
  {
    ReachableSound(cfg, evs);
    RI.UpgradeCheckExact(Run(cfg, START, evs).devices[id], n);
  }

  // ---------------------------------------------------------------------------
  // Notifications and shutdown
  // ---------------------------------------------------------------------------

  /** The calls for one device form a prefix of (Up+ Down)*, open exactly while it is connected. */
  lemma NotificationLanguage(cfg: Config, evs: seq<Event>, id: string)
    ensures var px := Run(cfg, START, evs);
      Rounds(Calls(px.notes, id)) && (EndsUp(Calls(px.notes, id)) <==> cfg.hasListener && IsUp(px, id))
  {
    ReachableSound(cfg, evs);
  }

  predicate Enumerates(order: seq<string>, px: Proxy) {
    forall id | id in px.devices :: id in order
  }

  lemma {:induction false} ShutdownSound(cfg: Config, px: Proxy, order: seq<string>)
    requires Sound(cfg, px)
    ensures Sound(cfg, Shutdown(cfg, px, order))
    decreases |order|
  {
    if order != [] {
      ShutdownSound(cfg, px, order[..|order| - 1]);
      DisconnectDeviceSound(cfg, Shutdown(cfg, px, order[..|order| - 1]), order[|order| - 1]);
    }
  }

  lemma {:induction false} ShutdownRemoves(cfg: Config, px: Proxy, order: seq<string>, id: string)
    ensures id in Shutdown(cfg, px, order).devices <==> id in px.devices && id !in order
    decreases |order|
  {
    if order != [] {
      var front, last := order[..|order| - 1], order[|order| - 1];
      ShutdownRemoves(cfg, px, front, id);
      assert order == front + [last];
    }
  }

  /**
   * After the clean-up, whatever the order in which the table is walked, no device and no list
   * entry is left, and every device reported up has been reported down.
   */
  lemma ShutdownLeavesNothing(cfg: Config, evs: seq<Event>, order: seq<string>)
    requires Enumerates(order, Run(cfg, START, evs))
    ensures var r := Shutdown(cfg, Run(cfg, START, evs), order);
      && r.devices == map[] && r.deviceList == multiset{}
      && forall id :: Rounds(Calls(r.notes, id)) && !EndsUp(Calls(r.notes, id))
  {
    var px := Run(cfg, START, evs);
    ReachableSound(cfg, evs);
    ShutdownSound(cfg, px, order);
    var r := Shutdown(cfg, px, order);
    forall id ensures id !in r.devices { ShutdownRemoves(cfg, px, order, id); }
    assert r.devices == map[];
    assert ListOf(r.devices) == multiset{};
  }

  // ---------------------------------------------------------------------------
  // What happens to one device, seen from inside the whole
  // ---------------------------------------------------------------------------

  /** The state in which the device of `rt` entered the table. */
  function Origin(rt: RM.Runtime): RM.Runtime
    requires rt.deviceId.Some? && rt.deviceName.Some?
  {
    RM.Fresh(rt.port, rt.deviceId.value, rt.deviceName.value, rt.osVersion)
  }

  /** The event the device `id` is given when the loop handles `ev`, if any. */
  function EventFor(ev: Event, id: string): Option<RM.Event> {
    match ev
    case FromDevice(d, msg) => if d == id then Some(RM.Rpc(msg)) else None
    case FromClient(d, ws) => if d == id then Some(RM.Ws(ws)) else None
    case Registering(d, reg) => if d == id then Some(RM.Reg(reg)) else None
    case _ => None
  }

  /** What device `id` has been given since it was last attached. */
  ghost function History(cfg: Config, evs: seq<Event>, id: string): seq<RM.Event>
    decreases |evs|
  {
    if evs == [] then []
    else
      var before, ev := evs[..|evs| - 1], evs[|evs| - 1];
      if id !in Run(cfg, START, before).devices then []
      else if EventFor(ev, id).Some? then History(cfg, before, id) + [EventFor(ev, id).value]
      else History(cfg, before, id)
  }

  ghost predicate NeverWraps(cfg: Config, evs: seq<Event>)
    decreases |evs|
  {
    evs == [] ||
    var before, ev := evs[..|evs| - 1], evs[|evs| - 1];
    && NeverWraps(cfg, before)
    && (ev.FromDevice? && ev.id in Run(cfg, START, before).devices ==>
          PI.Fits(Run(cfg, START, before).devices[ev.id], RM.Rpc(ev.msg)))
  }

  lemma TableAt(px: Proxy, d: string, e: RM.Event, id: string)
    requires id in px.devices
    ensures Table(px, d, e).Keys == px.devices.Keys
    ensures Table(px, d, e)[id] == if d == id then RM.Handle(px.devices[id], e) else px.devices[id]
  {
  }

  lemma MessageTable(cfg: Config, px: Proxy, d: string, msg: RpcMessage)
    ensures HandleRpc(cfg, px, d, msg).devices == Table(px, d, RM.Rpc(msg))
  {
  }

  lemma StepDevice(cfg: Config, px: Proxy, ev: Event, id: string)
    requires Keyed(px.devices) && id in Step(cfg, px, ev).devices
    ensures id in px.devices ==>
      Step(cfg, px, ev).devices[id] ==
        if EventFor(ev, id).Some? then RM.Handle(px.devices[id], EventFor(ev, id).value) else px.devices[id]
    ensures id !in px.devices ==>
      var rt := Step(cfg, px, ev).devices[id];
      rt.deviceId.Some? && rt.deviceName.Some? && rt == Origin(rt)
  {
    match ev
    case FromDevice(d, msg) =>
      MessageTable(cfg, px, d, msg);
      if id in px.devices { TableAt(px, d, RM.Rpc(msg), id); }
    case FromClient(d, ws) => if id in px.devices { TableAt(px, d, RM.Ws(ws), id); }
    case Registering(d, reg) => if id in px.devices { TableAt(px, d, RM.Reg(reg), id); }
    case _ =>
  }

  lemma RunAppendOne(rt: RM.Runtime, es: seq<RM.Event>, e: RM.Event)
    ensures RM.Run(rt, es + [e]) == RM.Handle(RM.Run(rt, es), e)
    ensures PI.NeverWraps(rt, es + [e]) <==> PI.NeverWraps(rt, es) && PI.Fits(RM.Run(rt, es), e)
  {
    assert (es + [e])[..|es + [e]| - 1] == es;
  }

  /**
   * Every attached device is exactly what its own events since its attachment make of a fresh
   * one: no other device, and no earlier attachment under the same name, leaves a trace in it.
   */
  lemma {:induction false} DeviceIsItsOwnRun(cfg: Config, evs: seq<Event>, id: string)
    requires id in Run(cfg, START, evs).devices
    ensures var rt := Run(cfg, START, evs).devices[id];
      && rt.deviceId.Some? && rt.deviceName.Some?
      && rt == RM.Run(Origin(rt), History(cfg, evs, id))
      && (NeverWraps(cfg, evs) ==> PI.NeverWraps(Origin(rt), History(cfg, evs, id)))
    decreases |evs|
  {
    if evs != [] {
      var before, ev := evs[..|evs| - 1], evs[|evs| - 1];
      var px := Run(cfg, START, before);
      ReachableSound(cfg, before);
      StepDevice(cfg, px, ev, id);
      if id in px.devices {
        DeviceIsItsOwnRun(cfg, before, id);
        if EventFor(ev, id).Some? {
          HandleFrame(px.devices[id], EventFor(ev, id).value);
          RunAppendOne(Origin(px.devices[id]), History(cfg, before, id), EventFor(ev, id).value);
        }
      }
    }
  }

  /**
   * For every attached device in every reachable state of the proxy, counter overflow or not: since
   * its attachment its log has kept to the protocol and agreed with the live pages after each of
   * its events if and only if none issued a page number on which a sender was still open.
   */
  lemma EveryDeviceInOrderIff(cfg: Config, evs: seq<Event>, id: string)
    requires id in Run(cfg, START, evs).devices
    ensures var rt, es := Run(cfg, START, evs).devices[id], History(cfg, evs, id);
      && rt.deviceId.Some? && rt.deviceName.Some?
      && (SL.AlwaysInOrder(Origin(rt), es) <==> SL.SafeRun(Origin(rt), es))
      && (SL.SafeRun(Origin(rt), es) ==>
            && S.Legal(rt.sent)
            && forall n | n in rt.pages :: S.Open(rt.sent, n) == rt.pages[n].senderId == rt.pages[n].wsClientId)
  {
    DeviceIsItsOwnRun(cfg, evs, id);
    var rt, es := Run(cfg, START, evs).devices[id], History(cfg, evs, id);
    SL.SessionProtocolIff(rt.port, rt.deviceId.value, rt.deviceName.value, rt.osVersion, es);
    if SL.SafeRun(Origin(rt), es) {
      assert SL.InOrder(RM.Run(Origin(rt), es));
    }
  }

  /**
   * While no page counter has overflowed the whole protocol holds for every attached device, and
   * every message about a page names the page its number was issued for.
   */
  lemma EveryDeviceKeepsProtocol(cfg: Config, evs: seq<Event>, id: string)
    requires NeverWraps(cfg, evs) && id in Run(cfg, START, evs).devices
    ensures var rt := Run(cfg, START, evs).devices[id];
      && S.Legal(rt.sent)
      && S.TargetsFixed(rt.sent)
      && (forall i | 0 <= i < |rt.sent| :: S.Names(rt.sent[i], rt))
      && forall n | n in rt.pages :: S.Open(rt.sent, n) == rt.pages[n].senderId == rt.pages[n].wsClientId
  {
    DeviceIsItsOwnRun(cfg, evs, id);
    var rt := Run(cfg, START, evs).devices[id];
    S.SessionProtocol(rt.port, rt.deviceId.value, rt.deviceName.value, rt.osVersion, History(cfg, evs, id));
  }

  /**
   * For every attached device in every reachable state the published page list is that of the
   * last publication, senders included, and shows the senders of now exactly when the openings
   * and closings since then leave every session as it was.
   */
  lemma PublishedListExact(cfg: Config, evs: seq<Event>, id: string)
    requires id in Run(cfg, START, evs).devices
    ensures var rt, es := Run(cfg, START, evs).devices[id], History(cfg, evs, id);
      && rt.deviceId.Some? && rt.deviceName.Some?
      && var pages := RM.Run(Origin(rt), es[..PC.LastSync(es)]).pages;
      && rt.shared.pages == RM.Project(pages) && rt.pages.Keys == pages.Keys
      && (rt.shared.pages == RM.Project(rt.pages) <==>
            forall n | n in pages :: S.Controls(pages[n].senderId, es[PC.LastSync(es)..], n) == pages[n].senderId)
  {
    DeviceIsItsOwnRun(cfg, evs, id);
    var rt, es := Run(cfg, START, evs).devices[id], History(cfg, evs, id);
    PC.FreshIsCurrent(rt.port, rt.deviceId.value, rt.deviceName.value, rt.osVersion);
    PC.ListIsOfLastSync(Origin(rt), es);
    PC.CurrentIff(Origin(rt), es);
  }
}
