// Where data goes: from the device to the registered channel, and from a client to the device.

module Routing {
  import opened Wrappers
  import opened Rpc
  import opened RuntimeModel
  import opened RuntimeInvariants

  // ---------------------------------------------------------------------------
  // From the device to the clients
  // ---------------------------------------------------------------------------

  /** The channel registered under `id` after the events: the last registration not followed by a close. */
  function Channel(es: seq<Event>, id: string): Option<nat>
    decreases |es|
  {
    if es == [] then None
    else
      match es[|es| - 1]
      case Reg(reg) => if reg.wsId == id then Some(reg.channel) else Channel(es[..|es| - 1], id)
      case Ws(msg) => if msg.isClose && msg.wsId == id then None else Channel(es[..|es| - 1], id)
      case _ => Channel(es[..|es| - 1], id)
  }

  predicate IsDataFor(e: Event, id: string) {
    e.Rpc? && e.rpc.ApplicationSentData? && e.rpc.destId == id
  }

  /** What is put into channels, and in which order, according to the events alone. */
  function Deliveries(es: seq<Event>): seq<Delivery>
    decreases |es|
  {
    if es == [] then []
    else
      var before, e := es[..|es| - 1], es[|es| - 1];
      if e.Rpc? && e.rpc.ApplicationSentData? && Channel(before, e.rpc.destId).Some?
      then Deliveries(before) + [Delivery(Channel(before, e.rpc.destId).value, e.rpc.data)]
      else Deliveries(before)
  }

  lemma RpcRouting(rt: Runtime, msg: RpcMessage)
    ensures HandleRpc(rt, msg).wsClientTxs == rt.wsClientTxs
    ensures !msg.ApplicationSentData? ==> HandleRpc(rt, msg).delivered == rt.delivered
  {
    match msg
    case ReportConnectedApplicationList(apps) => AddAppsFrame(if rt.connected then rt else Connect(rt), apps);
    case ApplicationSentListing(appId, pages) => ListAllFrame(rt, appId, pages);
    case _ =>
  }

  lemma WsRouting(rt: Runtime, msg: WsMessage)
    ensures HandleWs(rt, msg).delivered == rt.delivered
    ensures HandleWs(rt, msg).wsClientTxs == if msg.isClose then rt.wsClientTxs - {msg.wsId} else rt.wsClientTxs
  {
  }

  /** The device's data reaches exactly the channels registered at that moment, in the order it came. */
  lemma {:induction false} DeliveriesFollowRegistrations(rt: Runtime, es: seq<Event>)
    requires rt.wsClientTxs == map[] && rt.delivered == []
    ensures var r := Run(rt, es);
      && r.delivered == Deliveries(es)
      && forall id :: Channel(es, id) == if id in r.wsClientTxs then Some(r.wsClientTxs[id]) else None
    decreases |es|
  {
    if es != [] {
      var front := es[..|es| - 1];
      DeliveriesFollowRegistrations(rt, front);
      match es[|es| - 1] {
        case Rpc(msg) => RpcRouting(Run(rt, front), msg);
        case Ws(msg) => WsRouting(Run(rt, front), msg);
        case Reg(reg) =>
      }
    }
  }

  /** What channel `c` has received. */
  function Received(ds: seq<Delivery>, c: nat): seq<Bytes>
    decreases |ds|
  {
    if ds == [] then []
    else
      var d := ds[|ds| - 1];
      if d.channel == c then Received(ds[..|ds| - 1], c) + [d.data] else Received(ds[..|ds| - 1], c)
  }

  /** The data the device addressed to `id` while `c` was registered under that id. */
  function Addressed(es: seq<Event>, id: string, c: nat): seq<Bytes>
    decreases |es|
  {
    if es == [] then []
    else
      var before, e := es[..|es| - 1], es[|es| - 1];
      if IsDataFor(e, id) && Channel(before, id) == Some(c)
      then Addressed(before, id, c) + [e.rpc.data]
      else Addressed(before, id, c)
  }

  lemma {:induction false} ChannelWasRegistered(es: seq<Event>, id: string)
    requires Channel(es, id).Some?
    ensures exists i | 0 <= i < |es| ::
      es[i].Reg? && es[i].reg.wsId == id && es[i].reg.channel == Channel(es, id).value
    decreases |es|
  {
    var front := es[..|es| - 1];
    if Channel(front, id) == Channel(es, id) {
      ChannelWasRegistered(front, id);
      var i :| 0 <= i < |front| && front[i].Reg? && front[i].reg.wsId == id &&
               front[i].reg.channel == Channel(es, id).value;
      assert es[i] == front[i];
    }
  }

  /** A channel used by one client alone receives that client's data, all of it, in order. */
  lemma {:induction false} ChannelReceivesItsOwn(es: seq<Event>, id: string, c: nat)
    requires forall i | 0 <= i < |es| :: es[i].Reg? && es[i].reg.channel == c ==> es[i].reg.wsId == id
    ensures Received(Deliveries(es), c) == Addressed(es, id, c)
    decreases |es|
  {
    if es != [] {
      var before, e := es[..|es| - 1], es[|es| - 1];
      forall i | 0 <= i < |before| ensures before[i].Reg? && before[i].reg.channel == c ==> before[i].reg.wsId == id {
        assert before[i] == es[i];
      }
      ChannelReceivesItsOwn(before, id, c);
      if e.Rpc? && e.rpc.ApplicationSentData? && Channel(before, e.rpc.destId).Some? {
        var d := Delivery(Channel(before, e.rpc.destId).value, e.rpc.data);
        assert (Deliveries(before) + [d])[..|Deliveries(before) + [d]| - 1] == Deliveries(before);
        ChannelWasRegistered(before, e.rpc.destId);
      }
    }
  }

  /**
   * Registration and session setup travel on different channels: after the setup is handled the
   * session is open, but the device's data is heard only if the registration was handled before.
   */
  lemma OpenSessionHeardIff(rt: Runtime, id: string, n: nat, appId: string, data: Bytes)
    requires n in rt.pages
    ensures var r := HandleWs(rt, WsMessage(n, id, [], false));
      && r.pages[n].senderId == Some(id)
      && (HandleRpc(r, ApplicationSentData(appId, id, data)) == r <==> id !in rt.wsClientTxs)
  {
    var r := HandleWs(rt, WsMessage(n, id, [], false));
    WsRouting(rt, WsMessage(n, id, [], false));
    if id in rt.wsClientTxs {
      assert |HandleRpc(r, ApplicationSentData(appId, id, data)).delivered| == |r.delivered| + 1;
    }
  }

  // ---------------------------------------------------------------------------
  // From the clients to the device
  // ---------------------------------------------------------------------------

  predicate IsFrame(msg: WsMessage, id: string) {
    msg.wsId == id && !msg.isClose && msg.data != []
  }

  /** The payloads of client `id` that were sent to the device. */
  function DataFrom(log: seq<Sent>, id: string): seq<Bytes>
    decreases |log|
  {
    if log == [] then []
    else
      var e := log[|log| - 1];
      if e.SentData? && e.wsId == id then DataFrom(log[..|log| - 1], id) + [e.data] else DataFrom(log[..|log| - 1], id)
  }

  /** The non-empty frames of client `id` among the handled messages. */
  function Frames(msgs: seq<WsMessage>, id: string): seq<Bytes>
    decreases |msgs|
  {
    if msgs == [] then []
    else
      var m := msgs[|msgs| - 1];
      if IsFrame(m, id) then Frames(msgs[..|msgs| - 1], id) + [m.data] else Frames(msgs[..|msgs| - 1], id)
  }

  lemma {:induction false} DataFromAppend(log: seq<Sent>, more: seq<Sent>, id: string)
    requires forall i | 0 <= i < |more| :: !more[i].SentData?
    ensures DataFrom(log + more, id) == DataFrom(log, id)
    decreases |more|
  {
    if more == [] {
      assert log + more == log;
    } else {
      assert (log + more)[..|log + more| - 1] == log + more[..|more| - 1];
      DataFromAppend(log, more[..|more| - 1], id);
    }
  }

  lemma {:induction false} AddAppsSendsNoData(rt: Runtime, apps: seq<RpcApp>, id: string)
    ensures DataFrom(AddApps(rt, apps).sent, id) == DataFrom(rt.sent, id)
    decreases |apps|
  {
    if apps != [] {
      var r := AddAppId(rt, apps[0].appId).(currentApp := Some(apps[0]));
      DataFromAppend(rt.sent, [SentGetListing(apps[0].appId)], id);
      AddAppsSendsNoData(r, apps[1..], id);
    }
  }

  lemma RpcSendsNoData(rt: Runtime, msg: RpcMessage, id: string)
    ensures DataFrom(HandleRpc(rt, msg).sent, id) == DataFrom(rt.sent, id)
  {
    match msg
    case ReportConnectedApplicationList(apps) =>
      AddAppsSendsNoData(if rt.connected then rt else Connect(rt), apps, id);
    case ApplicationConnected(app) => DataFromAppend(rt.sent, [SentGetListing(app.appId)], id);
    case ApplicationUpdated(_, updatedId) => DataFromAppend(rt.sent, [SentGetListing(updatedId)], id);
    case ApplicationSentListing(appId, pages) => ListAllFrame(rt, appId, pages);
    case _ =>
  }

  lemma StopSendsNoData(rt: Runtime, n: nat, id: string)
    ensures DataFrom(StopDevtools(rt, n).sent, id) == DataFrom(rt.sent, id)
  {
    if n in rt.pages && rt.pages[n].senderId.Some? {
      var p := rt.pages[n];
      DataFromAppend(rt.sent, [SentDidClose(n, p.appId, p.pageId, p.senderId.value)], id);
    }
  }

  lemma OpenSendsNoData(rt: Runtime, wsId: string, n: nat, id: string)
    ensures DataFrom(OpenSession(rt, wsId, n).sent, id) == DataFrom(rt.sent, id)
  {
    if n in rt.pages {
      var p := rt.pages[n];
      DataFromAppend(rt.sent, [SentSetup(n, p.appId, p.pageId, wsId)], id);
    }
  }

  /** One handled message sends its payload once if it is a frame for a live page, and otherwise nothing. */
  lemma WsSendsItsFrame(rt: Runtime, msg: WsMessage, id: string)
    ensures DataFrom(HandleWs(rt, msg).sent, id) ==
            DataFrom(rt.sent, id) + if IsFrame(msg, id) && msg.pageNum in rt.pages then [msg.data] else []
  {
    if msg.isClose {
      StopSendsNoData(rt, msg.pageNum, id);
    } else if msg.data == [] {
      StopSendsNoData(rt, msg.pageNum, id);
      OpenSendsNoData(rt, msg.wsId, msg.pageNum, id);
      OpenSendsNoData(StopDevtools(rt, msg.pageNum), msg.wsId, msg.pageNum, id);
    } else if msg.pageNum in rt.pages {
      var r := ForwardData(rt, msg);
      assert r.sent[..|r.sent| - 1] == rt.sent;
    }
  }

  /** The payloads of `id` a run must forward: its frames that find their page live. */
  ghost function Forwardable(rt: Runtime, es: seq<Event>, id: string): seq<Bytes>
    decreases |es|
  {
    if es == [] then []
    else
      var before, e := es[..|es| - 1], es[|es| - 1];
      if e.Ws? && IsFrame(e.ws, id) && e.ws.pageNum in Run(rt, before).pages
      then Forwardable(rt, before, id) + [e.ws.data]
      else Forwardable(rt, before, id)
  }

  /** Every frame that finds its page live is forwarded once, unchanged and in order; no other is. */
  lemma {:induction false} FramesAreForwarded(rt: Runtime, es: seq<Event>, id: string)
    ensures DataFrom(Run(rt, es).sent, id) == DataFrom(rt.sent, id) + Forwardable(rt, es, id)
    decreases |es|
  {
    if es != [] {
      var before := es[..|es| - 1];
      FramesAreForwarded(rt, before, id);
      match es[|es| - 1] {
        case Rpc(msg) => RpcSendsNoData(Run(rt, before), msg, id);
        case Ws(msg) => WsSendsItsFrame(Run(rt, before), msg, id);
        case Reg(reg) =>
      }
    }
  }
}
