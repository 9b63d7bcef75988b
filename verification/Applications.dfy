// Which applications a device is known to run, and when their page listings are requested.

module Applications {
  import opened Wrappers
  import opened Rpc
  import opened RuntimeModel
  import opened RuntimeInvariants

  predicate Announced(apps: seq<RpcApp>, appId: string) {
    exists i | 0 <= i < |apps| :: apps[i].appId == appId
  }

  /** Whether the application is known after the event, if `before` says so for the time before. */
  predicate KnownAfter(before: bool, e: Event, appId: string) {
    if !e.Rpc? then before
    else
      match e.rpc
      case ReportConnectedApplicationList(apps) => before || Announced(apps, appId)
      case ApplicationConnected(app) => before || app.appId == appId
      case ApplicationUpdated(_, updatedId) => before || updatedId == appId
      case ApplicationDisconnected(app) => before && app.appId != appId
      case _ => before
  }

  /** According to the device's messages alone: announced, and not disconnected since. */
  predicate Known(es: seq<Event>, appId: string)
    decreases |es|
  {
    es != [] && KnownAfter(Known(es[..|es| - 1], appId), es[|es| - 1], appId)
  }

  /** How often the application became known. */
  function Appearances(es: seq<Event>, appId: string): nat
    decreases |es|
  {
    if es == [] then 0
    else
      var before := es[..|es| - 1];
      Appearances(before, appId) + if !Known(before, appId) && Known(es, appId) then 1 else 0
  }

  /** How often the application's page listing has been requested. */
  function Requests(log: seq<Sent>, appId: string): nat
    decreases |log|
  {
    if log == [] then 0
    else Requests(log[..|log| - 1], appId) + if log[|log| - 1] == SentGetListing(appId) then 1 else 0
  }

  lemma RequestsOneMore(log: seq<Sent>, e: Sent, appId: string)
    ensures Requests(log + [e], appId) == Requests(log, appId) + if e == SentGetListing(appId) then 1 else 0
  {
    assert (log + [e])[..|log + [e]| - 1] == log;
  }

  /** `r` knows what `rt` knew and, if `added`, the application; it was requested if that is new. */
  predicate Follows(rt: Runtime, r: Runtime, appId: string, added: bool) {
    && (appId in r.appIds <==> appId in rt.appIds || added)
    && Requests(r.sent, appId) == Requests(rt.sent, appId) + if appId !in rt.appIds && added then 1 else 0
  }

  lemma AddAppIdFollows(rt: Runtime, newId: string, appId: string)
    ensures Follows(rt, AddAppId(rt, newId), appId, newId == appId)
  {
    RequestsOneMore(rt.sent, SentGetListing(newId), appId);
  }

  lemma AnnouncedCons(apps: seq<RpcApp>, appId: string)
    requires apps != []
    ensures Announced(apps, appId) <==> apps[0].appId == appId || Announced(apps[1..], appId)
  {
    forall i | 1 <= i < |apps| ensures apps[1..][i - 1] == apps[i] {}
  }

  lemma FollowsTwice(rt: Runtime, mid: Runtime, r: Runtime, appId: string, first: bool, second: bool)
    requires Follows(rt, mid, appId, first) && Follows(mid, r, appId, second)
    ensures Follows(rt, r, appId, first || second)
  {
  }

  lemma {:induction false} AddAppsFollows(rt: Runtime, apps: seq<RpcApp>, appId: string)
    ensures Follows(rt, AddApps(rt, apps), appId, Announced(apps, appId))
    decreases |apps|
  {
    if apps != [] {
      var mid := AddAppId(rt, apps[0].appId).(currentApp := Some(apps[0]));
      AddAppIdFollows(rt, apps[0].appId, appId);
      AddAppsFollows(mid, apps[1..], appId);
      AnnouncedCons(apps, appId);
      FollowsTwice(rt, mid, AddApps(mid, apps[1..]), appId, apps[0].appId == appId, Announced(apps[1..], appId));
    }
  }

  lemma StopRequestsNothing(rt: Runtime, n: nat, appId: string)
    ensures Follows(rt, StopDevtools(rt, n), appId, false)
  {
    if n in rt.pages && rt.pages[n].senderId.Some? {
      var p := rt.pages[n];
      RequestsOneMore(rt.sent, SentDidClose(n, p.appId, p.pageId, p.senderId.value), appId);
    }
  }

  lemma OpenRequestsNothing(rt: Runtime, wsId: string, n: nat, appId: string)
    ensures Follows(rt, OpenSession(rt, wsId, n), appId, false)
  {
    if n in rt.pages {
      RequestsOneMore(rt.sent, SentSetup(n, rt.pages[n].appId, rt.pages[n].pageId, wsId), appId);
    }
  }

  lemma WsRequestsNothing(rt: Runtime, msg: WsMessage, appId: string)
    ensures Follows(rt, HandleWs(rt, msg), appId, false)
  {
    if msg.isClose {
      StopRequestsNothing(rt, msg.pageNum, appId);
    } else if msg.data == [] {
      StopRequestsNothing(rt, msg.pageNum, appId);
      OpenRequestsNothing(rt, msg.wsId, msg.pageNum, appId);
      OpenRequestsNothing(StopDevtools(rt, msg.pageNum), msg.wsId, msg.pageNum, appId);
    } else if msg.pageNum in rt.pages {
      RequestsOneMore(rt.sent, ForwardData(rt, msg).sent[|rt.sent|], appId);
    }
  }

  lemma RpcFollows(rt: Runtime, msg: RpcMessage, appId: string)
    ensures var r := HandleRpc(rt, msg);
      var known := KnownAfter(appId in rt.appIds, Rpc(msg), appId);
      && (appId in r.appIds <==> known)
      && Requests(r.sent, appId) == Requests(rt.sent, appId) + if appId !in rt.appIds && known then 1 else 0
  {
    match msg
    case ReportConnectedApplicationList(apps) => AddAppsFollows(if rt.connected then rt else Connect(rt), apps, appId);
    case ApplicationConnected(app) => AddAppIdFollows(rt.(currentApp := Some(app)), app.appId, appId);
    case ApplicationUpdated(_, updatedId) => AddAppIdFollows(rt, updatedId, appId);
    case ApplicationSentListing(id, pages) => ListAllFrame(rt, id, pages);
    case _ =>
  }

  /**
   * An application is known exactly if the device announced it and has not disconnected it since,
   * and its listing has been requested once for every time it became known.
   */
  lemma {:induction false} ListingsFollowAnnouncements(rt: Runtime, es: seq<Event>, appId: string)
    requires rt.appIds == {} && Requests(rt.sent, appId) == 0
    ensures appId in Run(rt, es).appIds <==> Known(es, appId)
    ensures Requests(Run(rt, es).sent, appId) == Appearances(es, appId)
    decreases |es|
  {
    if es != [] {
      var before := es[..|es| - 1];
      ListingsFollowAnnouncements(rt, before, appId);
      match es[|es| - 1] {
        case Rpc(msg) => RpcFollows(Run(rt, before), msg, appId);
        case Ws(msg) => WsRequestsNothing(Run(rt, before), msg, appId);
        case Reg(reg) =>
      }
    }
  }
}
