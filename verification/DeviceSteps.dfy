// What one event does to the state of a device, field by field, and which events it takes to connect it.

module DeviceSteps {
  import opened Wrappers
  import opened Rpc
  import opened RuntimeModel
  import opened RuntimeInvariants
  import opened PageCache
  import A = Applications
  import PI = ProxyInvariants

  // ---------------------------------------------------------------------------
  // Clients
  // ---------------------------------------------------------------------------

  /** The pages are those of before, but that the session of the page `n`, if it is live, is `session`. */
  predicate OnlySession(before: map<nat, PageInfo>, after: map<nat, PageInfo>, n: nat, session: Option<string>) {
    && after.Keys == before.Keys
    && forall m | m in before ::
         after[m] == if m == n then before[m].(senderId := session, wsClientId := session) else before[m]
  }

  /** The message that closes the session of a page, if it is live and has one that is not `wsId`. */
  function Closing(pages: map<nat, PageInfo>, n: nat, wsId: Option<string>): seq<Sent> {
    if n in pages && pages[n].senderId.Some? && pages[n].senderId != wsId
    then [SentDidClose(n, pages[n].appId, pages[n].pageId, pages[n].senderId.value)]
    else []
  }

  lemma StopExact(rt: Runtime, n: nat)
    requires SessionFieldsAgree(rt.pages)
    ensures var r := StopDevtools(rt, n);
      && OnlySession(rt.pages, r.pages, n, None)
      && r.sent == rt.sent + Closing(rt.pages, n, None)
      && r == rt.(pages := r.pages, sent := r.sent)
  {
    assert rt.sent + [] == rt.sent;
  }

  lemma OpenSessionExact(rt: Runtime, wsId: string, n: nat)
    requires n in rt.pages
    ensures var r := OpenSession(rt, wsId, n);
      && OnlySession(rt.pages, r.pages, n, Some(wsId))
      && r.sent == rt.sent + [SentSetup(n, rt.pages[n].appId, rt.pages[n].pageId, wsId)]
      && r == rt.(pages := r.pages, sent := r.sent)
  {
  }

  lemma OnlySessionTwice(a: map<nat, PageInfo>, b: map<nat, PageInfo>, c: map<nat, PageInfo>, n: nat,
                         first: Option<string>, second: Option<string>)
    requires OnlySession(a, b, n, first) && OnlySession(b, c, n, second)
    ensures OnlySession(a, c, n, second)
  {
    forall m | m in a
      ensures m in c && c[m] == if m == n then a[m].(senderId := second, wsClientId := second) else a[m]
    {
      assert m in b.Keys && m in c.Keys;
    }
  }

  /** A closing message ends the session of its page, whoever opened it, and forgets the client. */
  lemma CloseExact(rt: Runtime, msg: WsMessage)
    requires Coherent(rt) && msg.isClose
    ensures var r := HandleWs(rt, msg);
      && OnlySession(rt.pages, r.pages, msg.pageNum, None)
      && r.sent == rt.sent + Closing(rt.pages, msg.pageNum, None)
      && r.wsClientTxs == rt.wsClientTxs - {msg.wsId} && r.wsClients == rt.wsClients - {msg.wsId}
      && r == rt.(pages := r.pages, sent := r.sent, wsClients := r.wsClients, wsClientTxs := r.wsClientTxs)
  {
    StopExact(rt, msg.pageNum);
  }

  /** An empty message opens a session on its page, closing another client's first; on no page it does nothing. */
  lemma OpenExact(rt: Runtime, msg: WsMessage)
    requires Coherent(rt) && !msg.isClose && msg.data == []
    ensures var r, n := HandleWs(rt, msg), msg.pageNum;
      && (n !in rt.pages ==> r == rt)
      && (n in rt.pages ==>
            && OnlySession(rt.pages, r.pages, n, Some(msg.wsId))
            && r.sent == rt.sent + Closing(rt.pages, n, Some(msg.wsId)) +
                         [SentSetup(n, rt.pages[n].appId, rt.pages[n].pageId, msg.wsId)]
            && r == rt.(pages := r.pages, sent := r.sent))
  {
    var n := msg.pageNum;
    if n in rt.pages {
      if rt.pages[n].wsClientId.Some? && rt.pages[n].wsClientId.value != msg.wsId {
        var mid := StopDevtools(rt, n);
        StopExact(rt, n);
        OpenSessionExact(mid, msg.wsId, n);
        OnlySessionTwice(rt.pages, mid.pages, OpenSession(mid, msg.wsId, n).pages, n, None, Some(msg.wsId));
      } else {
        OpenSessionExact(rt, msg.wsId, n);
        assert rt.sent + [] == rt.sent;
      }
    }
  }

  /** Data for a live page goes out under the sender of its session, or the client's own id without one. */
  lemma DataExact(rt: Runtime, msg: WsMessage)
    requires !msg.isClose && msg.data != []
    ensures var r, n := HandleWs(rt, msg), msg.pageNum;
      && r == rt.(sent := r.sent)
      && r.sent == rt.sent +
           if n !in rt.pages then []
           else
             var p := rt.pages[n];
             [SentData(n, p.appId, p.pageId, OrElse(p.senderId, msg.wsId), msg.data, msg.wsId)]
  {
  }

  /** A client registers under its id, for the channel it brings; other clients are not affected. */
  lemma RegistrationExact(rt: Runtime, reg: Registration)
    ensures var r := Handle(rt, Reg(reg));
      && r == rt.(wsClients := r.wsClients, wsClientTxs := r.wsClientTxs)
      && reg.wsId in r.wsClientTxs && r.wsClientTxs[reg.wsId] == reg.channel
      && reg.wsId in r.wsClients && r.wsClients[reg.wsId] == WsClientInfo(reg.pageNum, reg.wsId)
      && forall w | w != reg.wsId ::
           && (w in r.wsClientTxs <==> w in rt.wsClientTxs) && (w in rt.wsClientTxs ==> r.wsClientTxs[w] == rt.wsClientTxs[w])
           && (w in r.wsClients <==> w in rt.wsClients) && (w in rt.wsClients ==> r.wsClients[w] == rt.wsClients[w])
  {
  }

  // ---------------------------------------------------------------------------
  // Messages of the device that concern no pages
  // ---------------------------------------------------------------------------

  /** The log has grown by requests for listings only. */
  predicate OnlyRequests(before: seq<Sent>, after: seq<Sent>) {
    before <= after && forall i | |before| <= i < |after| :: after[i].SentGetListing?
  }

  lemma {:induction false} AddAppsExact(rt: Runtime, apps: seq<RpcApp>)
    ensures var r := AddApps(rt, apps);
      && r == rt.(appIds := r.appIds, currentApp := r.currentApp, sent := r.sent)
      && r.currentApp == (if apps == [] then rt.currentApp else Some(apps[|apps| - 1]))
      && OnlyRequests(rt.sent, r.sent)
    decreases |apps|
  {
    if apps != [] {
      AddAppsExact(AddAppId(rt, apps[0].appId).(currentApp := Some(apps[0])), apps[1..]);
    }
  }

  /**
   * Reports connect the device, in the shared state too; an application becomes known, and its
   * listing is requested if it was not known; the last application named is the current one; data
   * goes to the channel registered for its destination; anything else changes nothing.
   */
  lemma MessageExact(rt: Runtime, msg: RpcMessage)
    requires !Republishes(Rpc(msg))
    ensures var r := HandleRpc(rt, msg);
      match msg
      case ReportSetup =>
        r == rt.(connected := true, shared := PortState(true, rt.shared.pages))
      case ReportConnectedApplicationList(apps) =>
        && r.connected && (rt.connected || r.shared.connected) && OnlyRequests(rt.sent, r.sent)
        && r.currentApp == (if apps == [] then rt.currentApp else Some(apps[|apps| - 1]))
        && (forall a :: a in r.appIds <==> a in rt.appIds || exists i | 0 <= i < |apps| :: apps[i].appId == a)
        && r.shared == (if rt.connected then rt.shared else PortState(true, rt.shared.pages))
        && r == rt.(connected := r.connected, shared := r.shared, appIds := r.appIds,
                    currentApp := r.currentApp, sent := r.sent)
      case ApplicationConnected(app) =>
        r == rt.(currentApp := Some(app), appIds := rt.appIds + {app.appId},
                 sent := rt.sent + if app.appId in rt.appIds then [] else [SentGetListing(app.appId)])
      case ApplicationUpdated(_, id) =>
        r == rt.(appIds := rt.appIds + {id}, sent := rt.sent + if id in rt.appIds then [] else [SentGetListing(id)])
      case ApplicationSentData(_, destId, data) =>
        r == rt.(delivered :=
          rt.delivered + if destId in rt.wsClientTxs then [Delivery(rt.wsClientTxs[destId], data)] else [])
      case _ => r == rt
  {
    assert rt.sent + [] == rt.sent && rt.delivered + [] == rt.delivered;
    match msg
    case ReportConnectedApplicationList(apps) => ConnectedListExact(rt, apps);
    case ApplicationConnected(app) => assert app.appId in rt.appIds ==> rt.appIds + {app.appId} == rt.appIds;
    case ApplicationUpdated(_, id) => assert id in rt.appIds ==> rt.appIds + {id} == rt.appIds;
    case _ =>
  }

  lemma ConnectedListExact(rt: Runtime, apps: seq<RpcApp>)
    ensures var r := HandleRpc(rt, ReportConnectedApplicationList(apps));
      && r.connected && OnlyRequests(rt.sent, r.sent)
      && r.currentApp == (if apps == [] then rt.currentApp else Some(apps[|apps| - 1]))
      && (forall a :: a in r.appIds <==> a in rt.appIds || exists i | 0 <= i < |apps| :: apps[i].appId == a)
      && r.shared == (if rt.connected then rt.shared else PortState(true, rt.shared.pages))
      && r == rt.(connected := r.connected, shared := r.shared, appIds := r.appIds,
                  currentApp := r.currentApp, sent := r.sent)
  {
    var mid := if rt.connected then rt else Connect(rt);
    AddAppsExact(mid, apps);
    forall a ensures a in AddApps(mid, apps).appIds <==> a in rt.appIds || exists i | 0 <= i < |apps| :: apps[i].appId == a {
      A.AddAppsFollows(mid, apps, a);
    }
  }

  // ---------------------------------------------------------------------------
  // Runs
  // ---------------------------------------------------------------------------

  predicate Connects(e: Event) {
    e.Rpc? && (e.rpc.ReportSetup? || e.rpc.ReportConnectedApplicationList?)
  }

  /** A device is connected, in its shared state too, once it has reported one way or the other. */
  lemma {:induction false} ConnectedIff(rt: Runtime, es: seq<Event>)
    requires Coherent(rt) && !rt.connected
    ensures var r := Run(rt, es);
      (r.connected <==> exists i | 0 <= i < |es| :: Connects(es[i])) && r.shared.connected == r.connected
    decreases |es|
  {
    RunCoherent(rt, es);
    if es != [] {
      var front, e := es[..|es| - 1], es[|es| - 1];
      ConnectedIff(rt, front);
      StepConnects(Run(rt, front), e);
      assert es == front + [e];
      ConnectsOneMore(front, e);
    }
  }

  lemma StepConnects(rt: Runtime, e: Event)
    ensures Handle(rt, e).connected <==> rt.connected || Connects(e)
  {
    PI.HandleFrame(rt, e);
    if e.Rpc? {
      PI.HandleRpcFrame(rt, e.rpc);
    }
  }

  lemma ConnectsOneMore(front: seq<Event>, e: Event)
    ensures (exists i | 0 <= i < |front + [e]| :: Connects((front + [e])[i])) <==>
            (exists i | 0 <= i < |front| :: Connects(front[i])) || Connects(e)
  {
    var es := front + [e];
    if i :| 0 <= i < |front| && Connects(front[i]) {
      assert Connects(es[i]);
    }
    assert es[|front|] == e;
  }

  /** The application named last, if any. */
  function LastNamed(es: seq<Event>): Option<RpcApp>
    decreases |es|
  {
    if es == [] then None
    else
      match es[|es| - 1]
      case Rpc(ReportConnectedApplicationList(apps)) =>
        if apps == [] then LastNamed(es[..|es| - 1]) else Some(apps[|apps| - 1])
      case Rpc(ApplicationConnected(app)) => Some(app)
      case _ => LastNamed(es[..|es| - 1])
  }

  lemma {:induction false} CurrentIsLastNamed(rt: Runtime, es: seq<Event>)
    requires rt.currentApp == None
    ensures Run(rt, es).currentApp == LastNamed(es)
    decreases |es|
  {
    if es != [] {
      var front, e := es[..|es| - 1], es[|es| - 1];
      CurrentIsLastNamed(rt, front);
      StepNames(Run(rt, front), e);
    }
  }

  lemma StepNames(rt: Runtime, e: Event)
    ensures Handle(rt, e).currentApp ==
      match e
      case Rpc(ReportConnectedApplicationList(apps)) => if apps == [] then rt.currentApp else Some(apps[|apps| - 1])
      case Rpc(ApplicationConnected(app)) => Some(app)
      case _ => rt.currentApp
  {
    match e
    case Rpc(ReportConnectedApplicationList(apps)) => ConnectedListExact(rt, apps);
    case Rpc(ApplicationSentListing(appId, pages)) => ListAllFrame(rt, appId, pages);
    case _ =>
  }
}
