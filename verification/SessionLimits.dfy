// The debug-session protocol over every run, counter overflow included: exactly when it is kept.

module SessionLimits {
  import opened Wrappers
  import opened Rpc
  import opened RuntimeModel
  import opened RuntimeInvariants
  import opened PageIdentity
  import opened ListingLimits
  import opened Sessions

  /** The session fields of the live pages say what the log says. */
  ghost predicate Agree(rt: Runtime) {
    forall n | n in rt.pages :: Open(rt.sent, n) == rt.pages[n].senderId
  }

  /** No sender is open on the next `count` numbers. */
  predicate NoneOpen(log: seq<Sent>, m: nat, count: nat) {
    forall k | 1 <= k <= count :: Open(log, NumberAfter(m, k)) == None
  }

  /** The event issues no number on which a sender is still open. */
  ghost predicate Safe(rt: Runtime, e: Event) {
    e.Rpc? && e.rpc.ApplicationSentListing? ==>
      NoneOpen(rt.sent, rt.maxPageNum, Issued(rt, e.rpc.appId, e.rpc.pages))
  }

  // ---------------------------------------------------------------------------
  // Listings
  // ---------------------------------------------------------------------------

  /** The numbers issued denote listed pages without a session; the others keep theirs. */
  ghost predicate IssuedQuietly(m: nat, count: nat, before: map<nat, PageInfo>, pages: map<nat, PageInfo>,
                          appId: string, listed: seq<RpcPage>) {
    && (forall n | IsIssued(m, count, n) ::
          n in pages && pages[n].appId == appId && Lists(listed, pages[n].pageId) && pages[n].senderId == None)
    && (forall n | n in pages && !IsIssued(m, count, n) :: n in before && pages[n].senderId == before[n].senderId)
  }

  lemma RefreshStaysQuiet(m: nat, count: nat, before: map<nat, PageInfo>, mid: Runtime,
                          appId: string, front: seq<RpcPage>, row: RpcPage)
    requires IssuedQuietly(m, count, before, mid.pages, appId, front) && Holds(mid.pages, appId, row.pageId)
    ensures IssuedQuietly(m, count, before, ListOne(mid, appId, row).pages, appId, front + [row])
  {
    var pages := ListOne(mid, appId, row).pages;
    forall n | IsIssued(m, count, n) ensures n in pages && Lists(front + [row], pages[n].pageId) {
      ListsMore(front, row, pages[n].pageId);
    }
  }

  lemma IssueStaysQuiet(m: nat, count: nat, before: map<nat, PageInfo>, mid: Runtime,
                        appId: string, front: seq<RpcPage>, row: RpcPage)
    requires IssuedQuietly(m, count, before, mid.pages, appId, front) && !Holds(mid.pages, appId, row.pageId)
    requires NextNum(mid.maxPageNum) == NumberAfter(m, count + 1)
    ensures IssuedQuietly(m, count + 1, before, ListOne(mid, appId, row).pages, appId, front + [row])
  {
    var pages := ListOne(mid, appId, row).pages;
    IssuesNext(mid, appId, row);
    forall n | IsIssued(m, count + 1, n)
      ensures n in pages && pages[n].appId == appId && Lists(front + [row], pages[n].pageId) && pages[n].senderId == None
    {
      IssuedOneMore(m, count, n);
      ListsMore(front, row, pages[n].pageId);
    }
    forall n | n in pages && !IsIssued(m, count + 1, n)
      ensures n in before && pages[n].senderId == before[n].senderId
    {
      IssuedOneMore(m, count, n);
    }
  }

  lemma {:induction false} MergeIssuesQuietly(rt: Runtime, appId: string, listed: seq<RpcPage>)
    requires WordSized(rt)
    ensures IssuedQuietly(rt.maxPageNum, Issued(rt, appId, listed), rt.pages, ListAll(rt, appId, listed).pages, appId, listed)
    decreases |listed|
  {
    if listed != [] {
      var front, row := listed[..|listed| - 1], listed[|listed| - 1];
      var mid, count := ListAll(rt, appId, front), Issued(rt, appId, front);
      assert listed == front + [row];
      MergeIssuesQuietly(rt, appId, front);
      MergeOneMore(rt, appId, front, row);
      CounterCounts(rt, appId, front);
      NextNumberAfter(rt.maxPageNum, count);
      if Holds(mid.pages, appId, row.pageId) {
        RefreshStaysQuiet(rt.maxPageNum, count, rt.pages, mid, appId, front, row);
      } else {
        IssueStaysQuiet(rt.maxPageNum, count, rt.pages, mid, appId, front, row);
      }
    }
  }

  lemma ListingSendsNothing(rt: Runtime, appId: string, listed: seq<RpcPage>)
    ensures PageListing(rt, appId, listed).sent == rt.sent
  {
    ListAllFrame(rt, appId, listed);
  }

  /** What a listing leaves under a number: a new page without a session, or what was there. */
  lemma ListingSessions(rt: Runtime, appId: string, listed: seq<RpcPage>, n: nat)
    requires WordSized(rt)
    ensures var r := PageListing(rt, appId, listed);
      if IsIssued(rt.maxPageNum, Issued(rt, appId, listed), n) then n in r.pages && r.pages[n].senderId == None
      else n in r.pages ==> n in rt.pages && r.pages[n].senderId == rt.pages[n].senderId
  {
    MergeIssuesQuietly(rt, appId, listed);
  }

  /** A listing leaves log and fields in agreement exactly when it issues no number with an open sender. */
  lemma ListingAgreesIff(rt: Runtime, appId: string, listed: seq<RpcPage>)
    requires WordSized(rt) && Agree(rt)
    ensures Agree(PageListing(rt, appId, listed)) <==>
            NoneOpen(rt.sent, rt.maxPageNum, Issued(rt, appId, listed))
  {
    var r, m, count := PageListing(rt, appId, listed), rt.maxPageNum, Issued(rt, appId, listed);
    ListingSendsNothing(rt, appId, listed);
    if Agree(r) {
      forall k | 1 <= k <= count ensures Open(rt.sent, NumberAfter(m, k)) == None {
        assert IsIssued(m, count, NumberAfter(m, k));
        ListingSessions(rt, appId, listed, NumberAfter(m, k));
      }
    }
    if NoneOpen(rt.sent, m, count) {
      forall n | n in r.pages ensures Open(r.sent, n) == r.pages[n].senderId {
        ListingSessions(rt, appId, listed, n);
      }
    }
  }

  // ---------------------------------------------------------------------------
  // Other events
  // ---------------------------------------------------------------------------

  /** The log is the protocol's, and the live pages' fields say what it says. */
  ghost predicate InOrder(rt: Runtime) {
    Legal(rt.sent) && Agree(rt)
  }

  lemma AppendInOrder(rt: Runtime, r: Runtime, n: nat, e: Sent)
    requires InOrder(rt) && n in rt.pages && Concerns(e, n) && Admits(Open(rt.sent, n), e, n)
    requires r.sent == rt.sent + [e] && r.pages.Keys == rt.pages.Keys
    requires forall m | m in rt.pages && m != n :: r.pages[m] == rt.pages[m]
    requires r.pages[n].senderId == After(rt.pages[n].senderId, e, n)
    ensures InOrder(r)
  {
    AppendLegal(rt.sent, e);
    forall m | m in r.pages ensures Open(r.sent, m) == r.pages[m].senderId {
      AppendOpen(rt.sent, e, m);
    }
  }

  lemma StopInOrder(rt: Runtime, n: nat)
    requires InOrder(rt)
    ensures InOrder(StopDevtools(rt, n))
  {
    if n in rt.pages && rt.pages[n].senderId.Some? {
      var p := rt.pages[n];
      AppendInOrder(rt, StopDevtools(rt, n), n, SentDidClose(n, p.appId, p.pageId, p.senderId.value));
    }
  }

  lemma OpenInOrder(rt: Runtime, wsId: string, n: nat)
    requires InOrder(rt)
    requires n in rt.pages ==> rt.pages[n].senderId == None || rt.pages[n].senderId == Some(wsId)
    ensures InOrder(OpenSession(rt, wsId, n))
  {
    if n in rt.pages {
      var p := rt.pages[n];
      AppendInOrder(rt, OpenSession(rt, wsId, n), n, SentSetup(n, p.appId, p.pageId, wsId));
    }
  }

  lemma SetupInOrder(rt: Runtime, wsId: string, n: nat)
    requires Coherent(rt) && InOrder(rt)
    ensures InOrder(SocketSetup(rt, wsId, n))
  {
    if n in rt.pages && rt.pages[n].wsClientId.Some? && rt.pages[n].wsClientId.value != wsId {
      StopInOrder(rt, n);
      OpenInOrder(StopDevtools(rt, n), wsId, n);
    } else {
      OpenInOrder(rt, wsId, n);
    }
  }

  lemma ForwardInOrder(rt: Runtime, msg: WsMessage)
    requires InOrder(rt)
    ensures InOrder(ForwardData(rt, msg))
  {
    if msg.pageNum in rt.pages {
      var r := ForwardData(rt, msg);
      AppendInOrder(rt, r, msg.pageNum, r.sent[|rt.sent|]);
    }
  }

  lemma WsInOrder(rt: Runtime, msg: WsMessage)
    requires Coherent(rt) && InOrder(rt)
    ensures InOrder(HandleWs(rt, msg))
  {
    if msg.isClose {
      StopInOrder(rt, msg.pageNum);
    } else if msg.data == [] {
      SetupInOrder(rt, msg.wsId, msg.pageNum);
    } else {
      ForwardInOrder(rt, msg);
    }
  }

  lemma AddAppIdInOrder(rt: Runtime, appId: string)
    requires InOrder(rt)
    ensures InOrder(AddAppId(rt, appId)) && AddAppId(rt, appId).pages == rt.pages
  {
    if appId !in rt.appIds {
      var e := SentGetListing(appId);
      AppendLegal(rt.sent, e);
      forall n | n in rt.pages ensures Open(rt.sent + [e], n) == rt.pages[n].senderId {
        AppendOpen(rt.sent, e, n);
      }
    }
  }

  lemma {:induction false} AddAppsInOrder(rt: Runtime, apps: seq<RpcApp>)
    requires InOrder(rt)
    ensures InOrder(AddApps(rt, apps))
    decreases |apps|
  {
    if apps != [] {
      AddAppIdInOrder(rt, apps[0].appId);
      AddAppsInOrder(AddAppId(rt, apps[0].appId).(currentApp := Some(apps[0])), apps[1..]);
    }
  }

  lemma OtherRpcInOrder(rt: Runtime, msg: RpcMessage)
    requires InOrder(rt) && !msg.ApplicationSentListing?
    ensures InOrder(HandleRpc(rt, msg))
  {
    match msg
    case ReportConnectedApplicationList(apps) => AddAppsInOrder(if rt.connected then rt else Connect(rt), apps);
    case ApplicationConnected(app) => AddAppIdInOrder(rt.(currentApp := Some(app)), app.appId);
    case ApplicationUpdated(_, updatedId) => AddAppIdInOrder(rt, updatedId);
    case _ =>
  }

  lemma RpcInOrderIff(rt: Runtime, msg: RpcMessage)
    requires WordSized(rt) && InOrder(rt)
    ensures Legal(HandleRpc(rt, msg).sent)
    ensures Agree(HandleRpc(rt, msg)) <==> Safe(rt, Rpc(msg))
  {
    if msg.ApplicationSentListing? {
      ListingSendsNothing(rt, msg.appId, msg.pages);
      ListingAgreesIff(rt, msg.appId, msg.pages);
    } else {
      OtherRpcInOrder(rt, msg);
    }
  }

  lemma RegisterInOrder(rt: Runtime, reg: Registration)
    requires InOrder(rt)
    ensures InOrder(Register(rt, reg))
  {
  }

  /**
   * Every event keeps the log within the protocol, and it keeps log and session fields in
   * agreement exactly when it issues no page number on which a sender is still open.
   */
  lemma StepInOrderIff(rt: Runtime, e: Event)
    requires Coherent(rt) && WordSized(rt) && InOrder(rt)
    ensures Legal(Handle(rt, e).sent)
    ensures Agree(Handle(rt, e)) <==> Safe(rt, e)
  {
    match e
    case Rpc(msg) => RpcInOrderIff(rt, msg);
    case Ws(msg) => WsInOrder(rt, msg);
    case Reg(reg) => RegisterInOrder(rt, reg);
  }

  // ---------------------------------------------------------------------------
  // Runs
  // ---------------------------------------------------------------------------

  /** No event of the run issues a number on which a sender is still open. */
  ghost predicate SafeRun(rt: Runtime, es: seq<Event>)
    decreases |es|
  {
    es == [] || (SafeRun(rt, es[..|es| - 1]) && Safe(Run(rt, es[..|es| - 1]), es[|es| - 1]))
  }

  /** After every part of the run log and fields are in order. */
  ghost predicate AlwaysInOrder(rt: Runtime, es: seq<Event>)
    decreases |es|
  {
    InOrder(Run(rt, es)) && (es == [] || AlwaysInOrder(rt, es[..|es| - 1]))
  }

  /**
   * Over every run: the log obeys the protocol and agrees with the live pages' session fields after
   * each event if and only if no event issues a page number on which a sender is still open.
   */
  lemma {:induction false} AlwaysInOrderIff(rt: Runtime, es: seq<Event>)
    requires Coherent(rt) && WordSized(rt) && InOrder(rt)
    ensures AlwaysInOrder(rt, es) <==> SafeRun(rt, es)
    decreases |es|
  {
    if es != [] {
      var front, e := es[..|es| - 1], es[|es| - 1];
      AlwaysInOrderIff(rt, front);
      if SafeRun(rt, front) {
        assert AlwaysInOrder(rt, front) && InOrder(Run(rt, front));
        RunWordSized(rt, front);
        StepInOrderIff(Run(rt, front), e);
      }
    }
  }

  lemma FreshInOrder(port: nat, deviceId: string, deviceName: string, osVersion: nat)
    ensures var rt := Fresh(port, deviceId, deviceName, osVersion);
      Coherent(rt) && WordSized(rt) && InOrder(rt)
  {
    var rt := Fresh(port, deviceId, deviceName, osVersion);
    assert rt.sent[..0] == [];
  }

  /** The same for a device from its attachment on; `ws_client_id` always goes with `sender_id`. */
  lemma SessionProtocolIff(port: nat, deviceId: string, deviceName: string, osVersion: nat, es: seq<Event>)
    ensures var rt := Fresh(port, deviceId, deviceName, osVersion);
      && (AlwaysInOrder(rt, es) <==> SafeRun(rt, es))
      && forall n | n in Run(rt, es).pages :: Run(rt, es).pages[n].senderId == Run(rt, es).pages[n].wsClientId
  {
    var rt := Fresh(port, deviceId, deviceName, osVersion);
    FreshInOrder(port, deviceId, deviceName, osVersion);
    AlwaysInOrderIff(rt, es);
    RunCoherent(rt, es);
  }

  /** As long as the counter has not overflowed no such number is issued. */
  lemma NoOverflowIsSafe(port: nat, deviceId: string, deviceName: string, osVersion: nat, es: seq<Event>)
    requires NeverWraps(Fresh(port, deviceId, deviceName, osVersion), es)
    ensures SafeRun(Fresh(port, deviceId, deviceName, osVersion), es)
  {
    NoOverflowIsInOrder(port, deviceId, deviceName, osVersion, es);
    SessionProtocolIff(port, deviceId, deviceName, osVersion, es);
  }

  lemma {:induction false} NoOverflowIsInOrder(port: nat, deviceId: string, deviceName: string, osVersion: nat, es: seq<Event>)
    requires NeverWraps(Fresh(port, deviceId, deviceName, osVersion), es)
    ensures AlwaysInOrder(Fresh(port, deviceId, deviceName, osVersion), es)
    decreases |es|
  {
    SessionProtocol(port, deviceId, deviceName, osVersion, es);
    if es != [] {
      NoOverflowIsInOrder(port, deviceId, deviceName, osVersion, es[..|es| - 1]);
    }
  }

  // ---------------------------------------------------------------------------
  // What decides a session
  // ---------------------------------------------------------------------------

  /** The event gives the number `n` to a page. */
  ghost predicate Issues(rt: Runtime, e: Event, n: nat) {
    && e.Rpc? && e.rpc.ApplicationSentListing?
    && IsIssued(rt.maxPageNum, Issued(rt, e.rpc.appId, e.rpc.pages), n)
  }

  ghost predicate NeverIssues(rt: Runtime, es: seq<Event>, n: nat)
    decreases |es|
  {
    es == [] || (NeverIssues(rt, es[..|es| - 1], n) && !Issues(Run(rt, es[..|es| - 1]), es[|es| - 1], n))
  }

  lemma RpcSessionStep(rt: Runtime, msg: RpcMessage, n: nat)
    requires WordSized(rt) && !Issues(rt, Rpc(msg), n) && n in HandleRpc(rt, msg).pages
    ensures n in rt.pages && HandleRpc(rt, msg).pages[n].senderId == rt.pages[n].senderId
  {
    match msg
    case ReportConnectedApplicationList(apps) =>
      AddAppsFrame(if rt.connected then rt else Connect(rt), apps);
    case ApplicationSentListing(appId, listed) => ListingSessions(rt, appId, listed, n);
    case _ =>
  }

  lemma SessionStep(rt: Runtime, e: Event, n: nat)
    requires WordSized(rt) && !Issues(rt, e, n) && n in Handle(rt, e).pages
    ensures n in rt.pages && Handle(rt, e).pages[n].senderId == Control(rt.pages[n].senderId, e, n)
  {
    match e
    case Rpc(msg) => RpcSessionStep(rt, msg, n);
    case Ws(msg) =>
      WsKeepsNumbers(rt, msg);
      WsSessionStep(rt, msg, n);
    case Reg(reg) =>
  }

  /**
   * For as long as a page is live and its number is not issued anew, its session is decided by the
   * clients' openings and closings alone.
   */
  lemma {:induction false} SessionFollowsControls(rt: Runtime, es: seq<Event>, n: nat)
    requires Coherent(rt) && WordSized(rt) && NeverIssues(rt, es, n)
    requires n in Run(rt, es).pages
    ensures n in rt.pages && Run(rt, es).pages[n].senderId == Controls(rt.pages[n].senderId, es, n)
    decreases |es|
  {
    if es != [] {
      var front, e := es[..|es| - 1], es[|es| - 1];
      RunWordSized(rt, front);
      SessionStep(Run(rt, front), e, n);
      SessionFollowsControls(rt, front, n);
    }
  }

  /** A live number is not issued anew as long as the counter does not overflow. */
  lemma {:induction false} NoOverflowNeverIssues(rt: Runtime, es: seq<Event>, n: nat)
    requires Coherent(rt) && Numbered(rt) && NeverWraps(rt, es) && n in rt.pages
    ensures NeverIssues(rt, es, n)
    decreases |es|
  {
    if es != [] {
      var front, e := es[..|es| - 1], es[|es| - 1];
      NoOverflowNeverIssues(rt, front, n);
      RunKeepsNumbers(rt, front);
      RunCoherent(rt, front);
      if Issues(Run(rt, front), e, n) {
        var mid := Run(rt, front);
        FitsCounts(mid, e.rpc.appId, e.rpc.pages);
        IssuedAbove(mid.maxPageNum, Issued(mid, e.rpc.appId, e.rpc.pages), n);
      }
    }
  }

  lemma IssuedAbove(m: nat, count: nat, n: nat)
    requires m + count <= U32_MAX && IsIssued(m, count, n)
    ensures n > m
  {
    var k :| 1 <= k <= count && n == NumberAfter(m, k);
    NumbersBelowMax(m, k);
  }

  // ---------------------------------------------------------------------------
  // A run that breaks the protocol
  // ---------------------------------------------------------------------------

  lemma RunOneMore(rt: Runtime, es: seq<Event>, e: Event)
    ensures Run(rt, es + [e]) == Handle(Run(rt, es), e)
  {
    assert (es + [e])[..|es + [e]| - 1] == es;
  }

  /** An opening of a page without a session is a setup for its client. */
  lemma OpeningSetsUp(rt: Runtime, n: nat, wsId: string)
    requires n in rt.pages && rt.pages[n].wsClientId == None
    ensures var r, p := Handle(rt, Ws(WsMessage(n, wsId, [], false))), rt.pages[n];
      && r.sent == rt.sent + [SentSetup(n, p.appId, p.pageId, wsId)]
      && r.maxPageNum == rt.maxPageNum
      && r.pages == rt.pages[n := p.(senderId := Some(wsId), wsClientId := Some(wsId))]
  {
  }

  /** A client has opened page 1 when the counter stands at its largest value; then page 1 goes. */
  lemma LeftOpen() returns (rt: Runtime, es: seq<Event>)
    ensures rt == Fresh(9222, "d", "d", 0)
    ensures var r := Run(rt, es);
      r.pages == map[] && r.maxPageNum == U32_MAX && Open(r.sent, 1) == Some("w")
  {
    rt := Fresh(9222, "d", "d", 0);
    var toMax := CountTo(rt, U32_MAX);
    var r0 := Run(rt, toMax);
    var opening, gone := Ws(WsMessage(1, "w", [], false)), Listing("a", []);
    var r1 := Handle(r0, opening);
    es := toMax + [opening] + [gone];
    RunOneMore(rt, toMax, opening);
    RunOneMore(rt, toMax + [opening], gone);
    OpeningSetsUp(r0, 1, "w");
    AppendOpen(r0.sent, r1.sent[|r0.sent|], 1);
    ListNone(r1, "a");
    ListingSendsNothing(r1, "a", []);
    assert WithoutApp(r1.pages, "a") == map[];
  }

  /** With no page left and the counter at its largest value, two pages listed get the numbers 0 and 1. */
  lemma TwoListed(r0: Runtime)
    requires r0.pages == map[] && r0.maxPageNum == U32_MAX
    ensures var r2 := Handle(Handle(r0, Listing("b", [ANY_PAGE])), Listing("c", [ANY_PAGE]));
      r2.sent == r0.sent && 1 in r2.pages && r2.pages[1].wsClientId == None
  {
    var r1 := Handle(r0, Listing("b", [ANY_PAGE]));
    ListAnyPage(r0, "b");
    ListingSendsNothing(r0, "b", [ANY_PAGE]);
    ListAnyPage(r1, "c");
    ListingSendsNothing(r1, "c", [ANY_PAGE]);
  }

  lemma IllegalIsUnsafe(port: nat, deviceId: string, deviceName: string, osVersion: nat, es: seq<Event>)
    requires !Legal(Run(Fresh(port, deviceId, deviceName, osVersion), es).sent)
    ensures !SafeRun(Fresh(port, deviceId, deviceName, osVersion), es)
  {
    SessionProtocolIff(port, deviceId, deviceName, osVersion, es);
  }

  lemma RunThreeMore(rt: Runtime, es: seq<Event>, b: Event, c: Event, d: Event)
    ensures Run(rt, es + [b] + [c] + [d]) == Handle(Handle(Handle(Run(rt, es), b), c), d)
  {
    RunOneMore(rt, es, b);
    RunOneMore(rt, es + [b], c);
    RunOneMore(rt, es + [b] + [c], d);
  }

  /**
   * From a freshly attached device: page 1 is opened and goes without a close, the counter
   * overflows, number 1 is given to another page, and its opening by another client finds the
   * first client's sender open still.
   */
  lemma OverflowBreaksProtocol() returns (rt: Runtime, es: seq<Event>)
    ensures rt == Fresh(9222, "d", "d", 0) && !Legal(Run(rt, es).sent) && !SafeRun(rt, es)
  {
    var before: seq<Event>;
    rt, before := LeftOpen();
    var b, c, opening := Listing("b", [ANY_PAGE]), Listing("c", [ANY_PAGE]), Ws(WsMessage(1, "v", [], false));
    var r2 := Handle(Handle(Run(rt, before), b), c);
    es := before + [b] + [c] + [opening];
    RunThreeMore(rt, before, b, c, opening);
    TwoListed(Run(rt, before));
    OpeningSetsUp(r2, 1, "v");
    SecondSetupIllegal(r2.sent, Run(rt, es).sent, 1, "w", "v");
    IllegalIsUnsafe(9222, "d", "d", 0, es);
  }

  lemma SecondSetupIllegal(log: seq<Sent>, longer: seq<Sent>, n: nat, open: string, wsId: string)
    requires Open(log, n) == Some(open) && open != wsId
    requires |longer| == |log| + 1 && longer[..|log|] == log
    requires longer[|log|].SentSetup? && longer[|log|].pageNum == n && longer[|log|].senderId == wsId
    ensures !Legal(longer)
  {
    assert !Admits(Open(longer[..|log|], n), longer[|log|], n);
  }
}
