// The debug-session protocol, read off the log of messages handed to a device.

module Sessions {
  import opened Wrappers
  import opened Rpc
  import opened RuntimeModel
  import opened RuntimeInvariants
  import opened PageIdentity

  /** Whether an entry is about a page, and about which. */
  predicate AboutPage(e: Sent) {
    e.SentSetup? || e.SentData? || e.SentDidClose?
  }

  predicate Concerns(e: Sent, n: nat) {
    AboutPage(e) && e.pageNum == n
  }

  /** The sender that is open on page `n` once the entry has been sent. */
  function After(open: Option<string>, e: Sent, n: nat): Option<string> {
    match e
    case SentSetup(m, _, _, s) => if m == n then Some(s) else open
    case SentDidClose(m, _, _, _) => if m == n then None else open
    case _ => open
  }

  /** The sender open on page `n` according to the log alone. */
  function Open(log: seq<Sent>, n: nat): Option<string>
    decreases |log|
  {
    if log == [] then None else After(Open(log[..|log| - 1], n), log[|log| - 1], n)
  }

  /**
   * A setup finds no sender open, or its own; a close names exactly the open sender; data carries
   * the open sender, or the client it comes from when none is open.
   */
  predicate Admits(open: Option<string>, e: Sent, n: nat) {
    match e
    case SentSetup(m, _, _, s) => m == n ==> open == None || open == Some(s)
    case SentDidClose(m, _, _, s) => m == n ==> open == Some(s)
    case SentData(m, _, _, s, _, w) => m == n ==> s == if open.Some? then open.value else w
    case _ => true
  }

  ghost predicate Legal(log: seq<Sent>) {
    forall n: nat, i | 0 <= i < |log| :: Admits(Open(log[..i], n), log[i], n)
  }

  predicate SameTarget(e: Sent, f: Sent) {
    AboutPage(e) && AboutPage(f) && e.pageNum == f.pageNum ==> e.appId == f.appId && e.pageId == f.pageId
  }

  /** Entries about the same page number name the same application and page. */
  predicate TargetsFixed(log: seq<Sent>) {
    forall i, j | 0 <= i < |log| && 0 <= j < |log| :: SameTarget(log[i], log[j])
  }

  /** An entry about a live page names that page's own application and identifier. */
  predicate Names(e: Sent, rt: Runtime) {
    AboutPage(e) ==>
      && e.pageNum <= rt.maxPageNum
      && (e.pageNum in rt.pages ==> e.appId == rt.pages[e.pageNum].appId && e.pageId == rt.pages[e.pageNum].pageId)
  }

  /** The log obeys the protocol and the live pages' session fields say what the log says. */
  ghost predicate Recorded(rt: Runtime) {
    && Legal(rt.sent)
    && TargetsFixed(rt.sent)
    && (forall n | n in rt.pages :: Open(rt.sent, n) == rt.pages[n].senderId)
    && (forall i | 0 <= i < |rt.sent| :: Names(rt.sent[i], rt))
  }

  lemma AppendOpen(log: seq<Sent>, e: Sent, n: nat)
    ensures Open(log + [e], n) == After(Open(log, n), e, n)
  {
    assert (log + [e])[..|log + [e]| - 1] == log;
  }

  lemma AppendLegal(log: seq<Sent>, e: Sent)
    requires Legal(log)
    requires forall n :: Admits(Open(log, n), e, n)
    ensures Legal(log + [e])
  {
    var all := log + [e];
    forall n: nat, i | 0 <= i < |all| ensures Admits(Open(all[..i], n), all[i], n) {
      if i < |log| {
        assert all[..i] == log[..i];
      } else {
        assert all[..i] == log;
      }
    }
  }

  lemma {:induction false} SilentOpen(log: seq<Sent>, n: nat)
    requires forall i | 0 <= i < |log| :: !Concerns(log[i], n)
    ensures Open(log, n) == None
    decreases |log|
  {
    if log != [] {
      SilentOpen(log[..|log| - 1], n);
    }
  }

  // ---------------------------------------------------------------------------
  // Steps that send nothing about a page
  // ---------------------------------------------------------------------------

  /** Survivors keep page and session; the other pages of `r` are new and have no session. */
  predicate Quiet(rt: Runtime, r: Runtime) {
    && rt.maxPageNum <= r.maxPageNum
    && forall n | n in r.pages ::
         if n in rt.pages then SamePage(r.pages[n], rt.pages[n]) && r.pages[n].senderId == rt.pages[n].senderId
         else n > rt.maxPageNum && r.pages[n].senderId == None
  }

  lemma QuietRecorded(rt: Runtime, r: Runtime)
    requires Recorded(rt) && Quiet(rt, r) && r.sent == rt.sent
    ensures Recorded(r)
  {
    forall n | n in r.pages ensures Open(r.sent, n) == r.pages[n].senderId {
      if n !in rt.pages {
        forall i | 0 <= i < |rt.sent| ensures !Concerns(rt.sent[i], n) {
          assert Names(rt.sent[i], rt);
        }
        SilentOpen(rt.sent, n);
      }
    }
    forall i | 0 <= i < |r.sent| ensures Names(r.sent[i], r) {
      assert Names(rt.sent[i], rt);
    }
  }

  lemma AddAppIdRecorded(rt: Runtime, appId: string)
    requires Recorded(rt)
    ensures Recorded(AddAppId(rt, appId))
  {
    if appId !in rt.appIds {
      var e := SentGetListing(appId);
      var r := AddAppId(rt, appId);
      AppendLegal(rt.sent, e);
      forall n | n in r.pages ensures Open(r.sent, n) == r.pages[n].senderId {
        AppendOpen(rt.sent, e, n);
      }
      forall i | 0 <= i < |r.sent| ensures Names(r.sent[i], r) {
        if i < |rt.sent| { assert Names(rt.sent[i], rt); }
      }
    }
  }

  lemma {:induction false} AddAppsRecorded(rt: Runtime, apps: seq<RpcApp>)
    requires Recorded(rt)
    ensures Recorded(AddApps(rt, apps))
    decreases |apps|
  {
    if apps != [] {
      AddAppIdRecorded(rt, apps[0].appId);
      var r := AddAppId(rt, apps[0].appId).(currentApp := Some(apps[0]));
      QuietRecorded(AddAppId(rt, apps[0].appId), r);
      AddAppsRecorded(r, apps[1..]);
    }
  }

  lemma ListOneQuiet(rt: Runtime, appId: string, page: RpcPage)
    requires Numbered(rt) && FitsOne(rt, appId, page)
    ensures Quiet(rt, ListOne(rt, appId, page))
  {
  }

  lemma QuietTwice(rt: Runtime, mid: Runtime, r: Runtime)
    requires Numbered(rt) && Quiet(rt, mid) && Quiet(mid, r)
    ensures Quiet(rt, r)
  {
  }

  lemma {:induction false} ListAllQuiet(rt: Runtime, appId: string, listed: seq<RpcPage>)
    requires Numbered(rt) && FitsAll(rt, appId, listed)
    ensures Quiet(rt, ListAll(rt, appId, listed))
    decreases |listed|
  {
    if listed != [] {
      var front, row := listed[..|listed| - 1], listed[|listed| - 1];
      var mid := ListAll(rt, appId, front);
      ListAllQuiet(rt, appId, front);
      ListAllKeepsNumbers(rt, appId, front);
      ListOneQuiet(mid, appId, row);
      QuietTwice(rt, mid, ListOne(mid, appId, row));
    }
  }

  lemma PageListingRecorded(rt: Runtime, appId: string, listed: seq<RpcPage>)
    requires Numbered(rt) && Recorded(rt) && FitsAll(rt, appId, listed)
    ensures Recorded(PageListing(rt, appId, listed))
  {
    ListAllQuiet(rt, appId, listed);
    ListAllFrame(rt, appId, listed);
    QuietRecorded(rt, PageListing(rt, appId, listed));
  }

  lemma HandleRpcRecorded(rt: Runtime, msg: RpcMessage)
    requires Numbered(rt) && Recorded(rt) && Fits(rt, Rpc(msg))
    ensures Recorded(HandleRpc(rt, msg))
  {
    match msg
    case ReportConnectedApplicationList(apps) =>
      QuietRecorded(rt, Connect(rt));
      AddAppsRecorded(if rt.connected then rt else Connect(rt), apps);
    case ApplicationConnected(app) =>
      QuietRecorded(rt, rt.(currentApp := Some(app)));
      AddAppIdRecorded(rt.(currentApp := Some(app)), app.appId);
    case ApplicationUpdated(_, updatedId) =>
      AddAppIdRecorded(rt, updatedId);
    case ApplicationSentListing(appId, pages) =>
      PageListingRecorded(rt, appId, pages);
    case _ =>
      QuietRecorded(rt, HandleRpc(rt, msg));
  }

  // ---------------------------------------------------------------------------
  // Steps that talk about a page
  // ---------------------------------------------------------------------------

  /** One more entry about a live page keeps the record if it is admitted and the fields follow. */
  lemma AppendRecorded(rt: Runtime, r: Runtime, n: nat, e: Sent)
    requires Recorded(rt) && Numbered(rt) && n in rt.pages
    requires Concerns(e, n) && e.appId == rt.pages[n].appId && e.pageId == rt.pages[n].pageId
    requires Admits(Open(rt.sent, n), e, n)
    requires r.sent == rt.sent + [e] && r.maxPageNum == rt.maxPageNum && SameNumbers(rt.pages, r.pages)
    requires forall m | m in rt.pages && m != n :: r.pages[m] == rt.pages[m]
    requires r.pages[n].senderId == After(rt.pages[n].senderId, e, n)
    ensures Recorded(r)
  {
    AppendLegal(rt.sent, e);
    forall m | m in r.pages ensures Open(r.sent, m) == r.pages[m].senderId {
      AppendOpen(rt.sent, e, m);
    }
    forall i | 0 <= i < |r.sent| ensures Names(r.sent[i], r) {
      if i < |rt.sent| { assert Names(rt.sent[i], rt); }
    }
    forall i, j | 0 <= i < |r.sent| && 0 <= j < |r.sent| ensures SameTarget(r.sent[i], r.sent[j]) {
      assert Names(r.sent[i], r) && Names(r.sent[j], r);
      if i < |rt.sent| && j < |rt.sent| {
        assert SameTarget(rt.sent[i], rt.sent[j]);
      }
    }
  }

  lemma StopDevtoolsRecorded(rt: Runtime, n: nat)
    requires Numbered(rt) && Recorded(rt)
    ensures Recorded(StopDevtools(rt, n))
  {
    if n in rt.pages && rt.pages[n].senderId.Some? {
      var p := rt.pages[n];
      AppendRecorded(rt, StopDevtools(rt, n), n, SentDidClose(n, p.appId, p.pageId, p.senderId.value));
    }
  }

  lemma OpenSessionRecorded(rt: Runtime, wsId: string, n: nat)
    requires Numbered(rt) && Recorded(rt)
    requires n in rt.pages ==> rt.pages[n].senderId == None || rt.pages[n].senderId == Some(wsId)
    ensures Recorded(OpenSession(rt, wsId, n))
  {
    if n in rt.pages {
      var p := rt.pages[n];
      AppendRecorded(rt, OpenSession(rt, wsId, n), n, SentSetup(n, p.appId, p.pageId, wsId));
    }
  }

  lemma SocketSetupRecorded(rt: Runtime, wsId: string, n: nat)
    requires Coherent(rt) && Numbered(rt) && Recorded(rt)
    ensures Recorded(SocketSetup(rt, wsId, n))
  {
    StopDevtoolsRecorded(rt, n);
    if n in rt.pages && rt.pages[n].wsClientId.Some? && rt.pages[n].wsClientId.value != wsId {
      OpenSessionRecorded(StopDevtools(rt, n), wsId, n);
    } else {
      OpenSessionRecorded(rt, wsId, n);
    }
  }

  lemma ForwardDataRecorded(rt: Runtime, msg: WsMessage)
    requires Numbered(rt) && Recorded(rt)
    ensures Recorded(ForwardData(rt, msg))
  {
    if msg.pageNum in rt.pages {
      var r := ForwardData(rt, msg);
      AppendRecorded(rt, r, msg.pageNum, r.sent[|rt.sent|]);
    }
  }

  lemma HandleWsRecorded(rt: Runtime, msg: WsMessage)
    requires Coherent(rt) && Numbered(rt) && Recorded(rt)
    ensures Recorded(HandleWs(rt, msg))
  {
    if msg.isClose {
      StopDevtoolsRecorded(rt, msg.pageNum);
      QuietRecorded(StopDevtools(rt, msg.pageNum), HandleWs(rt, msg));
    } else if msg.data == [] {
      SocketSetupRecorded(rt, msg.wsId, msg.pageNum);
    } else {
      ForwardDataRecorded(rt, msg);
    }
  }

  // ---------------------------------------------------------------------------
  // Runs
  // ---------------------------------------------------------------------------

  lemma StepRecorded(rt: Runtime, e: Event)
    requires Coherent(rt) && Numbered(rt) && Recorded(rt) && Fits(rt, e)
    ensures Recorded(Handle(rt, e))
  {
    match e
    case Rpc(msg) => HandleRpcRecorded(rt, msg);
    case Ws(msg) => HandleWsRecorded(rt, msg);
    case Reg(reg) => QuietRecorded(rt, Register(rt, reg));
  }

  lemma {:induction false} RunRecorded(rt: Runtime, es: seq<Event>)
    requires Coherent(rt) && Numbered(rt) && Recorded(rt) && NeverWraps(rt, es)
    ensures Recorded(Run(rt, es))
    decreases |es|
  {
    if es != [] {
      var front := es[..|es| - 1];
      RunRecorded(rt, front);
      RunCoherent(rt, front);
      RunKeepsNumbers(rt, front);
      StepRecorded(Run(rt, front), es[|es| - 1]);
    }
  }

  /**
   * The protocol over every run of one attached device: each setup finds no other sender open on
   * its page number, each close names exactly the open sender, data carries the open sender, every
   * entry about a number names the same page (the live one, if it is live), and for live pages the
   * log, `sender_id` and `ws_client_id` agree.
   */
  lemma SessionProtocol(port: nat, deviceId: string, deviceName: string, osVersion: nat, es: seq<Event>)
    requires NeverWraps(Fresh(port, deviceId, deviceName, osVersion), es)
    ensures var r := Run(Fresh(port, deviceId, deviceName, osVersion), es);
      && Legal(r.sent)
      && TargetsFixed(r.sent)
      && (forall i | 0 <= i < |r.sent| :: Names(r.sent[i], r))
      && forall n | n in r.pages :: Open(r.sent, n) == r.pages[n].senderId == r.pages[n].wsClientId
  {
    var rt := Fresh(port, deviceId, deviceName, osVersion);
    assert rt.sent[..0] == [];
    assert Recorded(rt);
    RunRecorded(rt, es);
    RunCoherent(rt, es);
  }

  /** An empty frame opens a session for its client; a close ends whatever is open. */
  function Control(open: Option<string>, e: Event, n: nat): Option<string> {
    if e.Ws? && e.ws.pageNum == n then
      if e.ws.isClose then None
      else if e.ws.data == [] then Some(e.ws.wsId)
      else open
    else open
  }

  /** What the clients alone say about page `n`, without reference to the proxy's state. */
  function Controls(open: Option<string>, es: seq<Event>, n: nat): Option<string>
    decreases |es|
  {
    if es == [] then open else Control(Controls(open, es[..|es| - 1], n), es[|es| - 1], n)
  }

  lemma WsSessionStep(rt: Runtime, msg: WsMessage, n: nat)
    requires n in rt.pages
    ensures n in HandleWs(rt, msg).pages
    ensures HandleWs(rt, msg).pages[n].senderId == Control(rt.pages[n].senderId, Ws(msg), n)
  {
    assert n in StopDevtools(rt, msg.pageNum).pages;
  }

  /**
   * A close ends the session of the page it names, whoever opened it: the other clients' sessions
   * survive exactly when the page is gone, has no session, or has the closing client's own.
   */
  lemma CloseSparesOthersIff(rt: Runtime, msg: WsMessage)
    requires Coherent(rt) && msg.isClose
    ensures (forall n | n in rt.pages && rt.pages[n].senderId.Some? && rt.pages[n].senderId != Some(msg.wsId) ::
               HandleWs(rt, msg).pages[n].senderId == rt.pages[n].senderId)
       <==> (msg.pageNum !in rt.pages || rt.pages[msg.pageNum].senderId == None ||
             rt.pages[msg.pageNum].senderId == Some(msg.wsId))
  {
    var r := HandleWs(rt, msg);
    if msg.pageNum in rt.pages && rt.pages[msg.pageNum].senderId.Some? {
      assert r.pages[msg.pageNum].senderId == None;
    }
  }

  /** A client whose session was taken over still ends the newer one when it closes. */
  lemma SupersededClientEndsNewSession(rt: Runtime, n: nat, a: string, b: string)
    requires Coherent(rt) && n in rt.pages && rt.pages[n].senderId == None && a != b
    ensures var r1 := HandleWs(rt, WsMessage(n, a, [], false));
      var r2 := HandleWs(r1, WsMessage(n, b, [], false));
      var r3 := HandleWs(r2, WsMessage(n, a, [], true));
      var p := rt.pages[n];
      && n in r2.pages && r2.pages[n].senderId == Some(b)
      && n in r3.pages && r3.pages[n].senderId == None
      && r3.sent == rt.sent + [SentSetup(n, p.appId, p.pageId, a), SentDidClose(n, p.appId, p.pageId, a),
                               SentSetup(n, p.appId, p.pageId, b), SentDidClose(n, p.appId, p.pageId, b)]
  {
  }
}
