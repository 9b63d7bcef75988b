// How current the published page list is, the senders it shows included.

module PageCache {
  import opened Wrappers
  import opened Rpc
  import opened RuntimeModel
  import opened RuntimeInvariants
  import opened Sessions

  /** The messages after which the page list is published anew. */
  predicate Republishes(e: Event) {
    e.Rpc? && (e.rpc.ApplicationSentListing? || e.rpc.ApplicationDisconnected?)
  }

  /** How many events it took up to the last publication; none if there was none. */
  function LastSync(es: seq<Event>): (k: nat)
    ensures k <= |es|
    decreases |es|
  {
    if es == [] then 0
    else if Republishes(es[|es| - 1]) then |es|
    else LastSync(es[..|es| - 1])
  }

  /** The published list is the projection of the pages as they are, senders included. */
  ghost predicate Current(rt: Runtime) {
    rt.shared.pages == Project(rt.pages)
  }

  // ---------------------------------------------------------------------------
  // Projections
  // ---------------------------------------------------------------------------

  /** Projections are equal exactly when they are of the same numbers and show each page alike. */
  lemma ProjectSameIff(pages: map<nat, PageInfo>, after: map<nat, PageInfo>)
    requires after.Keys == pages.Keys
    ensures Project(after) == Project(pages) <==> forall n | n in pages :: Entry(after[n]) == Entry(pages[n])
  {
    var nums := SortedNums(pages.Keys);
    assert nums == SortedNums(after.Keys);
    if Project(after) == Project(pages) {
      forall n | n in pages ensures Entry(after[n]) == Entry(pages[n]) {
        assert n in nums;
        var i :| 0 <= i < |nums| && nums[i] == n;
        assert Project(after)[i] == Project(pages)[i];
      }
    }
    if forall n | n in pages :: Entry(after[n]) == Entry(pages[n]) {
      forall i | 0 <= i < |nums| ensures Project(after)[i] == Project(pages)[i] {
        assert nums[i] in nums;
      }
    }
  }

  lemma FreshIsCurrent(port: nat, deviceId: string, deviceName: string, osVersion: nat)
    ensures Current(Fresh(port, deviceId, deviceName, osVersion))
  {
    assert SortedNums({}) == [];
  }

  // ---------------------------------------------------------------------------
  // One event
  // ---------------------------------------------------------------------------

  /** The same pages to look at, but for the senders, which follow the clients' openings and closings. */
  predicate OnlySendersMove(pages: map<nat, PageInfo>, after: map<nat, PageInfo>, es: seq<Event>) {
    && after.Keys == pages.Keys
    && forall n | n in pages ::
         Entry(after[n]) == Entry(pages[n]).(senderId := Controls(pages[n].senderId, es, n))
  }

  lemma RepublishingSyncs(rt: Runtime, e: Event)
    requires Republishes(e)
    ensures Current(Handle(rt, e))
  {
  }

  /** The same pages, their sessions aside. */
  predicate SessionsAside(before: map<nat, PageInfo>, after: map<nat, PageInfo>) {
    && after.Keys == before.Keys
    && forall n | n in before ::
         after[n] == before[n].(senderId := after[n].senderId, wsClientId := after[n].wsClientId)
  }

  lemma StopLeavesPages(rt: Runtime, n: nat)
    ensures var r := StopDevtools(rt, n); r.shared == rt.shared && SessionsAside(rt.pages, r.pages)
  {
  }

  lemma OpenLeavesPages(rt: Runtime, wsId: string, n: nat)
    ensures var r := OpenSession(rt, wsId, n); r.shared == rt.shared && SessionsAside(rt.pages, r.pages)
  {
  }

  lemma WsLeavesPages(rt: Runtime, msg: WsMessage)
    ensures var r := HandleWs(rt, msg); r.shared == rt.shared && SessionsAside(rt.pages, r.pages)
  {
    StopLeavesPages(rt, msg.pageNum);
    if !msg.isClose && msg.data == [] {
      var first := if SocketSetup(rt, msg.wsId, msg.pageNum) == OpenSession(rt, msg.wsId, msg.pageNum)
        then rt else StopDevtools(rt, msg.pageNum);
      OpenLeavesPages(first, msg.wsId, msg.pageNum);
    }
  }

  lemma OtherRpcLeavesPages(rt: Runtime, msg: RpcMessage)
    requires !Republishes(Rpc(msg))
    ensures HandleRpc(rt, msg).shared.pages == rt.shared.pages && HandleRpc(rt, msg).pages == rt.pages
  {
    match msg
    case ReportConnectedApplicationList(apps) => AddAppsFrame(if rt.connected then rt else Connect(rt), apps);
    case _ =>
  }

  /** Any other event leaves the published list and, sessions aside, the pages. */
  lemma OthersLeavePages(rt: Runtime, e: Event)
    requires !Republishes(e)
    ensures Handle(rt, e).shared.pages == rt.shared.pages && SessionsAside(rt.pages, Handle(rt, e).pages)
  {
    match e
    case Rpc(msg) => OtherRpcLeavesPages(rt, msg);
    case Ws(msg) => WsLeavesPages(rt, msg);
    case Reg(reg) =>
  }

  /** Any other event leaves the published list, and moves nothing it shows but senders. */
  lemma OthersOnlyMoveSenders(rt: Runtime, e: Event)
    requires !Republishes(e)
    ensures Handle(rt, e).shared.pages == rt.shared.pages
    ensures Handle(rt, e).pages.Keys == rt.pages.Keys
    ensures forall n | n in rt.pages ::
      Entry(Handle(rt, e).pages[n]) == Entry(rt.pages[n]).(senderId := Control(rt.pages[n].senderId, e, n))
  {
    match e
    case Rpc(msg) => OtherRpcLeavesPages(rt, msg);
    case Ws(msg) =>
      WsLeavesPages(rt, msg);
      forall n | n in rt.pages ensures HandleWs(rt, msg).pages[n].senderId == Control(rt.pages[n].senderId, e, n) {
        WsSessionStep(rt, msg, n);
      }
    case Reg(reg) =>
  }

  /**
   * The handling of a client's message leaves a current list current exactly when it leaves the
   * sender of the page it names: the page is gone, or its session was that already.
   */
  lemma StaysCurrentIff(rt: Runtime, msg: WsMessage)
    requires Current(rt)
    ensures Current(HandleWs(rt, msg)) <==>
      (msg.pageNum !in rt.pages ||
       Control(rt.pages[msg.pageNum].senderId, Ws(msg), msg.pageNum) == rt.pages[msg.pageNum].senderId)
  {
    OthersOnlyMoveSenders(rt, Ws(msg));
    ProjectSameIff(rt.pages, HandleWs(rt, msg).pages);
    assert Handle(rt, Ws(msg)) == HandleWs(rt, msg);
    if msg.pageNum in rt.pages {
      var n := msg.pageNum;
      assert Entry(HandleWs(rt, msg).pages[n]).senderId == Control(rt.pages[n].senderId, Ws(msg), n);
      assert Entry(rt.pages[n]).senderId == rt.pages[n].senderId;
    }
  }

  // ---------------------------------------------------------------------------
  // Runs
  // ---------------------------------------------------------------------------

  lemma SplitAtLastSync(es: seq<Event>)
    requires es != [] && !Republishes(es[|es| - 1])
    ensures var front, k := es[..|es| - 1], LastSync(es);
      k == LastSync(front) && es[..k] == front[..k] && es[k..] == front[k..] + [es[|es| - 1]]
  {
  }

  lemma ControlsOneMore(open: Option<string>, es: seq<Event>, e: Event, n: nat)
    ensures Controls(open, es + [e], n) == Control(Controls(open, es, n), e, n)
  {
    assert (es + [e])[..|es + [e]| - 1] == es;
  }

  lemma MoveOneMore(pages: map<nat, PageInfo>, rt: Runtime, es: seq<Event>, e: Event)
    requires !Republishes(e) && OnlySendersMove(pages, rt.pages, es)
    ensures OnlySendersMove(pages, Handle(rt, e).pages, es + [e])
  {
    OthersOnlyMoveSenders(rt, e);
    forall n | n in pages
      ensures Entry(Handle(rt, e).pages[n]) == Entry(pages[n]).(senderId := Controls(pages[n].senderId, es + [e], n))
    {
      ControlsOneMore(pages[n].senderId, es, e, n);
      assert Entry(rt.pages[n]) == Entry(pages[n]).(senderId := Controls(pages[n].senderId, es, n));
      assert Entry(rt.pages[n]).senderId == rt.pages[n].senderId;
    }
  }

  /**
   * After any run the published list is the projection of the pages as they were at the last
   * publication. They are the same pages still, but for their senders, which have followed the
   * openings and closings since.
   */
  lemma {:induction false} ListIsOfLastSync(rt: Runtime, es: seq<Event>)
    requires Current(rt)
    ensures var r, mid := Run(rt, es), Run(rt, es[..LastSync(es)]);
      r.shared.pages == Project(mid.pages) && OnlySendersMove(mid.pages, r.pages, es[LastSync(es)..])
    decreases |es|
  {
    if es != [] {
      var front, e, k := es[..|es| - 1], es[|es| - 1], LastSync(es);
      if Republishes(e) {
        assert es[..k] == es && es[k..] == [];
        RepublishingSyncs(Run(rt, front), e);
      } else {
        SplitAtLastSync(es);
        ListIsOfLastSync(rt, front);
        OthersOnlyMoveSenders(Run(rt, front), e);
        MoveOneMore(Run(rt, es[..k]).pages, Run(rt, front), front[k..], e);
      }
    }
  }

  /** The published list is current exactly when no session has changed hands since it was published. */
  lemma CurrentIff(rt: Runtime, es: seq<Event>)
    requires Current(rt)
    ensures var pages := Run(rt, es[..LastSync(es)]).pages;
      Current(Run(rt, es)) <==>
        forall n | n in pages :: Controls(pages[n].senderId, es[LastSync(es)..], n) == pages[n].senderId
  {
    ListIsOfLastSync(rt, es);
    var pages, after, since := Run(rt, es[..LastSync(es)]).pages, Run(rt, es).pages, es[LastSync(es)..];
    ProjectSameIff(pages, after);
    forall n | n in pages
      ensures Entry(after[n]) == Entry(pages[n]) <==> Controls(pages[n].senderId, since, n) == pages[n].senderId
    {
      assert Entry(pages[n]).senderId == pages[n].senderId;
      assert Entry(after[n]).senderId == Controls(pages[n].senderId, since, n);
    }
  }

  /** The sender a list shows for a page number. */
  ghost function ShownSender(entries: seq<PageEntry>, n: nat): Option<string>
    requires Shows(entries, n)
  {
    var i :| 0 <= i < |entries| && entries[i].pageNum == n;
    entries[i].senderId
  }

  lemma ProjectShows(pages: map<nat, PageInfo>, n: nat)
    requires KeyedByNumber(pages) && n in pages
    ensures Shows(Project(pages), n) && ShownSender(Project(pages), n) == pages[n].senderId
  {
    var nums, entries := SortedNums(pages.Keys), Project(pages);
    assert n in nums;
    var i :| 0 <= i < |nums| && nums[i] == n;
    assert entries[i].pageNum == n;
    forall j | 0 <= j < |entries| && entries[j].pageNum == n ensures entries[j].senderId == pages[n].senderId {
      assert nums[j] in nums;
    }
  }

  /**
   * The sender shown for a live page is the one it had when the list was published last, and so
   * it is the page's own exactly when the openings and closings since then come to the same.
   */
  lemma ShownSenderCurrentIff(rt: Runtime, es: seq<Event>, n: nat)
    requires Coherent(rt) && Current(rt) && n in Run(rt, es).pages
    ensures var r, mid := Run(rt, es), Run(rt, es[..LastSync(es)]);
      && n in mid.pages && Shows(r.shared.pages, n)
      && ShownSender(r.shared.pages, n) == mid.pages[n].senderId
      && (ShownSender(r.shared.pages, n) == r.pages[n].senderId <==>
            Controls(mid.pages[n].senderId, es[LastSync(es)..], n) == mid.pages[n].senderId)
  {
    ListIsOfLastSync(rt, es);
    RunCoherent(rt, es[..LastSync(es)]);
    var mid := Run(rt, es[..LastSync(es)]);
    ProjectShows(mid.pages, n);
    assert Entry(Run(rt, es).pages[n]).senderId == Run(rt, es).pages[n].senderId;
  }

  /** A device reports a page and a client opens it: the list goes on showing the page without a sender. */
  lemma StaleSenderIsShown() returns (rt: Runtime, es: seq<Event>)
    ensures rt == Fresh(9222, "d", "d", 0) && Coherent(rt) && Current(rt)
    ensures var r := Run(rt, es);
      && 1 in r.pages && r.pages[1].senderId == Some("w")
      && Shows(r.shared.pages, 1) && ShownSender(r.shared.pages, 1) == None
      && !Current(r)
  {
    var page := RpcPage(7, WebPage, None, None, None);
    var listing, opening := Rpc(ApplicationSentListing("a", [page])), Ws(WsMessage(1, "w", [], false));
    rt := Fresh(9222, "d", "d", 0);
    es := [listing, opening];
    FreshIsCurrent(9222, "d", "d", 0);
    FirstListing(rt, page);
    var listed := Run(rt, [listing]);
    assert es[..1] == [listing] && es[1..] == [opening] && [opening][..0] == [];
    assert Controls(None, [], 1) == None;
    SplitAtLastSync(es);
    assert LastSync([listing]) == 1;
    ListIsOfLastSync(rt, es);
    ShownSenderCurrentIff(rt, es, 1);
    CurrentIff(rt, es);
  }

  lemma FirstListing(rt: Runtime, page: RpcPage)
    requires rt.pages == map[] && rt.maxPageNum == 0
    ensures var r := Run(rt, [Rpc(ApplicationSentListing("a", [page]))]);
      r.pages == map[1 := NewPage(1, "a", page)] && r.maxPageNum == 1
  {
    var listing := ApplicationSentListing("a", [page]);
    assert [Rpc(listing)][..0] == [] && [page][..0] == [];
    assert ListAll(rt, "a", [page]) == ListOne(rt, "a", page);
    assert [page][0].pageId == page.pageId;
    assert Lists([page], page.pageId);
  }
}
