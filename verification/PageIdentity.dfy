// Page numbers over the lifetime of a device, and what an overflow of their counter does to them.

module PageIdentity {
  import opened Wrappers
  import opened Rpc
  import opened RuntimeModel
  import opened RuntimeInvariants

  // ---------------------------------------------------------------------------
  // Runs in which the page counter does not overflow
  // ---------------------------------------------------------------------------

  ghost predicate FitsOne(rt: Runtime, appId: string, page: RpcPage) {
    Holds(rt.pages, appId, page.pageId) || rt.maxPageNum < U32_MAX
  }

  /** Every `max_page_num += 1` of a listing finds the counter below its largest value. */
  ghost predicate FitsAll(rt: Runtime, appId: string, listed: seq<RpcPage>)
    decreases |listed|
  {
    listed == [] ||
    (FitsAll(rt, appId, listed[..|listed| - 1]) &&
     FitsOne(ListAll(rt, appId, listed[..|listed| - 1]), appId, listed[|listed| - 1]))
  }

  ghost predicate Fits(rt: Runtime, e: Event) {
    e.Rpc? && e.rpc.ApplicationSentListing? ==> FitsAll(rt, e.rpc.appId, e.rpc.pages)
  }

  ghost predicate NeverWraps(rt: Runtime, es: seq<Event>)
    decreases |es|
  {
    es == [] || (NeverWraps(rt, es[..|es| - 1]) && Fits(Run(rt, es[..|es| - 1]), es[|es| - 1]))
  }

  /** Live numbers lie between one and the counter. */
  predicate Numbered(rt: Runtime) {
    rt.maxPageNum <= U32_MAX && forall n | n in rt.pages :: 1 <= n <= rt.maxPageNum
  }

  predicate SamePage(p: PageInfo, q: PageInfo) {
    p.appId == q.appId && p.pageId == q.pageId && p.pageType == q.pageType
  }

  /** From `rt` to `r` no number that was issued before changes its meaning or comes back. */
  predicate KeepsNumbers(rt: Runtime, r: Runtime) {
    && rt.maxPageNum <= r.maxPageNum
    && forall n | n in r.pages && n <= rt.maxPageNum :: n in rt.pages && SamePage(r.pages[n], rt.pages[n])
  }

  lemma {:induction false} ListAllKeepsNumbers(rt: Runtime, appId: string, listed: seq<RpcPage>)
    requires Numbered(rt) && FitsAll(rt, appId, listed)
    ensures var r := ListAll(rt, appId, listed); Numbered(r) && KeepsNumbers(rt, r)
    decreases |listed|
  {
    if listed != [] {
      ListAllKeepsNumbers(rt, appId, listed[..|listed| - 1]);
    }
  }

  /** The two tables hold the same page under each number, sessions aside. */
  predicate SameNumbers(pages: map<nat, PageInfo>, after: map<nat, PageInfo>) {
    after.Keys == pages.Keys && forall n | n in pages :: SamePage(after[n], pages[n])
  }

  lemma StopKeepsNumbers(rt: Runtime, n: nat)
    ensures var r := StopDevtools(rt, n); r.maxPageNum == rt.maxPageNum && SameNumbers(rt.pages, r.pages)
  {
  }

  lemma OpenKeepsNumbers(rt: Runtime, wsId: string, n: nat)
    ensures var r := OpenSession(rt, wsId, n); r.maxPageNum == rt.maxPageNum && SameNumbers(rt.pages, r.pages)
  {
  }

  lemma WsKeepsNumbers(rt: Runtime, msg: WsMessage)
    ensures var r := HandleWs(rt, msg); r.maxPageNum == rt.maxPageNum && SameNumbers(rt.pages, r.pages)
  {
    StopKeepsNumbers(rt, msg.pageNum);
    if !msg.isClose && msg.data == [] {
      var first := if SocketSetup(rt, msg.wsId, msg.pageNum) == OpenSession(rt, msg.wsId, msg.pageNum)
        then rt else StopDevtools(rt, msg.pageNum);
      OpenKeepsNumbers(first, msg.wsId, msg.pageNum);
    }
  }

  lemma ListingKeepsNumbers(rt: Runtime, appId: string, listed: seq<RpcPage>)
    requires Numbered(rt) && FitsAll(rt, appId, listed)
    ensures var r := PageListing(rt, appId, listed); Numbered(r) && KeepsNumbers(rt, r)
  {
    ListAllKeepsNumbers(rt, appId, listed);
  }

  lemma RpcKeepsNumbers(rt: Runtime, msg: RpcMessage)
    requires Numbered(rt) && Fits(rt, Rpc(msg))
    ensures Numbered(HandleRpc(rt, msg)) && KeepsNumbers(rt, HandleRpc(rt, msg))
  {
    match msg
    case ReportConnectedApplicationList(apps) =>
      AddAppsFrame(if rt.connected then rt else Connect(rt), apps);
    case ApplicationSentListing(appId, pages) =>
      ListingKeepsNumbers(rt, appId, pages);
    case _ =>
  }

  lemma StepKeepsNumbers(rt: Runtime, e: Event)
    requires Numbered(rt) && Fits(rt, e)
    ensures Numbered(Handle(rt, e)) && KeepsNumbers(rt, Handle(rt, e))
  {
    match e
    case Rpc(msg) => RpcKeepsNumbers(rt, msg);
    case Ws(msg) => WsKeepsNumbers(rt, msg);
    case Reg(reg) =>
  }

  /**
   * Over a whole run: a number issued before the run is live afterwards only if it was live all
   * along, and then it still denotes the same page of the same application. A number whose page
   * has gone never comes back.
   */
  lemma {:induction false} RunKeepsNumbers(rt: Runtime, es: seq<Event>)
    requires Numbered(rt) && NeverWraps(rt, es)
    ensures Numbered(Run(rt, es)) && KeepsNumbers(rt, Run(rt, es))
    decreases |es|
  {
    if es != [] {
      RunKeepsNumbers(rt, es[..|es| - 1]);
      StepKeepsNumbers(Run(rt, es[..|es| - 1]), es[|es| - 1]);
    }
  }

  lemma {:induction false} NeverWrapsSplit(rt: Runtime, a: seq<Event>, b: seq<Event>)
    requires NeverWraps(rt, a + b)
    ensures NeverWraps(rt, a) && NeverWraps(Run(rt, a), b)
    decreases |b|
  {
    if b == [] {
      assert a + b == a;
    } else {
      var b', e := b[..|b| - 1], b[|b| - 1];
      assert (a + b)[..|a + b| - 1] == a + b' && (a + b)[|a + b| - 1] == e;
      NeverWrapsSplit(rt, a, b');
      RunAppend(rt, a, b');
    }
  }

  /** Any two moments of one device's lifetime agree on what a page number denotes. */
  lemma NumberDenotesOnePage(rt: Runtime, a: seq<Event>, b: seq<Event>, n: nat)
    requires Numbered(rt) && NeverWraps(rt, a + b)
    requires n in Run(rt, a).pages && n in Run(rt, a + b).pages
    ensures SamePage(Run(rt, a).pages[n], Run(rt, a + b).pages[n])
  {
    NeverWrapsSplit(rt, a, b);
    RunAppend(rt, a, b);
    RunKeepsNumbers(rt, a);
    RunKeepsNumbers(Run(rt, a), b);
  }

  // ---------------------------------------------------------------------------
  // Exactly when numbers are kept
  // ---------------------------------------------------------------------------

  /** One listed page keeps the numbers exactly when it is held already or the counter can still count. */
  lemma ListOneKeepsNumbersIff(rt: Runtime, appId: string, page: RpcPage)
    requires Numbered(rt)
    ensures KeepsNumbers(rt, ListOne(rt, appId, page)) <==> FitsOne(rt, appId, page)
  {
    if !FitsOne(rt, appId, page) {
      assert 0 in ListOne(rt, appId, page).pages;
    }
  }

  /** The number zero is live, and under it a page of the listing. */
  predicate ZeroIssued(pages: map<nat, PageInfo>, appId: string, listed: seq<RpcPage>) {
    0 in pages && pages[0].appId == appId && Lists(listed, pages[0].pageId)
  }

  lemma ListsMore(listed: seq<RpcPage>, row: RpcPage, pageId: nat)
    ensures Lists(listed + [row], pageId) <==> Lists(listed, pageId) || row.pageId == pageId
  {
    var all := listed + [row];
    assert all[|listed|] == row;
    forall i | 0 <= i < |listed| ensures all[i] == listed[i] {}
  }

  lemma ZeroStaysIssued(mid: Runtime, appId: string, listed: seq<RpcPage>, row: RpcPage)
    requires ZeroIssued(mid.pages, appId, listed)
    ensures ZeroIssued(ListOne(mid, appId, row).pages, appId, listed + [row])
  {
    ListsMore(listed, row, ListOne(mid, appId, row).pages[0].pageId);
  }

  lemma OverflowIssuesZero(mid: Runtime, appId: string, listed: seq<RpcPage>, row: RpcPage)
    requires Numbered(mid) && !FitsOne(mid, appId, row)
    ensures ZeroIssued(ListOne(mid, appId, row).pages, appId, listed + [row])
  {
    ListsMore(listed, row, row.pageId);
  }

  lemma {:induction false} OverflowShows(rt: Runtime, appId: string, listed: seq<RpcPage>)
    requires Numbered(rt) && !FitsAll(rt, appId, listed)
    ensures ZeroIssued(ListAll(rt, appId, listed).pages, appId, listed)
    decreases |listed|
  {
    var front, row := listed[..|listed| - 1], listed[|listed| - 1];
    var mid := ListAll(rt, appId, front);
    assert listed == front + [row];
    if FitsAll(rt, appId, front) {
      ListAllKeepsNumbers(rt, appId, front);
      OverflowIssuesZero(mid, appId, front, row);
    } else {
      OverflowShows(rt, appId, front);
      ZeroStaysIssued(mid, appId, front, row);
    }
  }

  lemma ListingKeepsNumbersIff(rt: Runtime, appId: string, listed: seq<RpcPage>)
    requires Numbered(rt)
    ensures KeepsNumbers(rt, PageListing(rt, appId, listed)) <==> FitsAll(rt, appId, listed)
  {
    if FitsAll(rt, appId, listed) {
      ListingKeepsNumbers(rt, appId, listed);
    } else {
      OverflowShows(rt, appId, listed);
      assert 0 in PageListing(rt, appId, listed).pages;
    }
  }

  /** An event keeps the numbers issued so far exactly when the counter does not overflow in it. */
  lemma StepKeepsNumbersIff(rt: Runtime, e: Event)
    requires Numbered(rt)
    ensures KeepsNumbers(rt, Handle(rt, e)) <==> Fits(rt, e)
  {
    if Fits(rt, e) {
      StepKeepsNumbers(rt, e);
    } else {
      ListingKeepsNumbersIff(rt, e.rpc.appId, e.rpc.pages);
    }
  }

  ghost predicate EachStepKeepsNumbers(rt: Runtime, es: seq<Event>)
    decreases |es|
  {
    es == [] ||
    (EachStepKeepsNumbers(rt, es[..|es| - 1]) && KeepsNumbers(Run(rt, es[..|es| - 1]), Run(rt, es)))
  }

  /** Along a run every step keeps the numbers issued so far exactly when the counter never overflows. */
  lemma {:induction false} RunKeepsNumbersIff(rt: Runtime, es: seq<Event>)
    requires Numbered(rt)
    ensures EachStepKeepsNumbers(rt, es) <==> NeverWraps(rt, es)
    decreases |es|
  {
    if es != [] {
      var front := es[..|es| - 1];
      RunKeepsNumbersIff(rt, front);
      if NeverWraps(rt, front) {
        RunKeepsNumbers(rt, front);
        StepKeepsNumbersIff(Run(rt, front), es[|es| - 1]);
      }
    }
  }

  /** The number issued next is not in use, if the page needs one. */
  predicate FreeOne(rt: Runtime, appId: string, page: RpcPage) {
    Holds(rt.pages, appId, page.pageId) || NextNum(rt.maxPageNum) !in rt.pages
  }

  /** The live numbers of `pages` are live afterwards and denote the same pages. */
  predicate KeepsLive(pages: map<nat, PageInfo>, after: map<nat, PageInfo>) {
    forall n | n in pages :: n in after && SamePage(after[n], pages[n])
  }

  /**
   * One listed page leaves every live number its meaning exactly when it needs no fresh number or
   * gets an unused one. Unlike the above this says nothing about numbers whose pages have gone.
   */
  lemma ListOneKeepsLiveIff(rt: Runtime, appId: string, page: RpcPage)
    ensures KeepsLive(rt.pages, ListOne(rt, appId, page).pages) <==> FreeOne(rt, appId, page)
  {
    var n := NextNum(rt.maxPageNum);
    if !FreeOne(rt, appId, page) {
      assert !IsPage(rt.pages[n], appId, page.pageId);
      assert !SamePage(ListOne(rt, appId, page).pages[n], rt.pages[n]);
    }
  }

  // ---------------------------------------------------------------------------
  // A run in which a live number changes its meaning
  // ---------------------------------------------------------------------------

  const ANY_PAGE := RpcPage(7, WebPage, None, None, None)

  function Listing(appId: string, listed: seq<RpcPage>): Event {
    Rpc(ApplicationSentListing(appId, listed))
  }

  /** The only page is the first one, of application "a", and the counter stands at `m`. */
  predicate OnlyFirst(rt: Runtime, m: nat) {
    rt.pages == map[1 := NewPage(1, "a", ANY_PAGE)] && rt.maxPageNum == m
  }

  lemma ListAnyPage(rt: Runtime, appId: string)
    requires !Holds(rt.pages, appId, ANY_PAGE.pageId)
    ensures var r, n := Handle(rt, Listing(appId, [ANY_PAGE])), NextNum(rt.maxPageNum);
      && r.maxPageNum == n && n in r.pages && r.pages[n] == NewPage(n, appId, ANY_PAGE)
      && forall k | k != n :: (k in r.pages <==> k in rt.pages && rt.pages[k].appId != appId) &&
                              (k in r.pages ==> r.pages[k] == rt.pages[k])
  {
    var listed := [ANY_PAGE];
    assert listed[..0] == [] && listed[0].pageId == ANY_PAGE.pageId;
    assert ListAll(rt, appId, listed) == ListOne(rt, appId, ANY_PAGE);
    assert Lists(listed, ANY_PAGE.pageId);
    forall k | k in rt.pages && rt.pages[k].appId == appId ensures !Lists(listed, rt.pages[k].pageId) {
      assert !IsPage(rt.pages[k], appId, ANY_PAGE.pageId);
    }
  }

  /** Application "b" lists a page and then none: one more number is used up. */
  function OneRound(): seq<Event> {
    [Listing("b", [ANY_PAGE]), Listing("b", [])]
  }

  lemma ListNone(rt: Runtime, appId: string)
    ensures var r := Handle(rt, Listing(appId, []));
      r.maxPageNum == rt.maxPageNum && r.pages == WithoutApp(rt.pages, appId)
  {
    assert ListAll(rt, appId, []) == rt;
  }

  lemma RunTwo(rt: Runtime, d: Event, e: Event)
    ensures Run(rt, [d, e]) == Handle(Handle(rt, d), e)
  {
    var es := [d, e];
    assert es[..1] == [d] && [d][..0] == [];
    assert Run(rt, [d]) == Handle(rt, d);
  }

  lemma RoundCounts(rt: Runtime, m: nat)
    requires OnlyFirst(rt, m) && NextNum(m) != 1
    ensures OnlyFirst(Run(rt, OneRound()), NextNum(m))
  {
    var listed := Handle(rt, Listing("b", [ANY_PAGE]));
    RunTwo(rt, Listing("b", [ANY_PAGE]), Listing("b", []));
    ListAnyPage(rt, "b");
    ListNone(listed, "b");
    assert WithoutApp(listed.pages, "b") == rt.pages;
  }

  lemma {:induction false} CountTo(rt: Runtime, m: nat) returns (es: seq<Event>)
    requires rt.pages == map[] && rt.maxPageNum == 0 && 1 <= m <= U32_MAX
    ensures OnlyFirst(Run(rt, es), m)
    decreases m
  {
    if m == 1 {
      es := [Listing("a", [ANY_PAGE])];
      assert es[..0] == [];
      ListAnyPage(rt, "a");
      assert Run(rt, es).pages == map[1 := NewPage(1, "a", ANY_PAGE)];
    } else {
      var before := CountTo(rt, m - 1);
      es := before + OneRound();
      RunAppend(rt, before, OneRound());
      RoundCounts(Run(rt, before), m - 1);
    }
  }

  /** From a freshly attached device, events after which the live number 1 is given to another page. */
  lemma WrapAroundReusesNumber() returns (rt: Runtime, es: seq<Event>, e: Event)
    ensures rt == Fresh(9222, "d", "d", 0)
    ensures var before, after := Run(rt, es), Run(rt, es + [e]);
      1 in before.pages && before.pages[1].appId == "a" && 1 in after.pages && after.pages[1].appId == "b"
  {
    rt := Fresh(9222, "d", "d", 0);
    var toMax := CountTo(rt, U32_MAX);
    es, e := toMax + OneRound(), Listing("b", [ANY_PAGE]);
    RunAppend(rt, toMax, OneRound());
    RoundCounts(Run(rt, toMax), U32_MAX);
    assert (es + [e])[..|es + [e]| - 1] == es;
    ListAnyPage(Run(rt, es), "b");
  }
}
