// Which pages a device holds, and what they show, as a matter of the messages it has sent.

module PageTables {
  import opened Wrappers
  import opened Rpc
  import opened RuntimeModel
  import opened RuntimeInvariants
  import opened PageIdentity
  import opened PageListings
  import opened ListingLimits
  import PC = PageCache

  // ---------------------------------------------------------------------------
  // An application disconnects
  // ---------------------------------------------------------------------------

  /**
   * An application that disconnects takes its own pages with it and no others. The pages that
   * stay keep their number and everything about them, and the published list shows exactly them.
   */
  lemma DisconnectionTakesItsPages(rt: Runtime, app: RpcApp)
    requires Coherent(rt)
    ensures var r := HandleRpc(rt, ApplicationDisconnected(app));
      && (forall n :: n in r.pages <==> n in rt.pages && rt.pages[n].appId != app.appId)
      && (forall n | n in r.pages :: r.pages[n] == rt.pages[n])
      && (forall a :: a in r.appIds <==> a in rt.appIds && a != app.appId)
      && CacheAgrees(r.shared.pages, r.pages) && r.shared.connected == rt.shared.connected
      && r == rt.(pages := r.pages, appIds := r.appIds, shared := r.shared)
  {
    RemoveAppIdCoherent(rt, app.appId);
  }

  // ---------------------------------------------------------------------------
  // The page table as a fold of listings and disconnections
  // ---------------------------------------------------------------------------

  /** What the rows of its listings say about a page. */
  datatype Details = Details(
    pageType: PageType,
    connectionId: Option<string>,
    title: Option<string>,
    url: Option<string>)

  /**
   * The page `pageId` of `appId` after the events `es`, none before them: it is there if the last
   * listing for the application names it and the application has not disconnected since. It shows
   * the last row that named it, and the type of the first since it appeared.
   */
  function Recorded(es: seq<Event>, appId: string, pageId: nat): Option<Details>
    decreases |es|
  {
    if es == [] then None
    else
      var before := Recorded(es[..|es| - 1], appId, pageId);
      match es[|es| - 1]
      case Rpc(ApplicationSentListing(listing, rows)) =>
        if listing != appId then before
        else if exists i | 0 <= i < |rows| :: rows[i].pageId == pageId then
          assert Lists(rows, pageId);
          var first, last := FirstOf(rows, pageId), LastOf(rows, pageId);
          Some(Details(if before.Some? then before.value.pageType else first.pageType,
                       last.connectionId, last.title, last.url))
        else None
      case Rpc(ApplicationDisconnected(app)) => if app.appId == appId then None else before
      case _ => before
  }

  /** Whether a listing is handled with numbers enough: those after the counter, one a new id, are not in use. */
  ghost predicate ListsWithRoom(rt: Runtime, e: Event) {
    e.Rpc? && e.rpc.ApplicationSentListing? ==> RoomFor(rt, |NewIds(rt.pages, e.rpc.appId, e.rpc.pages)|)
  }

  ghost predicate RunsWithRoom(rt: Runtime, es: seq<Event>)
    decreases |es|
  {
    es == [] || (RunsWithRoom(rt, es[..|es| - 1]) && ListsWithRoom(Run(rt, es[..|es| - 1]), es[|es| - 1]))
  }

  /** The table holds what is recorded and nothing else. */
  ghost predicate Keeps(pages: map<nat, PageInfo>, es: seq<Event>) {
    && (forall n | n in pages ::
          Recorded(es, pages[n].appId, pages[n].pageId) ==
          Some(Details(pages[n].pageType, pages[n].connectionId, pages[n].title, pages[n].url)))
    && (forall appId, pageId | Recorded(es, appId, pageId).Some? ::
          exists n | n in pages :: pages[n].appId == appId && pages[n].pageId == pageId)
  }

  lemma OneMoreEvent(es: seq<Event>, e: Event)
    ensures (es + [e])[..|es + [e]| - 1] == es && (es + [e])[|es + [e]| - 1] == e
  {
  }

  lemma KeepsSessionsAside(before: map<nat, PageInfo>, pages: map<nat, PageInfo>, es: seq<Event>, e: Event)
    requires Keeps(before, es) && PC.SessionsAside(before, pages)
    requires forall appId, pageId :: Recorded(es + [e], appId, pageId) == Recorded(es, appId, pageId)
    ensures Keeps(pages, es + [e])
  {
    forall appId, pageId | Recorded(es + [e], appId, pageId).Some?
      ensures exists n | n in pages :: pages[n].appId == appId && pages[n].pageId == pageId
    {
      var n :| n in before && before[n].appId == appId && before[n].pageId == pageId;
      assert n in pages && pages[n].appId == appId && pages[n].pageId == pageId;
    }
  }

  lemma DisconnectionRecorded(rt: Runtime, es: seq<Event>, app: RpcApp)
    requires Coherent(rt) && Keeps(rt.pages, es)
    ensures var e := Rpc(ApplicationDisconnected(app)); Keeps(Handle(rt, e).pages, es + [e])
  {
    var e := Rpc(ApplicationDisconnected(app));
    var pages := Handle(rt, e).pages;
    OneMoreEvent(es, e);
    DisconnectionTakesItsPages(rt, app);
    forall appId, pageId | Recorded(es + [e], appId, pageId).Some?
      ensures exists n | n in pages :: pages[n].appId == appId && pages[n].pageId == pageId
    {
      assert Recorded(es, appId, pageId).Some?;
      var n :| n in rt.pages && rt.pages[n].appId == appId && rt.pages[n].pageId == pageId;
      assert n in pages;
    }
  }

  lemma ListedRecorded(es: seq<Event>, appId: string, rows: seq<RpcPage>, pageId: nat)
    requires Lists(rows, pageId)
    ensures var before, e := Recorded(es, appId, pageId), Rpc(ApplicationSentListing(appId, rows));
      Recorded(es + [e], appId, pageId) ==
      Some(Details(if before.Some? then before.value.pageType else FirstOf(rows, pageId).pageType,
                   LastOf(rows, pageId).connectionId, LastOf(rows, pageId).title, LastOf(rows, pageId).url))
  {
    OneMoreEvent(es, Rpc(ApplicationSentListing(appId, rows)));
  }

  lemma UnlistedRecorded(es: seq<Event>, appId: string, rows: seq<RpcPage>, other: string, pageId: nat)
    ensures var e := Rpc(ApplicationSentListing(appId, rows));
      && (other != appId ==> Recorded(es + [e], other, pageId) == Recorded(es, other, pageId))
      && (!Lists(rows, pageId) ==> Recorded(es + [e], appId, pageId) == None)
  {
    OneMoreEvent(es, Rpc(ApplicationSentListing(appId, rows)));
  }

  /** A page after a listing that reconciles the table is recorded. */
  lemma ReconciledPageRecorded(rt: Runtime, r: Runtime, es: seq<Event>, appId: string, rows: seq<RpcPage>, n: nat)
    requires Distinct(r.pages) && Keeps(rt.pages, es) && Reconciled(rt, r, appId, rows) && n in r.pages
    ensures var p := r.pages[n];
      Recorded(es + [Rpc(ApplicationSentListing(appId, rows))], p.appId, p.pageId) ==
      Some(Details(p.pageType, p.connectionId, p.title, p.url))
  {
    var p := r.pages[n];
    UnlistedRecorded(es, appId, rows, p.appId, p.pageId);
    if p.appId == appId {
      assert Holds(r.pages, appId, p.pageId) by { assert IsPage(p, appId, p.pageId); }
      ListedRecorded(es, appId, rows, p.pageId);
    }
  }

  lemma ListingRecorded(rt: Runtime, r: Runtime, es: seq<Event>, appId: string, rows: seq<RpcPage>)
    requires Distinct(r.pages) && Keeps(rt.pages, es) && Reconciled(rt, r, appId, rows)
    ensures Keeps(r.pages, es + [Rpc(ApplicationSentListing(appId, rows))])
  {
    var all := es + [Rpc(ApplicationSentListing(appId, rows))];
    forall n | n in r.pages
      ensures Recorded(all, r.pages[n].appId, r.pages[n].pageId) ==
              Some(Details(r.pages[n].pageType, r.pages[n].connectionId, r.pages[n].title, r.pages[n].url))
    {
      ReconciledPageRecorded(rt, r, es, appId, rows, n);
    }
    forall app, pageId | Recorded(all, app, pageId).Some?
      ensures exists n | n in r.pages :: r.pages[n].appId == app && r.pages[n].pageId == pageId
    {
      UnlistedRecorded(es, appId, rows, app, pageId);
      if app == appId {
        assert Holds(r.pages, appId, pageId);
        var n :| n in r.pages && IsPage(r.pages[n], appId, pageId);
      } else {
        var n :| n in rt.pages && rt.pages[n].appId == app && rt.pages[n].pageId == pageId;
        assert n in r.pages;
      }
    }
  }

  lemma OthersKeepRecord(es: seq<Event>, e: Event, appId: string, pageId: nat)
    requires !PC.Republishes(e)
    ensures Recorded(es + [e], appId, pageId) == Recorded(es, appId, pageId)
  {
    OneMoreEvent(es, e);
  }

  lemma OthersRecorded(rt: Runtime, es: seq<Event>, e: Event)
    requires Keeps(rt.pages, es) && !PC.Republishes(e)
    ensures Keeps(Handle(rt, e).pages, es + [e])
  {
    PC.OthersLeavePages(rt, e);
    forall appId, pageId ensures Recorded(es + [e], appId, pageId) == Recorded(es, appId, pageId) {
      OthersKeepRecord(es, e, appId, pageId);
    }
    KeepsSessionsAside(rt.pages, Handle(rt, e).pages, es, e);
  }

  lemma RoomyListingRecorded(rt: Runtime, es: seq<Event>, appId: string, rows: seq<RpcPage>)
    requires Coherent(rt) && WordSized(rt) && Keeps(rt.pages, es) && RoomFor(rt, |NewIds(rt.pages, appId, rows)|)
    ensures Keeps(PageListing(rt, appId, rows).pages, es + [Rpc(ApplicationSentListing(appId, rows))])
  {
    ReconciledIffRoom(rt, appId, rows);
    PageListingCoherent(rt, appId, rows);
    ListingRecorded(rt, PageListing(rt, appId, rows), es, appId, rows);
  }

  lemma StepRecorded(rt: Runtime, es: seq<Event>, e: Event)
    requires Coherent(rt) && WordSized(rt) && Keeps(rt.pages, es) && ListsWithRoom(rt, e)
    ensures Keeps(Handle(rt, e).pages, es + [e])
  {
    match e
    case Rpc(ApplicationDisconnected(app)) => DisconnectionRecorded(rt, es, app);
    case Rpc(ApplicationSentListing(appId, rows)) => RoomyListingRecorded(rt, es, appId, rows);
    case _ => OthersRecorded(rt, es, e);
  }

  /**
   * As long as no listing needs a number that is in use, a device holds exactly the pages that the
   * last listing of an application named, up to its disconnection, and they show what was listed.
   */
  lemma {:induction false} PagesFollowListings(rt: Runtime, es: seq<Event>)
    requires Coherent(rt) && WordSized(rt) && rt.pages == map[] && RunsWithRoom(rt, es)
    ensures Keeps(Run(rt, es).pages, es)
    decreases |es|
  {
    if es != [] {
      var front, e := es[..|es| - 1], es[|es| - 1];
      assert es == front + [e];
      PagesFollowListings(rt, front);
      RunWordSized(rt, front);
      StepRecorded(Run(rt, front), front, e);
    }
  }

  // ---------------------------------------------------------------------------
  // The exact condition
  // ---------------------------------------------------------------------------

  /** Every listing of the run does what a listing is for. */
  ghost predicate EachReconciles(rt: Runtime, es: seq<Event>)
    decreases |es|
  {
    es == [] || (EachReconciles(rt, es[..|es| - 1]) && StepReconciles(Run(rt, es[..|es| - 1]), es[|es| - 1]))
  }

  ghost predicate StepReconciles(rt: Runtime, e: Event) {
    e.Rpc? && e.rpc.ApplicationSentListing? ==> Reconciled(rt, Handle(rt, e), e.rpc.appId, e.rpc.pages)
  }

  lemma StepReconcilesIff(rt: Runtime, e: Event)
    requires Coherent(rt) && WordSized(rt)
    ensures StepReconciles(rt, e) <==> ListsWithRoom(rt, e)
  {
    if e.Rpc? && e.rpc.ApplicationSentListing? {
      ReconciledIffRoom(rt, e.rpc.appId, e.rpc.pages);
    }
  }

  lemma ReconciledIffRoom(rt: Runtime, appId: string, rows: seq<RpcPage>)
    requires Coherent(rt) && WordSized(rt)
    ensures Reconciled(rt, PageListing(rt, appId, rows), appId, rows) <==> RoomFor(rt, |NewIds(rt.pages, appId, rows)|)
  {
    ReconciledIff(rt, appId, rows);
    FreeAllIff(rt, appId, rows);
  }

  /** The condition of the above is exact: every listing reconciles the table if and only if none lacks a number. */
  lemma {:induction false} EachReconcilesIff(rt: Runtime, es: seq<Event>)
    requires Coherent(rt) && WordSized(rt)
    ensures EachReconciles(rt, es) <==> RunsWithRoom(rt, es)
    decreases |es|
  {
    if es != [] {
      var front, e := es[..|es| - 1], es[|es| - 1];
      EachReconcilesIff(rt, front);
      RunWordSized(rt, front);
      StepReconcilesIff(Run(rt, front), e);
    }
  }

  /** So it is in every run in which the counter does not overflow. */
  lemma {:induction false} NoOverflowHasRoom(rt: Runtime, es: seq<Event>)
    requires Coherent(rt) && WordSized(rt) && Numbered(rt) && NeverWraps(rt, es)
    ensures RunsWithRoom(rt, es)
    decreases |es|
  {
    if es != [] {
      var front, e := es[..|es| - 1], es[|es| - 1];
      NoOverflowHasRoom(rt, front);
      RunWordSized(rt, front);
      RunKeepsNumbers(rt, front);
      if e.Rpc? && e.rpc.ApplicationSentListing? {
        FitsAllIsFree(Run(rt, front), e.rpc.appId, e.rpc.pages);
        FreeAllIff(Run(rt, front), e.rpc.appId, e.rpc.pages);
      }
    }
  }
}
