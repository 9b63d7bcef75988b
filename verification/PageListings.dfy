// What one page listing does to the page table, before and after the counter's overflow.

module PageListings {
  import opened Wrappers
  import opened Rpc
  import opened RuntimeModel
  import opened RuntimeInvariants
  import opened PageIdentity

  // ---------------------------------------------------------------------------
  // Numbers not in use
  // ---------------------------------------------------------------------------

  /** Every number the merge issues is not in use when it is issued. */
  ghost predicate FreeAll(rt: Runtime, appId: string, listed: seq<RpcPage>)
    decreases |listed|
  {
    listed == [] ||
    (FreeAll(rt, appId, listed[..|listed| - 1]) &&
     FreeOne(ListAll(rt, appId, listed[..|listed| - 1]), appId, listed[|listed| - 1]))
  }

  /** So it is as long as the counter has not overflowed. */
  lemma {:induction false} FitsAllIsFree(rt: Runtime, appId: string, listed: seq<RpcPage>)
    requires Numbered(rt) && FitsAll(rt, appId, listed)
    ensures FreeAll(rt, appId, listed)
    decreases |listed|
  {
    if listed != [] {
      var front := listed[..|listed| - 1];
      FitsAllIsFree(rt, appId, front);
      ListAllKeepsNumbers(rt, appId, front);
    }
  }

  // ---------------------------------------------------------------------------
  // Reconciliation of a page listing
  // ---------------------------------------------------------------------------

  /** The first, and the last, row of a listing with the given page identifier. */
  function FirstOf(listed: seq<RpcPage>, pageId: nat): RpcPage
    requires Lists(listed, pageId)
  {
    if listed[0].pageId == pageId then listed[0]
    else
      assert Lists(listed[1..], pageId) by {
        var i :| 0 <= i < |listed| && listed[i].pageId == pageId;
        assert listed[1..][i - 1] == listed[i];
      }
      FirstOf(listed[1..], pageId)
  }

  function LastOf(listed: seq<RpcPage>, pageId: nat): RpcPage
    requires Lists(listed, pageId)
    decreases |listed|
  {
    if listed[|listed| - 1].pageId == pageId then listed[|listed| - 1]
    else
      assert Lists(listed[..|listed| - 1], pageId) by {
        var i :| 0 <= i < |listed| && listed[i].pageId == pageId;
        assert listed[..|listed| - 1][i] == listed[i];
      }
      LastOf(listed[..|listed| - 1], pageId)
  }

  lemma {:induction false} FirstOfIsFirst(listed: seq<RpcPage>, pageId: nat) returns (i: nat)
    requires Lists(listed, pageId)
    ensures i < |listed| && listed[i] == FirstOf(listed, pageId) && listed[i].pageId == pageId
    ensures forall j | 0 <= j < i :: listed[j].pageId != pageId
  {
    if listed[0].pageId == pageId {
      i := 0;
    } else {
      var k := FirstOfIsFirst(listed[1..], pageId);
      i := k + 1;
      forall j | 0 < j < i ensures listed[j].pageId != pageId {
        assert listed[j] == listed[1..][j - 1];
      }
    }
  }

  lemma {:induction false} LastOfIsLast(listed: seq<RpcPage>, pageId: nat) returns (i: nat)
    requires Lists(listed, pageId)
    ensures i < |listed| && listed[i] == LastOf(listed, pageId) && listed[i].pageId == pageId
    ensures forall j | i < j < |listed| :: listed[j].pageId != pageId
    decreases |listed|
  {
    if listed[|listed| - 1].pageId == pageId {
      i := |listed| - 1;
    } else {
      var front := listed[..|listed| - 1];
      i := LastOfIsLast(front, pageId);
      forall j | i < j < |listed| ensures listed[j].pageId != pageId {
        if j < |front| { assert listed[j] == front[j]; }
      }
    }
  }

  lemma {:induction false} FirstOfPrefix(listed: seq<RpcPage>, last: RpcPage, pageId: nat)
    ensures Lists(listed + [last], pageId) <==> Lists(listed, pageId) || last.pageId == pageId
    ensures Lists(listed, pageId) ==> FirstOf(listed + [last], pageId) == FirstOf(listed, pageId)
    ensures !Lists(listed, pageId) && last.pageId == pageId ==> FirstOf(listed + [last], pageId) == last
  {
    var all := listed + [last];
    assert all[|listed|] == last;
    forall i | 0 <= i < |listed| ensures all[i] == listed[i] {}
    if listed != [] {
      assert all[1..] == listed[1..] + [last];
      assert Lists(listed, pageId) <==> listed[0].pageId == pageId || Lists(listed[1..], pageId) by {
        forall i | 1 <= i < |listed| ensures listed[1..][i - 1] == listed[i] {}
      }
      FirstOfPrefix(listed[1..], last, pageId);
    }
  }

  /** `p` is what the listing makes of the page `before`. */
  predicate Survives(before: PageInfo, p: PageInfo, appId: string, listed: seq<RpcPage>) {
    if before.appId == appId && Lists(listed, before.pageId)
    then p == Refreshed(before, LastOf(listed, before.pageId))
    else p == before
  }

  /** `p` is a page the listing introduced: type from its first row, the rest from its last. */
  predicate Introduced(p: PageInfo, n: nat, appId: string, listed: seq<RpcPage>) {
    && Lists(listed, p.pageId)
    && p == NewPage(n, appId, LastOf(listed, p.pageId)).(pageType := FirstOf(listed, p.pageId).pageType)
  }

  predicate AllSurvive(rt: Runtime, r: Runtime, appId: string, listed: seq<RpcPage>) {
    forall n | n in rt.pages :: n in r.pages && Survives(rt.pages[n], r.pages[n], appId, listed)
  }

  predicate OthersIntroduced(rt: Runtime, r: Runtime, appId: string, listed: seq<RpcPage>) {
    forall n | n in r.pages && n !in rt.pages :: Introduced(r.pages[n], n, appId, listed)
  }

  predicate AllHeld(r: Runtime, appId: string, listed: seq<RpcPage>) {
    forall i | 0 <= i < |listed| :: Holds(r.pages, appId, listed[i].pageId)
  }

  lemma OneMoreRow(listed: seq<RpcPage>, row: RpcPage, id: nat)
    ensures Lists(listed + [row], id) <==> Lists(listed, id) || row.pageId == id
    ensures Lists(listed, id) ==> FirstOf(listed + [row], id) == FirstOf(listed, id)
    ensures !Lists(listed, id) && row.pageId == id ==> FirstOf(listed + [row], id) == row
    ensures row.pageId == id ==> LastOf(listed + [row], id) == row
    ensures row.pageId != id && Lists(listed, id) ==> LastOf(listed + [row], id) == LastOf(listed, id)
  {
    FirstOfPrefix(listed, row, id);
    assert (listed + [row])[..|listed + [row]| - 1] == listed;
  }

  lemma SurvivesOneMore(before: PageInfo, p: PageInfo, appId: string, listed: seq<RpcPage>, row: RpcPage)
    requires Survives(before, p, appId, listed)
    ensures Survives(before, if IsPage(p, appId, row.pageId) then Refreshed(p, row) else p, appId, listed + [row])
  {
    OneMoreRow(listed, row, before.pageId);
  }

  lemma IntroducedOneMore(p: PageInfo, n: nat, appId: string, listed: seq<RpcPage>, row: RpcPage)
    requires Introduced(p, n, appId, listed)
    ensures Introduced(if IsPage(p, appId, row.pageId) then Refreshed(p, row) else p, n, appId, listed + [row])
  {
    OneMoreRow(listed, row, p.pageId);
  }

  /** What becomes of each single number when one row is worked in. */
  lemma ListOnePages(mid: Runtime, appId: string, row: RpcPage)
    requires WellKept(mid.pages) && FreeOne(mid, appId, row)
    ensures var r := ListOne(mid, appId, row);
      && (forall n | n in mid.pages :: n in r.pages &&
            r.pages[n] == if IsPage(mid.pages[n], appId, row.pageId) then Refreshed(mid.pages[n], row) else mid.pages[n])
      && (forall n | n in r.pages && n !in mid.pages ::
            !Holds(mid.pages, appId, row.pageId) && n == NextNum(mid.maxPageNum) && r.pages[n] == NewPage(n, appId, row))
  {
  }

  lemma ListOneSurvives(rt: Runtime, mid: Runtime, appId: string, listed: seq<RpcPage>, row: RpcPage)
    requires WellKept(mid.pages) && FreeOne(mid, appId, row)
    requires AllSurvive(rt, mid, appId, listed)
    ensures AllSurvive(rt, ListOne(mid, appId, row), appId, listed + [row])
  {
    ListOnePages(mid, appId, row);
    forall n | n in rt.pages
      ensures n in ListOne(mid, appId, row).pages
      ensures Survives(rt.pages[n], ListOne(mid, appId, row).pages[n], appId, listed + [row])
    {
      SurvivesOneMore(rt.pages[n], mid.pages[n], appId, listed, row);
    }
  }

  lemma ListOneIntroduces(rt: Runtime, mid: Runtime, appId: string, listed: seq<RpcPage>, row: RpcPage)
    requires WellKept(mid.pages) && FreeOne(mid, appId, row)
    requires OthersIntroduced(rt, mid, appId, listed) && AllHeld(mid, appId, listed)
    ensures OthersIntroduced(rt, ListOne(mid, appId, row), appId, listed + [row])
  {
    var r := ListOne(mid, appId, row);
    ListOnePages(mid, appId, row);
    forall n | n in r.pages && n !in rt.pages
      ensures Introduced(r.pages[n], n, appId, listed + [row])
    {
      if n in mid.pages {
        IntroducedOneMore(mid.pages[n], n, appId, listed, row);
      } else {
        OneMoreRow(listed, row, row.pageId);
        assert !Lists(listed, row.pageId);
      }
    }
  }

  lemma ListOneHolds(mid: Runtime, appId: string, row: RpcPage)
    requires WellKept(mid.pages) && FreeOne(mid, appId, row)
    ensures var r := ListOne(mid, appId, row);
      Holds(r.pages, appId, row.pageId) &&
      forall id :: Holds(mid.pages, appId, id) ==> Holds(r.pages, appId, id)
  {
    var r := ListOne(mid, appId, row);
    forall id | Holds(mid.pages, appId, id) ensures Holds(r.pages, appId, id) {
      var m :| m in mid.pages && IsPage(mid.pages[m], appId, id);
      assert IsPage(r.pages[m], appId, id);
    }
    if !Holds(mid.pages, appId, row.pageId) {
      assert IsPage(r.pages[r.maxPageNum], appId, row.pageId);
    }
  }

  lemma AllHeldOneMore(mid: Runtime, r: Runtime, appId: string, listed: seq<RpcPage>, row: RpcPage)
    requires AllHeld(mid, appId, listed)
    requires Holds(r.pages, appId, row.pageId)
    requires forall id :: Holds(mid.pages, appId, id) ==> Holds(r.pages, appId, id)
    ensures AllHeld(r, appId, listed + [row])
  {
    forall i | 0 <= i < |listed + [row]| ensures Holds(r.pages, appId, (listed + [row])[i].pageId) {
      if i < |listed| { assert Holds(mid.pages, appId, listed[i].pageId); }
    }
  }

  /** The state of a merge: what was there survives, the rest is introduced, and all rows are held. */
  predicate Merged(rt: Runtime, r: Runtime, appId: string, listed: seq<RpcPage>) {
    AllSurvive(rt, r, appId, listed) && OthersIntroduced(rt, r, appId, listed) && AllHeld(r, appId, listed)
  }

  lemma MergedOneMore(rt: Runtime, mid: Runtime, appId: string, front: seq<RpcPage>, row: RpcPage)
    requires WellKept(mid.pages) && FreeOne(mid, appId, row) && Merged(rt, mid, appId, front)
    ensures Merged(rt, ListOne(mid, appId, row), appId, front + [row])
  {
    ListOneSurvives(rt, mid, appId, front, row);
    ListOneIntroduces(rt, mid, appId, front, row);
    ListOneHolds(mid, appId, row);
    AllHeldOneMore(mid, ListOne(mid, appId, row), appId, front, row);
  }

  lemma NothingMerged(rt: Runtime, appId: string)
    ensures Merged(rt, rt, appId, [])
  {
  }

  /** What working in one more row comes to. */
  lemma OneMoreListed(rt: Runtime, appId: string, front: seq<RpcPage>, row: RpcPage)
    ensures ListAll(rt, appId, front + [row]) == ListOne(ListAll(rt, appId, front), appId, row)
    ensures FreeAll(rt, appId, front + [row]) <==>
            FreeAll(rt, appId, front) && FreeOne(ListAll(rt, appId, front), appId, row)
  {
    assert (front + [row])[..|front + [row]| - 1] == front;
  }

  lemma {:induction false} ListAllReconciles(rt: Runtime, appId: string, listed: seq<RpcPage>)
    requires WellKept(rt.pages) && FreeAll(rt, appId, listed)
    ensures Merged(rt, ListAll(rt, appId, listed), appId, listed)
    decreases |listed|
  {
    if listed == [] {
      NothingMerged(rt, appId);
    } else {
      var front, row := listed[..|listed| - 1], listed[|listed| - 1];
      assert listed == front + [row];
      OneMoreListed(rt, appId, front, row);
      ListAllReconciles(rt, appId, front);
      ListAllKept(rt, appId, front);
      MergedOneMore(rt, ListAll(rt, appId, front), appId, front, row);
    }
  }

  /** `p` is the page `before` with what `row` says: the title, the address and the connection. */
  predicate Updated(before: PageInfo, p: PageInfo, row: RpcPage) {
    p == PageInfo(before.pageNum, before.pageType, before.appId, before.pageId,
                  row.connectionId, row.title, row.url, before.senderId, before.wsClientId)
  }

  /** `p` is a page without a session under the number `n`: its type is that of `first`, the rest that of `last`. */
  predicate Created(p: PageInfo, n: nat, appId: string, first: RpcPage, last: RpcPage) {
    p == PageInfo(n, first.pageType, appId, last.pageId, last.connectionId, last.title, last.url, None, None)
  }

  /**
   * `r` is what a listing for an application makes of `rt`: it holds exactly the listed page
   * identifiers for that application. Pages that were known keep their number, type and session
   * and take the last title, address and connection listed; unknown ones get numbers not in
   * use; the others are gone. Pages of other applications, the logs and everything else stay.
   */
  ghost predicate Reconciled(rt: Runtime, r: Runtime, appId: string, listed: seq<RpcPage>) {
    && (forall id :: Holds(r.pages, appId, id) <==> Lists(listed, id))
    && (forall n | n in rt.pages && rt.pages[n].appId != appId :: n in r.pages && r.pages[n] == rt.pages[n])
    && (forall n | n in rt.pages && rt.pages[n].appId == appId ::
          if Lists(listed, rt.pages[n].pageId)
          then n in r.pages && Updated(rt.pages[n], r.pages[n], LastOf(listed, rt.pages[n].pageId))
          else n !in r.pages)
    && (forall n | n in r.pages && n !in rt.pages ::
          Lists(listed, r.pages[n].pageId) &&
          Created(r.pages[n], n, appId, FirstOf(listed, r.pages[n].pageId), LastOf(listed, r.pages[n].pageId)))
    && r == rt.(pages := r.pages, maxPageNum := r.maxPageNum, shared := rt.shared.(pages := r.shared.pages))
  }

  lemma PruneHolds(mid: Runtime, pages: map<nat, PageInfo>, appId: string, listed: seq<RpcPage>, id: nat)
    requires AllHeld(mid, appId, listed) && pages == Prune(mid.pages, appId, listed)
    ensures Holds(pages, appId, id) <==> Lists(listed, id)
  {
    if Lists(listed, id) {
      var i :| 0 <= i < |listed| && listed[i].pageId == id;
      assert Holds(mid.pages, appId, listed[i].pageId);
      var n :| n in mid.pages && IsPage(mid.pages[n], appId, id);
      assert n in pages && IsPage(pages[n], appId, id);
    }
  }

  lemma PruneSurvives(rt: Runtime, mid: Runtime, r: Runtime, appId: string, listed: seq<RpcPage>, n: nat)
    requires AllSurvive(rt, mid, appId, listed) && r.pages == Prune(mid.pages, appId, listed) && n in rt.pages
    ensures rt.pages[n].appId != appId ==> n in r.pages && r.pages[n] == rt.pages[n]
    ensures rt.pages[n].appId == appId && Lists(listed, rt.pages[n].pageId) ==>
              n in r.pages && Updated(rt.pages[n], r.pages[n], LastOf(listed, rt.pages[n].pageId))
    ensures rt.pages[n].appId == appId && !Lists(listed, rt.pages[n].pageId) ==> n !in r.pages
  {
    assert Survives(rt.pages[n], mid.pages[n], appId, listed);
  }

  lemma PruneIntroduces(rt: Runtime, mid: Runtime, r: Runtime, appId: string, listed: seq<RpcPage>, n: nat)
    requires OthersIntroduced(rt, mid, appId, listed) && r.pages == Prune(mid.pages, appId, listed)
    requires n in r.pages && n !in rt.pages
    ensures Lists(listed, r.pages[n].pageId)
    ensures Created(r.pages[n], n, appId, FirstOf(listed, r.pages[n].pageId), LastOf(listed, r.pages[n].pageId))
  {
    assert Introduced(mid.pages[n], n, appId, listed);
    var i := LastOfIsLast(listed, r.pages[n].pageId);
  }

  lemma ListingReconciles(rt: Runtime, appId: string, listed: seq<RpcPage>)
    requires Coherent(rt) && FreeAll(rt, appId, listed)
    ensures Reconciled(rt, PageListing(rt, appId, listed), appId, listed)
  {
    var mid := ListAll(rt, appId, listed);
    var r := PageListing(rt, appId, listed);
    ListAllReconciles(rt, appId, listed);
    ListAllFrame(rt, appId, listed);
    forall id ensures Holds(r.pages, appId, id) <==> Lists(listed, id) {
      PruneHolds(mid, r.pages, appId, listed, id);
    }
    forall n | n in rt.pages
      ensures rt.pages[n].appId != appId ==> n in r.pages && r.pages[n] == rt.pages[n]
      ensures rt.pages[n].appId == appId ==>
        if Lists(listed, rt.pages[n].pageId)
        then n in r.pages && Updated(rt.pages[n], r.pages[n], LastOf(listed, rt.pages[n].pageId))
        else n !in r.pages
    {
      PruneSurvives(rt, mid, r, appId, listed, n);
    }
    forall n | n in r.pages && n !in rt.pages
      ensures Lists(listed, r.pages[n].pageId)
      ensures Created(r.pages[n], n, appId, FirstOf(listed, r.pages[n].pageId), LastOf(listed, r.pages[n].pageId))
    {
      PruneIntroduces(rt, mid, r, appId, listed, n);
    }
  }

  lemma {:induction false} ListAllSettled(rt: Runtime, appId: string, listed: seq<RpcPage>)
    requires forall i | 0 <= i < |listed| :: Holds(rt.pages, appId, listed[i].pageId)
    ensures FreeAll(rt, appId, listed)
    ensures var l := ListAll(rt, appId, listed);
      l.maxPageNum == rt.maxPageNum && SameNumbers(rt.pages, l.pages)
    decreases |listed|
  {
    if listed != [] {
      var front, row := listed[..|listed| - 1], listed[|listed| - 1];
      forall i | 0 <= i < |front| ensures Holds(rt.pages, appId, front[i].pageId) {
        assert front[i] == listed[i];
      }
      ListAllSettled(rt, appId, front);
      var l := ListAll(rt, appId, front);
      var n :| n in rt.pages && IsPage(rt.pages[n], appId, row.pageId);
      assert IsPage(l.pages[n], appId, row.pageId);
    }
  }

  /** The pages held for an application are the listed ones and already carry their last rows. */
  predicate Settled(pages: map<nat, PageInfo>, appId: string, listed: seq<RpcPage>) {
    && (forall i | 0 <= i < |listed| :: Holds(pages, appId, listed[i].pageId))
    && (forall n | n in pages && pages[n].appId == appId ::
          Lists(listed, pages[n].pageId) && Refreshed(pages[n], LastOf(listed, pages[n].pageId)) == pages[n])
  }

  /** The pages listed so far show their last rows. */
  predicate ShowLastRows(pages: map<nat, PageInfo>, appId: string, listed: seq<RpcPage>) {
    forall n | n in pages && pages[n].appId == appId && Lists(listed, pages[n].pageId) ::
      Refreshed(pages[n], LastOf(listed, pages[n].pageId)) == pages[n]
  }

  lemma OneMoreRowShown(mid: Runtime, appId: string, front: seq<RpcPage>, row: RpcPage)
    requires WellKept(mid.pages) && ShowLastRows(mid.pages, appId, front)
    ensures ShowLastRows(ListOne(mid, appId, row).pages, appId, front + [row])
  {
    var pages := ListOne(mid, appId, row).pages;
    forall n | n in pages && pages[n].appId == appId && Lists(front + [row], pages[n].pageId)
      ensures Refreshed(pages[n], LastOf(front + [row], pages[n].pageId)) == pages[n]
    {
      OneMoreRow(front, row, pages[n].pageId);
      if n in mid.pages && IsPage(mid.pages[n], appId, row.pageId) {
        assert Holds(mid.pages, appId, row.pageId);
      }
    }
  }

  lemma {:induction false} LastRowsShown(rt: Runtime, appId: string, listed: seq<RpcPage>)
    requires WellKept(rt.pages)
    ensures ShowLastRows(ListAll(rt, appId, listed).pages, appId, listed)
    decreases |listed|
  {
    if listed != [] {
      var front, row := listed[..|listed| - 1], listed[|listed| - 1];
      assert listed == front + [row];
      LastRowsShown(rt, appId, front);
      ListAllKept(rt, appId, front);
      OneMoreRowShown(ListAll(rt, appId, front), appId, front, row);
    }
  }

  lemma SettledStays(r: Runtime, appId: string, listed: seq<RpcPage>)
    requires WellKept(r.pages) && Settled(r.pages, appId, listed)
    ensures ListAll(r, appId, listed) == r
  {
    ListAllSettled(r, appId, listed);
    ListAllReconciles(r, appId, listed);
    ListAllFrame(r, appId, listed);
    var again := ListAll(r, appId, listed);
    forall n | n in r.pages ensures again.pages[n] == r.pages[n] {
      assert Survives(r.pages[n], again.pages[n], appId, listed);
    }
    assert again.pages == r.pages;
  }

  lemma SettledListing(r: Runtime, appId: string, listed: seq<RpcPage>)
    requires Settled(r.pages, appId, listed)
    requires ListAll(r, appId, listed) == r && r.shared.pages == Project(r.pages)
    ensures PageListing(r, appId, listed) == r
  {
    assert Prune(r.pages, appId, listed) == r.pages;
  }

  /** With the numbers it issues not in use, a listing holds every page it lists. */
  lemma FreeHoldsAll(rt: Runtime, appId: string, listed: seq<RpcPage>)
    requires Coherent(rt) && FreeAll(rt, appId, listed)
    ensures AllHeld(PageListing(rt, appId, listed), appId, listed)
  {
    ListingReconciles(rt, appId, listed);
    forall i | 0 <= i < |listed| ensures Holds(PageListing(rt, appId, listed).pages, appId, listed[i].pageId) {
      assert Lists(listed, listed[i].pageId);
    }
  }

  /**
   * If every page listed is held after a listing, then applying the same listing a second time
   * changes nothing, the page counter included. Pages of other applications may have been lost.
   */
  lemma ListingIdempotent(rt: Runtime, appId: string, listed: seq<RpcPage>)
    requires Coherent(rt) && AllHeld(PageListing(rt, appId, listed), appId, listed)
    ensures PageListing(PageListing(rt, appId, listed), appId, listed) == PageListing(rt, appId, listed)
  {
    var r := PageListing(rt, appId, listed);
    PageListingCoherent(rt, appId, listed);
    LastRowsShown(rt, appId, listed);
    SettledStays(r, appId, listed);
    SettledListing(r, appId, listed);
  }
}
