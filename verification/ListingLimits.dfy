// A listing reconciles the page table exactly when it never issues a number that is in use.

module ListingLimits {
  import opened Rpc
  import opened RuntimeModel
  import opened RuntimeInvariants
  import opened PageIdentity
  import opened PageListings
  import opened Cardinals

  /** How many page numbers there are. */
  const NUMBERS: nat := U32_MAX + 1

  /** The counter and the live numbers are unsigned 32-bit numbers. */
  predicate WordSized(rt: Runtime) {
    rt.maxPageNum < NUMBERS && forall n | n in rt.pages :: n < NUMBERS
  }

  // ---------------------------------------------------------------------------
  // The numbers a merge issues
  // ---------------------------------------------------------------------------

  /** How many numbers the merge of a listing issues. */
  ghost function Issued(rt: Runtime, appId: string, listed: seq<RpcPage>): nat
    decreases |listed|
  {
    if listed == [] then 0
    else
      var front, row := listed[..|listed| - 1], listed[|listed| - 1];
      Issued(rt, appId, front) + if Holds(ListAll(rt, appId, front).pages, appId, row.pageId) then 0 else 1
  }

  /** The `k`-th number issued from a counter at `m`. */
  function NumberAfter(m: nat, k: nat): nat {
    (m + k) % NUMBERS
  }

  lemma NextNumberAfter(m: nat, k: nat)
    ensures NextNum(NumberAfter(m, k)) == NumberAfter(m, k + 1)
  {
    if NumberAfter(m, k) == U32_MAX {
      assert m + k + 1 == ((m + k) / NUMBERS + 1) * NUMBERS;
    } else {
      assert m + k + 1 == (m + k) / NUMBERS * NUMBERS + (NumberAfter(m, k) + 1);
    }
  }

  /** Within one round no number is issued twice, and a whole round issues each. */
  lemma NumbersDiffer(m: nat, j: nat, k: nat)
    requires m < NUMBERS && 1 <= j < k <= NUMBERS
    ensures NumberAfter(m, j) != NumberAfter(m, k)
  {
  }

  lemma NumbersBelowMax(m: nat, k: nat)
    requires m + k <= U32_MAX
    ensures NumberAfter(m, k) == m + k
  {
  }

  lemma EachNumberComes(m: nat, n: nat) returns (k: nat)
    requires m < NUMBERS && n < NUMBERS
    ensures 1 <= k <= NUMBERS && NumberAfter(m, k) == n
  {
    k := if n > m then n - m else n + NUMBERS - m;
  }

  lemma {:induction false} CounterCounts(rt: Runtime, appId: string, listed: seq<RpcPage>)
    requires WordSized(rt)
    ensures ListAll(rt, appId, listed).maxPageNum == NumberAfter(rt.maxPageNum, Issued(rt, appId, listed))
    ensures WordSized(ListAll(rt, appId, listed))
    decreases |listed|
  {
    if listed != [] {
      CounterCounts(rt, appId, listed[..|listed| - 1]);
      NextNumberAfter(rt.maxPageNum, Issued(rt, appId, listed[..|listed| - 1]));
    }
  }

  // ---------------------------------------------------------------------------
  // The page table while no number has been issued twice
  // ---------------------------------------------------------------------------

  predicate SameIds(p: PageInfo, q: PageInfo) {
    p.appId == q.appId && p.pageId == q.pageId
  }

  /** The numbers issued are live and denote pages of the listing. */
  predicate IssuedLive(m: nat, count: nat, pages: map<nat, PageInfo>, appId: string, listed: seq<RpcPage>) {
    forall k | 1 <= k <= count ::
      && NumberAfter(m, k) in pages
      && pages[NumberAfter(m, k)].appId == appId
      && Lists(listed, pages[NumberAfter(m, k)].pageId)
  }

  /** `n` is among the next `count` numbers. */
  predicate IsIssued(m: nat, count: nat, n: nat) {
    exists k | 1 <= k <= count :: n == NumberAfter(m, k)
  }

  /** The other numbers denote what they denoted before. */
  predicate OthersKept(m: nat, count: nat, before: map<nat, PageInfo>, pages: map<nat, PageInfo>) {
    forall n | n in pages :: IsIssued(m, count, n) || (n in before && SameIds(pages[n], before[n]))
  }

  lemma IssuedOneMore(m: nat, count: nat, n: nat)
    ensures IsIssued(m, count + 1, n) <==> IsIssued(m, count, n) || n == NumberAfter(m, count + 1)
  {
    if k :| 1 <= k <= count + 1 && n == NumberAfter(m, k) {
      assert k <= count ==> IsIssued(m, count, n);
    }
    if k :| 1 <= k <= count && n == NumberAfter(m, k) {
      assert 1 <= k <= count + 1;
    }
    assert n == NumberAfter(m, count + 1) ==> IsIssued(m, count + 1, n);
  }

  /** Some number issued was in use and denotes another page now. */
  predicate Clash(m: nat, count: nat, before: map<nat, PageInfo>, pages: map<nat, PageInfo>) {
    exists k | 1 <= k <= count ::
      NumberAfter(m, k) in before && NumberAfter(m, k) in pages && !SameIds(pages[NumberAfter(m, k)], before[NumberAfter(m, k)])
  }

  ghost predicate FirstRound(rt: Runtime, appId: string, listed: seq<RpcPage>) {
    var count, pages := Issued(rt, appId, listed), ListAll(rt, appId, listed).pages;
    && IssuedLive(rt.maxPageNum, count, pages, appId, listed)
    && OthersKept(rt.maxPageNum, count, rt.pages, pages)
    && (FreeAll(rt, appId, listed) || Clash(rt.maxPageNum, count, rt.pages, pages))
  }

  /** The pages are the same, their titles, addresses and connections aside. */
  predicate SameTable(pages: map<nat, PageInfo>, after: map<nat, PageInfo>) {
    after.Keys == pages.Keys && forall n | n in pages :: SameIds(after[n], pages[n])
  }

  lemma RowRefreshes(m: nat, count: nat, before: map<nat, PageInfo>, pages: map<nat, PageInfo>, after: map<nat, PageInfo>,
                     appId: string, front: seq<RpcPage>, row: RpcPage)
    requires SameTable(pages, after) && IssuedLive(m, count, pages, appId, front) && OthersKept(m, count, before, pages)
    ensures IssuedLive(m, count, after, appId, front + [row]) && OthersKept(m, count, before, after)
    ensures Clash(m, count, before, pages) ==> Clash(m, count, before, after)
  {
    forall k | 1 <= k <= count ensures NumberAfter(m, k) in after && Lists(front + [row], after[NumberAfter(m, k)].pageId) {
      ListsMore(front, row, pages[NumberAfter(m, k)].pageId);
    }
    forall n | n in after ensures IsIssued(m, count, n) || (n in before && SameIds(after[n], before[n])) {
      assert SameIds(after[n], pages[n]);
    }
    if Clash(m, count, before, pages) {
      var k :| 1 <= k <= count && NumberAfter(m, k) in before && NumberAfter(m, k) in pages &&
               !SameIds(pages[NumberAfter(m, k)], before[NumberAfter(m, k)]);
      assert SameIds(after[NumberAfter(m, k)], pages[NumberAfter(m, k)]);
    }
  }

  lemma MergeOneMore(rt: Runtime, appId: string, front: seq<RpcPage>, row: RpcPage)
    ensures var mid, all := ListAll(rt, appId, front), front + [row];
      && ListAll(rt, appId, all) == ListOne(mid, appId, row)
      && (FreeAll(rt, appId, all) <==> FreeAll(rt, appId, front) && FreeOne(mid, appId, row))
      && Issued(rt, appId, all) == Issued(rt, appId, front) + if Holds(mid.pages, appId, row.pageId) then 0 else 1
  {
    OneMoreListed(rt, appId, front, row);
    assert (front + [row])[..|front + [row]| - 1] == front;
  }

  lemma HeldRow(rt: Runtime, appId: string, front: seq<RpcPage>, row: RpcPage)
    requires FirstRound(rt, appId, front)
    requires Holds(ListAll(rt, appId, front).pages, appId, row.pageId)
    ensures FirstRound(rt, appId, front + [row])
  {
    var mid := ListAll(rt, appId, front);
    MergeOneMore(rt, appId, front, row);
    RefreshesTable(mid, appId, row);
    RowRefreshes(rt.maxPageNum, Issued(rt, appId, front), rt.pages, mid.pages, ListOne(mid, appId, row).pages,
                 appId, front, row);
  }

  lemma RefreshesTable(mid: Runtime, appId: string, row: RpcPage)
    requires Holds(mid.pages, appId, row.pageId)
    ensures SameTable(mid.pages, ListOne(mid, appId, row).pages)
  {
  }

  lemma RowIsIssued(m: nat, count: nat, before: map<nat, PageInfo>, pages: map<nat, PageInfo>,
                    appId: string, front: seq<RpcPage>, row: RpcPage)
    requires m < NUMBERS && count < NUMBERS
    requires IssuedLive(m, count, pages, appId, front) && OthersKept(m, count, before, pages)
    ensures var n := NumberAfter(m, count + 1);
      var after := pages[n := NewPage(n, appId, row)];
      IssuedLive(m, count + 1, after, appId, front + [row]) && OthersKept(m, count + 1, before, after)
  {
    var n := NumberAfter(m, count + 1);
    var after := pages[n := NewPage(n, appId, row)];
    forall k | 1 <= k <= count + 1
      ensures NumberAfter(m, k) in after && after[NumberAfter(m, k)].appId == appId
      ensures Lists(front + [row], after[NumberAfter(m, k)].pageId)
    {
      ListsMore(front, row, after[NumberAfter(m, k)].pageId);
    }
    forall l | l in after ensures IsIssued(m, count + 1, l) || (l in before && SameIds(after[l], before[l])) {
      IssuedOneMore(m, count, l);
    }
  }

  lemma ClashStays(m: nat, count: nat, before: map<nat, PageInfo>, pages: map<nat, PageInfo>, appId: string, row: RpcPage)
    requires m < NUMBERS && count < NUMBERS && Clash(m, count, before, pages)
    ensures var n := NumberAfter(m, count + 1); Clash(m, count + 1, before, pages[n := NewPage(n, appId, row)])
  {
    var k :| 1 <= k <= count && NumberAfter(m, k) in before && NumberAfter(m, k) in pages &&
             !SameIds(pages[NumberAfter(m, k)], before[NumberAfter(m, k)]);
    NumbersDiffer(m, k, count + 1);
    assert 1 <= k <= count + 1;
  }

  lemma NextIsNew(m: nat, count: nat)
    requires m < NUMBERS && count < NUMBERS
    ensures !IsIssued(m, count, NumberAfter(m, count + 1))
  {
    forall k | 1 <= k <= count ensures NumberAfter(m, k) != NumberAfter(m, count + 1) {
      NumbersDiffer(m, k, count + 1);
    }
  }

  lemma ClashArises(m: nat, count: nat, before: map<nat, PageInfo>, pages: map<nat, PageInfo>, appId: string, row: RpcPage)
    requires m < NUMBERS && count < NUMBERS && OthersKept(m, count, before, pages)
    requires !Holds(pages, appId, row.pageId) && NumberAfter(m, count + 1) in pages
    ensures var n := NumberAfter(m, count + 1); Clash(m, count + 1, before, pages[n := NewPage(n, appId, row)])
  {
    var n := NumberAfter(m, count + 1);
    NextIsNew(m, count);
    assert n in before && SameIds(pages[n], before[n]);
    assert !IsPage(pages[n], appId, row.pageId);
  }

  lemma IssuesNext(mid: Runtime, appId: string, row: RpcPage)
    requires !Holds(mid.pages, appId, row.pageId)
    ensures var n := NextNum(mid.maxPageNum);
      ListOne(mid, appId, row).pages == mid.pages[n := NewPage(n, appId, row)]
    ensures FreeOne(mid, appId, row) <==> NextNum(mid.maxPageNum) !in mid.pages
  {
  }

  lemma NewRow(rt: Runtime, appId: string, front: seq<RpcPage>, row: RpcPage)
    requires WordSized(rt) && FirstRound(rt, appId, front)
    requires !Holds(ListAll(rt, appId, front).pages, appId, row.pageId) && Issued(rt, appId, front) < NUMBERS
    ensures FirstRound(rt, appId, front + [row])
  {
    var mid := ListAll(rt, appId, front);
    var m, count := rt.maxPageNum, Issued(rt, appId, front);
    MergeOneMore(rt, appId, front, row);
    CounterCounts(rt, appId, front);
    NextNumberAfter(m, count);
    IssuesNext(mid, appId, row);
    RowIsIssued(m, count, rt.pages, mid.pages, appId, front, row);
    if Clash(m, count, rt.pages, mid.pages) {
      ClashStays(m, count, rt.pages, mid.pages, appId, row);
    } else if NumberAfter(m, count + 1) in mid.pages {
      ClashArises(m, count, rt.pages, mid.pages, appId, row);
    }
  }

  lemma {:induction false} FirstRoundHolds(rt: Runtime, appId: string, listed: seq<RpcPage>)
    requires WordSized(rt) && Issued(rt, appId, listed) <= NUMBERS
    ensures FirstRound(rt, appId, listed)
    decreases |listed|
  {
    if listed != [] {
      var front, row := listed[..|listed| - 1], listed[|listed| - 1];
      assert listed == front + [row];
      FirstRoundHolds(rt, appId, front);
      if Holds(ListAll(rt, appId, front).pages, appId, row.pageId) {
        HeldRow(rt, appId, front, row);
      } else {
        NewRow(rt, appId, front, row);
      }
    }
  }

  lemma ClashSpoils(rt: Runtime, appId: string, listed: seq<RpcPage>)
    requires IssuedLive(rt.maxPageNum, Issued(rt, appId, listed), ListAll(rt, appId, listed).pages, appId, listed)
    requires Clash(rt.maxPageNum, Issued(rt, appId, listed), rt.pages, ListAll(rt, appId, listed).pages)
    ensures !Reconciled(rt, PageListing(rt, appId, listed), appId, listed)
  {
    var m, all, r := rt.maxPageNum, ListAll(rt, appId, listed).pages, PageListing(rt, appId, listed);
    var k :| 1 <= k <= Issued(rt, appId, listed) && NumberAfter(m, k) in rt.pages && NumberAfter(m, k) in all &&
             !SameIds(all[NumberAfter(m, k)], rt.pages[NumberAfter(m, k)]);
    var n := NumberAfter(m, k);
    assert n in r.pages && r.pages[n] == all[n];
  }

  // ---------------------------------------------------------------------------
  // More than one round: more pages are listed than there are numbers
  // ---------------------------------------------------------------------------

  function Ids(listed: seq<RpcPage>): set<nat> {
    set i | 0 <= i < |listed| :: listed[i].pageId
  }

  lemma IdsMore(listed: seq<RpcPage>, row: RpcPage, id: nat)
    ensures id in Ids(listed + [row]) <==> Lists(listed, id) || id == row.pageId
  {
    ListsMore(listed, row, id);
    assert Lists(listed + [row], id) <==> id in Ids(listed + [row]);
  }

  lemma OneMoreThan(held: set<nat>, id: nat, ids: set<nat>)
    requires id !in held && held <= ids && id in ids
    ensures |ids| > |held|
  {
    SubsetSize(held + {id}, ids);
  }

  /** A table with a page of the listing under every number, and one more page listed. */
  lemma FullTable(pages: map<nat, PageInfo>, appId: string, listed: seq<RpcPage>, row: RpcPage)
    requires Distinct(pages) && !Holds(pages, appId, row.pageId)
    requires forall n | 0 <= n < NUMBERS :: n in pages && pages[n].appId == appId && Lists(listed, pages[n].pageId)
    ensures |Ids(listed + [row])| > NUMBERS
  {
    var idOf := map n | n in Interval(0, NUMBERS) :: pages[n].pageId;
    var held := Image(Interval(0, NUMBERS), idOf);
    IntervalSize(0, NUMBERS);
    assert Injective(idOf);
    ImageSize(Interval(0, NUMBERS), idOf);
    forall id | id in held ensures id in Ids(listed + [row]) && id != row.pageId {
      var n :| n in Interval(0, NUMBERS) && idOf[n] == id;
      HeldIsListed(pages, n, appId, listed, row);
    }
    IdsMore(listed, row, row.pageId);
    OneMoreThan(held, row.pageId, Ids(listed + [row]));
  }

  lemma HeldIsListed(pages: map<nat, PageInfo>, n: nat, appId: string, listed: seq<RpcPage>, row: RpcPage)
    requires !Holds(pages, appId, row.pageId)
    requires n in pages && pages[n].appId == appId && Lists(listed, pages[n].pageId)
    ensures pages[n].pageId in Ids(listed + [row]) && pages[n].pageId != row.pageId
  {
    IdsMore(listed, row, pages[n].pageId);
    assert !IsPage(pages[n], appId, row.pageId);
  }

  lemma AllNumbersLive(rt: Runtime, appId: string, listed: seq<RpcPage>, row: RpcPage)
    requires WellKept(rt.pages) && WordSized(rt) && Issued(rt, appId, listed) == NUMBERS
    requires !Holds(ListAll(rt, appId, listed).pages, appId, row.pageId)
    ensures |Ids(listed + [row])| > NUMBERS
  {
    var pages := ListAll(rt, appId, listed).pages;
    ListAllKept(rt, appId, listed);
    FirstRoundHolds(rt, appId, listed);
    forall n | 0 <= n < NUMBERS ensures n in pages && pages[n].appId == appId && Lists(listed, pages[n].pageId) {
      var k := EachNumberComes(rt.maxPageNum, n);
    }
    FullTable(pages, appId, listed, row);
  }

  lemma {:induction false} TooManyListed(rt: Runtime, appId: string, listed: seq<RpcPage>)
    requires WellKept(rt.pages) && WordSized(rt) && Issued(rt, appId, listed) > NUMBERS
    ensures |Ids(listed)| > NUMBERS
    decreases |listed|
  {
    var front, row := listed[..|listed| - 1], listed[|listed| - 1];
    assert listed == front + [row];
    if Issued(rt, appId, front) > NUMBERS {
      TooManyListed(rt, appId, front);
      SubsetSize(Ids(front), Ids(listed));
    } else {
      AllNumbersLive(rt, appId, front, row);
    }
  }

  /** A page table holds no more pages of one application than there are numbers. */
  lemma HeldBounded(pages: map<nat, PageInfo>, appId: string, ids: set<nat>)
    requires forall n | n in pages :: n < NUMBERS
    requires forall id | id in ids :: Holds(pages, appId, id)
    ensures |ids| <= NUMBERS
  {
    var numberOf := map id | id in ids :: FindPage(pages, appId, id);
    forall id | id in ids ensures numberOf[id] in Interval(0, NUMBERS) && pages[numberOf[id]].pageId == id {
      assert IsPage(pages[numberOf[id]], appId, id);
    }
    ImageSize(ids, numberOf);
    IntervalSize(0, NUMBERS);
    SubsetSize(Image(ids, numberOf), Interval(0, NUMBERS));
  }

  lemma TooManySpoil(rt: Runtime, r: Runtime, appId: string, listed: seq<RpcPage>)
    requires WordSized(r) && |Ids(listed)| > NUMBERS
    ensures !Reconciled(rt, r, appId, listed)
  {
    if Reconciled(rt, r, appId, listed) {
      forall id | id in Ids(listed) ensures Holds(r.pages, appId, id) {
        assert Lists(listed, id);
      }
      HeldBounded(r.pages, appId, Ids(listed));
    }
  }

  // ---------------------------------------------------------------------------
  // The exact condition
  // ---------------------------------------------------------------------------

  /**
   * A listing reconciles the page table if and only if every number its merge issues is not in use
   * when it is issued. Whether it is shows in the counter and the table before each row.
   */
  lemma ReconciledIff(rt: Runtime, appId: string, listed: seq<RpcPage>)
    requires Coherent(rt) && WordSized(rt)
    ensures Reconciled(rt, PageListing(rt, appId, listed), appId, listed) <==> FreeAll(rt, appId, listed)
  {
    if FreeAll(rt, appId, listed) {
      ListingReconciles(rt, appId, listed);
    } else if Issued(rt, appId, listed) <= NUMBERS {
      FirstRoundHolds(rt, appId, listed);
      ClashSpoils(rt, appId, listed);
    } else {
      TooManyListed(rt, appId, listed);
      CounterCounts(rt, appId, listed);
      TooManySpoil(rt, PageListing(rt, appId, listed), appId, listed);
    }
  }

  // ---------------------------------------------------------------------------
  // The condition in closed form
  // ---------------------------------------------------------------------------

  /** The ids listed for an application that are not held for it yet. */
  function NewIds(pages: map<nat, PageInfo>, appId: string, listed: seq<RpcPage>): set<nat> {
    set i | 0 <= i < |listed| && !Holds(pages, appId, listed[i].pageId) :: listed[i].pageId
  }

  /** The next `count` numbers differ from each other and are not in use. */
  predicate RoomFor(rt: Runtime, count: nat) {
    count <= NUMBERS && forall k | 1 <= k <= count :: NumberAfter(rt.maxPageNum, k) !in rt.pages
  }

  lemma IsNewId(pages: map<nat, PageInfo>, appId: string, listed: seq<RpcPage>, id: nat)
    ensures id in NewIds(pages, appId, listed) <==> Lists(listed, id) && !Holds(pages, appId, id)
  {
  }

  lemma NewIdsMore(pages: map<nat, PageInfo>, appId: string, front: seq<RpcPage>, row: RpcPage)
    ensures NewIds(pages, appId, front + [row]) ==
            NewIds(pages, appId, front) + if Holds(pages, appId, row.pageId) then {} else {row.pageId}
  {
    forall id
      ensures id in NewIds(pages, appId, front + [row]) <==>
              id in NewIds(pages, appId, front) || (id == row.pageId && !Holds(pages, appId, id))
    {
      IsNewId(pages, appId, front + [row], id);
      IsNewId(pages, appId, front, id);
      ListsMore(front, row, id);
    }
  }

  /** A merge that overwrites nothing holds what was held and what is listed. */
  lemma HeldAfterMerge(rt: Runtime, appId: string, listed: seq<RpcPage>, id: nat)
    requires WellKept(rt.pages) && FreeAll(rt, appId, listed)
    ensures Holds(ListAll(rt, appId, listed).pages, appId, id) <==>
            Holds(rt.pages, appId, id) || id in NewIds(rt.pages, appId, listed)
  {
    var mid := ListAll(rt, appId, listed);
    ListAllReconciles(rt, appId, listed);
    IsNewId(rt.pages, appId, listed, id);
    if n :| n in rt.pages && IsPage(rt.pages[n], appId, id) {
      assert Survives(rt.pages[n], mid.pages[n], appId, listed);
      assert IsPage(mid.pages[n], appId, id);
    }
    if Lists(listed, id) {
      var i :| 0 <= i < |listed| && listed[i].pageId == id;
      assert Holds(mid.pages, appId, listed[i].pageId);
    }
    if n :| n in mid.pages && IsPage(mid.pages[n], appId, id) {
      if n in rt.pages {
        assert Survives(rt.pages[n], mid.pages[n], appId, listed);
        assert IsPage(rt.pages[n], appId, id);
      } else {
        assert Introduced(mid.pages[n], n, appId, listed);
      }
    }
  }

  /** The next number is in use after a merge that overwrites nothing exactly if it was before or has been issued. */
  lemma InUseAfterMerge(rt: Runtime, appId: string, listed: seq<RpcPage>, n: nat)
    requires WellKept(rt.pages) && WordSized(rt) && FreeAll(rt, appId, listed) && Issued(rt, appId, listed) <= NUMBERS
    ensures n in ListAll(rt, appId, listed).pages <==>
            n in rt.pages || IsIssued(rt.maxPageNum, Issued(rt, appId, listed), n)
  {
    FirstRoundHolds(rt, appId, listed);
    ListAllReconciles(rt, appId, listed);
  }

  lemma RoomForOneMore(rt: Runtime, count: nat)
    ensures RoomFor(rt, count + 1) <==>
            RoomFor(rt, count) && count < NUMBERS && NumberAfter(rt.maxPageNum, count + 1) !in rt.pages
  {
  }

  lemma RoundComesAgain(m: nat)
    ensures IsIssued(m, NUMBERS, NumberAfter(m, NUMBERS + 1))
  {
    assert NumberAfter(m, NUMBERS + 1) == NumberAfter(m, 1);
  }

  /** A new row finds its number free exactly if there is room for one more page. */
  lemma NewRowFree(rt: Runtime, appId: string, front: seq<RpcPage>, row: RpcPage)
    requires WellKept(rt.pages) && WordSized(rt) && FreeAll(rt, appId, front)
    requires RoomFor(rt, Issued(rt, appId, front)) && !Holds(ListAll(rt, appId, front).pages, appId, row.pageId)
    ensures FreeOne(ListAll(rt, appId, front), appId, row) <==> RoomFor(rt, Issued(rt, appId, front) + 1)
  {
    var m, count := rt.maxPageNum, Issued(rt, appId, front);
    CounterCounts(rt, appId, front);
    NextNumberAfter(m, count);
    RoomForOneMore(rt, count);
    InUseAfterMerge(rt, appId, front, NumberAfter(m, count + 1));
    if count < NUMBERS {
      NextIsNew(m, count);
    } else {
      RoundComesAgain(m);
    }
  }

  lemma RoomForFewer(rt: Runtime, count: nat, fewer: nat)
    requires RoomFor(rt, count) && fewer <= count
    ensures RoomFor(rt, fewer)
  {
  }

  /**
   * A listing issues only numbers that are not in use if and only if the numbers after the
   * counter, as many as there are ids listed and not held, are not in use, all round at most once.
   */
  lemma {:induction false} FreeAllIff(rt: Runtime, appId: string, listed: seq<RpcPage>)
    requires WellKept(rt.pages) && WordSized(rt)
    ensures FreeAll(rt, appId, listed) <==> RoomFor(rt, |NewIds(rt.pages, appId, listed)|)
    ensures FreeAll(rt, appId, listed) ==> Issued(rt, appId, listed) == |NewIds(rt.pages, appId, listed)|
    decreases |listed|
  {
    if listed == [] {
      assert NewIds(rt.pages, appId, listed) == {};
    } else {
      var front, row := listed[..|listed| - 1], listed[|listed| - 1];
      assert listed == front + [row];
      FreeAllIff(rt, appId, front);
      MergeOneMore(rt, appId, front, row);
      NewIdsMore(rt.pages, appId, front, row);
      SubsetSize(NewIds(rt.pages, appId, front), NewIds(rt.pages, appId, listed));
      if FreeAll(rt, appId, front) {
        HeldAfterMerge(rt, appId, front, row.pageId);
        if !Holds(ListAll(rt, appId, front).pages, appId, row.pageId) {
          NewRowFree(rt, appId, front, row);
        }
      } else if RoomFor(rt, |NewIds(rt.pages, appId, listed)|) {
        RoomForFewer(rt, |NewIds(rt.pages, appId, listed)|, |NewIds(rt.pages, appId, front)|);
      }
    }
  }

  lemma {:induction false} FitsCounts(rt: Runtime, appId: string, listed: seq<RpcPage>)
    requires Numbered(rt) && FitsAll(rt, appId, listed)
    ensures ListAll(rt, appId, listed).maxPageNum == rt.maxPageNum + Issued(rt, appId, listed) <= U32_MAX
    decreases |listed|
  {
    if listed != [] {
      FitsCounts(rt, appId, listed[..|listed| - 1]);
    }
  }

  /** The counter does not overflow in a listing if and only if it can count the ids listed and not held. */
  lemma {:induction false} FitsAllIff(rt: Runtime, appId: string, listed: seq<RpcPage>)
    requires WellKept(rt.pages) && Numbered(rt)
    ensures FitsAll(rt, appId, listed) <==> rt.maxPageNum + |NewIds(rt.pages, appId, listed)| <= U32_MAX
    decreases |listed|
  {
    if listed == [] {
      assert NewIds(rt.pages, appId, listed) == {};
    } else {
      var front, row := listed[..|listed| - 1], listed[|listed| - 1];
      assert listed == front + [row];
      FitsAllIff(rt, appId, front);
      NewIdsMore(rt.pages, appId, front, row);
      SubsetSize(NewIds(rt.pages, appId, front), NewIds(rt.pages, appId, listed));
      if FitsAll(rt, appId, front) {
        FitsAllIsFree(rt, appId, front);
        FreeAllIff(rt, appId, front);
        FitsCounts(rt, appId, front);
        HeldAfterMerge(rt, appId, front, row.pageId);
      }
    }
  }

  // ---------------------------------------------------------------------------
  // When a listing repeats itself
  // ---------------------------------------------------------------------------

  lemma {:induction false} NothingIssued(r: Runtime, appId: string, listed: seq<RpcPage>)
    requires Issued(r, appId, listed) == 0
    ensures SameTable(r.pages, ListAll(r, appId, listed).pages) && AllHeld(r, appId, listed)
    decreases |listed|
  {
    if listed != [] {
      var front, row := listed[..|listed| - 1], listed[|listed| - 1];
      var mid := ListAll(r, appId, front);
      assert listed == front + [row];
      NothingIssued(r, appId, front);
      MergeOneMore(r, appId, front, row);
      RefreshesTable(mid, appId, row);
      var n :| n in mid.pages && IsPage(mid.pages[n], appId, row.pageId);
      assert SameIds(mid.pages[n], r.pages[n]) && IsPage(r.pages[n], appId, row.pageId);
    }
  }

  /** A merge that goes round the numbers once fills the table with listed pages. */
  lemma RoundFills(r: Runtime, appId: string, listed: seq<RpcPage>, n: nat)
    requires WordSized(r) && Issued(r, appId, listed) == NUMBERS && n < NUMBERS
    ensures var pages := ListAll(r, appId, listed).pages;
      n in pages && pages[n].appId == appId && Lists(listed, pages[n].pageId)
  {
    FirstRoundHolds(r, appId, listed);
    var k := EachNumberComes(r.maxPageNum, n);
  }

  lemma FullRound(r: Runtime, appId: string, listed: seq<RpcPage>, id: nat)
    requires Coherent(r) && WordSized(r) && Issued(r, appId, listed) == NUMBERS
    requires Lists(listed, id) && !Holds(PageListing(r, appId, listed).pages, appId, id)
    ensures |Ids(listed)| > NUMBERS
  {
    var pages := ListAll(r, appId, listed).pages;
    var i :| 0 <= i < |listed| && listed[i].pageId == id;
    ListAllKept(r, appId, listed);
    CounterCounts(r, appId, listed);
    forall n | 0 <= n < NUMBERS ensures n in pages && pages[n].appId == appId && Lists(listed, pages[n].pageId) {
      RoundFills(r, appId, listed, n);
    }
    PrunesNothing(pages, appId, listed);
    FullTable(pages, appId, listed, listed[i]);
    IdsRepeat(listed, i);
  }

  lemma PrunesNothing(pages: map<nat, PageInfo>, appId: string, listed: seq<RpcPage>)
    requires forall n | n in pages :: Lists(listed, pages[n].pageId)
    ensures Prune(pages, appId, listed) == pages
  {
  }

  lemma IdsRepeat(listed: seq<RpcPage>, i: nat)
    requires i < |listed|
    ensures Ids(listed + [listed[i]]) == Ids(listed)
  {
    forall id ensures id in Ids(listed + [listed[i]]) <==> id in Ids(listed) {
      IdsMore(listed, listed[i], id);
      assert Lists(listed, id) <==> id in Ids(listed);
      assert Lists(listed, listed[i].pageId);
    }
  }

  lemma CounterMoves(m: nat, count: nat)
    requires m < NUMBERS && 0 < count < NUMBERS
    ensures NumberAfter(m, count) != m
  {
  }

  /**
   * After a listing every page listed is held if and only if listing the same again changes nothing
   * and there are no more ids listed than there are page numbers.
   */
  lemma IdempotentIff(rt: Runtime, appId: string, listed: seq<RpcPage>)
    requires Coherent(rt) && WordSized(rt)
    ensures var r := PageListing(rt, appId, listed);
      AllHeld(r, appId, listed) <==> PageListing(r, appId, listed) == r && |Ids(listed)| <= NUMBERS
  {
    var r := PageListing(rt, appId, listed);
    var count := Issued(r, appId, listed);
    PageListingCoherent(rt, appId, listed);
    CounterCounts(rt, appId, listed);
    CounterCounts(r, appId, listed);
    if AllHeld(r, appId, listed) {
      ListingIdempotent(rt, appId, listed);
      HeldBounded(r.pages, appId, Ids(listed));
    } else {
      var i :| 0 <= i < |listed| && !Holds(r.pages, appId, listed[i].pageId);
      assert Lists(listed, listed[i].pageId);
      if count == 0 {
        NothingIssued(r, appId, listed);
      } else if count < NUMBERS {
        CounterMoves(r.maxPageNum, count);
      } else if count > NUMBERS {
        TooManyListed(r, appId, listed);
      } else if PageListing(r, appId, listed) == r {
        FullRound(r, appId, listed, listed[i].pageId);
      }
    }
  }

  // ---------------------------------------------------------------------------
  // Reachable states
  // ---------------------------------------------------------------------------

  lemma WsKeepsWordSized(rt: Runtime, msg: WsMessage)
    requires WordSized(rt)
    ensures WordSized(HandleWs(rt, msg))
  {
    WsKeepsNumbers(rt, msg);
  }

  lemma StepWordSized(rt: Runtime, e: Event)
    requires WordSized(rt)
    ensures WordSized(Handle(rt, e))
  {
    match e
    case Ws(msg) => WsKeepsWordSized(rt, msg);
    case Rpc(ReportConnectedApplicationList(apps)) => AddAppsFrame(if rt.connected then rt else Connect(rt), apps);
    case Rpc(ApplicationSentListing(appId, listed)) => CounterCounts(rt, appId, listed);
    case _ =>
  }

  /** Every state a device can get into meets the conditions above. */
  lemma {:induction false} RunWordSized(rt: Runtime, es: seq<Event>)
    requires Coherent(rt) && WordSized(rt)
    ensures Coherent(Run(rt, es)) && WordSized(Run(rt, es))
    decreases |es|
  {
    RunCoherent(rt, es);
    if es != [] {
      RunWordSized(rt, es[..|es| - 1]);
      StepWordSized(Run(rt, es[..|es| - 1]), es[|es| - 1]);
    }
  }
}
