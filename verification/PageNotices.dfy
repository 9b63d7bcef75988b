// What the device listener has been told about a device's pages.

module PageNotices {
  import opened Wrappers
  import opened Rpc
  import opened ProxyModel
  import opened ProxyInvariants
  import opened PageCache
  import RM = RuntimeModel
  import RI = RuntimeInvariants
  import PR = ProxyRuns

  /** The pages in the last notice about a device. */
  function LastTold(notes: seq<Note>, id: string): Option<set<PageNotice>>
    decreases |notes|
  {
    if notes == [] then None
    else
      match notes[|notes| - 1]
      case PagesChanged(info, pages) =>
        if info.deviceId == id then Some(pages) else LastTold(notes[..|notes| - 1], id)
      case _ => LastTold(notes[..|notes| - 1], id)
  }

  /** The listener is told whenever the page list is published. */
  predicate AnyChange(es: seq<RM.Event>)
    decreases |es|
  {
    es != [] && (Republishes(es[|es| - 1]) || AnyChange(es[..|es| - 1]))
  }

  lemma LastToldOneMore(notes: seq<Note>, note: Note, id: string)
    ensures LastTold(notes + [note], id) ==
      if note.PagesChanged? && note.info.deviceId == id then Some(note.pages) else LastTold(notes, id)
  {
    assert (notes + [note])[..|notes + [note]| - 1] == notes;
  }

  // ---------------------------------------------------------------------------
  // Other events leave what a notice shows alone
  // ---------------------------------------------------------------------------

  lemma SameShownSameNotices(pages: map<nat, RM.PageInfo>, after: map<nat, RM.PageInfo>)
    requires SessionsAside(pages, after)
    ensures Notices(after) == Notices(pages)
    ensures after == map[] <==> pages == map[]
  {
    forall n | n in pages ensures n in after && NoticeOf(after[n]) == NoticeOf(pages[n]) {
      assert n in after.Keys;
    }
    forall n | n in after ensures n in pages {
      assert n in pages.Keys;
    }
    assert after == map[] <==> after.Keys == {};
    assert pages == map[] <==> pages.Keys == {};
  }

  // ---------------------------------------------------------------------------
  // One event of the loop
  // ---------------------------------------------------------------------------

  lemma PublishTells(cfg: Config, px: Proxy, d: string, msg: RpcMessage, newly: bool, info: DeviceInfo, id: string)
    requires cfg.hasListener && d in px.devices && info.deviceId == d
    ensures LastTold(Published(cfg, px, d, msg, newly, info).notes, id) ==
      if d == id && Republishes(RM.Rpc(msg)) then Some(Notices(px.devices[id].pages)) else LastTold(px.notes, id)
  {
    match msg
    case ReportSetup => LastToldOneMore(px.notes, Connected(info), id);
    case ReportConnectedApplicationList(_) => LastToldOneMore(px.notes, Connected(info), id);
    case ApplicationDisconnected(_) => LastToldOneMore(px.notes, PagesChanged(info, Notices(px.devices[d].pages)), id);
    case ApplicationSentListing(_, _) => LastToldOneMore(px.notes, PagesChanged(info, Notices(px.devices[d].pages)), id);
    case _ =>
  }

  lemma MessageTells(cfg: Config, px: Proxy, d: string, msg: RpcMessage, id: string)
    requires cfg.hasListener && Keyed(px.devices) && id in px.devices
    ensures LastTold(HandleRpc(cfg, px, d, msg).notes, id) ==
      if d == id && Republishes(RM.Rpc(msg)) then Some(Notices(RM.Handle(px.devices[id], RM.Rpc(msg)).pages))
      else LastTold(px.notes, id)
  {
    if d in px.devices {
      PublishTells(cfg, px.(devices := Table(px, d, RM.Rpc(msg))), d, msg, !px.devices[d].connected,
                   RM.Info(px.devices[d]), id);
    }
  }

  lemma StepTells(cfg: Config, px: Proxy, ev: Event, id: string)
    requires cfg.hasListener && Keyed(px.devices) && id in px.devices
    ensures LastTold(Step(cfg, px, ev).notes, id) ==
      if ev.FromDevice? && ev.id == id && Republishes(RM.Rpc(ev.msg))
      then Some(Notices(RM.Handle(px.devices[id], RM.Rpc(ev.msg)).pages))
      else LastTold(px.notes, id)
  {
    match ev
    case Detached(d) =>
      if d in px.devices {
        LastToldOneMore(px.notes, Disconnected(RM.Info(px.devices[d])), id);
      }
    case FromDevice(d, msg) => MessageTells(cfg, px, d, msg, id);
    case _ =>
  }

  // ---------------------------------------------------------------------------
  // Every reachable state
  // ---------------------------------------------------------------------------

  /** What the listener knows of a device's pages, given what the device has been through. */
  predicate UpToDate(told: Option<set<PageNotice>>, pages: map<nat, RM.PageInfo>, es: seq<RM.Event>) {
    if AnyChange(es) then told == Some(Notices(pages)) else pages == map[]
  }

  lemma EventKeepsUpToDate(rt: RM.Runtime, e: RM.Event, told: Option<set<PageNotice>>, next: Option<set<PageNotice>>,
                           es: seq<RM.Event>)
    requires UpToDate(told, rt.pages, es)
    requires next == if Republishes(e) then Some(Notices(RM.Handle(rt, e).pages)) else told
    ensures UpToDate(next, RM.Handle(rt, e).pages, es + [e])
  {
    assert (es + [e])[..|es + [e]| - 1] == es;
    if !Republishes(e) {
      OthersLeavePages(rt, e);
      SameShownSameNotices(rt.pages, RM.Handle(rt, e).pages);
    }
  }

  lemma {:induction false} LastNoticeIsCurrent(cfg: Config, evs: seq<Event>, id: string)
    requires cfg.hasListener && id in Run(cfg, START, evs).devices
    ensures var px := Run(cfg, START, evs);
      UpToDate(LastTold(px.notes, id), px.devices[id].pages, PR.History(cfg, evs, id))
    decreases |evs|
  {
    if evs != [] {
      var before, ev := evs[..|evs| - 1], evs[|evs| - 1];
      var px := Run(cfg, START, before);
      PR.ReachableSound(cfg, before);
      PR.StepDevice(cfg, px, ev, id);
      if id in px.devices {
        LastNoticeIsCurrent(cfg, before, id);
        StepTells(cfg, px, ev, id);
        if PR.EventFor(ev, id).Some? {
          EventKeepsUpToDate(px.devices[id], PR.EventFor(ev, id).value, LastTold(px.notes, id),
                             LastTold(Step(cfg, px, ev).notes, id), PR.History(cfg, before, id));
        }
      }
    }
  }

  /** A notice that shows each of the pages, with its number, its type and its title, and nothing else. */
  predicate ShowsExactly(shown: set<PageNotice>, pages: map<nat, RM.PageInfo>) {
    && (forall n | n in pages ::
          PageNotice(n, pages[n].pageType, if pages[n].title.Some? then pages[n].title.value else "") in shown)
    && (forall notice | notice in shown ::
          && notice.pageNum in pages && notice.pageType == pages[notice.pageNum].pageType
          && (pages[notice.pageNum].title == Some(notice.name) || (pages[notice.pageNum].title.None? && notice.name == "")))
  }

  lemma NoticesShow(pages: map<nat, RM.PageInfo>)
    requires RI.KeyedByNumber(pages)
    ensures ShowsExactly(Notices(pages), pages)
  {
    forall n | n in pages
      ensures PageNotice(n, pages[n].pageType, if pages[n].title.Some? then pages[n].title.value else "") in Notices(pages)
    {
      assert NoticeOf(pages[n]) in Notices(pages);
    }
  }

  /**
   * Between any two events the listener's last notice about an attached device shows exactly the
   * device's current pages, with their numbers, types and titles; before the first notice since
   * the attachment there are no pages.
   */
  lemma ListenerSeesCurrentPages(cfg: Config, evs: seq<Event>, id: string)
    requires cfg.hasListener && id in Run(cfg, START, evs).devices
    ensures var px := Run(cfg, START, evs);
      if AnyChange(PR.History(cfg, evs, id))
      then LastTold(px.notes, id).Some? && ShowsExactly(LastTold(px.notes, id).value, px.devices[id].pages)
      else px.devices[id].pages == map[]
  {
    LastNoticeIsCurrent(cfg, evs, id);
    PR.ReachableSound(cfg, evs);
    NoticesShow(Run(cfg, START, evs).devices[id].pages);
  }
}
