// From one end to the other: a client's frames in the device's log, a device's data in a
// client's channel, under every interleaving of clients, relays and the event loop.

module EndToEnd {
  import opened Rpc
  import opened Sequences
  import opened Relays
  import opened ProxySystem
  import PM = ProxyModel
  import PR = ProxyRuns
  import RM = RuntimeModel
  import R = Routing
  import H = HttpServer

  // ---------------------------------------------------------------------------
  // What one attachment was given is the last part of what its device was given
  // ---------------------------------------------------------------------------

  lemma {:induction false} HistoryIsSuffix(cfg: PM.Config, evs: seq<PM.Event>, d: string) returns (earlier: seq<RM.Event>)
    ensures EventsFor(evs, d) == earlier + PR.History(cfg, evs, d)
    decreases |evs|
  {
    if evs == [] {
      earlier := [];
    } else {
      var before := evs[..|evs| - 1];
      if d !in PM.Run(cfg, PM.START, before).devices {
        earlier := EventsFor(evs, d);
      } else {
        earlier := HistoryIsSuffix(cfg, before, d);
      }
    }
  }

  lemma {:induction false} KindsAppend(a: seq<RM.Event>, b: seq<RM.Event>)
    ensures WsOf(a + b) == WsOf(a) + WsOf(b)
    ensures RegsOf(a + b) == RegsOf(a) + RegsOf(b)
    ensures RpcsOf(a + b) == RpcsOf(a) + RpcsOf(b)
    decreases |b|
  {
    if b == [] {
      assert a + b == a;
    } else {
      var front, last := b[..|b| - 1], b[|b| - 1];
      assert a + b == (a + front) + [last];
      KindsAppend(a, front);
      KindsOneMore(a + front, last);
      KindsOneMore(front, last);
      assert front + [last] == b;
    }
  }

  lemma {:induction false} FramesAppend(a: seq<WsMessage>, b: seq<WsMessage>, id: string)
    ensures R.Frames(a + b, id) == R.Frames(a, id) + R.Frames(b, id)
    decreases |b|
  {
    if b == [] {
      assert a + b == a;
    } else {
      assert (a + b)[..|a + b| - 1] == a + b[..|b| - 1];
      FramesAppend(a, b[..|b| - 1], id);
    }
  }

  lemma {:induction false} ValuesForAppend<T>(a: seq<Item<T>>, b: seq<Item<T>>, d: string)
    ensures ValuesFor(a + b, d) == ValuesFor(a, d) + ValuesFor(b, d)
    decreases |b|
  {
    if b == [] {
      assert a + b == a;
    } else {
      assert (a + b)[..|a + b| - 1] == a + b[..|b| - 1];
      ValuesForAppend(a, b[..|b| - 1], d);
    }
  }

  // ---------------------------------------------------------------------------
  // Client to device
  // ---------------------------------------------------------------------------

  lemma {:induction false} ForwardableAreFrames(rt: RM.Runtime, es: seq<RM.Event>, id: string)
    ensures Subsequence(R.Forwardable(rt, es, id), R.Frames(WsOf(es), id))
    decreases |es|
  {
    if es != [] {
      var before, e := es[..|es| - 1], es[|es| - 1];
      ForwardableAreFrames(rt, before, id);
      if e.Ws? {
        var ms := WsOf(before) + [e.ws];
        assert ms[..|ms| - 1] == WsOf(before);
        SubsequenceBoth(R.Forwardable(rt, before, id), R.Frames(WsOf(before), id), e.ws.data);
      }
    }
  }

  /** Everything the client `id` says goes through relay `r`: it is connected to one server. */
  predicate SpeaksVia(items: seq<Item<WsMessage>>, id: string, r: nat) {
    forall i | 0 <= i < |items| :: items[i].value.wsId == id ==> items[i].relay == r
  }

  lemma {:induction false} FramesVia(items: seq<Item<WsMessage>>, id: string, r: nat, d: string)
    requires SpeaksVia(items, id, r)
    ensures R.Frames(ValuesFor(items, d), id) == R.Frames(ValuesFor(Via(items, r), d), id)
    decreases |items|
  {
    if items != [] {
      var front, x := items[..|items| - 1], items[|items| - 1];
      FramesVia(front, id, r, d);
      if x.device == d {
        FramesAppend(ValuesFor(front, d), [x.value], id);
        FramesOfOne(x.value, id);
      }
      if x.relay == r {
        ValuesForOneMore(Via(front, r), x, d);
        if x.device == d {
          FramesAppend(ValuesFor(Via(front, r), d), [x.value], id);
        } else {
          assert ValuesFor(Via(front, r), d) + [] == ValuesFor(Via(front, r), d);
        }
      }
    }
  }

  lemma FramesOfOne(m: WsMessage, id: string)
    ensures R.Frames([m], id) == if R.IsFrame(m, id) then [m.data] else []
  {
    assert [m][..0] == [];
    assert R.Frames([], id) == [];
  }

  /** What has been put into relay `r`, in order. */
  function Spoken<T>(p: Pipes<T>, owners: seq<string>, r: nat): seq<T>
    requires r < |owners|
  {
    ValuesFor(Via(p.produced, r), owners[r])
  }

  lemma {:induction false} OtherDevicesGetNothing<T>(items: seq<Item<T>>, owners: seq<string>, r: nat, d: string)
    requires r < |owners| && owners[r] != d && Owned(items, owners)
    ensures ValuesFor(Via(items, r), d) == []
    decreases |items|
  {
    if items != [] {
      var front, x := items[..|items| - 1], items[|items| - 1];
      OtherDevicesGetNothing(front, owners, r, d);
      ValuesForOneMore(Via(front, r), x, d);
    }
  }

  /** The client's frames among those handled for a device begin what the client has said. */
  lemma HandledFramesArePrefix(cfg: PM.Config, s: System, id: string, r: nat, d: string)
    requires Flows(cfg, s) && r < |s.owners| && SpeaksVia(s.msgs.produced, id, r)
    ensures R.Frames(WsOf(EventsFor(s.handled, d)), id) <= R.Frames(Spoken(s.msgs, s.owners, r), id)
    ensures d != s.owners[r] ==> R.Frames(WsOf(EventsFor(s.handled, d)), id) == []
  {
    forall i | 0 <= i < |s.msgs.taken| && s.msgs.taken[i].value.wsId == id ensures s.msgs.taken[i].relay == r {
      TakenWasProduced(s.msgs, s.msgs.taken[i]);
    }
    FramesVia(s.msgs.taken, id, r, d);
    TakenIsPrefix(s.msgs, r);
    var taken, all := Via(s.msgs.taken, r), Via(s.msgs.produced, r);
    assert all == taken + all[|taken|..];
    ValuesForAppend(taken, all[|taken|..], d);
    FramesAppend(ValuesFor(taken, d), ValuesFor(all[|taken|..], d), id);
    if d != s.owners[r] {
      OtherDevicesGetNothing(s.msgs.produced, s.owners, r, d);
    }
  }

  lemma SuffixFrames(x: seq<Bytes>, earlier: seq<RM.Event>, es: seq<RM.Event>, id: string)
    requires Subsequence(x, R.Frames(WsOf(es), id))
    ensures Subsequence(x, R.Frames(WsOf(earlier + es), id))
  {
    KindsAppend(earlier, es);
    FramesAppend(WsOf(earlier), WsOf(es), id);
    SubsequencePrepend(x, R.Frames(WsOf(earlier), id), R.Frames(WsOf(es), id));
  }

  lemma OwnRunForwards(rt: RM.Runtime, es: seq<RM.Event>, id: string)
    requires rt.deviceId.Some? && rt.deviceName.Some? && rt == RM.Run(PR.Origin(rt), es)
    ensures Subsequence(R.DataFrom(rt.sent, id), R.Frames(WsOf(es), id))
  {
    R.FramesAreForwarded(PR.Origin(rt), es, id);
    NothingForwardedYet(rt, id);
    assert R.DataFrom(rt.sent, id) == R.Forwardable(PR.Origin(rt), es, id);
    ForwardableAreFrames(PR.Origin(rt), es, id);
  }

  lemma LogIsForwardable(cfg: PM.Config, evs: seq<PM.Event>, id: string, d: string)
    requires d in PM.Run(cfg, PM.START, evs).devices
    ensures Subsequence(R.DataFrom(PM.Run(cfg, PM.START, evs).devices[d].sent, id), R.Frames(WsOf(EventsFor(evs, d)), id))
  {
    PR.DeviceIsItsOwnRun(cfg, evs, d);
    var rt := PM.Run(cfg, PM.START, evs).devices[d];
    OwnRunForwards(rt, PR.History(cfg, evs, d), id);
    var earlier := HistoryIsSuffix(cfg, evs, d);
    SuffixFrames(R.DataFrom(rt.sent, id), earlier, PR.History(cfg, evs, d), id);
  }

  lemma NothingForwardedYet(rt: RM.Runtime, id: string)
    requires rt.deviceId.Some? && rt.deviceName.Some?
    ensures R.DataFrom(PR.Origin(rt).sent, id) == []
  {
    assert [SentIdentifier][..0] == [];
    assert R.DataFrom([], id) == [];
  }

  /**
   * Under any interleaving, the payloads of client `id` in the log of an attached device are some of
   * the non-empty frames it has sent, unchanged and in the order sent; and there are none in the log
   * of any other device than the one the client's server belongs to.
   */
  lemma FramesReachTheirDevice(cfg: PM.Config, steps: seq<Step>, id: string, r: nat, d: string)
    requires r < |Run(cfg, steps).owners| && SpeaksVia(Run(cfg, steps).msgs.produced, id, r)
    requires d in Run(cfg, steps).proxy.devices
    ensures var s := Run(cfg, steps);
      && Subsequence(R.DataFrom(s.proxy.devices[d].sent, id), R.Frames(Spoken(s.msgs, s.owners, r), id))
      && (d != s.owners[r] ==> R.DataFrom(s.proxy.devices[d].sent, id) == [])
  {
    var s := Run(cfg, steps);
    RunFlows(cfg, steps);
    LogIsForwardable(cfg, s.handled, id, d);
    HandledFramesArePrefix(cfg, s, id, r, d);
    var handled, all := R.Frames(WsOf(EventsFor(s.handled, d)), id), R.Frames(Spoken(s.msgs, s.owners, r), id);
    SubsequenceOfPrefix(R.DataFrom(s.proxy.devices[d].sent, id), handled, all);
  }

  /** The messages of client `id` among others. */
  function OfClient(ms: seq<WsMessage>, id: string): seq<WsMessage>
    decreases |ms|
  {
    if ms == [] then []
    else
      var front, last := ms[..|ms| - 1], ms[|ms| - 1];
      if last.wsId == id then OfClient(front, id) + [last] else OfClient(front, id)
  }

  lemma {:induction false} FramesOfClient(ms: seq<WsMessage>, id: string)
    ensures R.Frames(OfClient(ms, id), id) == R.Frames(ms, id)
    decreases |ms|
  {
    if ms != [] {
      var front, last := ms[..|ms| - 1], ms[|ms| - 1];
      FramesOfClient(front, id);
      if last.wsId == id {
        assert (OfClient(front, id) + [last])[..|OfClient(front, id)|] == OfClient(front, id);
      }
    }
  }

  lemma FramesOfPrefix(a: seq<WsMessage>, b: seq<WsMessage>, id: string)
    requires a <= b
    ensures R.Frames(a, id) <= R.Frames(b, id)
  {
    assert b == a + b[|a|..];
    FramesAppend(a, b[|a|..], id);
  }

  /**
   * For a client that runs the bridging loop on a socket: what its device has been sent on its
   * behalf is some of the text and binary payloads received on the socket, in order.
   */
  lemma SocketPayloadsReachTheDevice(cfg: PM.Config, steps: seq<Step>, id: string, r: nat, d: string,
                                     pageNum: nat, turns: seq<H.Turn>)
    requires r < |Run(cfg, steps).owners| && SpeaksVia(Run(cfg, steps).msgs.produced, id, r)
    requires d in Run(cfg, steps).proxy.devices
    requires var s := Run(cfg, steps);
      OfClient(Spoken(s.msgs, s.owners, r), id) <= H.Conversation(pageNum, id, turns)
    ensures Subsequence(R.DataFrom(Run(cfg, steps).proxy.devices[d].sent, id), H.Payloads(H.Heard(turns)))
  {
    var s := Run(cfg, steps);
    FramesReachTheirDevice(cfg, steps, id, r, d);
    var said, all := OfClient(Spoken(s.msgs, s.owners, r), id), H.Conversation(pageNum, id, turns);
    FramesOfClient(Spoken(s.msgs, s.owners, r), id);
    FramesOfPrefix(said, all, id);
    H.ConversationShape(pageNum, id, turns);
    SubsequenceOfPrefix(R.DataFrom(s.proxy.devices[d].sent, id), R.Frames(said, id), R.Frames(all, id));
  }

  // ---------------------------------------------------------------------------
  // Device to client
  // ---------------------------------------------------------------------------

  predicate IsDataTo(m: RpcMessage, id: string) {
    m.ApplicationSentData? && m.destId == id
  }

  /** The payloads a device has addressed to `id`. */
  function DataTo(ms: seq<RpcMessage>, id: string): seq<Bytes>
    decreases |ms|
  {
    if ms == [] then []
    else
      var front, last := ms[..|ms| - 1], ms[|ms| - 1];
      if IsDataTo(last, id) then DataTo(front, id) + [last.data] else DataTo(front, id)
  }

  lemma {:induction false} DataToAppend(a: seq<RpcMessage>, b: seq<RpcMessage>, id: string)
    ensures DataTo(a + b, id) == DataTo(a, id) + DataTo(b, id)
    decreases |b|
  {
    if b == [] {
      assert a + b == a;
    } else {
      assert (a + b)[..|a + b| - 1] == a + b[..|b| - 1];
      DataToAppend(a, b[..|b| - 1], id);
    }
  }

  predicate AnswersVia(items: seq<Item<RpcMessage>>, id: string, r: nat) {
    forall i | 0 <= i < |items| :: IsDataTo(items[i].value, id) ==> items[i].relay == r
  }

  lemma {:induction false} DataVia(items: seq<Item<RpcMessage>>, id: string, r: nat, d: string)
    requires AnswersVia(items, id, r)
    ensures DataTo(ValuesFor(items, d), id) == DataTo(ValuesFor(Via(items, r), d), id)
    decreases |items|
  {
    if items != [] {
      var front, x := items[..|items| - 1], items[|items| - 1];
      DataVia(front, id, r, d);
      if x.device == d {
        DataToAppend(ValuesFor(front, d), [x.value], id);
        assert [x.value][..0] == [] && DataTo([], id) == [];
      }
      if x.relay == r {
        ValuesForOneMore(Via(front, r), x, d);
        if x.device == d {
          DataToAppend(ValuesFor(Via(front, r), d), [x.value], id);
        } else {
          assert ValuesFor(Via(front, r), d) + [] == ValuesFor(Via(front, r), d);
        }
      }
    }
  }

  lemma {:induction false} AddressedIsDataTo(es: seq<RM.Event>, id: string, c: nat)
    ensures Subsequence(R.Addressed(es, id, c), DataTo(RpcsOf(es), id))
    decreases |es|
  {
    if es != [] {
      var before, e := es[..|es| - 1], es[|es| - 1];
      AddressedIsDataTo(before, id, c);
      if e.Rpc? {
        var ms := RpcsOf(before) + [e.rpc];
        assert ms[..|ms| - 1] == RpcsOf(before);
        if IsDataTo(e.rpc, id) {
          SubsequenceBoth(R.Addressed(before, id, c), DataTo(RpcsOf(before), id), e.rpc.data);
        }
      }
    }
  }

  lemma {:induction false} RegsOfContains(es: seq<RM.Event>, i: nat)
    requires i < |es| && es[i].Reg?
    ensures es[i].reg in RegsOf(es)
    decreases |es|
  {
    if i < |es| - 1 {
      RegsOfContains(es[..|es| - 1], i);
    }
  }

  lemma {:induction false} ValuesForCameFrom<T>(items: seq<Item<T>>, d: string, v: T)
    requires v in ValuesFor(items, d)
    ensures exists i | 0 <= i < |items| :: items[i].value == v
    decreases |items|
  {
    var front, last := items[..|items| - 1], items[|items| - 1];
    if v in ValuesFor(front, d) {
      ValuesForCameFrom(front, d, v);
      var i :| 0 <= i < |front| && front[i].value == v;
      assert items[i].value == v;
    }
  }

  /** Channel `c` belongs to client `id` alone. */
  predicate OwnChannel(items: seq<Item<Registration>>, id: string, c: nat) {
    forall i | 0 <= i < |items| :: items[i].value.channel == c ==> items[i].value.wsId == id
  }

  /** The registrations a device has been given respect the channel's ownership. */
  lemma HandledRegistrations(cfg: PM.Config, s: System, d: string, id: string, c: nat, earlier: seq<RM.Event>, es: seq<RM.Event>)
    requires Flows(cfg, s) && OwnChannel(s.regs.produced, id, c)
    requires EventsFor(s.handled, d) == earlier + es
    ensures forall i | 0 <= i < |es| :: es[i].Reg? && es[i].reg.channel == c ==> es[i].reg.wsId == id
  {
    KindsAppend(earlier, es);
    forall i | 0 <= i < |es| && es[i].Reg? && es[i].reg.channel == c ensures es[i].reg.wsId == id {
      RegsOfContains(es, i);
      assert es[i].reg in ValuesFor(s.regs.taken, d);
      ValuesForCameFrom(s.regs.taken, d, es[i].reg);
      var k :| 0 <= k < |s.regs.taken| && s.regs.taken[k].value == es[i].reg;
      TakenWasProduced(s.regs, s.regs.taken[k]);
    }
  }

  lemma HandledDataIsPrefix(cfg: PM.Config, s: System, id: string, r: nat, d: string)
    requires Flows(cfg, s) && AnswersVia(s.reports.produced, id, r)
    ensures DataTo(RpcsOf(EventsFor(s.handled, d)), id) <= DataTo(ValuesFor(Via(s.reports.produced, r), d), id)
  {
    forall i | 0 <= i < |s.reports.taken| && IsDataTo(s.reports.taken[i].value, id) ensures s.reports.taken[i].relay == r {
      TakenWasProduced(s.reports, s.reports.taken[i]);
    }
    DataVia(s.reports.taken, id, r, d);
    TakenIsPrefix(s.reports, r);
    var taken, all := Via(s.reports.taken, r), Via(s.reports.produced, r);
    assert all == taken + all[|taken|..];
    ValuesForAppend(taken, all[|taken|..], d);
    DataToAppend(ValuesFor(taken, d), ValuesFor(all[|taken|..], d), id);
  }

  lemma OwnRunDelivers(rt: RM.Runtime, es: seq<RM.Event>, id: string, c: nat)
    requires rt.deviceId.Some? && rt.deviceName.Some? && rt == RM.Run(PR.Origin(rt), es)
    requires forall i | 0 <= i < |es| :: es[i].Reg? && es[i].reg.channel == c ==> es[i].reg.wsId == id
    ensures Subsequence(R.Received(rt.delivered, c), DataTo(RpcsOf(es), id))
  {
    R.DeliveriesFollowRegistrations(PR.Origin(rt), es);
    R.ChannelReceivesItsOwn(es, id, c);
    AddressedIsDataTo(es, id, c);
  }

  lemma SuffixData(x: seq<Bytes>, earlier: seq<RM.Event>, es: seq<RM.Event>, id: string)
    requires Subsequence(x, DataTo(RpcsOf(es), id))
    ensures Subsequence(x, DataTo(RpcsOf(earlier + es), id))
  {
    KindsAppend(earlier, es);
    DataToAppend(RpcsOf(earlier), RpcsOf(es), id);
    SubsequencePrepend(x, DataTo(RpcsOf(earlier), id), DataTo(RpcsOf(es), id));
  }

  /**
   * Under any interleaving, a channel that one client alone registers receives only data that was
   * addressed to that client and taken for its device, unchanged and in the order taken. Each
   * connection's data is taken in the order it was sent; data of an earlier connection to the same
   * device may still come in between.
   */
  lemma DataReachesItsClient(cfg: PM.Config, steps: seq<Step>, id: string, c: nat, d: string)
    requires d in Run(cfg, steps).proxy.devices && OwnChannel(Run(cfg, steps).regs.produced, id, c)
    ensures var s := Run(cfg, steps);
      && Subsequence(R.Received(s.proxy.devices[d].delivered, c), DataTo(ValuesFor(s.reports.taken, d), id))
      && forall r: nat :: Via(s.reports.taken, r) <= Via(s.reports.produced, r)
  {
    var s := Run(cfg, steps);
    RunFlows(cfg, steps);
    PR.DeviceIsItsOwnRun(cfg, s.handled, d);
    var rt, es := s.proxy.devices[d], PR.History(cfg, s.handled, d);
    var earlier := HistoryIsSuffix(cfg, s.handled, d);
    HandledRegistrations(cfg, s, d, id, c, earlier, es);
    OwnRunDelivers(rt, es, id, c);
    SuffixData(R.Received(rt.delivered, c), earlier, es, id);
    forall r: nat ensures Via(s.reports.taken, r) <= Via(s.reports.produced, r) {
      TakenIsPrefix(s.reports, r);
    }
  }

  /** If one connection carries all the client's data, it comes in the order the device sent it. */
  lemma DataOfOneConnection(cfg: PM.Config, steps: seq<Step>, id: string, c: nat, r: nat, d: string)
    requires d in Run(cfg, steps).proxy.devices && OwnChannel(Run(cfg, steps).regs.produced, id, c)
    requires AnswersVia(Run(cfg, steps).reports.produced, id, r)
    ensures var s := Run(cfg, steps);
      Subsequence(R.Received(s.proxy.devices[d].delivered, c), DataTo(ValuesFor(Via(s.reports.produced, r), d), id))
  {
    var s := Run(cfg, steps);
    RunFlows(cfg, steps);
    DataReachesItsClient(cfg, steps, id, c, d);
    HandledDataIsPrefix(cfg, s, id, r, d);
    SubsequenceOfPrefix(R.Received(s.proxy.devices[d].delivered, c), DataTo(RpcsOf(EventsFor(s.handled, d)), id),
                        DataTo(ValuesFor(Via(s.reports.produced, r), d), id));
  }

  /**
   * For a client whose bridging loop reads channel `c`, so far some beginning of what was put into
   * it: the texts written to its socket are some of the data the device addressed to it, in order.
   */
  lemma SocketTextsComeFromTheDevice(cfg: PM.Config, steps: seq<Step>, id: string, c: nat, d: string, turns: seq<H.Turn>)
    requires d in Run(cfg, steps).proxy.devices && OwnChannel(Run(cfg, steps).regs.produced, id, c)
    requires H.FromChannel(turns) <= R.Received(Run(cfg, steps).proxy.devices[d].delivered, c)
    ensures Subsequence(H.Texts(H.Replied(H.Heard(turns))), DataTo(ValuesFor(Run(cfg, steps).reports.taken, d), id))
  {
    var s := Run(cfg, steps);
    DataReachesItsClient(cfg, steps, id, c, d);
    H.TextsAreFromChannel(turns);
    PrefixOfSubsequence(H.Texts(H.Replied(H.Heard(turns))), R.Received(s.proxy.devices[d].delivered, c),
                        DataTo(ValuesFor(s.reports.taken, d), id));
  }
}
