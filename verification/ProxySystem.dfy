// The proxy core with its channels: clients and devices on one side, the event loop on the other,
// any interleaving of the tasks in between.

module ProxySystem {
  import opened Rpc
  import opened Relays
  import PM = ProxyModel
  import PR = ProxyRuns
  import RM = RuntimeModel

  /** `owners` names the device each relay was opened for; `handled` logs what the loop has handled. */
  datatype System = System(
    proxy: PM.Proxy,
    owners: seq<string>,
    msgs: Pipes<WsMessage>,
    regs: Pipes<Registration>,
    reports: Pipes<RpcMessage>,
    handled: seq<PM.Event>)

  const BEGIN := System(PM.START, [], NoPipes(), NoPipes(), NoPipes(), [])

  datatype Step =
    | Attach(id: string, attempt: PM.Attempt)
    | Detach(id: string)
    | Say(r: nat, msg: WsMessage)
    | Enrol(r: nat, reg: Registration)
    | Report(r: nat, rpc: RpcMessage)
    | MoveMsg(r: nat)
    | MoveReg(r: nat)
    | MoveReport(r: nat)
    | TakeMsg
    | TakeReg
    | TakeReport

  predicate Enabled(s: System, st: Step) {
    match st
    case Say(r, _) => r < |s.owners|
    case Enrol(r, _) => r < |s.owners|
    case Report(r, _) => r < |s.owners|
    case MoveMsg(r) => r < |s.msgs.queues| && s.msgs.queues[r] != []
    case MoveReg(r) => r < |s.regs.queues| && s.regs.queues[r] != []
    case MoveReport(r) => r < |s.reports.queues| && s.reports.queues[r] != []
    case TakeMsg => s.msgs.shared != []
    case TakeReg => s.regs.shared != []
    case TakeReport => s.reports.shared != []
    case _ => true
  }

  ghost function Handle(cfg: PM.Config, s: System, ev: PM.Event): System {
    s.(proxy := PM.Step(cfg, s.proxy, ev), handled := s.handled + [ev])
  }

  function OpenRelays(s: System, id: string): System {
    s.(owners := s.owners + [id], msgs := OpenRelay(s.msgs), regs := OpenRelay(s.regs), reports := OpenRelay(s.reports))
  }

  /** A relay per successful attachment; relays of devices that are gone go on moving what they hold. */
  ghost function Next(cfg: PM.Config, s: System, st: Step): System
    requires Enabled(s, st) && Aligned(s)
  {
    match st
    case Attach(id, attempt) =>
      var t := Handle(cfg, s, PM.Attached(id, attempt));
      if id !in s.proxy.devices && id in t.proxy.devices then OpenRelays(t, id) else t
    case Detach(id) => Handle(cfg, s, PM.Detached(id))
    case Say(r, msg) => s.(msgs := Put(s.msgs, Item(r, s.owners[r], msg)))
    case Enrol(r, reg) => s.(regs := Put(s.regs, Item(r, s.owners[r], reg)))
    case Report(r, rpc) => s.(reports := Put(s.reports, Item(r, s.owners[r], rpc)))
    case MoveMsg(r) => s.(msgs := Move(s.msgs, r))
    case MoveReg(r) => s.(regs := Move(s.regs, r))
    case MoveReport(r) => s.(reports := Move(s.reports, r))
    case TakeMsg =>
      var x := s.msgs.shared[0];
      Handle(cfg, s.(msgs := TakeOne(s.msgs)), PM.FromClient(x.device, x.value))
    case TakeReg =>
      var x := s.regs.shared[0];
      Handle(cfg, s.(regs := TakeOne(s.regs)), PM.Registering(x.device, x.value))
    case TakeReport =>
      var x := s.reports.shared[0];
      Handle(cfg, s.(reports := TakeOne(s.reports)), PM.FromDevice(x.device, x.value))
  }

  predicate Aligned(s: System) {
    |s.msgs.queues| == |s.regs.queues| == |s.reports.queues| == |s.owners|
  }

  // ---------------------------------------------------------------------------
  // Runs: steps that are not enabled do not happen
  // ---------------------------------------------------------------------------

  ghost function Run(cfg: PM.Config, steps: seq<Step>): (s: System)
    ensures Aligned(s)
    decreases |steps|
  {
    if steps == [] then BEGIN
    else
      var s, st := Run(cfg, steps[..|steps| - 1]), steps[|steps| - 1];
      if Enabled(s, st) then Next(cfg, s, st) else s
  }

  // ---------------------------------------------------------------------------
  // Views of what was handled and of what was taken
  // ---------------------------------------------------------------------------

  /** What device `d` was given, over all its attachments. */
  function EventsFor(evs: seq<PM.Event>, d: string): seq<RM.Event>
    decreases |evs|
  {
    if evs == [] then []
    else
      var front, e := evs[..|evs| - 1], PR.EventFor(evs[|evs| - 1], d);
      if e.Some? then EventsFor(front, d) + [e.value] else EventsFor(front, d)
  }

  function WsOf(es: seq<RM.Event>): seq<WsMessage>
    decreases |es|
  {
    if es == [] then []
    else
      var front, e := es[..|es| - 1], es[|es| - 1];
      if e.Ws? then WsOf(front) + [e.ws] else WsOf(front)
  }

  function RegsOf(es: seq<RM.Event>): seq<Registration>
    decreases |es|
  {
    if es == [] then []
    else
      var front, e := es[..|es| - 1], es[|es| - 1];
      if e.Reg? then RegsOf(front) + [e.reg] else RegsOf(front)
  }

  function RpcsOf(es: seq<RM.Event>): seq<RpcMessage>
    decreases |es|
  {
    if es == [] then []
    else
      var front, e := es[..|es| - 1], es[|es| - 1];
      if e.Rpc? then RpcsOf(front) + [e.rpc] else RpcsOf(front)
  }

  function ValuesFor<T>(items: seq<Item<T>>, d: string): seq<T>
    decreases |items|
  {
    if items == [] then []
    else
      var front, last := items[..|items| - 1], items[|items| - 1];
      if last.device == d then ValuesFor(front, d) + [last.value] else ValuesFor(front, d)
  }

  // ---------------------------------------------------------------------------
  // The invariant
  // ---------------------------------------------------------------------------

  predicate Owned<T>(items: seq<Item<T>>, owners: seq<string>) {
    forall i | 0 <= i < |items| :: items[i].relay < |owners| && items[i].device == owners[items[i].relay]
  }

  /** The loop has handled, device by device and kind by kind, exactly what was taken, in order. */
  ghost predicate HandlesTaken(s: System) {
    forall d ::
      && WsOf(EventsFor(s.handled, d)) == ValuesFor(s.msgs.taken, d)
      && RegsOf(EventsFor(s.handled, d)) == ValuesFor(s.regs.taken, d)
      && RpcsOf(EventsFor(s.handled, d)) == ValuesFor(s.reports.taken, d)
  }

  /** Every message bears the device its relay was opened for. */
  predicate AllOwned(s: System) {
    Owned(s.msgs.produced, s.owners) && Owned(s.regs.produced, s.owners) && Owned(s.reports.produced, s.owners)
  }

  ghost predicate Flows(cfg: PM.Config, s: System) {
    && s.proxy == PM.Run(cfg, PM.START, s.handled)
    && Conserved(s.msgs) && Conserved(s.regs) && Conserved(s.reports)
    && AllOwned(s)
    && HandlesTaken(s)
  }

  lemma HandleRuns(cfg: PM.Config, s: System, ev: PM.Event)
    requires s.proxy == PM.Run(cfg, PM.START, s.handled)
    ensures Handle(cfg, s, ev).proxy == PM.Run(cfg, PM.START, Handle(cfg, s, ev).handled)
  {
    assert (s.handled + [ev])[..|s.handled + [ev]| - 1] == s.handled;
  }

  lemma EventsForOneMore(evs: seq<PM.Event>, ev: PM.Event, d: string)
    ensures EventsFor(evs + [ev], d) ==
      EventsFor(evs, d) + if PR.EventFor(ev, d).Some? then [PR.EventFor(ev, d).value] else []
  {
    assert (evs + [ev])[..|evs + [ev]| - 1] == evs;
  }

  lemma KindsOneMore(es: seq<RM.Event>, e: RM.Event)
    ensures WsOf(es + [e]) == WsOf(es) + if e.Ws? then [e.ws] else []
    ensures RegsOf(es + [e]) == RegsOf(es) + if e.Reg? then [e.reg] else []
    ensures RpcsOf(es + [e]) == RpcsOf(es) + if e.Rpc? then [e.rpc] else []
  {
    assert (es + [e])[..|es + [e]| - 1] == es;
  }

  lemma ValuesForOneMore<T>(items: seq<Item<T>>, x: Item<T>, d: string)
    ensures ValuesFor(items + [x], d) == ValuesFor(items, d) + if x.device == d then [x.value] else []
  {
    assert (items + [x])[..|items + [x]| - 1] == items;
  }

  /** Handling one event adds it to what its device was given, and to nothing else. */
  lemma ViewsOneMore(evs: seq<PM.Event>, ev: PM.Event, d: string)
    ensures WsOf(EventsFor(evs + [ev], d)) ==
      WsOf(EventsFor(evs, d)) + if ev.FromClient? && ev.id == d then [ev.ws] else []
    ensures RegsOf(EventsFor(evs + [ev], d)) ==
      RegsOf(EventsFor(evs, d)) + if ev.Registering? && ev.id == d then [ev.reg] else []
    ensures RpcsOf(EventsFor(evs + [ev], d)) ==
      RpcsOf(EventsFor(evs, d)) + if ev.FromDevice? && ev.id == d then [ev.msg] else []
  {
    EventsForOneMore(evs, ev, d);
    var es := EventsFor(evs, d);
    if PR.EventFor(ev, d).Some? {
      KindsOneMore(es, PR.EventFor(ev, d).value);
    } else {
      assert es + [] == es;
    }
  }

  lemma NextHandlesTaken(cfg: PM.Config, s: System, st: Step)
    requires Aligned(s) && Enabled(s, st) && HandlesTaken(s)
    ensures HandlesTaken(Next(cfg, s, st))
  {
    var t := Next(cfg, s, st);
    forall d
      ensures WsOf(EventsFor(t.handled, d)) == ValuesFor(t.msgs.taken, d)
      ensures RegsOf(EventsFor(t.handled, d)) == ValuesFor(t.regs.taken, d)
      ensures RpcsOf(EventsFor(t.handled, d)) == ValuesFor(t.reports.taken, d)
    {
      if t.handled != s.handled {
        ViewsOneMore(s.handled, t.handled[|s.handled|], d);
        assert t.handled == s.handled + [t.handled[|s.handled|]];
      }
      match st {
        case TakeMsg => ValuesForOneMore(s.msgs.taken, s.msgs.shared[0], d);
        case TakeReg => ValuesForOneMore(s.regs.taken, s.regs.shared[0], d);
        case TakeReport => ValuesForOneMore(s.reports.taken, s.reports.shared[0], d);
        case _ =>
      }
    }
  }

  lemma NextConserves(cfg: PM.Config, s: System, st: Step)
    requires Aligned(s) && Enabled(s, st)
    requires Conserved(s.msgs) && Conserved(s.regs) && Conserved(s.reports)
    ensures var t := Next(cfg, s, st); Conserved(t.msgs) && Conserved(t.regs) && Conserved(t.reports)
  {
    match st
    case Attach(_, _) =>
      OpenRelayConserves(s.msgs);
      OpenRelayConserves(s.regs);
      OpenRelayConserves(s.reports);
    case Say(r, msg) => PutConserves(s.msgs, Item(r, s.owners[r], msg));
    case Enrol(r, reg) => PutConserves(s.regs, Item(r, s.owners[r], reg));
    case Report(r, rpc) => PutConserves(s.reports, Item(r, s.owners[r], rpc));
    case MoveMsg(r) => MoveConserves(s.msgs, r);
    case MoveReg(r) => MoveConserves(s.regs, r);
    case MoveReport(r) => MoveConserves(s.reports, r);
    case TakeMsg => TakeOneConserves(s.msgs);
    case TakeReg => TakeOneConserves(s.regs);
    case TakeReport => TakeOneConserves(s.reports);
    case Detach(_) =>
  }

  lemma NextRuns(cfg: PM.Config, s: System, st: Step)
    requires Aligned(s) && Enabled(s, st) && s.proxy == PM.Run(cfg, PM.START, s.handled)
    ensures var t := Next(cfg, s, st); t.proxy == PM.Run(cfg, PM.START, t.handled)
  {
    match st
    case Attach(id, attempt) => HandleRuns(cfg, s, PM.Attached(id, attempt));
    case Detach(id) => HandleRuns(cfg, s, PM.Detached(id));
    case TakeMsg => HandleRuns(cfg, s, PM.FromClient(s.msgs.shared[0].device, s.msgs.shared[0].value));
    case TakeReg => HandleRuns(cfg, s, PM.Registering(s.regs.shared[0].device, s.regs.shared[0].value));
    case TakeReport => HandleRuns(cfg, s, PM.FromDevice(s.reports.shared[0].device, s.reports.shared[0].value));
    case _ =>
  }

  lemma NextOwned(cfg: PM.Config, s: System, st: Step)
    requires Aligned(s) && Enabled(s, st) && AllOwned(s)
    ensures AllOwned(Next(cfg, s, st))
  {
  }

  /** The channels as they were, but that `more` has been put in. */
  predicate Received<T(==)>(p: Pipes<T>, q: Pipes<T>, more: seq<Item<T>>) {
    q.produced == p.produced + more && q.taken == p.taken && q.shared == p.shared
  }

  /** The channels as they were, but that `more` has been taken out at the front. */
  predicate Delivers<T(==)>(p: Pipes<T>, q: Pipes<T>, more: seq<Item<T>>) {
    q.produced == p.produced && q.taken == p.taken + more && p.shared == more + q.shared
  }

  /**
   * Attachments and detachments are handled at once, and a relay is opened exactly for a device that
   * an attachment has brought into the table. What is put into a relay is not handled before it
   * is taken, and then for the device of the relay.
   */
  lemma StepExact(cfg: PM.Config, s: System, st: Step)
    requires Aligned(s) && Enabled(s, st)
    ensures var t := Next(cfg, s, st);
      match st
      case Attach(id, attempt) =>
        && t.handled == s.handled + [PM.Attached(id, attempt)]
        && t.owners == s.owners + (if id in t.proxy.devices && id !in s.proxy.devices then [id] else [])
        && Received(s.msgs, t.msgs, []) && Received(s.regs, t.regs, []) && Received(s.reports, t.reports, [])
      case Detach(id) => t.handled == s.handled + [PM.Detached(id)] && t == s.(proxy := t.proxy, handled := t.handled)
      case Say(r, msg) => Received(s.msgs, t.msgs, [Item(r, s.owners[r], msg)]) && t == s.(msgs := t.msgs)
      case Enrol(r, reg) => Received(s.regs, t.regs, [Item(r, s.owners[r], reg)]) && t == s.(regs := t.regs)
      case Report(r, rpc) => Received(s.reports, t.reports, [Item(r, s.owners[r], rpc)]) && t == s.(reports := t.reports)
      case MoveMsg(r) => t.msgs.shared == s.msgs.shared + [s.msgs.queues[r][0]] && t == s.(msgs := t.msgs)
      case MoveReg(r) => t.regs.shared == s.regs.shared + [s.regs.queues[r][0]] && t == s.(regs := t.regs)
      case MoveReport(r) => t.reports.shared == s.reports.shared + [s.reports.queues[r][0]] && t == s.(reports := t.reports)
      case TakeMsg =>
        var x := s.msgs.shared[0];
        Delivers(s.msgs, t.msgs, [x]) && t.handled == s.handled + [PM.FromClient(x.device, x.value)]
      case TakeReg =>
        var x := s.regs.shared[0];
        Delivers(s.regs, t.regs, [x]) && t.handled == s.handled + [PM.Registering(x.device, x.value)]
      case TakeReport =>
        var x := s.reports.shared[0];
        Delivers(s.reports, t.reports, [x]) && t.handled == s.handled + [PM.FromDevice(x.device, x.value)]
  {
    assert s.msgs.produced + [] == s.msgs.produced && s.regs.produced + [] == s.regs.produced;
    assert s.reports.produced + [] == s.reports.produced && s.owners + [] == s.owners;
  }

  /** Whatever the interleaving, the channels conserve and order what goes through them. */
  lemma {:induction false} RunFlows(cfg: PM.Config, steps: seq<Step>)
    ensures Flows(cfg, Run(cfg, steps))
    decreases |steps|
  {
    if steps != [] {
      var s, st := Run(cfg, steps[..|steps| - 1]), steps[|steps| - 1];
      RunFlows(cfg, steps[..|steps| - 1]);
      if Enabled(s, st) {
        NextRuns(cfg, s, st);
        NextOwned(cfg, s, st);
        NextConserves(cfg, s, st);
        NextHandlesTaken(cfg, s, st);
      }
    }
  }
}
