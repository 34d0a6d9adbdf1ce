/** The calls each step of the control loop makes on the coordinator. They keep its
    guard, and no step replaces or clears a live share. */
module DaemonSafety {
  import opened Base
  import S = Sharing
  import opened Daemon

  // ------------------------------------------------------------------
  // The calls
  // ------------------------------------------------------------------

  function SyncOps(sync: Sync): seq<S.Op> {
    match sync
    case Nothing => []
    case TimedOut(id) => [S.Fail(id)]
    case Withdrawn(id) => [S.Cancel(id)]
  }

  function SearchOps(d: State, now: Elapsed): seq<S.Op> {
    if Searching(d) && Since(if d.searchStart.Some? then d.searchStart.value else now, now) >= d.timeouts.discovery
    then [S.DiscoveryTimedOut] else []
  }

  function TransferOps(d: State, now: Elapsed): seq<S.Op> {
    if Transferring(d) && Since(if d.transferStart.Some? then d.transferStart.value else now, now) >= d.timeouts.transfer
    then [S.Fail(d.sharing.active.value.id)] else []
  }

  function TimeoutOps(d: State, now: Elapsed, later: Elapsed, sync: Sync): seq<S.Op> {
    SearchOps(Capture(d, now), later) + TransferOps(TimeoutDiscovery(Capture(d, now), later), later) + SyncOps(sync)
  }

  function ConfigOps(config: Config): seq<S.Op> {
    [S.UnpinPeers] + if config.pinnedPeer.Some? then [S.PinPeer(config.pinnedPeer.value)] else []
  }

  function ReconfigureOps(configured: Option<Config>, before: Sync, after: Sync): seq<S.Op> {
    SyncOps(before) + (if configured.Some? then ConfigOps(configured.value) else []) + SyncOps(after)
  }

  function SelectOps(c: S.Coord, id: nat, peer: string, network: Network): seq<S.Op> {
    if network.Attached? && !network.route then []
    else
      [S.SelectPeer(id, peer)] +
      if (S.Applies(c, S.SelectPeer(id, peer)) || AwaitingPeer(c, id, peer)) && network.Attached? && !network.sent
      then [S.Fail(id)] else []
  }

  function AdmitOps(c: S.Coord, attachment: S.Attachment, peer: string, size: Option<nat>, code: Option<string>, admitted: bool): seq<S.Op> {
    var offer := S.OfferInbound(attachment, peer, size);
    if c.HasActive() || !admitted then []
    else [offer] + if code.Some? && S.Applies(c, offer) then [S.RecordCode(c.nextId, code.value)] else []
  }

  function FinishOps(c: S.Coord, id: nat, bytes: nat): seq<S.Op> {
    [S.RecordProgress(id, bytes)] + if S.Applies(c, S.RecordProgress(id, bytes)) then [S.Complete(id)] else []
  }

  function CompletedOps(c: S.Coord, id: nat, bytes: nat, value: Option<S.Attachment>): seq<S.Op> {
    if value.None? then FinishOps(c, id, bytes)
    else
      var replace := S.ReplaceAttachment(id, value.value);
      [replace] + FinishOps(S.Apply(c, replace), id, bytes)
  }

  function SightOps(d: State, peer: string, name: string, network: Network): seq<S.Op> {
    if d.config.pinnedPeer != Some(peer) then [S.ObservePeer(peer, name)]
    else
      var c := S.Apply(S.Apply(d.sharing, S.ObservePeer(peer, name)), S.PinPeer(peer));
      [S.ObservePeer(peer, name), S.PinPeer(peer)] +
      if c.active.Some? && c.active.value.direction.Outbound?
         && (c.active.value.phase.WaitingForPeer? || c.active.value.phase.AwaitingPeerConsent?)
      then SelectOps(c, c.active.value.id, peer, network) else []
  }

  function SubmitOps(d: State, attachment: S.Attachment, peer: Option<string>, network: Network): seq<S.Op> {
    if d.sharing.HasActive() then []
    else
      var id, queue := d.sharing.nextId, S.QueueOutbound(attachment, peer.None?);
      var c := S.Apply(S.Apply(d.sharing, queue), S.StartDiscovery);
      [queue, S.StartDiscovery] +
      if peer.Some? then
        SelectOps(c, id, peer.value, network) + if SelectPeer(c, id, peer.value, network).1 then [] else [S.Cancel(id)]
      else
        var pinned := S.PinnedPeer(c.peers);
        var target := if pinned.Some? then Some(pinned.value.id) else d.config.pinnedPeer;
        if target.Some? then SelectOps(c, id, target.value, network) else []
  }

  function EventOps(d: State, event: Event): seq<S.Op> {
    match event
    case VisibilityChanged(sync) => SyncOps(sync)
    case PreferencesConfigured(config, failed) => if failed then [] else ConfigOps(config)
    case InboundCancelled(id) => [S.Cancel(id)]
    case InboundCompleted(id, bytes, value) => CompletedOps(d.sharing, id, bytes, value)
    case InboundFailed(candidate, cancelled) =>
      if candidate.None? then [] else [if cancelled then S.Cancel(candidate.value) else S.Fail(candidate.value)]
    case InboundRejected(id) => [S.RejectInbound(id)]
    case InboundOffered(attachment, size, code, admitted) =>
      var observe := S.ObservePeer(INBOUND_PEER, INBOUND_NAME);
      [observe] + AdmitOps(S.Apply(d.sharing, observe), attachment, INBOUND_PEER, Some(size), Some(code), admitted)
    case OutboundAccepted(id) => [S.AcceptByPeer(id)]
    case OutboundPairing(id, code) => [S.RecordCode(id, code)]
    case OutboundCancelled(id) => [S.Cancel(id)]
    case OutboundCompleted(id, bytes) => CompletedOps(d.sharing, id, bytes, None)
    case OutboundFailed(id) => [S.Fail(id)]
    case OutboundRejected(id) => [S.RejectByPeer(id)]
    case PeerLost(peer) => [S.RemovePeer(peer)]
    case PeerSeen(peer, name, network) => SightOps(d, peer, name, network)
    case Progress(id, bytes) => [S.RecordProgress(id, bytes)]
  }

  function RequestOps(d: State, request: Request): seq<S.Op> {
    match request
    case Visibility(sync) => SyncOps(sync)
    case Discover => [S.StartDiscovery]
    case StopDiscovery => [S.StopDiscovery]
    case Accept(id, consented, sync) =>
      if consented && S.Applies(d.sharing, S.AcceptInbound(id)) then [S.AcceptInbound(id)] else SyncOps(sync)
    case Reject(id, consented, sync) => if consented then [S.RejectInbound(id)] else SyncOps(sync)
    case CancelShare(id) => [S.Cancel(id)]
    case Dismiss(id) => [S.Dismiss(id)]
    case ChoosePeer(id, peer, network) => SelectOps(d.sharing, id, peer, network)
    case PatchPreferences(configured, before, after) => ReconfigureOps(configured, before, after)
    case Submit(attachment, target, network) => SubmitOps(d, attachment, target, network)
    case SimulateIncoming(attachment, admitted) => AdmitOps(d.sharing, attachment, "pixel-8", None, None, admitted)
    case SimulatePeerSeen(peer, name) =>
      [S.ObservePeer(peer, name)] + if d.config.pinnedPeer == Some(peer) then [S.PinPeer(peer)] else []
    case Simulate(op) => if Simulated(op) then [op] else []
    case Read => []
  }

  /** The operations a step asks of the coordinator, in order. */
  function OpsOf(l: Loop, step: Step): seq<S.Op> {
    if !Enabled(l.stage, step) then []
    else
      match step
      case Tick(now, later, sync) => TimeoutOps(l.daemon, now, later, sync)
      case Reload(configured, before, after, _) => ReconfigureOps(configured, before, after)
      case Observe(event, _) => EventOps(l.daemon, event)
      case NoRequest => []
      case Answer(request, _) => RequestOps(l.daemon, request)
  }

  function OpsIn(l: Loop, steps: seq<Step>): seq<S.Op>
    decreases |steps|
  {
    if steps == [] then [] else OpsOf(l, steps[0]) + OpsIn(Next(l, steps[0]), steps[1..])
  }

  // ------------------------------------------------------------------
  // They are what the steps do, and keep the guard
  // ------------------------------------------------------------------

  predicate Performs(c: S.Coord, ops: seq<S.Op>, c': S.Coord) {
    S.GuardedRun(c, ops) && S.Run(c, ops) == c'
  }

  lemma Performed(c: S.Coord, op: S.Op)
    requires S.Guarded(c, op)
    ensures Performs(c, [op], S.Apply(c, op))
  {
    assert [op][1..] == [];
    assert S.Run(S.Apply(c, op), []) == S.Apply(c, op) && S.GuardedRun(S.Apply(c, op), []);
  }

  lemma Then(c: S.Coord, first: seq<S.Op>, c1: S.Coord, second: seq<S.Op>, c2: S.Coord)
    requires Performs(c, first, c1) && Performs(c1, second, c2)
    ensures Performs(c, first + second, c2)
  {
    S.GuardedRunsCompose(c, first, second);
  }

  lemma ThenOp(c: S.Coord, first: seq<S.Op>, c1: S.Coord, op: S.Op)
    requires Performs(c, first, c1) && S.Guarded(c1, op)
    ensures Performs(c, first + [op], S.Apply(c1, op))
  {
    Performed(c1, op);
    Then(c, first, c1, [op], S.Apply(c1, op));
  }

  lemma ThenNothing(ops: seq<S.Op>)
    ensures ops + [] == ops && [] + ops == ops
  {
  }

  lemma SyncPerforms(c: S.Coord, sync: Sync)
    ensures Performs(c, SyncOps(sync), SyncVisibility(c, sync))
  {
    match sync
    case Nothing =>
    case TimedOut(id) => Performed(c, S.Fail(id));
    case Withdrawn(id) => Performed(c, S.Cancel(id));
  }

  lemma ClocksPerform(d: State, later: Elapsed)
    ensures Performs(d.sharing, SearchOps(d, later), TimeoutDiscovery(d, later).sharing)
    ensures Performs(d.sharing, TransferOps(d, later), TimeoutTransfer(d, later).sharing)
  {
    Performed(d.sharing, S.DiscoveryTimedOut);
    if d.sharing.active.Some? {
      Performed(d.sharing, S.Fail(d.sharing.active.value.id));
    }
  }

  lemma TimeoutsPerform(d: State, now: Elapsed, later: Elapsed, sync: Sync)
    ensures Performs(d.sharing, TimeoutOps(d, now, later, sync), ApplyTimeouts(d, now, later, sync).sharing)
  {
    var d1 := Capture(d, now);
    var d2 := TimeoutDiscovery(d1, later);
    var d3 := TimeoutTransfer(d2, later);
    ClocksPerform(d1, later);
    ClocksPerform(d2, later);
    SyncPerforms(d3.sharing, sync);
    Then(d.sharing, SearchOps(d1, later), d2.sharing, TransferOps(d2, later), d3.sharing);
    Then(d.sharing, SearchOps(d1, later) + TransferOps(d2, later), d3.sharing, SyncOps(sync), SyncVisibility(d3.sharing, sync));
  }

  lemma ConfiguringPerforms(d: State, config: Config, now: Elapsed)
    ensures Performs(d.sharing, ConfigOps(config), Configured(d, config, now).sharing)
  {
    Performed(d.sharing, S.UnpinPeers);
    if config.pinnedPeer.Some? {
      ThenOp(d.sharing, [S.UnpinPeers], S.Apply(d.sharing, S.UnpinPeers), S.PinPeer(config.pinnedPeer.value));
    } else {
      ThenNothing([S.UnpinPeers]);
    }
  }

  lemma ReconfiguringPerforms(d: State, configured: Option<Config>, before: Sync, after: Sync, now: Elapsed)
    ensures Performs(d.sharing, ReconfigureOps(configured, before, after), Reconfigured(d, configured, before, after, now).sharing)
  {
    var d1 := d.(sharing := SyncVisibility(d.sharing, before));
    var d2 := if configured.Some? then Configured(d1, configured.value, now) else d1;
    var between := if configured.Some? then ConfigOps(configured.value) else [];
    SyncPerforms(d.sharing, before);
    SyncPerforms(d2.sharing, after);
    if configured.Some? {
      ConfiguringPerforms(d1, configured.value, now);
    }
    Then(d.sharing, SyncOps(before), d1.sharing, between, d2.sharing);
    Then(d.sharing, SyncOps(before) + between, d2.sharing, SyncOps(after), SyncVisibility(d2.sharing, after));
  }

  lemma SelectingPerforms(c: S.Coord, id: nat, peer: string, network: Network)
    ensures Performs(c, SelectOps(c, id, peer, network), SelectPeer(c, id, peer, network).0)
  {
    Performed(c, S.SelectPeer(id, peer));
    ThenOp(c, [S.SelectPeer(id, peer)], S.Apply(c, S.SelectPeer(id, peer)), S.Fail(id));
    ThenNothing([S.SelectPeer(id, peer)]);
  }

  lemma AdmittingPerforms(c: S.Coord, attachment: S.Attachment, peer: string, size: Option<nat>, code: Option<string>, admitted: bool)
    ensures Performs(c, AdmitOps(c, attachment, peer, size, code, admitted), Admit(c, attachment, peer, size, code, admitted))
  {
    if !c.HasActive() && admitted {
      var offer := S.OfferInbound(attachment, peer, size);
      Performed(c, offer);
      ThenNothing([offer]);
      if code.Some? {
        ThenOp(c, [offer], S.Apply(c, offer), S.RecordCode(c.nextId, code.value));
      }
    }
  }

  lemma FinishingPerforms(c: S.Coord, id: nat, bytes: nat)
    ensures Performs(c, FinishOps(c, id, bytes), Finish(c, id, bytes))
  {
    var progress := S.RecordProgress(id, bytes);
    Performed(c, progress);
    ThenNothing([progress]);
    ThenOp(c, [progress], S.Apply(c, progress), S.Complete(id));
  }

  lemma CompletingPerforms(c: S.Coord, id: nat, bytes: nat, value: Option<S.Attachment>)
    ensures Performs(c, CompletedOps(c, id, bytes, value),
                     Finish(if value.Some? then S.Apply(c, S.ReplaceAttachment(id, value.value)) else c, id, bytes))
  {
    if value.None? {
      FinishingPerforms(c, id, bytes);
    } else {
      var replace := S.ReplaceAttachment(id, value.value);
      var c1 := S.Apply(c, replace);
      Performed(c, replace);
      FinishingPerforms(c1, id, bytes);
      Then(c, [replace], c1, FinishOps(c1, id, bytes), Finish(c1, id, bytes));
    }
  }

  lemma SightingPerforms(d: State, peer: string, name: string, network: Network)
    ensures Performs(d.sharing, SightOps(d, peer, name, network), Sight(d, peer, name, network))
  {
    var observe, pin := S.ObservePeer(peer, name), S.PinPeer(peer);
    var c1 := S.Apply(d.sharing, observe);
    var c2 := S.Apply(c1, pin);
    Performed(d.sharing, observe);
    ThenOp(d.sharing, [observe], c1, pin);
    assert [observe] + [pin] == [observe, pin];
    ThenNothing([observe, pin]);
    if c2.active.Some? {
      var id := c2.active.value.id;
      SelectingPerforms(c2, id, peer, network);
      Then(d.sharing, [observe, pin], c2, SelectOps(c2, id, peer, network), SelectPeer(c2, id, peer, network).0);
    }
  }

  lemma OfferingPerforms(d: State, attachment: S.Attachment, size: nat, code: string, admitted: bool, now: Elapsed)
    ensures var event := InboundOffered(attachment, size, code, admitted);
            Performs(d.sharing, EventOps(d, event), Handle(d, event, now).sharing)
  {
    var observe := S.ObservePeer(INBOUND_PEER, INBOUND_NAME);
    var c1 := S.Apply(d.sharing, observe);
    Performed(d.sharing, observe);
    AdmittingPerforms(c1, attachment, INBOUND_PEER, Some(size), Some(code), admitted);
    Then(d.sharing, [observe], c1, AdmitOps(c1, attachment, INBOUND_PEER, Some(size), Some(code), admitted),
         Admit(c1, attachment, INBOUND_PEER, Some(size), Some(code), admitted));
  }

  lemma HandlingPerforms(d: State, event: Event, now: Elapsed)
    ensures Performs(d.sharing, EventOps(d, event), Handle(d, event, now).sharing)
  {
    var c := d.sharing;
    match event
    case VisibilityChanged(sync) => SyncPerforms(c, sync);
    case PreferencesConfigured(config, _) => ConfiguringPerforms(d, config, now);
    case InboundCompleted(id, bytes, value) => CompletingPerforms(c, id, bytes, value);
    case InboundOffered(attachment, size, code, admitted) => OfferingPerforms(d, attachment, size, code, admitted, now);
    case OutboundCompleted(id, bytes) => CompletingPerforms(c, id, bytes, None);
    case PeerSeen(peer, name, network) => SightingPerforms(d, peer, name, network);
    case _ =>
      if EventOps(d, event) != [] {
        Performed(c, EventOps(d, event)[0]);
      }
  }

  lemma QueueingPerforms(c: S.Coord, queue: S.Op)
    requires queue.QueueOutbound? && !c.HasActive()
    ensures Performs(c, [queue, S.StartDiscovery], S.Apply(S.Apply(c, queue), S.StartDiscovery))
  {
    Performed(c, queue);
    ThenOp(c, [queue], S.Apply(c, queue), S.StartDiscovery);
    assert [queue] + [S.StartDiscovery] == [queue, S.StartDiscovery];
  }

  /** A chosen peer is selected, or the share is cancelled at once. */
  lemma TargetingPerforms(c: S.Coord, id: nat, peer: string, network: Network)
    ensures var (c1, selected) := SelectPeer(c, id, peer, network);
            Performs(c, SelectOps(c, id, peer, network) + (if selected then [] else [S.Cancel(id)]),
                     if selected then c1 else S.Apply(c1, S.Cancel(id)))
  {
    SelectingPerforms(c, id, peer, network);
    ThenNothing(SelectOps(c, id, peer, network));
    ThenOp(c, SelectOps(c, id, peer, network), SelectPeer(c, id, peer, network).0, S.Cancel(id));
  }

  lemma SubmittingPerforms(d: State, attachment: S.Attachment, peer: Option<string>, network: Network)
    ensures Performs(d.sharing, SubmitOps(d, attachment, peer, network), SubmitShare(d, attachment, peer, network))
  {
    if !d.sharing.HasActive() {
      var id, queue := d.sharing.nextId, S.QueueOutbound(attachment, peer.None?);
      var first := [queue, S.StartDiscovery];
      var c := S.Apply(S.Apply(d.sharing, queue), S.StartDiscovery);
      QueueingPerforms(d.sharing, queue);
      if peer.Some? {
        var (c1, selected) := SelectPeer(c, id, peer.value, network);
        TargetingPerforms(c, id, peer.value, network);
        Then(d.sharing, first, c, SelectOps(c, id, peer.value, network) + (if selected then [] else [S.Cancel(id)]),
             if selected then c1 else S.Apply(c1, S.Cancel(id)));
      } else {
        var pinned := S.PinnedPeer(c.peers);
        var target := if pinned.Some? then Some(pinned.value.id) else d.config.pinnedPeer;
        if target.Some? {
          SelectingPerforms(c, id, target.value, network);
          Then(d.sharing, first, c, SelectOps(c, id, target.value, network), SelectPeer(c, id, target.value, network).0);
        } else {
          ThenNothing(first);
        }
      }
    }
  }

  lemma SeeingPerforms(d: State, peer: string, name: string, now: Elapsed)
    ensures var request := SimulatePeerSeen(peer, name);
            Performs(d.sharing, RequestOps(d, request), Respond(d, request, now).sharing)
  {
    var observe := S.ObservePeer(peer, name);
    Performed(d.sharing, observe);
    ThenNothing([observe]);
    ThenOp(d.sharing, [observe], S.Apply(d.sharing, observe), S.PinPeer(peer));
  }

  lemma RespondingPerforms(d: State, request: Request, now: Elapsed)
    ensures Performs(d.sharing, RequestOps(d, request), Respond(d, request, now).sharing)
  {
    var c := d.sharing;
    match request
    case Visibility(sync) => SyncPerforms(c, sync);
    case Accept(id, _, sync) =>
      Performed(c, S.AcceptInbound(id));
      SyncPerforms(c, sync);
    case Reject(id, _, sync) =>
      Performed(c, S.RejectInbound(id));
      SyncPerforms(c, sync);
    case ChoosePeer(id, peer, network) => SelectingPerforms(c, id, peer, network);
    case PatchPreferences(configured, before, after) => ReconfiguringPerforms(d, configured, before, after, now);
    case Submit(attachment, target, network) => SubmittingPerforms(d, attachment, target, network);
    case SimulateIncoming(attachment, admitted) => AdmittingPerforms(c, attachment, "pixel-8", None, None, admitted);
    case SimulatePeerSeen(peer, name) => SeeingPerforms(d, peer, name, now);
    case Simulate(op) =>
      if Simulated(op) {
        Performed(c, op);
      }
    case Read =>
    case _ => Performed(c, RequestOps(d, request)[0]);
  }

  lemma StepIsGuarded(l: Loop, step: Step)
    ensures Performs(l.daemon.sharing, OpsOf(l, step), Next(l, step).daemon.sharing)
  {
    match step
    case Tick(now, later, sync) => TimeoutsPerform(l.daemon, now, later, sync);
    case Reload(configured, before, after, now) => ReconfiguringPerforms(l.daemon, configured, before, after, now);
    case Observe(event, now) => HandlingPerforms(l.daemon, event, now);
    case NoRequest =>
    case Answer(request, now) => RespondingPerforms(l.daemon, request, now);
  }

  /** Whatever requests and events arrive, the share is what the daemon's own calls
      make of it, and none of them starts a share over a live one. */
  lemma {:induction false} RunIsGuarded(l: Loop, steps: seq<Step>)
    ensures Performs(l.daemon.sharing, OpsIn(l, steps), Exec(l, steps).daemon.sharing)
    decreases |steps|
  {
    if steps != [] {
      var next := Next(l, steps[0]);
      StepIsGuarded(l, steps[0]);
      RunIsGuarded(next, steps[1..]);
      Then(l.daemon.sharing, OpsOf(l, steps[0]), next.daemon.sharing, OpsIn(next, steps[1..]), Exec(l, steps).daemon.sharing);
    }
  }

  // ------------------------------------------------------------------
  // Live shares
  // ------------------------------------------------------------------

  /** Neither starting a share nor clearing one. */
  predicate Quiet(ops: seq<S.Op>) {
    forall i :: 0 <= i < |ops| ==> !ops[i].OfferInbound? && !ops[i].QueueOutbound? && !ops[i].Dismiss?
  }

  lemma QuietKeepsDisplayed(c: S.Coord, op: S.Op)
    requires !op.OfferInbound? && !op.QueueOutbound? && !op.Dismiss? && c.active.Some?
    ensures S.Apply(c, op).Is(c.active.value.id)
  {
  }

  lemma {:induction false} QuietRunKeepsDisplayed(c: S.Coord, ops: seq<S.Op>)
    requires Quiet(ops) && c.active.Some?
    ensures S.Run(c, ops).Is(c.active.value.id)
    decreases |ops|
  {
    if ops != [] {
      QuietKeepsDisplayed(c, ops[0]);
      QuietRunKeepsDisplayed(S.Apply(c, ops[0]), ops[1..]);
    }
  }

  lemma QuietTogether(first: seq<S.Op>, second: seq<S.Op>)
    requires Quiet(first) && Quiet(second)
    ensures Quiet(first + second)
  {
  }

  lemma TimeoutsAreQuiet(d: State, now: Elapsed, later: Elapsed, sync: Sync)
    ensures Quiet(TimeoutOps(d, now, later, sync))
  {
    var d1 := Capture(d, now);
    QuietTogether(SearchOps(d1, later), TransferOps(TimeoutDiscovery(d1, later), later));
    QuietTogether(SearchOps(d1, later) + TransferOps(TimeoutDiscovery(d1, later), later), SyncOps(sync));
  }

  lemma ReconfiguringIsQuiet(configured: Option<Config>, before: Sync, after: Sync)
    ensures Quiet(ReconfigureOps(configured, before, after))
  {
    var between := if configured.Some? then ConfigOps(configured.value) else [];
    QuietTogether(SyncOps(before), between);
    QuietTogether(SyncOps(before) + between, SyncOps(after));
  }

  lemma SelectingIsQuiet(c: S.Coord, id: nat, peer: string, network: Network)
    ensures Quiet(SelectOps(c, id, peer, network))
  {
  }

  lemma SightingIsQuiet(d: State, peer: string, name: string, network: Network)
    ensures Quiet(SightOps(d, peer, name, network))
  {
    var observe, pin := S.ObservePeer(peer, name), S.PinPeer(peer);
    var c := S.Apply(S.Apply(d.sharing, observe), pin);
    if c.active.Some? {
      SelectingIsQuiet(c, c.active.value.id, peer, network);
      QuietTogether([observe, pin], SelectOps(c, c.active.value.id, peer, network));
    }
  }

  lemma LiveEventsAreQuiet(d: State, event: Event)
    requires d.sharing.HasActive()
    ensures Quiet(EventOps(d, event))
  {
    match event
    case InboundOffered(_, _, _, _) =>
      assert S.Apply(d.sharing, S.ObservePeer(INBOUND_PEER, INBOUND_NAME)).HasActive();
    case PeerSeen(peer, name, network) => SightingIsQuiet(d, peer, name, network);
    case _ =>
  }

  lemma LiveRequestsAreQuiet(d: State, request: Request)
    requires d.sharing.HasActive() && !request.Dismiss?
    ensures Quiet(RequestOps(d, request))
  {
    match request
    case ChoosePeer(id, peer, network) => SelectingIsQuiet(d.sharing, id, peer, network);
    case PatchPreferences(configured, before, after) => ReconfiguringIsQuiet(configured, before, after);
    case _ =>
  }

  /** While a share is live the daemon asks for no other, and only a dismissal asks
      to clear it. */
  lemma LiveStepsAreQuiet(l: Loop, step: Step)
    requires l.daemon.sharing.HasActive() && !(step.Answer? && step.request.Dismiss?)
    ensures Quiet(OpsOf(l, step))
  {
    match step
    case Tick(now, later, sync) => TimeoutsAreQuiet(l.daemon, now, later, sync);
    case Reload(configured, before, after, _) => ReconfiguringIsQuiet(configured, before, after);
    case Observe(event, _) => LiveEventsAreQuiet(l.daemon, event);
    case NoRequest =>
    case Answer(request, _) => LiveRequestsAreQuiet(l.daemon, request);
  }

  /** No step replaces or clears a live share. */
  lemma StepKeepsLiveShare(l: Loop, step: Step)
    requires l.daemon.sharing.HasActive()
    ensures Next(l, step).daemon.sharing.Is(l.daemon.sharing.active.value.id)
  {
    if !(step.Answer? && step.request.Dismiss?) {
      LiveStepsAreQuiet(l, step);
      StepIsGuarded(l, step);
      QuietRunKeepsDisplayed(l.daemon.sharing, OpsOf(l, step));
    }
  }

  /** Over every run, a share that is no longer displayed was displayed first as
      ended. */
  lemma {:induction false} LiveShareIsNeverLost(l: Loop, steps: seq<Step>) returns (k: nat)
    requires l.daemon.sharing.active.Some? && !Exec(l, steps).daemon.sharing.Is(l.daemon.sharing.active.value.id)
    ensures k < |steps| && Exec(l, steps[..k]).daemon.sharing.Is(l.daemon.sharing.active.value.id)
    ensures !Exec(l, steps[..k]).daemon.sharing.HasActive()
    decreases |steps|
  {
    var next := Next(l, steps[0]);
    if next.daemon.sharing.Is(l.daemon.sharing.active.value.id) {
      var j := LiveShareIsNeverLost(next, steps[1..]);
      k := j + 1;
      assert steps[..k][1..] == steps[1..][..j];
    } else {
      k := 0;
      if l.daemon.sharing.HasActive() {
        StepKeepsLiveShare(l, steps[0]);
      }
    }
  }

  /** Whatever order requests and observations arrive in: a live share is displayed
      until it has been displayed as ended; a share that ended keeps the phase it
      ended with, unless it has the largest identifier; a share shown later instead
      of it was created since under an identifier reserved since; and the code and
      peer rules hold. */
  lemma DaemonRunsFollowTheLifecycle(config: Config, before: seq<Step>, later: seq<Step>)
    requires Exec(Started(config), before).daemon.sharing.active.Some?
    ensures var l := Exec(Started(config), before);
            var c := l.daemon.sharing;
            var c' := Exec(l, later).daemon.sharing;
            var share := c.active.value;
            && c.Valid() && c'.Valid()
            && (!c'.Is(share.id) ==>
                  exists k :: 0 <= k < |later| && EndedAt(l, later[..k], share.id))
            && (share.phase.Terminal() && share.id < U64_MAX && c'.Is(share.id) ==> c'.active.value.phase == share.phase)
            && (c'.active.Some? ==> c'.Is(share.id) || c'.active.value.id >= c.nextId)
  {
    var l := Exec(Started(config), before);
    var c, more := l.daemon.sharing, OpsIn(l, later);
    RunIsGuarded(Started(config), before);
    RunIsGuarded(l, later);
    S.RunKeepsValid(S.Initial(), OpsIn(Started(config), before));
    S.RunKeepsValid(c, more);
    if c.active.value.phase.Terminal() && c.active.value.id < U64_MAX {
      S.TerminalPhaseIsFinal(c, more);
    }
    if Exec(l, later).daemon.sharing.active.Some? {
      S.IdentifiersIncrease(c, more);
    }
    if !Exec(l, later).daemon.sharing.Is(c.active.value.id) {
      var k := LiveShareIsNeverLost(l, later);
      assert EndedAt(l, later[..k], c.active.value.id);
    }
  }

  /** The share is displayed, and not live, after these steps. */
  predicate EndedAt(l: Loop, steps: seq<Step>, id: nat) {
    Exec(l, steps).daemon.sharing.Is(id) && !Exec(l, steps).daemon.sharing.HasActive()
  }
}
