/** Every run of the control loop keeps its clocks: which configuration a share
    and a search are held to, and when their clocks were started. */
module DaemonTiming {
  import opened Base
  import S = Sharing
  import opened Daemon
  import Safety = DaemonSafety

  // ------------------------------------------------------------------
  // Steps that neither create, accept nor search
  // ------------------------------------------------------------------

  /** No share is created or accepted: a live share was already live, under the
      same identifier, and transfers only if it did before. */
  predicate Stays(c: S.Coord, c': S.Coord) {
    && c'.nextId == c.nextId
    && (c'.HasActive() ==>
          && c.HasActive() && c'.active.value.id == c.active.value.id
          && c'.active.value.direction == c.active.value.direction
          && (c'.active.value.phase.Transferring? ==> c.active.value.phase.Transferring?))
  }

  /** No search begins. */
  predicate Calm(c: S.Coord, c': S.Coord) {
    c'.discovery.Searching? ==> c.discovery.Searching?
  }

  lemma OpStays(c: S.Coord, op: S.Op)
    requires !op.OfferInbound? && !op.QueueOutbound? && !op.AcceptByPeer? && !op.AcceptInbound?
    ensures Stays(c, S.Apply(c, op)) && (!op.StartDiscovery? ==> Calm(c, S.Apply(c, op)))
  {
  }

  lemma SelectingStays(c: S.Coord, id: nat, peer: string, network: Network)
    ensures Stays(c, SelectPeer(c, id, peer, network).0) && Calm(c, SelectPeer(c, id, peer, network).0)
  {
    OpStays(c, S.SelectPeer(id, peer));
    OpStays(S.Apply(c, S.SelectPeer(id, peer)), S.Fail(id));
  }

  lemma SyncStays(c: S.Coord, sync: Sync)
    ensures Stays(c, SyncVisibility(c, sync)) && Calm(c, SyncVisibility(c, sync))
  {
    match sync
    case Nothing =>
    case TimedOut(id) => OpStays(c, S.Fail(id));
    case Withdrawn(id) => OpStays(c, S.Cancel(id));
  }

  lemma FinishingStays(c: S.Coord, id: nat, bytes: nat, value: Option<S.Attachment>)
    ensures var c' := Finish(if value.Some? then S.Apply(c, S.ReplaceAttachment(id, value.value)) else c, id, bytes);
            Stays(c, c') && Calm(c, c')
  {
    var c1 := if value.Some? then S.Apply(c, S.ReplaceAttachment(id, value.value)) else c;
    if value.Some? {
      OpStays(c, S.ReplaceAttachment(id, value.value));
    }
    OpStays(c1, S.RecordProgress(id, bytes));
    OpStays(S.Apply(c1, S.RecordProgress(id, bytes)), S.Complete(id));
  }

  lemma SightingStays(d: State, peer: string, name: string, network: Network)
    ensures Stays(d.sharing, Sight(d, peer, name, network)) && Calm(d.sharing, Sight(d, peer, name, network))
  {
    var c1 := S.Apply(d.sharing, S.ObservePeer(peer, name));
    OpStays(d.sharing, S.ObservePeer(peer, name));
    var c2 := S.Apply(c1, S.PinPeer(peer));
    OpStays(c1, S.PinPeer(peer));
    if c2.active.Some? {
      SelectingStays(c2, c2.active.value.id, peer, network);
    }
  }

  /** Everything a step may leave alone, apart from the share itself. */
  predicate Untouched(d: State, d': State) {
    d'.config == d.config && d'.timeouts == d.timeouts && d'.searchStart == d.searchStart
  }

  lemma EventsStay(d: State, event: Event, now: Elapsed)
    requires !event.PreferencesConfigured? && !event.InboundOffered? && !event.OutboundAccepted?
    ensures var d' := Handle(d, event, now);
            && Stays(d.sharing, d'.sharing) && Calm(d.sharing, d'.sharing) && Untouched(d, d')
            && (d.transferStart.Some? ==> d'.transferStart == d.transferStart)
  {
    var c := d.sharing;
    match event
    case VisibilityChanged(sync) => SyncStays(c, sync);
    case InboundCancelled(id) => OpStays(c, S.Cancel(id));
    case InboundCompleted(id, bytes, value) => FinishingStays(c, id, bytes, value);
    case InboundFailed(candidate, cancelled) =>
      if candidate.Some? {
        OpStays(c, if cancelled then S.Cancel(candidate.value) else S.Fail(candidate.value));
      }
    case InboundRejected(id) => OpStays(c, S.RejectInbound(id));
    case OutboundPairing(id, code) => OpStays(c, S.RecordCode(id, code));
    case OutboundCancelled(id) => OpStays(c, S.Cancel(id));
    case OutboundCompleted(id, bytes) => FinishingStays(c, id, bytes, None);
    case OutboundFailed(id) => OpStays(c, S.Fail(id));
    case OutboundRejected(id) => OpStays(c, S.RejectByPeer(id));
    case PeerLost(peer) => OpStays(c, S.RemovePeer(peer));
    case PeerSeen(peer, name, network) => SightingStays(d, peer, name, network);
    case Progress(id, bytes) => OpStays(c, S.RecordProgress(id, bytes));
  }

  lemma RequestsStay(d: State, request: Request, now: Elapsed)
    requires !request.PatchPreferences? && !request.Submit? && !request.SimulateIncoming? && !request.Accept?
    requires !(request.Simulate? && request.op.AcceptByPeer?)
    ensures var d' := Respond(d, request, now);
            && Stays(d.sharing, d'.sharing) && Untouched(d, d') && d'.transferStart == d.transferStart
  {
    var c := d.sharing;
    match request
    case Visibility(sync) => SyncStays(c, sync);
    case Discover => OpStays(c, S.StartDiscovery);
    case StopDiscovery => OpStays(c, S.StopDiscovery);
    case Reject(id, _, sync) =>
      OpStays(c, S.RejectInbound(id));
      SyncStays(c, sync);
    case CancelShare(id) => OpStays(c, S.Cancel(id));
    case Dismiss(id) => OpStays(c, S.Dismiss(id));
    case ChoosePeer(id, peer, network) => SelectingStays(c, id, peer, network);
    case SimulatePeerSeen(peer, name) =>
      OpStays(c, S.ObservePeer(peer, name));
      OpStays(S.Apply(c, S.ObservePeer(peer, name)), S.PinPeer(peer));
    case Simulate(op) =>
      if Simulated(op) {
        OpStays(c, op);
      }
    case Read =>
  }

  // ------------------------------------------------------------------
  // Steps that create a share
  // ------------------------------------------------------------------

  /** A new share takes the reserved identifier and waits; or it was refused at once. */
  predicate Creates(c: S.Coord, c': S.Coord, direction: S.Direction) {
    && !c.HasActive() && c'.nextId == NextU64(c.nextId)
    && (c'.HasActive() ==>
          && c'.active.value.id == c.nextId && !c'.active.value.phase.Transferring?
          && c'.active.value.direction == direction)
  }

  lemma AdmittingCreatesOrStays(c: S.Coord, attachment: S.Attachment, peer: string, size: Option<nat>, code: Option<string>, admitted: bool)
    ensures var c' := Admit(c, attachment, peer, size, code, admitted); (c' == c || Creates(c, c', S.Inbound)) && Calm(c, c')
  {
  }

  lemma SubmittingCreatesOrStays(d: State, attachment: S.Attachment, peer: Option<string>, network: Network)
    ensures var c' := SubmitShare(d, attachment, peer, network); c' == d.sharing || Creates(d.sharing, c', S.Outbound)
  {
    if !d.sharing.HasActive() {
      var id := d.sharing.nextId;
      var c := S.Apply(S.Apply(d.sharing, S.QueueOutbound(attachment, peer.None?)), S.StartDiscovery);
      assert Creates(d.sharing, c, S.Outbound);
      var pinned := S.PinnedPeer(c.peers);
      var target := if peer.Some? then peer else if pinned.Some? then Some(pinned.value.id) else d.config.pinnedPeer;
      if target.Some? {
        SelectingStays(c, id, target.value, network);
        OpStays(SelectPeer(c, id, target.value, network).0, S.Cancel(id));
      }
    }
  }

  // ------------------------------------------------------------------
  // Which timeout a share is held to
  // ------------------------------------------------------------------

  predicate ShareInv(d: State, stage: Stage, h: ShareHistory) {
    Reserved(d) && Settled(d, stage) && ShareTimed(d, h)
  }

  lemma StayingKeepsShare(d: State, stage: Stage, h: ShareHistory, d': State, stage': Stage)
    requires ShareInv(d, stage, h) && (stage' == stage || stage'.Top?)
    requires Stays(d.sharing, d'.sharing) && d'.config == d.config && d'.timeouts == d.timeouts
    ensures ShareInv(d', stage', ShareAfter(h, d, d'))
  {
  }

  lemma CreatingKeepsShare(d: State, stage: Stage, h: ShareHistory, d': State, stage': Stage, direction: S.Direction)
    requires ShareInv(d, stage, h) && (stage'.Top? || (stage'.Observing? && direction.Inbound?))
    requires Creates(d.sharing, d'.sharing, direction) && d'.config == d.config && d'.timeouts == d.timeouts
    requires d.sharing.nextId <= U64_MAX
    ensures ShareInv(d', stage', ShareAfter(h, d, d'))
  {
  }

  /** Accepting the displayed share changes its phase only. */
  lemma AcceptingKeepsShare(d: State, stage: Stage, h: ShareHistory, op: S.Op, d': State, stage': Stage)
    requires ShareInv(d, stage, h) && (stage' == stage || stage'.Top?)
    requires (op.AcceptByPeer? && !stage.Top?) || (op.AcceptInbound? && stage.Responding?)
    requires d'.sharing == S.Apply(d.sharing, op) && d'.config == d.config && d'.timeouts == d.timeouts
    ensures ShareInv(d', stage', ShareAfter(h, d, d'))
  {
  }

  lemma CaptureTimesShare(d: State, stage: Stage, h: ShareHistory, now: Elapsed)
    requires ShareInv(d, stage, h) && d.sharing.Valid()
    ensures var d1 := Capture(d, now);
            && d1.sharing == d.sharing && d1.config == d.config && Reserved(d1)
            && (d1.sharing.HasActive() ==>
                  Captured(d1) && ShareTimed(d1, h))
  {
  }

  /** A captured share that merely stays remains captured, under any configuration. */
  lemma CapturedStays(d: State, h: ShareHistory, d': State, stage': Stage)
    requires Reserved(d) && Stays(d.sharing, d'.sharing)
    requires d.sharing.HasActive() ==>
               Captured(d) && ShareTimed(d, h)
    requires d'.timeouts.shareId == d.timeouts.shareId && d'.timeouts.transfer == d.timeouts.transfer
    ensures ShareInv(d', stage', h)
  {
  }

  // ------------------------------------------------------------------
  // Running clocks
  // ------------------------------------------------------------------

  predicate SearchKept(d: State, d': State) {
    Searching(d') ==>
      Searching(d) && d'.searchStart == d.searchStart && d'.timeouts.discovery == d.timeouts.discovery
  }

  predicate TransferKept(d: State, d': State) {
    Transferring(d') ==> Transferring(d) && d'.transferStart == d.transferStart
  }

  /** Outside the top of a pass, every running clock has been started. */
  lemma ClocksAreStarted(d: State, stage: Stage, search: SearchHistory, transfer: TransferHistory)
    requires SearchTimed(d, stage, search) && TransferTimed(d, stage, transfer) && !stage.Top?
    ensures Searching(d) ==> search.began.Some? && d.searchStart.Some?
    ensures Transferring(d) ==> transfer.began.Some? && d.transferStart.Some?
  {
  }

  lemma SearchStays(d: State, stage: Stage, h: SearchHistory, step: Step, d': State, stage': Stage)
    requires SearchTimed(d, stage, h) && !stage.Top? && !step.Tick?
    requires SearchKept(d, d')
    ensures SearchTimed(d', stage', SearchAfter(h, d, step, d'))
  {
  }

  /** A search begins where it is asked for, and inherits what lingers there. */
  lemma SearchMayBegin(d: State, stage: Stage, h: SearchHistory, step: Step, d': State)
    requires SearchTimed(d, stage, h) && !stage.Top? && !step.Tick? && Untouched(d, d')
    ensures SearchTimed(d', Top, SearchAfter(h, d, step, d'))
  {
  }

  lemma TransferStays(d: State, stage: Stage, h: TransferHistory, step: Step, d': State, stage': Stage)
    requires TransferTimed(d, stage, h) && !stage.Top? && !step.Tick? && !stage'.Responding?
    requires !(step.Observe? && step.event.OutboundAccepted?) && TransferKept(d, d')
    ensures TransferTimed(d', stage', TransferAfter(h, d, step, d'))
  {
  }

  lemma CaptureTimesSearch(d: State, stage: Stage, h: SearchHistory, now: Elapsed)
    requires SearchTimed(d, stage, h)
    ensures var d1 := Capture(d, now);
            var clock := ClockOf(h, if h.began.Some? then h.began.value else now);
            Searching(d) ==> d1.searchStart == Some(clock.start) && d1.timeouts.discovery == clock.duration
  {
  }

  /** When the transfer's clock was started, for a pass at `now`. */
  function StartOf(h: TransferHistory, now: Elapsed): Elapsed {
    if h.restarted.Some? then h.restarted.value else if h.began.Some? then h.began.value else now
  }

  lemma CaptureTimesTransfer(d: State, stage: Stage, h: TransferHistory, now: Elapsed)
    requires TransferTimed(d, stage, h) && Settled(d, stage)
    ensures Transferring(d) ==> Capture(d, now).transferStart == Some(StartOf(h, now))
  {
  }

  // ------------------------------------------------------------------
  // Configuring
  // ------------------------------------------------------------------

  lemma ConfiguringKeeps(d: State, config: Config, now: Elapsed)
    requires (Searching(d) ==> d.searchStart.Some?) && (Transferring(d) ==> Captured(d) && d.transferStart.Some?)
    ensures var d' := Configured(d, config, now);
            && d'.sharing.active == d.sharing.active && d'.sharing.discovery == d.sharing.discovery
            && d'.sharing.nextId == d.sharing.nextId
            && d'.timeouts == Capture(d, now).timeouts
            && SearchKept(d, d') && TransferKept(d, d')
  {
  }

  lemma ReconfiguringKeeps(d: State, configured: Option<Config>, before: Sync, after: Sync, now: Elapsed)
    requires (Searching(d) ==> d.searchStart.Some?) && (Transferring(d) ==> Captured(d) && d.transferStart.Some?)
    ensures var d' := Reconfigured(d, configured, before, after, now);
            SearchKept(d, d') && TransferKept(d, d') && Stays(d.sharing, d'.sharing)
  {
    var d1 := d.(sharing := SyncVisibility(d.sharing, before));
    SyncStays(d.sharing, before);
    if configured.Some? {
      ConfiguringKeeps(d1, configured.value, now);
      SyncStays(Configured(d1, configured.value, now).sharing, after);
    } else {
      SyncStays(d1.sharing, after);
    }
  }

  lemma ConfiguringKeepsShare(d: State, stage: Stage, h: ShareHistory, config: Config, now: Elapsed, stage': Stage)
    requires ShareInv(d, stage, h) && d.sharing.Valid()
    ensures ShareInv(Configured(d, config, now), stage', h)
  {
    CaptureTimesShare(d, stage, h, now);
    CapturedStays(Capture(d, now), h, Configured(d, config, now), stage');
  }

  lemma ReconfiguringKeepsShare(d: State, stage: Stage, h: ShareHistory, configured: Option<Config>, before: Sync, after: Sync, now: Elapsed, stage': Stage)
    requires ShareInv(d, stage, h) && d.sharing.Valid()
    requires (stage.Responding? && stage'.Top?) || (stage.Reloading? && stage'.Observing?)
    ensures var d' := Reconfigured(d, configured, before, after, now); ShareInv(d', stage', h)
  {
    var d1 := d.(sharing := SyncVisibility(d.sharing, before));
    SyncStays(d.sharing, before);
    StayingKeepsShare(d, stage, h, d1, stage);
    SyncIsValid(d.sharing, before);
    var d2 := if configured.Some? then Configured(d1, configured.value, now) else d1;
    if configured.Some? {
      ConfiguringKeepsShare(d1, stage, h, configured.value, now, stage');
    }
    var d' := d2.(sharing := SyncVisibility(d2.sharing, after));
    SyncStays(d2.sharing, after);
    StayingKeepsShare(d2, stage', h, d', stage');
  }

  lemma SyncIsValid(c: S.Coord, sync: Sync)
    requires c.Valid()
    ensures SyncVisibility(c, sync).Valid()
  {
    match sync
    case Nothing =>
    case TimedOut(id) => S.ApplyKeepsValid(c, S.Fail(id));
    case Withdrawn(id) => S.ApplyKeepsValid(c, S.Cancel(id));
  }

  // ------------------------------------------------------------------
  // Each step
  // ------------------------------------------------------------------

  /** The part of the invariant about clocks. */
  ghost predicate Timed(l: Loop) {
    && ShareInv(l.daemon, l.stage, l.share)
    && SearchTimed(l.daemon, l.stage, l.search)
    && TransferTimed(l.daemon, l.stage, l.transfer)
  }

  lemma DiscoveryOnlyEnds(d: State, later: Elapsed)
    requires Searching(d) ==> d.searchStart.Some?
    ensures var d' := TimeoutDiscovery(d, later);
            && SearchKept(d, d') && Stays(d.sharing, d'.sharing)
            && d'.sharing.active == d.sharing.active && d'.transferStart == d.transferStart
            && d'.timeouts == d.timeouts && d'.config == d.config
  {
    OpStays(d.sharing, S.DiscoveryTimedOut);
  }

  lemma TransferOnlyEnds(d: State, later: Elapsed)
    requires Transferring(d) ==> d.transferStart.Some?
    ensures var d' := TimeoutTransfer(d, later);
            && SearchKept(d, d') && TransferKept(d, d') && Stays(d.sharing, d'.sharing)
            && d'.timeouts == d.timeouts && d'.config == d.config
            && (d'.sharing.HasActive() && !Transferring(d') ==> d'.transferStart.None?)
  {
    if d.sharing.active.Some? {
      OpStays(d.sharing, S.Fail(d.sharing.active.value.id));
    }
  }

  /** A projection that leaves a live share leaves its phase. */
  lemma SyncOnlyEnds(c: S.Coord, sync: Sync)
    ensures var c' := SyncVisibility(c, sync);
            Stays(c, c') && Calm(c, c') && (c'.HasActive() ==> c'.active == c.active)
  {
    SyncStays(c, sync);
  }

  /** From a captured state, a pass of the clocks only ends things. */
  lemma TimeoutsOnlyEnd(d: State, later: Elapsed, sync: Sync)
    requires Searching(d) ==> d.searchStart.Some?
    requires Transferring(d) ==> d.transferStart.Some?
    ensures var d1 := TimeoutTransfer(TimeoutDiscovery(d, later), later);
            var d' := d1.(sharing := SyncVisibility(d1.sharing, sync));
            && SearchKept(d, d') && TransferKept(d, d') && Stays(d.sharing, d'.sharing)
            && d'.timeouts == d.timeouts && d'.config == d.config
            && (d'.sharing.HasActive() && !Transferring(d') ==> d'.transferStart.None?)
  {
    var d1 := TimeoutDiscovery(d, later);
    DiscoveryOnlyEnds(d, later);
    TransferOnlyEnds(d1, later);
    SyncOnlyEnds(TimeoutTransfer(d1, later).sharing, sync);
  }

  lemma TickKeepsTimed(l: Loop, now: Elapsed, later: Elapsed, sync: Sync)
    requires Inv(l)
    ensures Timed(Next(l, Tick(now, later, sync)))
  {
    if Enabled(l.stage, Tick(now, later, sync)) {
      var d1 := Capture(l.daemon, now);
      CaptureTimesShare(l.daemon, l.stage, l.share, now);
      CaptureTimesSearch(l.daemon, l.stage, l.search, now);
      CaptureTimesTransfer(l.daemon, l.stage, l.transfer, now);
      TimeoutsOnlyEnd(d1, later, sync);
      var l' := Next(l, Tick(now, later, sync));
      CapturedStays(d1, l.share, l'.daemon, l'.stage);
    }
  }

  lemma ReloadKeepsTimed(l: Loop, configured: Option<Config>, before: Sync, after: Sync, now: Elapsed)
    requires Inv(l)
    ensures Timed(Next(l, Reload(configured, before, after, now)))
  {
    if l.stage.Reloading? {
      var step := Reload(configured, before, after, now);
      ClocksAreStarted(l.daemon, l.stage, l.search, l.transfer);
      ReconfiguringKeeps(l.daemon, configured, before, after, now);
      ReconfiguringKeepsShare(l.daemon, l.stage, l.share, configured, before, after, now, Observing);
      SearchStays(l.daemon, l.stage, l.search, step, Effect(l.daemon, step), Observing);
      TransferStays(l.daemon, l.stage, l.transfer, step, Effect(l.daemon, step), Observing);
    }
  }

  lemma QuietEventKeepsTimed(l: Loop, event: Event, now: Elapsed)
    requires Inv(l) && l.stage.Observing?
    requires !event.PreferencesConfigured? && !event.InboundOffered? && !event.OutboundAccepted?
    ensures Timed(Next(l, Observe(event, now)))
  {
    var step, d' := Observe(event, now), Handle(l.daemon, event, now);
    ClocksAreStarted(l.daemon, l.stage, l.search, l.transfer);
    EventsStay(l.daemon, event, now);
    StayingKeepsShare(l.daemon, l.stage, l.share, d', Observing);
    SearchStays(l.daemon, l.stage, l.search, step, d', Observing);
    TransferStays(l.daemon, l.stage, l.transfer, step, d', Observing);
  }

  lemma ConfiguredKeepsTimed(l: Loop, config: Config, failed: bool, now: Elapsed)
    requires Inv(l) && l.stage.Observing?
    ensures Timed(Next(l, Observe(PreferencesConfigured(config, failed), now)))
  {
    var step := Observe(PreferencesConfigured(config, failed), now);
    var d' := Effect(l.daemon, step);
    ClocksAreStarted(l.daemon, l.stage, l.search, l.transfer);
    if !failed {
      ConfiguringKeeps(l.daemon, config, now);
      ConfiguringKeepsShare(l.daemon, l.stage, l.share, config, now, Observing);
    }
    SearchStays(l.daemon, l.stage, l.search, step, d', Observing);
    TransferStays(l.daemon, l.stage, l.transfer, step, d', Observing);
  }

  lemma OfferedKeepsTimed(l: Loop, event: Event, now: Elapsed)
    requires Inv(l) && l.stage.Observing? && event.InboundOffered?
    ensures Timed(Next(l, Observe(event, now)))
  {
    var step, d' := Observe(event, now), Handle(l.daemon, event, now);
    var c1 := S.Apply(l.daemon.sharing, S.ObservePeer(INBOUND_PEER, INBOUND_NAME));
    OpStays(l.daemon.sharing, S.ObservePeer(INBOUND_PEER, INBOUND_NAME));
    AdmittingCreatesOrStays(c1, event.attachment, INBOUND_PEER, Some(event.size), Some(event.code), event.admitted);
    ClocksAreStarted(l.daemon, l.stage, l.search, l.transfer);
    if d'.sharing == c1 {
      StayingKeepsShare(l.daemon, l.stage, l.share, d', Observing);
    } else {
      assert c1.active == l.daemon.sharing.active && c1.nextId == l.daemon.sharing.nextId;
      CreatingKeepsShare(l.daemon, l.stage, l.share, d', Observing, S.Inbound);
    }
    SearchStays(l.daemon, l.stage, l.search, step, d', Observing);
    TransferStays(l.daemon, l.stage, l.transfer, step, d', Observing);
  }

  lemma AcceptedKeepsTimed(l: Loop, id: nat, now: Elapsed)
    requires Inv(l) && l.stage.Observing?
    ensures Timed(Next(l, Observe(OutboundAccepted(id), now)))
  {
    var step := Observe(OutboundAccepted(id), now);
    var d' := Effect(l.daemon, step);
    ClocksAreStarted(l.daemon, l.stage, l.search, l.transfer);
    AcceptingKeepsShare(l.daemon, l.stage, l.share, S.AcceptByPeer(id), d', Observing);
    SearchStays(l.daemon, l.stage, l.search, step, d', Observing);
  }

  lemma ObserveKeepsTimed(l: Loop, event: Event, now: Elapsed)
    requires Inv(l)
    ensures Timed(Next(l, Observe(event, now)))
  {
    if l.stage.Observing? {
      match event
      case PreferencesConfigured(config, failed) => ConfiguredKeepsTimed(l, config, failed, now);
      case InboundOffered(_, _, _, _) => OfferedKeepsTimed(l, event, now);
      case OutboundAccepted(id) => AcceptedKeepsTimed(l, id, now);
      case _ => QuietEventKeepsTimed(l, event, now);
    }
  }

  lemma QuietRequestKeepsTimed(l: Loop, request: Request, now: Elapsed)
    requires Inv(l) && l.stage.Responding?
    requires !request.PatchPreferences? && !request.Submit? && !request.SimulateIncoming? && !request.Accept?
    requires !(request.Simulate? && request.op.AcceptByPeer?)
    ensures Timed(Next(l, Answer(request, now)))
  {
    var step, d' := Answer(request, now), Respond(l.daemon, request, now);
    RequestsStay(l.daemon, request, now);
    StayingKeepsShare(l.daemon, l.stage, l.share, d', Top);
    SearchMayBegin(l.daemon, l.stage, l.search, step, d');
    TransferStays(l.daemon, l.stage, l.transfer, step, d', Top);
  }

  lemma PatchKeepsTimed(l: Loop, configured: Option<Config>, before: Sync, after: Sync, now: Elapsed)
    requires Inv(l) && l.stage.Responding?
    ensures Timed(Next(l, Answer(PatchPreferences(configured, before, after), now)))
  {
    var step := Answer(PatchPreferences(configured, before, after), now);
    ClocksAreStarted(l.daemon, l.stage, l.search, l.transfer);
    ReconfiguringKeeps(l.daemon, configured, before, after, now);
    ReconfiguringKeepsShare(l.daemon, l.stage, l.share, configured, before, after, now, Top);
    SearchStays(l.daemon, l.stage, l.search, step, Effect(l.daemon, step), Top);
    TransferStays(l.daemon, l.stage, l.transfer, step, Effect(l.daemon, step), Top);
  }

  lemma CreationKeepsTimed(l: Loop, request: Request, now: Elapsed)
    requires Inv(l) && l.stage.Responding? && (request.Submit? || request.SimulateIncoming?)
    ensures Timed(Next(l, Answer(request, now)))
  {
    var step, d' := Answer(request, now), Respond(l.daemon, request, now);
    var direction: S.Direction := if request.Submit? then S.Outbound else S.Inbound;
    if request.Submit? {
      SubmittingCreatesOrStays(l.daemon, request.attachment, request.target, request.network);
    } else {
      AdmittingCreatesOrStays(l.daemon.sharing, request.attachment, "pixel-8", None, None, request.admitted);
    }
    if d'.sharing == l.daemon.sharing {
      StayingKeepsShare(l.daemon, l.stage, l.share, d', Top);
    } else {
      CreatingKeepsShare(l.daemon, l.stage, l.share, d', Top, direction);
    }
    SearchMayBegin(l.daemon, l.stage, l.search, step, d');
    TransferStays(l.daemon, l.stage, l.transfer, step, d', Top);
  }

  lemma AcceptanceKeepsTimed(l: Loop, id: nat, consented: bool, sync: Sync, now: Elapsed)
    requires Inv(l) && l.stage.Responding?
    ensures Timed(Next(l, Answer(Accept(id, consented, sync), now)))
  {
    var step := Answer(Accept(id, consented, sync), now);
    var d' := Effect(l.daemon, step);
    SyncStays(l.daemon.sharing, sync);
    if consented && S.Applies(l.daemon.sharing, S.AcceptInbound(id)) {
      AcceptingKeepsShare(l.daemon, l.stage, l.share, S.AcceptInbound(id), d', Top);
    } else {
      StayingKeepsShare(l.daemon, l.stage, l.share, d', Top);
      TransferStays(l.daemon, l.stage, l.transfer, step, d', Top);
    }
    SearchMayBegin(l.daemon, l.stage, l.search, step, d');
  }

  lemma SimulatedAcceptanceKeepsTimed(l: Loop, id: nat, now: Elapsed)
    requires Inv(l) && l.stage.Responding?
    ensures Timed(Next(l, Answer(Simulate(S.AcceptByPeer(id)), now)))
  {
    var step := Answer(Simulate(S.AcceptByPeer(id)), now);
    var d' := Effect(l.daemon, step);
    AcceptingKeepsShare(l.daemon, l.stage, l.share, S.AcceptByPeer(id), d', Top);
    SearchMayBegin(l.daemon, l.stage, l.search, step, d');
  }

  lemma AnswerKeepsTimed(l: Loop, request: Request, now: Elapsed)
    requires Inv(l)
    ensures Timed(Next(l, Answer(request, now)))
  {
    if l.stage.Responding? {
      match request {
        case PatchPreferences(configured, before, after) => PatchKeepsTimed(l, configured, before, after, now);
        case Submit(_, _, _) => CreationKeepsTimed(l, request, now);
        case SimulateIncoming(_, _) => CreationKeepsTimed(l, request, now);
        case Accept(id, consented, sync) => AcceptanceKeepsTimed(l, id, consented, sync, now);
        case Simulate(op) =>
          if op.AcceptByPeer? {
            SimulatedAcceptanceKeepsTimed(l, op.id, now);
          } else {
            QuietRequestKeepsTimed(l, request, now);
          }
        case _ => QuietRequestKeepsTimed(l, request, now);
      }
    }
  }

  lemma StepStaysValid(l: Loop, step: Step)
    requires l.daemon.sharing.Valid()
    ensures Next(l, step).daemon.sharing.Valid()
  {
    Safety.StepIsGuarded(l, step);
    S.RunKeepsValid(l.daemon.sharing, Safety.OpsOf(l, step));
  }

  lemma StepKeepsInv(l: Loop, step: Step)
    requires Inv(l)
    ensures Inv(Next(l, step))
  {
    StepStaysValid(l, step);
    match step
    case Tick(now, later, sync) => TickKeepsTimed(l, now, later, sync);
    case Reload(configured, before, after, now) => ReloadKeepsTimed(l, configured, before, after, now);
    case Observe(event, now) => ObserveKeepsTimed(l, event, now);
    case NoRequest =>
    case Answer(request, now) => AnswerKeepsTimed(l, request, now);
  }

  lemma {:induction false} RunKeepsInv(l: Loop, steps: seq<Step>)
    requires Inv(l)
    ensures Inv(Exec(l, steps))
    decreases |steps|
  {
    if steps != [] {
      StepKeepsInv(l, steps[0]);
      RunKeepsInv(Next(l, steps[0]), steps[1..]);
    }
  }

  /** Two clocks that run out together, whenever they are read. */
  predicate RunOutTogether(a: Clock, b: Clock) {
    if a.duration == 0 || b.duration == 0 then a.duration == b.duration
    else a.start + a.duration == b.start + b.duration
  }

  lemma ClocksCoincide(a: Clock, b: Clock)
    ensures RunOutTogether(a, b) ==>
              forall later :: Since(a.start, later) >= a.duration <==> Since(b.start, later) >= b.duration
    ensures !RunOutTogether(a, b) ==>
              || (Since(a.start, 0) >= a.duration) != (Since(b.start, 0) >= b.duration)
              || (Since(a.start, a.start + a.duration) >= a.duration) != (Since(b.start, a.start + a.duration) >= b.duration)
              || (Since(a.start, b.start + b.duration) >= a.duration) != (Since(b.start, b.start + b.duration) >= b.duration)
  {
  }

  // ------------------------------------------------------------------
  // Transfer deadlines
  // ------------------------------------------------------------------

  /** Whether a pass ends the transfer by its clock. */
  predicate ClockFails(d: State, now: Elapsed, later: Elapsed) {
    var d1 := TimeoutTransfer(TimeoutDiscovery(Capture(d, now), later), later);
    d1.sharing.active.Some? && d1.sharing.active.value.phase.Failed?
  }

  /** In every run, a pass ends a transfer by its clock exactly when what its share
      is allowed has passed since the transfer began, or since the last peer
      acceptance handled during it. That is the timeout configured when the share
      was created, except for a namesake under the largest identifier. */
  lemma TransferDeadlineIsTheAdmittedOne(config: Config, steps: seq<Step>, now: Elapsed, later: Elapsed)
    requires Transferring(Exec(Started(config), steps).daemon)
    ensures var l := Exec(Started(config), steps);
            && (ClockFails(l.daemon, now, later) <==> Since(StartOf(l.transfer, now), later) >= Allowed(l.share))
            && (l.daemon.sharing.active.value.id < U64_MAX ==> Allowed(l.share) == l.share.secs * SECOND)
  {
    RunKeepsInv(Started(config), steps);
    var l := Exec(Started(config), steps);
    CaptureTimesShare(l.daemon, l.stage, l.share, now);
    CaptureTimesTransfer(l.daemon, l.stage, l.transfer, now);
  }

  /** The clock a transfer is held to, once begun. */
  function TransferClock(l: Loop): Clock
    requires l.transfer.began.Some?
  {
    Clock(if l.transfer.restarted.Some? then l.transfer.restarted.value else l.transfer.began.value, Allowed(l.share))
  }

  /** A transfer is held to its own beginning and to the timeout configured when its
      share was created, at every time, if and only if the clock it has runs out at
      that same moment. Below the largest identifier that is: no peer acceptance
      was handled since, or only at that very moment, or the timeout is zero. */
  lemma TransferDeadlineIsExact(config: Config, steps: seq<Step>)
    requires var l := Exec(Started(config), steps); Transferring(l.daemon) && l.transfer.began.Some?
    ensures var l := Exec(Started(config), steps);
            var own := Clock(l.transfer.began.value, l.share.secs * SECOND);
            && ((forall now, later :: ClockFails(l.daemon, now, later) <==> Since(own.start, later) >= own.duration) <==>
                RunOutTogether(TransferClock(l), own))
            && (l.daemon.sharing.active.value.id < U64_MAX ==>
                  (RunOutTogether(TransferClock(l), own) <==>
                   l.transfer.restarted.None? || l.transfer.restarted == l.transfer.began || l.share.secs == 0))
  {
    var l := Exec(Started(config), steps);
    var clock, own := TransferClock(l), Clock(l.transfer.began.value, l.share.secs * SECOND);
    forall now, later
      ensures ClockFails(l.daemon, now, later) <==> Since(clock.start, later) >= clock.duration
    {
      TransferDeadlineIsTheAdmittedOne(config, steps, now, later);
    }
    TransferDeadlineIsTheAdmittedOne(config, steps, 0, 0);
    ClocksCoincide(clock, own);
    if !RunOutTogether(clock, own) {
      var t, u := clock.start + clock.duration, own.start + own.duration;
      assert ClockFails(l.daemon, 0, 0) <==> Since(clock.start, 0) >= clock.duration;
      assert ClockFails(l.daemon, 0, t) <==> Since(clock.start, t) >= clock.duration;
      assert ClockFails(l.daemon, 0, u) <==> Since(clock.start, u) >= clock.duration;
    }
  }

  /** Applying a configuration moves no running clock: not the transfer's
      duration or start, and not the search's. */
  lemma ConfigurationMovesNoDeadline(config: Config, steps: seq<Step>, applied: Config, now: Elapsed)
    requires !Exec(Started(config), steps).stage.Top?
    ensures var d := Exec(Started(config), steps).daemon;
            var d' := Configured(d, applied, now);
            && (Transferring(d) ==>
                  && d'.transferStart == d.transferStart && d.transferStart.Some?
                  && d'.timeouts.transfer == d.timeouts.transfer && d'.timeouts.shareId == d.timeouts.shareId)
            && (Searching(d) ==>
                  && d'.searchStart == d.searchStart && d.searchStart.Some?
                  && d'.timeouts.discovery == d.timeouts.discovery)
  {
    RunKeepsInv(Started(config), steps);
  }

  // ------------------------------------------------------------------
  // Search deadlines
  // ------------------------------------------------------------------

  /** Whether a pass ends the search by its clock. */
  predicate ClockStops(d: State, now: Elapsed, later: Elapsed) {
    TimeoutDiscovery(Capture(d, now), later).sharing.discovery.SearchTimedOut?
  }

  /** In every run, a pass ends a search by the clock it inherited, or else exactly
      when the timeout configured when it was asked for has passed since the first
      pass that saw it. */
  lemma SearchEndsOnItsClock(config: Config, steps: seq<Step>, now: Elapsed, later: Elapsed)
    requires Searching(Exec(Started(config), steps).daemon)
    ensures var l := Exec(Started(config), steps);
            var clock := ClockOf(l.search, if l.search.began.Some? then l.search.began.value else now);
            ClockStops(l.daemon, now, later) <==> Since(clock.start, later) >= clock.duration
  {
    RunKeepsInv(Started(config), steps);
    var l := Exec(Started(config), steps);
    CaptureTimesSearch(l.daemon, l.stage, l.search, now);
  }

  /** A search is held to its own beginning and to the timeout configured then,
      provided no earlier start lingered at that moment. */
  lemma SearchDeadlineIsTheInitialOne(config: Config, steps: seq<Step>, now: Elapsed, later: Elapsed)
    requires var l := Exec(Started(config), steps); Searching(l.daemon) && l.search.inherited.None?
    ensures var l := Exec(Started(config), steps);
            var began := if l.search.began.Some? then l.search.began.value else now;
            ClockStops(l.daemon, now, later) <==> Since(began, later) >= l.search.secs * SECOND
  {
    SearchEndsOnItsClock(config, steps, now, later);
  }

  /** The proviso is exact: from the first pass that saw it, a search ends at its
      own beginning plus the configured timeout, at every time, if and only if it
      inherited no clock or one that runs out at that same moment. */
  lemma SearchDeadlineIsExact(config: Config, steps: seq<Step>)
    requires var l := Exec(Started(config), steps); Searching(l.daemon) && l.search.began.Some?
    ensures var l := Exec(Started(config), steps);
            var own := Clock(l.search.began.value, l.search.secs * SECOND);
            (forall now, later :: ClockStops(l.daemon, now, later) <==> Since(own.start, later) >= own.duration) <==>
            l.search.inherited.None? || RunOutTogether(l.search.inherited.value, own)
  {
    var l := Exec(Started(config), steps);
    var own := Clock(l.search.began.value, l.search.secs * SECOND);
    var clock := ClockOf(l.search, own.start);
    forall now, later
      ensures ClockStops(l.daemon, now, later) <==> Since(clock.start, later) >= clock.duration
    {
      SearchEndsOnItsClock(config, steps, now, later);
    }
    ClocksCoincide(clock, own);
    if !RunOutTogether(clock, own) {
      var t := clock.start + clock.duration;
      var u := own.start + own.duration;
      assert ClockStops(l.daemon, 0, 0) <==> Since(clock.start, 0) >= clock.duration;
      assert ClockStops(l.daemon, 0, t) <==> Since(clock.start, t) >= clock.duration;
      assert ClockStops(l.daemon, 0, u) <==> Since(clock.start, u) >= clock.duration;
    }
  }
}
