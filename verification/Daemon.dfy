/** The control loop around the coordinator: requests, network observations,
    captured deadlines and live configuration, as `serve_until` orders them. */
module Daemon {
  import opened Base
  import S = Sharing

  /** The settings the control loop itself reads. */
  datatype Config = Config(discoverySecs: nat, transferSecs: nat, pinnedPeer: Option<string>)

  /** The durations fixed when a search or a share was first seen, and that share. */
  datatype Timeouts = Timeouts(discovery: Elapsed, transfer: Elapsed, shareId: Option<nat>)

  datatype State = State(
    sharing: S.Coord,
    config: Config,
    timeouts: Timeouts,
    searchStart: Option<Elapsed>,
    transferStart: Option<Elapsed>)

  /** Whether a network worker is attached, and how it answers: a known route for
      the share's peer, and a command channel that is still open. */
  datatype Network = NoWorker | Attached(route: bool, sent: bool)

  /** `Instant::saturating_duration_since`. */
  function Since(started: Elapsed, now: Elapsed): Elapsed {
    if now >= started then now - started else 0
  }

  /** `capture_timeout_settings`. */
  function Capture(d: State, now: Elapsed): State {
    var d1 :=
      if !d.sharing.discovery.Searching? then d.(searchStart := None)
      else if d.searchStart.None? then
        d.(searchStart := Some(now), timeouts := d.timeouts.(discovery := d.config.discoverySecs * SECOND))
      else d;
    if !d.sharing.HasActive() then
      d1.(transferStart := None, timeouts := d1.timeouts.(shareId := None))
    else
      var share := d.sharing.active.value;
      var d2 :=
        if d.timeouts.shareId == Some(share.id) then d1
        else d1.(transferStart := None,
                 timeouts := d1.timeouts.(transfer := d.config.transferSecs * SECOND, shareId := Some(share.id)));
      if !share.phase.Transferring? then d2.(transferStart := None)
      else if d2.transferStart.None? then d2.(transferStart := Some(now))
      else d2
  }

  /** `timeout_discovery`. */
  function TimeoutDiscovery(d: State, now: Elapsed): State {
    if !d.sharing.discovery.Searching? then d.(searchStart := None)
    else
      var started := if d.searchStart.Some? then d.searchStart.value else now;
      if Since(started, now) >= d.timeouts.discovery
      then d.(sharing := S.Apply(d.sharing, S.DiscoveryTimedOut), searchStart := None)
      else d.(searchStart := Some(started))
  }

  /** `timeout_transfer`. */
  function TimeoutTransfer(d: State, now: Elapsed): State {
    if !(d.sharing.active.Some? && d.sharing.active.value.phase.Transferring?) then d.(transferStart := None)
    else
      var started := if d.transferStart.Some? then d.transferStart.value else now;
      if Since(started, now) >= d.timeouts.transfer
      then d.(sharing := S.Apply(d.sharing, S.Fail(d.sharing.active.value.id)), transferStart := None)
      else d.(transferStart := Some(started))
  }

  /** What `sync_visibility` may do to the share: end it on the consent token's behalf. */
  datatype Sync = Nothing | TimedOut(id: nat) | Withdrawn(id: nat)

  function SyncVisibility(c: S.Coord, sync: Sync): S.Coord {
    match sync
    case Nothing => c
    case TimedOut(id) => S.Apply(c, S.Fail(id))
    case Withdrawn(id) => S.Apply(c, S.Cancel(id))
  }

  /** `apply_timeouts`. */
  function ApplyTimeouts(d: State, now: Elapsed, later: Elapsed, sync: Sync): State {
    var d1 := TimeoutTransfer(TimeoutDiscovery(Capture(d, now), later), later);
    d1.(sharing := SyncVisibility(d1.sharing, sync))
  }

  /** `preferences_configured` for a configuration that took effect. */
  function Configured(d: State, config: Config, now: Elapsed): State {
    var d1 := Capture(d, now);
    var unpinned := S.Apply(d1.sharing, S.UnpinPeers);
    d1.(config := config,
        sharing := if config.pinnedPeer.Some? then S.Apply(unpinned, S.PinPeer(config.pinnedPeer.value)) else unpinned)
  }

  /** `configure_preferences` between its two visibility projections: with no
      worker to ask, the configuration takes effect at once. */
  function Reconfigured(d: State, configured: Option<Config>, before: Sync, after: Sync, now: Elapsed): State {
    var d1 := d.(sharing := SyncVisibility(d.sharing, before));
    var d2 := if configured.Some? then Configured(d1, configured.value, now) else d1;
    d2.(sharing := SyncVisibility(d2.sharing, after))
  }

  predicate AwaitingPeer(c: S.Coord, id: nat, peer: string) {
    && c.Is(id) && c.active.value.direction.Outbound? && c.active.value.phase.AwaitingPeerConsent?
    && c.active.value.peer.Some? && c.active.value.peer.value.id == peer
  }

  /** `Daemon::select_peer`. */
  function SelectPeer(c: S.Coord, id: nat, peer: string, network: Network): (S.Coord, bool) {
    if network.Attached? && !network.route then (c, false)
    else if !S.Applies(c, S.SelectPeer(id, peer)) && !AwaitingPeer(c, id, peer) then (c, false)
    else
      var c1 := S.Apply(c, S.SelectPeer(id, peer));
      if network.NoWorker? || network.sent then (c1, true) else (S.Apply(c1, S.Fail(id)), false)
  }

  datatype Event =
    | VisibilityChanged(sync: Sync)
    | PreferencesConfigured(config: Config, failed: bool)
    | InboundCancelled(id: nat)
    | InboundCompleted(id: nat, bytes: nat, value: Option<S.Attachment>)
    | InboundFailed(candidate: Option<nat>, cancelled: bool)
    | InboundRejected(id: nat)
    | InboundOffered(attachment: S.Attachment, size: nat, code: string, admitted: bool)
    | OutboundAccepted(id: nat)
    | OutboundPairing(id: nat, code: string)
    | OutboundCancelled(id: nat)
    | OutboundCompleted(id: nat, bytes: nat)
    | OutboundFailed(id: nat)
    | OutboundRejected(id: nat)
    | PeerLost(peer: string)
    | PeerSeen(peer: string, name: string, network: Network)
    | Progress(id: nat, bytes: nat)

  const INBOUND_PEER: string := "inbound-peer"
  const INBOUND_NAME: string := "Nearby sender"

  /** The completion tail shared by both directions: progress, then completion
      only if that progress was recorded. */
  function Finish(c: S.Coord, id: nat, bytes: nat): S.Coord {
    if S.Applies(c, S.RecordProgress(id, bytes))
    then S.Apply(S.Apply(c, S.RecordProgress(id, bytes)), S.Complete(id)) else c
  }

  /** `admit_inbound` once visibility has decided, and the code of the prompt. */
  function Admit(c: S.Coord, attachment: S.Attachment, peer: string, size: Option<nat>, code: Option<string>, admitted: bool): S.Coord {
    var offer := S.OfferInbound(attachment, peer, size);
    if c.HasActive() || !admitted || !S.Applies(c, offer) then c
    else
      var c1 := S.Apply(c, offer);
      if code.Some? then S.Apply(c1, S.RecordCode(c.nextId, code.value)) else c1
  }

  /** `PeerSeen`: a configured peer is pinned and a waiting share starts on it. */
  function Sight(d: State, peer: string, name: string, network: Network): S.Coord {
    var c1 := S.Apply(d.sharing, S.ObservePeer(peer, name));
    if d.config.pinnedPeer != Some(peer) then c1
    else
      var c2 := S.Apply(c1, S.PinPeer(peer));
      if c2.active.Some? && c2.active.value.direction.Outbound?
         && (c2.active.value.phase.WaitingForPeer? || c2.active.value.phase.AwaitingPeerConsent?)
      then SelectPeer(c2, c2.active.value.id, peer, network).0 else c2
  }

  /** `apply_network_event`. */
  function Handle(d: State, event: Event, now: Elapsed): State {
    match event
    case VisibilityChanged(sync) => d.(sharing := SyncVisibility(d.sharing, sync))
    case PreferencesConfigured(config, failed) => if failed then d else Configured(d, config, now)
    case InboundCancelled(id) => d.(sharing := S.Apply(d.sharing, S.Cancel(id)))
    case InboundCompleted(id, bytes, value) =>
      d.(sharing := Finish(
           if value.Some? then S.Apply(d.sharing, S.ReplaceAttachment(id, value.value)) else d.sharing, id, bytes))
    case InboundFailed(candidate, cancelled) =>
      if candidate.None? then d
      else d.(sharing := S.Apply(d.sharing, if cancelled then S.Cancel(candidate.value) else S.Fail(candidate.value)))
    case InboundRejected(id) => d.(sharing := S.Apply(d.sharing, S.RejectInbound(id)))
    case InboundOffered(attachment, size, code, admitted) =>
      d.(sharing := Admit(S.Apply(d.sharing, S.ObservePeer(INBOUND_PEER, INBOUND_NAME)),
                          attachment, INBOUND_PEER, Some(size), Some(code), admitted))
    case OutboundAccepted(id) => d.(sharing := S.Apply(d.sharing, S.AcceptByPeer(id)), transferStart := Some(now))
    case OutboundPairing(id, code) => d.(sharing := S.Apply(d.sharing, S.RecordCode(id, code)))
    case OutboundCancelled(id) => d.(sharing := S.Apply(d.sharing, S.Cancel(id)))
    case OutboundCompleted(id, bytes) => d.(sharing := Finish(d.sharing, id, bytes))
    case OutboundFailed(id) => d.(sharing := S.Apply(d.sharing, S.Fail(id)))
    case OutboundRejected(id) => d.(sharing := S.Apply(d.sharing, S.RejectByPeer(id)))
    case PeerLost(peer) => d.(sharing := S.Apply(d.sharing, S.RemovePeer(peer)))
    case PeerSeen(peer, name, network) => d.(sharing := Sight(d, peer, name, network))
    case Progress(id, bytes) =>
      d.(sharing := S.Apply(d.sharing, S.RecordProgress(id, bytes)),
         transferStart := if d.transferStart.None? then Some(now) else d.transferStart)
  }

  datatype Request =
    | Visibility(sync: Sync)
    | Discover
    | StopDiscovery
    | Accept(id: nat, consented: bool, sync: Sync)
    | Reject(id: nat, consented: bool, sync: Sync)
    | CancelShare(id: nat)
    | Dismiss(id: nat)
    | ChoosePeer(id: nat, peer: string, network: Network)
    | PatchPreferences(configured: Option<Config>, before: Sync, after: Sync)
    | Submit(attachment: S.Attachment, target: Option<string>, network: Network)
    | SimulateIncoming(attachment: S.Attachment, admitted: bool)
    | SimulatePeerSeen(peer: string, name: string)
    | Simulate(op: S.Op)
    | Read

  /** The operations `simulation_applied` forwards to the coordinator. */
  predicate Simulated(op: S.Op) {
    op.DiscoveryTimedOut? || op.Fail? || op.AcceptByPeer? || op.RemovePeer? || op.RejectByPeer?
    || op.Complete? || op.RecordProgress?
  }

  /** `queue_attachment_for` and `queued_response`, refused while a share is live. */
  function SubmitShare(d: State, attachment: S.Attachment, peer: Option<string>, network: Network): S.Coord {
    if d.sharing.HasActive() then d.sharing
    else
      var id := d.sharing.nextId;
      var c := S.Apply(S.Apply(d.sharing, S.QueueOutbound(attachment, peer.None?)), S.StartDiscovery);
      if peer.Some? then
        var (c1, selected) := SelectPeer(c, id, peer.value, network);
        if selected then c1 else S.Apply(c1, S.Cancel(id))
      else
        var pinned := S.PinnedPeer(c.peers);
        var target := if pinned.Some? then Some(pinned.value.id) else d.config.pinnedPeer;
        if target.Some? then SelectPeer(c, id, target.value, network).0 else c
  }

  /** `response_for`, after its `apply_timeouts`. */
  function Respond(d: State, request: Request, now: Elapsed): State {
    match request
    case Visibility(sync) => d.(sharing := SyncVisibility(d.sharing, sync))
    case Discover => d.(sharing := S.Apply(d.sharing, S.StartDiscovery))
    case StopDiscovery => d.(sharing := S.Apply(d.sharing, S.StopDiscovery))
    case Accept(id, consented, sync) =>
      if consented && S.Applies(d.sharing, S.AcceptInbound(id))
      then d.(sharing := S.Apply(d.sharing, S.AcceptInbound(id)), transferStart := Some(now))
      else d.(sharing := SyncVisibility(d.sharing, sync))
    case Reject(id, consented, sync) =>
      d.(sharing := if consented then S.Apply(d.sharing, S.RejectInbound(id)) else SyncVisibility(d.sharing, sync))
    case CancelShare(id) => d.(sharing := S.Apply(d.sharing, S.Cancel(id)))
    case Dismiss(id) => d.(sharing := S.Apply(d.sharing, S.Dismiss(id)))
    case ChoosePeer(id, peer, network) => d.(sharing := SelectPeer(d.sharing, id, peer, network).0)
    case PatchPreferences(configured, before, after) => Reconfigured(d, configured, before, after, now)
    case Submit(attachment, target, network) => d.(sharing := SubmitShare(d, attachment, target, network))
    case SimulateIncoming(attachment, admitted) =>
      d.(sharing := Admit(d.sharing, attachment, "pixel-8", None, None, admitted))
    case SimulatePeerSeen(peer, name) =>
      var c := S.Apply(d.sharing, S.ObservePeer(peer, name));
      d.(sharing := if d.config.pinnedPeer == Some(peer) then S.Apply(c, S.PinPeer(peer)) else c)
    case Simulate(op) => if Simulated(op) then d.(sharing := S.Apply(d.sharing, op)) else d
    case Read => d
  }

  // ------------------------------------------------------------------
  // Runs of the control loop
  // ------------------------------------------------------------------

  /** Positions in one pass of `serve_until` and `serve_next`. */
  datatype Stage = Top | Reloading | Observing | Accepting | Responding

  /** A clock: when it was started and how long it runs. */
  datatype Clock = Clock(start: Elapsed, duration: Elapsed)

  /** The running search as it happened: the seconds configured when it was asked
      for, the first pass that saw it, and the clock an earlier search had left
      behind at that moment. */
  datatype SearchHistory = SearchHistory(secs: nat, began: Option<Elapsed>, inherited: Option<Clock>)

  /** The running transfer as it happened: its acceptance (for a simulated one, the
      first pass that saw it), and the last peer acceptance handled since. */
  datatype TransferHistory = TransferHistory(began: Option<Elapsed>, restarted: Option<Elapsed>)

  /** The share as it was created: the seconds configured then for its transfer,
      and the timeout that was still captured for an earlier share of the same
      identifier. */
  datatype ShareHistory = ShareHistory(secs: nat, namesake: Option<Elapsed>)

  /** The loop and its history, which no step reads. */
  datatype Loop = Loop(daemon: State, stage: Stage, share: ShareHistory, search: SearchHistory, transfer: TransferHistory)

  datatype Step =
    | Tick(now: Elapsed, later: Elapsed, sync: Sync)
    | Reload(configured: Option<Config>, before: Sync, after: Sync, now: Elapsed)
    | Observe(event: Event, now: Elapsed)
    | NoRequest
    | Answer(request: Request, now: Elapsed)

  predicate Enabled(stage: Stage, step: Step) {
    match step
    case Tick(_, _, _) => stage.Top? || stage.Observing? || stage.Accepting?
    case Reload(_, _, _, _) => stage.Reloading?
    case Observe(_, _) => stage.Observing?
    case NoRequest => stage.Accepting?
    case Answer(_, _) => stage.Responding?
  }

  function After(stage: Stage, step: Step): Stage {
    match step
    case Tick(_, _, _) => if stage.Top? then Reloading else if stage.Observing? then Accepting else Responding
    case Reload(_, _, _, _) => Observing
    case Observe(_, _) => Observing
    case NoRequest => Top
    case Answer(_, _) => Top
  }

  function Effect(d: State, step: Step): State {
    match step
    case Tick(now, later, sync) => ApplyTimeouts(d, now, later, sync)
    case Reload(configured, before, after, now) => Reconfigured(d, configured, before, after, now)
    case Observe(event, now) => Handle(d, event, now)
    case NoRequest => d
    case Answer(request, now) => Respond(d, request, now)
  }

  predicate Searching(d: State) {
    d.sharing.discovery.Searching?
  }

  predicate Transferring(d: State) {
    d.sharing.active.Some? && d.sharing.active.value.phase.Transferring?
  }

  function SearchAfter(h: SearchHistory, d: State, step: Step, d': State): SearchHistory {
    if Searching(d') && !Searching(d) then
      SearchHistory(d.config.discoverySecs, None,
                    if d.searchStart.Some? then Some(Clock(d.searchStart.value, d.timeouts.discovery)) else None)
    else if step.Tick? && h.began.None? then h.(began := Some(step.now))
    else h
  }

  function ShareAfter(h: ShareHistory, d: State, d': State): ShareHistory {
    if d'.sharing.HasActive() && !d.sharing.HasActive() then
      ShareHistory(d.config.transferSecs,
                   if d.timeouts.shareId == Some(d'.sharing.active.value.id) then Some(d.timeouts.transfer) else None)
    else h
  }

  function AcceptedAt(step: Step): Option<Elapsed> {
    if step.Observe? || (step.Answer? && step.request.Accept?) then Some(step.now) else None
  }

  function TransferAfter(h: TransferHistory, d: State, step: Step, d': State): TransferHistory {
    if Transferring(d') && !Transferring(d) then TransferHistory(AcceptedAt(step), None)
    else if step.Observe? && step.event.OutboundAccepted? then h.(restarted := Some(step.now))
    else if step.Tick? && h.began.None? then h.(began := Some(step.now))
    else h
  }

  /** A step whose place in the pass has not come changes nothing. */
  function Next(l: Loop, step: Step): Loop {
    if !Enabled(l.stage, step) then l
    else
      var d := Effect(l.daemon, step);
      Loop(d, After(l.stage, step), ShareAfter(l.share, l.daemon, d),
           SearchAfter(l.search, l.daemon, step, d), TransferAfter(l.transfer, l.daemon, step, d))
  }

  function Exec(l: Loop, steps: seq<Step>): Loop
    decreases |steps|
  {
    if steps == [] then l else Exec(Next(l, steps[0]), steps[1..])
  }

  function Started(config: Config): Loop {
    Loop(State(S.Initial(), config, Timeouts(0, 0, None), None, None), Top, ShareHistory(0, None),
         SearchHistory(0, None, None), TransferHistory(None, None))
  }

  // ------------------------------------------------------------------
  // What every reachable loop satisfies
  // ------------------------------------------------------------------

  /** The displayed share's timeout has been captured. */
  predicate Captured(d: State) {
    d.sharing.active.Some? && d.timeouts.shareId == Some(d.sharing.active.value.id)
  }

  /** A share not yet captured waits, right after it was created. */
  predicate Settled(d: State, stage: Stage) {
    d.sharing.HasActive() && !Captured(d) ==>
      && !Transferring(d)
      && (stage.Top? || (stage.Observing? && d.sharing.active.value.direction.Inbound?))
  }

  /** How long a share's transfer may last. */
  function Allowed(h: ShareHistory): Elapsed {
    if h.namesake.Some? then h.namesake.value else h.secs * SECOND
  }

  /** The timeout a live share is or will be held to is the one configured when it
      was created, or its namesake's; only the largest identifier has namesakes. */
  predicate ShareTimed(d: State, h: ShareHistory) {
    d.sharing.HasActive() ==>
      && (h.namesake.Some? ==> d.sharing.active.value.id == U64_MAX)
      && (if Captured(d) then d.timeouts.transfer == Allowed(h)
          else h.namesake.None? && d.config.transferSecs == h.secs)
  }

  /** The clock of a search first seen at `began`. */
  function ClockOf(h: SearchHistory, began: Elapsed): Clock {
    if h.inherited.Some? then h.inherited.value else Clock(began, h.secs * SECOND)
  }

  predicate SearchTimed(d: State, stage: Stage, h: SearchHistory) {
    Searching(d) ==>
      if h.began.Some? then
        d.searchStart == Some(ClockOf(h, h.began.value).start)
        && d.timeouts.discovery == ClockOf(h, h.began.value).duration
      else
        && stage.Top?
        && (if h.inherited.Some?
            then d.searchStart == Some(h.inherited.value.start) && d.timeouts.discovery == h.inherited.value.duration
            else d.searchStart.None? && d.config.discoverySecs == h.secs)
  }

  predicate TransferTimed(d: State, stage: Stage, h: TransferHistory) {
    && (Transferring(d) ==>
          if h.began.Some? then d.transferStart == (if h.restarted.Some? then h.restarted else h.began)
          else stage.Top? && d.transferStart.None? && h.restarted.None?)
    && (stage.Responding? && d.sharing.HasActive() && !Transferring(d) ==> d.transferStart.None?)
  }

  predicate Reserved(d: State) {
    d.timeouts.shareId.Some? ==>
      d.timeouts.shareId.value < d.sharing.nextId || d.sharing.nextId == U64_MAX
  }

  ghost predicate Inv(l: Loop) {
    && l.daemon.sharing.Valid()
    && Reserved(l.daemon)
    && Settled(l.daemon, l.stage)
    && ShareTimed(l.daemon, l.share)
    && SearchTimed(l.daemon, l.stage, l.search)
    && TransferTimed(l.daemon, l.stage, l.transfer)
  }
}
