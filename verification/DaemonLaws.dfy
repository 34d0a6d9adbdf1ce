/** What the control loop makes of each network report and each request: where the
    displayed share goes, which peer it goes to and what is configured. */
module DaemonLaws {
  import opened Base
  import opened Daemon
  import L = SharingLaws
  import S = Sharing

  // ------------------------------------------------------------------
  // Reports
  // ------------------------------------------------------------------

  /** A projection of the consent token that ends this share. */
  predicate Projects(share: S.Share, sync: Sync, to: S.Phase) {
    || (sync == TimedOut(share.id) && L.Live(share.phase) && to == S.Failed)
    || (sync == Withdrawn(share.id) && L.Live(share.phase) && to == S.Cancelled)
  }

  /** All of a transferring share, as it then is, has been counted. */
  predicate Counts(share: S.Share, id: nat, bytes: nat, total: nat) {
    id == share.id && share.phase == S.Transferring && share.transferred <= bytes && bytes == total
  }

  /** The moves network reports make, one line each. */
  predicate Reports(share: S.Share, event: Event, to: S.Phase) {
    match event
    case VisibilityChanged(sync) => Projects(share, sync, to)
    case InboundCancelled(id) => id == share.id && L.Live(share.phase) && to == S.Cancelled
    case OutboundCancelled(id) => id == share.id && L.Live(share.phase) && to == S.Cancelled
    case OutboundFailed(id) => id == share.id && L.Live(share.phase) && to == S.Failed
    case InboundFailed(candidate, cancelled) =>
      candidate == Some(share.id) && L.Live(share.phase) && to == if cancelled then S.Cancelled else S.Failed
    case InboundRejected(id) =>
      id == share.id && share.direction == S.Inbound && share.phase == S.AwaitingLocalConsent && to == S.Rejected
    case OutboundRejected(id) =>
      id == share.id && share.direction == S.Outbound && share.phase == S.AwaitingPeerConsent && to == S.Rejected
    case OutboundAccepted(id) =>
      id == share.id && share.direction == S.Outbound && share.phase == S.AwaitingPeerConsent && to == S.Transferring
    case OutboundCompleted(id, bytes) => Counts(share, id, bytes, share.total) && to == S.Completed
    case InboundCompleted(id, bytes, value) =>
      Counts(share, id, bytes, if value.Some? then L.Octets(value.value) else share.total) && to == S.Completed
    case _ => false
  }

  predicate Shows(c: S.Coord, id: nat, phase: S.Phase) {
    c.active.Some? && c.active.value.id == id && c.active.value.phase == phase
  }

  /** The moves of an operation are exactly the listed ones. */
  lemma OperationMoves(c: S.Coord, op: S.Op, to: S.Phase)
    requires c.HasActive() && !L.Creates(op) && !op.SelectPeer? && to != c.active.value.phase
    ensures var share, c' := c.active.value, S.Apply(c, op);
            c'.active.Some? && c'.active.value.id == share.id && (c'.active.value.phase == to <==> L.Move(share, op, to))
  {
    L.PhasesMove(c, op);
    if L.Move(c.active.value, op, to) {
      L.MovesAreMade(c, op, to);
    }
    L.FieldsFollow(c, op);
  }

  lemma ProjectionsMove(c: S.Coord, sync: Sync, to: S.Phase)
    requires c.HasActive() && to != c.active.value.phase
    ensures var share, c' := c.active.value, SyncVisibility(c, sync);
            c'.active.Some? && c'.active.value.id == share.id && (c'.active.value.phase == to <==> Projects(share, sync, to))
  {
    match sync {
      case Nothing =>
      case TimedOut(id) => OperationMoves(c, S.Fail(id), to);
      case Withdrawn(id) => OperationMoves(c, S.Cancel(id), to);
    }
  }

  lemma CountingMoves(c: S.Coord, id: nat, bytes: nat, to: S.Phase)
    requires c.HasActive() && to != c.active.value.phase
    ensures var share, c' := c.active.value, Finish(c, id, bytes);
            && c'.active.Some? && c'.active.value.id == share.id
            && (c'.active.value.phase == to <==> Counts(share, id, bytes, share.total) && to == S.Completed)
  {
  }

  lemma AdmittingMovesNothing(c: S.Coord, attachment: S.Attachment, peer: string, size: Option<nat>, code: Option<string>, admitted: bool)
    requires c.HasActive()
    ensures Admit(c, attachment, peer, size, code, admitted) == c
  {
  }

  /** The reports of one share's end or progress, apart from the counting. */
  lemma EndsMove(d: State, event: Event, now: Elapsed, to: S.Phase)
    requires d.sharing.HasActive() && to != d.sharing.active.value.phase
    requires event.InboundCancelled? || event.OutboundCancelled? || event.OutboundFailed? || event.InboundFailed?
             || event.InboundRejected? || event.OutboundRejected? || event.OutboundAccepted?
    ensures var share, d' := d.sharing.active.value, Handle(d, event, now);
            && d'.sharing.active.Some? && d'.sharing.active.value.id == share.id
            && (d'.sharing.active.value.phase == to <==> Reports(share, event, to))
  {
    match event {
      case InboundCancelled(id) => OperationMoves(d.sharing, S.Cancel(id), to);
      case OutboundCancelled(id) => OperationMoves(d.sharing, S.Cancel(id), to);
      case OutboundFailed(id) => OperationMoves(d.sharing, S.Fail(id), to);
      case InboundFailed(candidate, cancelled) =>
        if candidate.Some? {
          OperationMoves(d.sharing, if cancelled then S.Cancel(candidate.value) else S.Fail(candidate.value), to);
        }
      case InboundRejected(id) => OperationMoves(d.sharing, S.RejectInbound(id), to);
      case OutboundRejected(id) => OperationMoves(d.sharing, S.RejectByPeer(id), to);
      case OutboundAccepted(id) => OperationMoves(d.sharing, S.AcceptByPeer(id), to);
    }
  }

  lemma OthersMoveNothing(d: State, event: Event, now: Elapsed)
    requires d.sharing.HasActive()
    requires event.InboundOffered? || event.PreferencesConfigured? || event.OutboundPairing? || event.PeerLost? || event.Progress?
    ensures Shows(Handle(d, event, now).sharing, d.sharing.active.value.id, d.sharing.active.value.phase)
  {
    match event {
      case InboundOffered(attachment, size, code, admitted) =>
        AdmittingMovesNothing(S.Apply(d.sharing, S.ObservePeer(INBOUND_PEER, INBOUND_NAME)), attachment, INBOUND_PEER,
                              Some(size), Some(code), admitted);
      case _ =>
    }
  }

  /** A live share changes phase on a network report, other than a sighting, exactly
      along those moves. */
  lemma ReportsMove(d: State, event: Event, now: Elapsed, to: S.Phase)
    requires d.sharing.HasActive() && !event.PeerSeen? && to != d.sharing.active.value.phase
    ensures var share, d' := d.sharing.active.value, Handle(d, event, now);
            && d'.sharing.active.Some? && d'.sharing.active.value.id == share.id
            && (d'.sharing.active.value.phase == to <==> Reports(share, event, to))
  {
    match event {
      case VisibilityChanged(sync) => ProjectionsMove(d.sharing, sync, to);
      case OutboundCompleted(id, bytes) => CountingMoves(d.sharing, id, bytes, to);
      case InboundCompleted(id, bytes, value) =>
        if value.Some? {
          L.FieldsFollow(d.sharing, S.ReplaceAttachment(id, value.value));
          CountingMoves(S.Apply(d.sharing, S.ReplaceAttachment(id, value.value)), id, bytes, to);
        } else {
          CountingMoves(d.sharing, id, bytes, to);
        }
      case InboundOffered(_, _, _, _) => OthersMoveNothing(d, event, now);
      case PreferencesConfigured(_, _) => OthersMoveNothing(d, event, now);
      case OutboundPairing(_, _) => OthersMoveNothing(d, event, now);
      case PeerLost(_) => OthersMoveNothing(d, event, now);
      case Progress(_, _) => OthersMoveNothing(d, event, now);
      case _ => EndsMove(d, event, now, to);
    }
  }

  /** The share of an offer, as it is first displayed. */
  predicate Offered(c: S.Coord, id: nat, attachment: S.Attachment, size: nat, code: string) {
    && Shows(c, id, S.AwaitingLocalConsent)
    && var share := c.active.value;
       && share.direction == S.Inbound && share.attachment == attachment && share.total == size && share.transferred == 0
       && share.peer.Some? && share.peer.value.id == "inbound-peer" && share.peer.value.name == "Nearby sender"
       && share.code == (if S.FourDigits(code) then Some(code) else None)
  }

  lemma AdmittedIsOffered(c: S.Coord, attachment: S.Attachment, size: nat, code: string)
    requires !c.HasActive() && S.FindPeer(c.peers, "inbound-peer").Some?
    requires S.FindPeer(c.peers, "inbound-peer").value.name == "Nearby sender"
    ensures Offered(Admit(c, attachment, "inbound-peer", Some(size), Some(code), true), c.nextId, attachment, size, code)
  {
  }

  lemma SenderIsKnown(c: S.Coord)
    requires S.PeersValid(c.peers)
    ensures var c' := S.Apply(c, S.ObservePeer(INBOUND_PEER, INBOUND_NAME));
            && c'.active == c.active && c'.nextId == c.nextId && S.FindPeer(c'.peers, "inbound-peer").Some?
            && S.FindPeer(c'.peers, "inbound-peer").value.name == "Nearby sender"
  {
    L.ObservedIsKnown(c.peers, INBOUND_PEER, INBOUND_NAME, "");
  }

  /** An inbound offer is displayed exactly when nothing live is and visibility admitted
      it: as the next share of the nearby sender, with its size and its code. */
  lemma OfferedIsDisplayed(d: State, attachment: S.Attachment, size: nat, code: string, admitted: bool, now: Elapsed)
    requires S.PeersValid(d.sharing.peers)
    ensures var c' := Handle(d, InboundOffered(attachment, size, code, admitted), now).sharing;
            if d.sharing.HasActive() || !admitted then c'.active == d.sharing.active
            else Offered(c', d.sharing.nextId, attachment, size, code)
  {
    SenderIsKnown(d.sharing);
    if !d.sharing.HasActive() && admitted {
      AdmittedIsOffered(S.Apply(d.sharing, S.ObservePeer(INBOUND_PEER, INBOUND_NAME)), attachment, size, code);
    }
  }

  /** The first progress of a transfer starts its clock, and later reports leave it. */
  lemma ProgressCounts(d: State, id: nat, bytes: nat, now: Elapsed)
    ensures var d' := Handle(d, Progress(id, bytes), now);
            && d'.transferStart == (if d.transferStart == None then Some(now) else d.transferStart)
            && (d.sharing.active.Some? && d.sharing.active.value.id == id && d.sharing.active.value.phase == S.Transferring
                && d.sharing.active.value.transferred <= bytes <= d.sharing.active.value.total ==>
                  d'.sharing.active == Some(d.sharing.active.value.(transferred := bytes)))
  {
  }

  lemma RemovingIs(c: S.Coord, peer: string)
    requires S.PeersValid(c.peers)
    ensures S.FindPeer(S.Apply(c, S.RemovePeer(peer)).peers, peer) == None
  {
    L.RemovedIsUnknown(c.peers, peer, "");
  }

  /** A lost peer is unknown. */
  lemma LostIsUnknown(d: State, peer: string, now: Elapsed)
    requires S.PeersValid(d.sharing.peers)
    ensures S.FindPeer(Handle(d, PeerLost(peer), now).sharing.peers, peer) == None
  {
    RemovingIs(d.sharing, peer);
  }

  /** A pairing code is shown for the outbound share it names. */
  lemma PairingIsShown(d: State, code: string, now: Elapsed)
    requires d.sharing.active.Some? && d.sharing.active.value.phase == S.AwaitingPeerConsent && S.FourDigits(code)
    ensures Handle(d, OutboundPairing(d.sharing.active.value.id, code), now).sharing.active ==
            Some(d.sharing.active.value.(code := Some(code)))
  {
  }

  // ------------------------------------------------------------------
  // Choosing a peer
  // ------------------------------------------------------------------

  /** A share that can be sent to this peer: it waits for one and this one is known,
      or it already waits for this one. */
  predicate Sendable(c: S.Coord, id: nat, peer: string) {
    && c.active.Some? && c.active.value.id == id && c.active.value.direction == S.Outbound
    && ((c.active.value.phase == S.WaitingForPeer && S.FindPeer(c.peers, peer).Some?)
        || (c.active.value.phase == S.AwaitingPeerConsent && c.active.value.peer.Some? && c.active.value.peer.value.id == peer))
  }

  /** Choosing does nothing without a route or for a share that cannot be sent there;
      a worker that cannot be told fails the share; otherwise it waits for that peer. */
  lemma ChoiceIs(c: S.Coord, id: nat, peer: string, network: Network)
    ensures var (c', chosen) := SelectPeer(c, id, peer, network);
            if !Sendable(c, id, peer) || (network.Attached? && !network.route) then c' == c && !chosen
            else if network.Attached? && !network.sent then Shows(c', id, S.Failed) && !chosen
            else
              && chosen && Shows(c', id, S.AwaitingPeerConsent) && c'.peers == c.peers
              && c'.active.value.peer.Some? && c'.active.value.peer.value.id == peer
              && c'.active.value.attachment == c.active.value.attachment && c'.active.value.total == c.active.value.total
  {
  }

  /** A sighted peer is known under its name; unless it is the configured one, nothing
      else changes. */
  lemma SightedIsKnown(d: State, peer: string, name: string, network: Network, now: Elapsed)
    requires S.PeersValid(d.sharing.peers)
    ensures var c' := Handle(d, PeerSeen(peer, name, network), now).sharing;
            && S.FindPeer(c'.peers, peer).Some? && S.FindPeer(c'.peers, peer).value.name == name
            && (d.config.pinnedPeer != Some(peer) ==> c'.active == d.sharing.active)
            && (d.config.pinnedPeer == Some(peer) ==> S.PinnedPeer(c'.peers) == S.FindPeer(c'.peers, peer))
  {
    var c1 := S.Apply(d.sharing, S.ObservePeer(peer, name));
    L.ObservedIsKnown(d.sharing.peers, peer, name, "");
    S.ObserveKeepsPeers(d.sharing.peers, peer, name);
    if d.config.pinnedPeer == Some(peer) {
      L.PinnedIsChosen(c1, peer);
      PinnedIsFound(c1, peer);
      var c2 := S.Apply(c1, S.PinPeer(peer));
      if c2.active.Some? {
        ChoosingKeepsPeers(c2, c2.active.value.id, peer, network);
      }
    }
  }

  /** An outbound share that waits for a peer is sent to the configured one when that
      is sighted with a route, and waits for its consent. */
  lemma SightedIsChosen(d: State, peer: string, name: string, network: Network, now: Elapsed)
    requires S.PeersValid(d.sharing.peers) && d.config.pinnedPeer == Some(peer)
    requires d.sharing.active.Some? && d.sharing.active.value.direction == S.Outbound && d.sharing.active.value.phase == S.WaitingForPeer
    requires network.NoWorker? || (network.route && network.sent)
    ensures ChosenFor(Handle(d, PeerSeen(peer, name, network), now).sharing, d.sharing.active.value.id, peer)
  {
    var c := SightingPins(d.sharing, peer, name);
    SightingChooses(d, peer, name, network, now, c);
    SendableIsSent(c, peer, network);
  }

  predicate ChosenFor(c: S.Coord, id: nat, peer: string) {
    Shows(c, id, S.AwaitingPeerConsent) && c.active.value.peer.Some? && c.active.value.peer.value.id == peer
  }

  ghost predicate OnSight(c: S.Coord, peer: string, name: string, pinned: S.Coord) {
    pinned == S.Apply(S.Apply(c, S.ObservePeer(peer, name)), S.PinPeer(peer))
  }

  lemma SightingChooses(d: State, peer: string, name: string, network: Network, now: Elapsed, c: S.Coord)
    requires d.config.pinnedPeer == Some(peer) && OnSight(d.sharing, peer, name, c)
    requires c.active.Some? && c.active.value.direction == S.Outbound && c.active.value.phase == S.WaitingForPeer
    ensures Handle(d, PeerSeen(peer, name, network), now).sharing == SelectPeer(c, c.active.value.id, peer, network).0
  {
  }

  lemma SendableIsSent(c: S.Coord, peer: string, network: Network)
    requires c.active.Some? && Sendable(c, c.active.value.id, peer) && (network.NoWorker? || (network.route && network.sent))
    ensures ChosenFor(SelectPeer(c, c.active.value.id, peer, network).0, c.active.value.id, peer)
  {
    ChoiceIs(c, c.active.value.id, peer, network);
  }

  lemma SightingPins(c: S.Coord, peer: string, name: string) returns (pinned: S.Coord)
    requires S.PeersValid(c.peers)
    ensures OnSight(c, peer, name, pinned) && pinned.active == c.active && S.FindPeer(pinned.peers, peer).Some?
  {
    L.ObservedIsKnown(c.peers, peer, name, "");
    S.ObserveKeepsPeers(c.peers, peer, name);
    PinnedIsFound(S.Apply(c, S.ObservePeer(peer, name)), peer);
    pinned := S.Apply(S.Apply(c, S.ObservePeer(peer, name)), S.PinPeer(peer));
  }

  lemma PinnedIsFound(c: S.Coord, peer: string)
    requires S.PeersValid(c.peers) && S.FindPeer(c.peers, peer).Some?
    ensures S.FindPeer(S.Apply(c, S.PinPeer(peer)).peers, peer) == Some(S.FindPeer(c.peers, peer).value.(pinned := true))
  {
    S.PinKeepsPeers(c.peers, Some(peer));
    L.FoundIs(S.Pin(c.peers, Some(peer)), peer, S.Named(c.peers, peer).value);
  }

  lemma ChoosingKeepsPeers(c: S.Coord, id: nat, peer: string, network: Network)
    ensures SelectPeer(c, id, peer, network).0.peers == c.peers
  {
  }

  // ------------------------------------------------------------------
  // Requests
  // ------------------------------------------------------------------

  /** The moves requests make, one line each. */
  predicate Asks(share: S.Share, request: Request, to: S.Phase) {
    match request
    case Visibility(sync) => Projects(share, sync, to)
    case Accept(id, consented, sync) =>
      if consented && id == share.id && share.direction == S.Inbound && share.phase == S.AwaitingLocalConsent
      then to == S.Transferring else Projects(share, sync, to)
    case Reject(id, consented, sync) =>
      if consented
      then id == share.id && share.direction == S.Inbound && share.phase == S.AwaitingLocalConsent && to == S.Rejected
      else Projects(share, sync, to)
    case CancelShare(id) => id == share.id && L.Live(share.phase) && to == S.Cancelled
    case Simulate(op) => !op.AcceptInbound? && !op.RejectInbound? && !op.Cancel? && L.Move(share, op, to)
    case _ => false
  }

  lemma DecisionsMove(d: State, request: Request, now: Elapsed, to: S.Phase)
    requires d.sharing.HasActive() && (request.Accept? || request.Reject?) && to != d.sharing.active.value.phase
    ensures var share, d' := d.sharing.active.value, Respond(d, request, now);
            && d'.sharing.active.Some? && d'.sharing.active.value.id == share.id
            && (d'.sharing.active.value.phase == to <==> Asks(share, request, to))
  {
    ProjectionsMove(d.sharing, request.sync, to);
    OperationMoves(d.sharing, if request.Accept? then S.AcceptInbound(request.id) else S.RejectInbound(request.id), to);
  }

  /** A live share changes phase on a request, other than a choice of peer or a change
      of preferences, exactly along those moves. */
  lemma RequestsMove(d: State, request: Request, now: Elapsed, to: S.Phase)
    requires d.sharing.HasActive() && !request.ChoosePeer? && !request.PatchPreferences? && to != d.sharing.active.value.phase
    ensures var share, d' := d.sharing.active.value, Respond(d, request, now);
            && d'.sharing.active.Some? && d'.sharing.active.value.id == share.id
            && (d'.sharing.active.value.phase == to <==> Asks(share, request, to))
  {
    match request {
      case Visibility(sync) => ProjectionsMove(d.sharing, sync, to);
      case Accept(_, _, _) => DecisionsMove(d, request, now, to);
      case Reject(_, _, _) => DecisionsMove(d, request, now, to);
      case CancelShare(id) => OperationMoves(d.sharing, S.Cancel(id), to);
      case Simulate(op) =>
        if Simulated(op) {
          OperationMoves(d.sharing, op, to);
        }
      case SimulateIncoming(attachment, admitted) =>
        AdmittingMovesNothing(d.sharing, attachment, "pixel-8", None, None, admitted);
      case _ =>
    }
  }

  /** A share that waits for a peer, sent to the target it was submitted for. */
  lemma TargetedIs(c: S.Coord, peer: string, network: Network)
    requires c.active.Some? && c.active.value.direction == S.Outbound && c.active.value.phase == S.WaitingForPeer
    ensures var (c1, chosen) := SelectPeer(c, c.active.value.id, peer, network);
            var c' := if chosen then c1 else S.Apply(c1, S.Cancel(c.active.value.id));
            Targeted(c, peer, network, c')
  {
    ChoiceIs(c, c.active.value.id, peer, network);
  }

  predicate Targeted(c: S.Coord, peer: string, network: Network, c': S.Coord)
    requires c.active.Some?
  {
    && Shows(c', c.active.value.id,
             if S.FindPeer(c.peers, peer) == None || (network.Attached? && !network.route) then S.Cancelled
             else if network.Attached? && !network.sent then S.Failed else S.AwaitingPeerConsent)
    && c'.active.value.direction == S.Outbound && c'.active.value.attachment == c.active.value.attachment
    && c'.active.value.total == c.active.value.total && c'.active.value.transferred == c.active.value.transferred
    && (c'.active.value.phase == S.AwaitingPeerConsent ==> c'.active.value.peer.Some? && c'.active.value.peer.value.id == peer)
  }

  /** Nothing is submitted over a live share. Otherwise the share is the next one and
      outbound; with a target it waits for that peer's consent, is cancelled if it
      cannot be sent there, and has failed if the worker cannot be told. */
  lemma SubmittedIs(d: State, attachment: S.Attachment, peer: string, network: Network, now: Elapsed)
    ensures var c' := Respond(d, Submit(attachment, Some(peer), network), now).sharing;
            if d.sharing.HasActive() then c' == d.sharing
            else Targeted(Waiting(d.sharing, attachment), peer, network, c')
  {
    if !d.sharing.HasActive() {
      QueueingWaits(d.sharing, attachment);
      TargetedIs(Waiting(d.sharing, attachment), peer, network);
    }
  }

  lemma QueueingWaits(c: S.Coord, attachment: S.Attachment)
    ensures S.Apply(S.Apply(c, S.QueueOutbound(attachment, false)), S.StartDiscovery) == Waiting(c, attachment)
  {
  }

  /** The next share, outbound and waiting for a peer during a search. */
  function Waiting(c: S.Coord, attachment: S.Attachment): S.Coord {
    S.Coord(NextU64(c.nextId),
            Some(S.Share(attachment, S.Outbound, c.nextId, None, S.WaitingForPeer, L.Octets(attachment), 0, None)),
            S.Searching, c.peers)
  }

  /** Without a target, the share waits for any peer and searches, if none is pinned or
      configured; it waits for the pinned peer's consent if one is. */
  lemma UntargetedIs(d: State, attachment: S.Attachment, network: Network, now: Elapsed)
    requires !d.sharing.HasActive()
    ensures var c', pinned := Respond(d, Submit(attachment, None, network), now).sharing, S.PinnedPeer(d.sharing.peers);
            && (pinned == None && d.config.pinnedPeer == None ==>
                  Shows(c', d.sharing.nextId, S.WaitingForPeer) && c'.discovery == S.Searching)
            && (pinned.Some? && (network.NoWorker? || !network.route || network.sent) ==>
                  && Shows(c', d.sharing.nextId, S.AwaitingPeerConsent)
                  && c'.active.value.peer.Some? && c'.active.value.peer.value.id == pinned.value.id)
            && (pinned.Some? && network.Attached? && network.route && !network.sent ==> Shows(c', d.sharing.nextId, S.Failed))
  {
    var c := S.Apply(S.Apply(d.sharing, S.QueueOutbound(attachment, true)), S.StartDiscovery);
    var pinned := S.PinnedPeer(d.sharing.peers);
    if pinned.Some? {
      ChoiceIs(c, d.sharing.nextId, pinned.value.id, network);
    }
  }

  /** A simulated sighting is a sighting without a route. */
  lemma SimulatedSightingIs(d: State, peer: string, name: string, sent: bool, now: Elapsed)
    ensures Respond(d, SimulatePeerSeen(peer, name), now) == Handle(d, PeerSeen(peer, name, Attached(false, sent)), now)
  {
  }

  /** Searching starts and stops on request, and an ended share goes when dismissed. */
  lemma SearchesAndDismissals(d: State, now: Elapsed)
    ensures Respond(d, Discover, now).sharing.discovery == S.Searching
    ensures Respond(d, StopDiscovery, now).sharing.discovery == S.Idle
    ensures d.sharing.active.Some? && !L.Live(d.sharing.active.value.phase) ==>
              Respond(d, Dismiss(d.sharing.active.value.id), now).sharing.active == None
  {
  }

  /** A configuration that takes effect is stored, and the pinned peer is then the one
      it names, if that one is known, and otherwise none. */
  lemma ConfigurationPins(d: State, config: Config, now: Elapsed)
    requires S.PeersValid(d.sharing.peers)
    ensures var d' := Handle(d, PreferencesConfigured(config, false), now);
            && d'.config == config && d'.sharing.active == d.sharing.active
            && (if config.pinnedPeer.Some? && S.FindPeer(d.sharing.peers, config.pinnedPeer.value).Some?
                then S.PinnedPeer(d'.sharing.peers).Some? && S.PinnedPeer(d'.sharing.peers).value.id == config.pinnedPeer.value
                else S.PinnedPeer(d'.sharing.peers) == None)
    ensures Handle(d, PreferencesConfigured(config, true), now) == d
  {
    var c := S.Apply(d.sharing, S.UnpinPeers);
    S.PinKeepsPeers(d.sharing.peers, None);
    L.PinnedIsChosen(d.sharing, "");
    if config.pinnedPeer.Some? {
      L.PinnedIsChosen(c, config.pinnedPeer.value);
      UnpinningKeepsKnown(d.sharing, config.pinnedPeer.value);
    }
  }

  lemma UnpinningKeepsKnown(c: S.Coord, peer: string)
    requires S.PeersValid(c.peers)
    ensures S.FindPeer(S.Apply(c, S.UnpinPeers).peers, peer).Some? <==> S.FindPeer(c.peers, peer).Some?
    ensures S.FindPeer(c.peers, peer).Some? ==> S.FindPeer(S.Apply(c, S.UnpinPeers).peers, peer).value.id == peer
  {
    var peers := S.Pin(c.peers, None);
    S.PinKeepsPeers(c.peers, None);
    var k := S.Named(c.peers, peer);
    if k.Some? {
      L.FoundIs(peers, peer, k.value);
    } else {
      assert forall i :: 0 <= i < |peers| ==> peers[i].id == c.peers[i].id;
    }
  }
}
