/** The daemon's calls seen by the concurrent inbound system: whatever is not
    admission or acceptance is a run of its share operations, whose guard is kept
    by the daemon and not assumed of it. */
module DaemonInbound {
  import opened Base
  import S = Sharing
  import opened Daemon
  import opened DaemonSafety
  import I = Inbound

  /** Neither offering a share nor accepting one: those go through the token. */
  predicate Tokenless(ops: seq<S.Op>) {
    forall i :: 0 <= i < |ops| ==> !ops[i].OfferInbound? && !ops[i].AcceptInbound?
  }

  function ShareSteps(ops: seq<S.Op>): seq<I.Step> {
    seq(|ops|, i requires 0 <= i < |ops| => I.ShareOperation(ops[i]))
  }

  lemma {:induction false} OpsAreShareSteps(s: I.System, ops: seq<S.Op>)
    requires s.control.Between? && S.GuardedRun(s.sharing, ops) && Tokenless(ops)
    ensures I.Exec(s, ShareSteps(ops)) == s.(sharing := S.Run(s.sharing, ops))
    decreases |ops|
  {
    if ops != [] {
      var next := s.(sharing := S.Apply(s.sharing, ops[0]));
      assert I.Next(s, I.ShareOperation(ops[0])) == next;
      OpsAreShareSteps(next, ops[1..]);
      assert ShareSteps(ops)[1..] == ShareSteps(ops[1..]);
    }
  }

  /** Whether a step may ask for a share to be offered or accepted. */
  predicate AsksConsent(step: Step) {
    || (step.Observe? && step.event.InboundOffered?)
    || (step.Answer? && (step.request.SimulateIncoming? || step.request.Accept?))
  }

  lemma TokenlessTogether(first: seq<S.Op>, second: seq<S.Op>)
    requires Tokenless(first) && Tokenless(second)
    ensures Tokenless(first + second)
  {
  }

  lemma TimeoutsAreTokenless(d: State, now: Elapsed, later: Elapsed, sync: Sync)
    ensures Tokenless(TimeoutOps(d, now, later, sync))
  {
    var d1 := Capture(d, now);
    var search, transfer := SearchOps(d1, later), TransferOps(TimeoutDiscovery(d1, later), later);
    TokenlessTogether(search, transfer);
    TokenlessTogether(search + transfer, SyncOps(sync));
  }

  lemma ReconfiguringIsTokenless(configured: Option<Config>, before: Sync, after: Sync)
    ensures Tokenless(ReconfigureOps(configured, before, after))
  {
    var between := if configured.Some? then ConfigOps(configured.value) else [];
    TokenlessTogether(SyncOps(before), between);
    TokenlessTogether(SyncOps(before) + between, SyncOps(after));
  }

  lemma SelectingIsTokenless(c: S.Coord, id: nat, peer: string, network: Network)
    ensures Tokenless(SelectOps(c, id, peer, network))
  {
  }

  lemma SightingIsTokenless(d: State, peer: string, name: string, network: Network)
    ensures Tokenless(SightOps(d, peer, name, network))
  {
    var observe, pin := S.ObservePeer(peer, name), S.PinPeer(peer);
    var c := S.Apply(S.Apply(d.sharing, observe), pin);
    if c.active.Some? {
      SelectingIsTokenless(c, c.active.value.id, peer, network);
      TokenlessTogether([observe, pin], SelectOps(c, c.active.value.id, peer, network));
    }
  }

  lemma SubmittingIsTokenless(d: State, attachment: S.Attachment, peer: Option<string>, network: Network)
    ensures Tokenless(SubmitOps(d, attachment, peer, network))
  {
    if !d.sharing.HasActive() {
      var id, queue := d.sharing.nextId, S.QueueOutbound(attachment, peer.None?);
      var c := S.Apply(S.Apply(d.sharing, queue), S.StartDiscovery);
      if peer.Some? {
        var ending := if SelectPeer(c, id, peer.value, network).1 then [] else [S.Cancel(id)];
        SelectingIsTokenless(c, id, peer.value, network);
        TokenlessTogether(SelectOps(c, id, peer.value, network), ending);
        TokenlessTogether([queue, S.StartDiscovery], SelectOps(c, id, peer.value, network) + ending);
      } else {
        var pinned := S.PinnedPeer(c.peers);
        var target := if pinned.Some? then Some(pinned.value.id) else d.config.pinnedPeer;
        if target.Some? {
          SelectingIsTokenless(c, id, target.value, network);
          TokenlessTogether([queue, S.StartDiscovery], SelectOps(c, id, target.value, network));
        }
      }
    }
  }

  lemma EventsAreTokenless(d: State, event: Event)
    requires !event.InboundOffered?
    ensures Tokenless(EventOps(d, event))
  {
    match event
    case PeerSeen(peer, name, network) => SightingIsTokenless(d, peer, name, network);
    case _ =>
  }

  lemma RequestsAreTokenless(d: State, request: Request)
    requires !request.SimulateIncoming? && !request.Accept?
    ensures Tokenless(RequestOps(d, request))
  {
    match request
    case ChoosePeer(id, peer, network) => SelectingIsTokenless(d.sharing, id, peer, network);
    case PatchPreferences(configured, before, after) => ReconfiguringIsTokenless(configured, before, after);
    case Submit(attachment, target, network) => SubmittingIsTokenless(d, attachment, target, network);
    case _ =>
  }

  lemma OtherStepsAreTokenless(l: Loop, step: Step)
    requires !AsksConsent(step)
    ensures Tokenless(OpsOf(l, step))
  {
    match step
    case Tick(now, later, sync) => TimeoutsAreTokenless(l.daemon, now, later, sync);
    case Reload(configured, before, after, _) => ReconfiguringIsTokenless(configured, before, after);
    case Observe(event, _) => EventsAreTokenless(l.daemon, event);
    case NoRequest =>
    case Answer(request, _) => RequestsAreTokenless(l.daemon, request);
  }

  /** What any other step of the daemon does to the share, the concurrent system does
      by its share operations, every one of them within its guard. */
  lemma DaemonStepsAreShareOperations(l: Loop, step: Step, s: I.System)
    requires !AsksConsent(step) && s.control.Between? && s.sharing == l.daemon.sharing
    ensures I.Exec(s, ShareSteps(OpsOf(l, step))) == s.(sharing := Next(l, step).daemon.sharing)
  {
    OtherStepsAreTokenless(l, step);
    StepIsGuarded(l, step);
    OpsAreShareSteps(s, OpsOf(l, step));
  }
}
