/** The gaps in the daemon's clocks: a search start that lingers after its search
    was stopped in the same pass, and a transfer start that a stray peer
    acceptance moves. */
module ClockGaps {
  import opened Base
  import S = Sharing
  import opened Daemon
  import opened DaemonTiming

  /** Whatever request starts a search, the next capture starts its clock at that
      moment with the configured timeout if and only if no start lingers, or one
      that says the same. */
  lemma BeginsOnItsOwnClockExactly(d: State, request: Request, asked: Elapsed, now: Elapsed)
    requires !Searching(d) && Searching(Respond(d, request, asked))
    ensures request.Discover? || request.Submit?
    ensures var d' := Capture(Respond(d, request, asked), now);
            d'.searchStart == Some(now) && d'.timeouts.discovery == d.config.discoverySecs * SECOND <==>
            || d.searchStart.None?
            || (d.searchStart == Some(now) && d.timeouts.discovery == d.config.discoverySecs * SECOND)
  {
    OnlyTwoRequestsSearch(d, request, asked);
    CaptureBegins(d, Respond(d, request, asked), now);
  }

  lemma CaptureBegins(d: State, d1: State, now: Elapsed)
    requires Untouched(d, d1) && Searching(d1)
    ensures var d' := Capture(d1, now);
            && d'.searchStart == (if d.searchStart.None? then Some(now) else d.searchStart)
            && d'.timeouts.discovery == (if d.searchStart.None? then d.config.discoverySecs * SECOND else d.timeouts.discovery)
  {
  }

  lemma OnlyTwoRequestsSearch(d: State, request: Request, asked: Elapsed)
    requires !Searching(d) && Searching(Respond(d, request, asked))
    ensures (request.Discover? || request.Submit?) && Untouched(d, Respond(d, request, asked))
  {
    match request
    case PatchPreferences(configured, before, after) => PatchingIsCalm(d, configured, before, after, asked);
    case Accept(_, _, sync) => SyncStays(d.sharing, sync);
    case Reject(_, _, sync) => SyncStays(d.sharing, sync);
    case Visibility(sync) => SyncStays(d.sharing, sync);
    case ChoosePeer(id, peer, network) => SelectingStays(d.sharing, id, peer, network);
    case _ =>
  }

  lemma PatchingIsCalm(d: State, configured: Option<Config>, before: Sync, after: Sync, now: Elapsed)
    ensures Calm(d.sharing, Reconfigured(d, configured, before, after, now).sharing)
  {
    var d1 := d.(sharing := SyncVisibility(d.sharing, before));
    var d2 := if configured.Some? then Configured(d1, configured.value, now) else d1;
    SyncStays(d.sharing, before);
    SyncStays(d2.sharing, after);
  }

  /** A pass of the clocks leaves a start without a search exactly when it stops a
      search that has not run out, by ending the share: on the transfer's clock or
      on the consent token's behalf. */
  lemma StartLingersExactlyWhen(d: State, now: Elapsed, later: Elapsed, sync: Sync)
    ensures var d' := ApplyTimeouts(d, now, later, sync);
            !Searching(d') && d'.searchStart.Some? <==>
            && Searching(d) && !ClockStops(d, now, later)
            && ((Transferring(d) && ClockFails(d, now, later))
                || (!sync.Nothing? && d.sharing.HasActive() && d.sharing.Is(sync.id)))
  {
    var d1 := TimeoutDiscovery(Capture(d, now), later);
    var d2 := TimeoutTransfer(d1, later);
    assert Searching(d1) ==> Searching(d) && d1.searchStart.Some?;
    assert !Searching(d1) ==> d1.searchStart.None?;
    assert d2.searchStart == d1.searchStart && d1.sharing.active == d.sharing.active;
    assert Searching(d2) <==> Searching(d1) && !(Transferring(d) && ClockFails(d, now, later));
    EndingStopsSearch(d2.sharing, sync);
  }

  lemma EndingStopsSearch(c: S.Coord, sync: Sync)
    ensures SyncVisibility(c, sync).discovery.Searching? <==>
            c.discovery.Searching? && !(!sync.Nothing? && c.HasActive() && c.Is(sync.id))
  {
  }

  /** Whatever request then starts a search inherits the start and the duration of
      the stopped one. */
  lemma LingeringStartIsInherited(d: State, now: Elapsed, later: Elapsed, sync: Sync, request: Request, again: Elapsed)
    requires Searching(d) && d.searchStart.Some?
    requires var d1 := ApplyTimeouts(d, now, later, sync);
             !Searching(d1) && d1.searchStart.Some? && Searching(Respond(d1, request, later))
    ensures var d2 := Capture(Respond(ApplyTimeouts(d, now, later, sync), request, later), again);
            d2.searchStart == d.searchStart && d2.timeouts.discovery == d.timeouts.discovery
  {
    var d1 := ApplyTimeouts(d, now, later, sync);
    BeginsOnItsOwnClockExactly(d1, request, later, again);
  }

  lemma {:induction false} ExecSplits(l: Loop, first: seq<Step>, second: seq<Step>)
    ensures Exec(l, first + second) == Exec(Exec(l, first), second)
    decreases |first|
  {
    if first == [] {
      assert first + second == second;
    } else {
      assert (first + second)[1..] == first[1..] + second;
      ExecSplits(Next(l, first[0]), first[1..], second);
    }
  }

  lemma ExecOne(l: Loop, step: Step)
    ensures Exec(l, [step]) == Next(l, step)
  {
    assert [step][1..] == [];
    assert Exec(Next(l, step), []) == Next(l, step);
  }

  /** One pass of the loop that sees at most one event and answers one request. */
  function Pass(configured: Option<Config>, event: seq<Step>, at: Elapsed, request: Request): seq<Step> {
    [Tick(0, 0, Nothing)] + [Reload(configured, Nothing, Nothing, 0)] + event + [Tick(0, 0, Nothing)] + [Tick(at, at, Nothing)]
    + [Answer(request, at)]
  }

  lemma PassIs(l: Loop, configured: Option<Config>, event: seq<Step>, at: Elapsed, request: Request)
    requires |event| <= 1
    ensures var l1 := Next(Next(l, Tick(0, 0, Nothing)), Reload(configured, Nothing, Nothing, 0));
            var l2 := if event == [] then l1 else Next(l1, event[0]);
            Exec(l, Pass(configured, event, at, request)) ==
            Next(Next(Next(l2, Tick(0, 0, Nothing)), Tick(at, at, Nothing)), Answer(request, at))
  {
    var l0 := Next(l, Tick(0, 0, Nothing));
    var l1 := Next(l0, Reload(configured, Nothing, Nothing, 0));
    var l2 := if event == [] then l1 else Next(l1, event[0]);
    var l3 := Next(l2, Tick(0, 0, Nothing));
    var l4 := Next(l3, Tick(at, at, Nothing));
    ExecOne(l, Tick(0, 0, Nothing));
    ExecSplits(l, [Tick(0, 0, Nothing)], [Reload(configured, Nothing, Nothing, 0)]);
    ExecOne(l0, Reload(configured, Nothing, Nothing, 0));
    ExecSplits(l, [Tick(0, 0, Nothing)] + [Reload(configured, Nothing, Nothing, 0)], event);
    if event != [] {
      assert event == [event[0]];
      ExecOne(l1, event[0]);
    }
    ExecSplits(l, [Tick(0, 0, Nothing)] + [Reload(configured, Nothing, Nothing, 0)] + event, [Tick(0, 0, Nothing)]);
    ExecOne(l2, Tick(0, 0, Nothing));
    ExecSplits(l, [Tick(0, 0, Nothing)] + [Reload(configured, Nothing, Nothing, 0)] + event + [Tick(0, 0, Nothing)], [Tick(at, at, Nothing)]);
    ExecOne(l3, Tick(at, at, Nothing));
    ExecSplits(l, [Tick(0, 0, Nothing)] + [Reload(configured, Nothing, Nothing, 0)] + event + [Tick(0, 0, Nothing)] + [Tick(at, at, Nothing)],
               [Answer(request, at)]);
    ExecOne(l4, Answer(request, at));
  }

  const OFFER := Observe(InboundOffered(S.Text([]), 0, "", true), 0)
  const SHORT := Config(15, 1, None)
  const LONG := Config(60, 1, None)

  function Receiving(phase: S.Phase, discovery: S.Discovery): S.Coord {
    var sender := S.Peer(INBOUND_PEER, INBOUND_NAME, false);
    S.Coord(2, Some(S.Share(S.Text([]), S.Inbound, 1, Some(sender), phase, 0, 0, None)), discovery, [sender])
  }

  lemma OfferIsHandled()
    ensures Handle(Started(SHORT).daemon, OFFER.event, 0) ==
            Started(SHORT).daemon.(sharing := Receiving(S.AwaitingLocalConsent, S.Idle))
  {
    var c := S.Apply(S.Initial(), S.ObservePeer(INBOUND_PEER, INBOUND_NAME));
    var sender := S.Peer(INBOUND_PEER, INBOUND_NAME, false);
    assert c.peers == [sender];
    assert Admit(c, S.Text([]), INBOUND_PEER, Some(0), Some(""), true) == Receiving(S.AwaitingLocalConsent, S.Idle);
  }

  /** The inbound share at the start of time, in a phase, its timeout captured, and
      a search that may be running. */
  function Held(phase: S.Phase, start: Option<Elapsed>): State {
    State(Receiving(phase, S.Idle), SHORT, Timeouts(0, SECOND, Some(1)), None, start)
  }

  lemma NothingDue()
    ensures ApplyTimeouts(Started(SHORT).daemon, 0, 0, Nothing) == Started(SHORT).daemon
    ensures ApplyTimeouts(Held(S.Transferring, Some(0)), 0, 0, Nothing) == Held(S.Transferring, Some(0))
    ensures ApplyTimeouts(Held(S.AwaitingLocalConsent, None), 0, 0, Nothing) == Held(S.AwaitingLocalConsent, None)
  {
  }

  lemma OfferIsCaptured()
    ensures var d := Started(SHORT).daemon.(sharing := Receiving(S.AwaitingLocalConsent, S.Idle));
            ApplyTimeouts(d, 0, 0, Nothing) == Held(S.AwaitingLocalConsent, None)
  {
  }

  lemma OfferIsAccepted()
    ensures Respond(Held(S.AwaitingLocalConsent, None), Accept(1, true, Nothing), 0) == Held(S.Transferring, Some(0))
  {
  }

  /** An inbound share accepted at time zero, under a timeout of one second. */
  predicate Received(l: Loop) {
    && l.daemon == Held(S.Transferring, Some(0))
    && l.stage.Top? && l.share == ShareHistory(1, None) && l.transfer == TransferHistory(Some(0), None)
  }

  lemma OfferedPass()
    ensures Received(Exec(Started(SHORT), Pass(None, [OFFER], 0, Accept(1, true, Nothing))))
  {
    PassIs(Started(SHORT), None, [OFFER], 0, Accept(1, true, Nothing));
    NothingDue();
    OfferIsHandled();
    OfferIsCaptured();
    OfferIsAccepted();
    var l0 := Next(Started(SHORT), Tick(0, 0, Nothing));
    var l1 := Next(l0, Reload(None, Nothing, Nothing, 0));
    var l2 := Next(l1, OFFER);
    assert l2.daemon == Started(SHORT).daemon.(sharing := Receiving(S.AwaitingLocalConsent, S.Idle));
    assert l2.stage.Observing? && l2.share == ShareHistory(1, None);
    AcceptedPass(l2);
  }

  lemma AcceptedPass(l: Loop)
    requires l.daemon == Started(SHORT).daemon.(sharing := Receiving(S.AwaitingLocalConsent, S.Idle))
    requires l.stage.Observing? && l.share == ShareHistory(1, None)
    ensures Received(Next(Next(Next(l, Tick(0, 0, Nothing)), Tick(0, 0, Nothing)), Answer(Accept(1, true, Nothing), 0)))
  {
    NothingDue();
    OfferIsCaptured();
    OfferIsAccepted();
    var l1 := Next(l, Tick(0, 0, Nothing));
    assert l1.daemon == Held(S.AwaitingLocalConsent, None) && l1.stage.Accepting? && l1.share == ShareHistory(1, None);
    var l2 := Next(l1, Tick(0, 0, Nothing));
    assert l2.daemon == Held(S.AwaitingLocalConsent, None) && l2.stage.Responding? && l2.share == ShareHistory(1, None);
  }

  // ------------------------------------------------------------------
  // A search that inherits a clock
  // ------------------------------------------------------------------

  /** The transfer with a search beside it. */
  function HeldSearching(config: Config, discovery: Elapsed, start: Option<Elapsed>): State {
    State(Receiving(S.Transferring, S.Searching), config, Timeouts(discovery, SECOND, Some(1)), start, Some(0))
  }

  lemma SearchIsAsked()
    ensures Respond(Held(S.Transferring, Some(0)), Discover, 0) == HeldSearching(SHORT, 0, None)
  {
  }

  lemma QuietPass(l: Loop)
    requires Received(l)
    ensures var l1 := Next(Next(l, Tick(0, 0, Nothing)), Reload(None, Nothing, Nothing, 0));
            l1.daemon == l.daemon && l1.stage.Observing? && l1.transfer == l.transfer && l1.share == l.share
  {
    NothingDue();
    var l0 := Next(l, Tick(0, 0, Nothing));
    assert l0.daemon == l.daemon && l0.stage.Reloading? && l0.transfer == l.transfer;
  }

  lemma SearchingPass(l: Loop)
    requires Received(l)
    ensures var l' := Exec(l, Pass(None, [], 0, Discover)); l'.stage.Top? && l'.daemon == HeldSearching(SHORT, 0, None)
  {
    PassIs(l, None, [], 0, Discover);
    QuietPass(l);
    AskedPass(Next(Next(l, Tick(0, 0, Nothing)), Reload(None, Nothing, Nothing, 0)));
  }

  lemma AskedPass(l: Loop)
    requires l.daemon == Held(S.Transferring, Some(0)) && l.stage.Observing?
    ensures var l' := Next(Next(Next(l, Tick(0, 0, Nothing)), Tick(0, 0, Nothing)), Answer(Discover, 0));
            l'.stage.Top? && l'.daemon == HeldSearching(SHORT, 0, None)
  {
    NothingDue();
    SearchIsAsked();
    var l1 := Next(l, Tick(0, 0, Nothing));
    assert l1.daemon == l.daemon && l1.stage.Accepting?;
    var l2 := Next(l1, Tick(0, 0, Nothing));
    assert l2.daemon == l.daemon && l2.stage.Responding?;
  }

  /** The longer timeout is applied while the search runs: its clock stays. */
  lemma SearchIsCaptured()
    ensures ApplyTimeouts(HeldSearching(SHORT, 0, None), 0, 0, Nothing) == HeldSearching(SHORT, 15 * SECOND, Some(0))
    ensures Reconfigured(HeldSearching(SHORT, 15 * SECOND, Some(0)), Some(LONG), Nothing, Nothing, 0) ==
            HeldSearching(LONG, 15 * SECOND, Some(0))
    ensures ApplyTimeouts(HeldSearching(LONG, 15 * SECOND, Some(0)), 0, 0, Nothing) == HeldSearching(LONG, 15 * SECOND, Some(0))
  {
    var d := HeldSearching(SHORT, 15 * SECOND, Some(0));
    assert S.Pin(d.sharing.peers, None) == d.sharing.peers;
  }

  lemma SearchIsStopped()
    ensures var d := ApplyTimeouts(HeldSearching(LONG, 15 * SECOND, Some(0)), SECOND, SECOND, Nothing);
            && d.sharing.discovery.Idle? && d.config == LONG
            && d.searchStart == Some(0) && d.timeouts.discovery == 15 * SECOND
  {
  }

  lemma LingeringAnswer(l: Loop)
    requires l.stage.Accepting? && l.daemon == HeldSearching(LONG, 15 * SECOND, Some(0))
    ensures var l' := Next(Next(l, Tick(SECOND, SECOND, Nothing)), Answer(Discover, SECOND));
            && Searching(l'.daemon) && l'.search == SearchHistory(60, None, Some(Clock(0, 15 * SECOND)))
            && l'.daemon.searchStart == Some(0) && l'.daemon.timeouts.discovery == 15 * SECOND
  {
    SearchIsStopped();
  }

  lemma LingeringPass(l: Loop)
    requires l.stage.Top? && l.daemon == HeldSearching(SHORT, 0, None)
    ensures var l' := Exec(l, Pass(Some(LONG), [], SECOND, Discover));
            && Searching(l'.daemon) && l'.search == SearchHistory(60, None, Some(Clock(0, 15 * SECOND)))
            && l'.daemon.searchStart == Some(0) && l'.daemon.timeouts.discovery == 15 * SECOND
  {
    PassIs(l, Some(LONG), [], SECOND, Discover);
    SearchIsCaptured();
    var l0 := Next(l, Tick(0, 0, Nothing));
    assert l0.daemon == HeldSearching(SHORT, 15 * SECOND, Some(0)) && l0.stage.Reloading?;
    var l1 := Next(l0, Reload(Some(LONG), Nothing, Nothing, 0));
    assert l1.daemon == HeldSearching(LONG, 15 * SECOND, Some(0)) && l1.stage.Observing?;
    LingeringAnswer(Next(l1, Tick(0, 0, Nothing)));
  }

  lemma InheritedClockStops(d: State, now: Elapsed)
    requires Searching(d) && d.searchStart == Some(0) && d.timeouts.discovery == 15 * SECOND
    ensures ClockStops(d, now, 15 * SECOND)
  {
  }

  /** A whole run in which a search asked for after one second, under a timeout of
      sixty, is ended at fifteen seconds. */
  lemma LingeringStartIsReachable() returns (steps: seq<Step>)
    ensures var l := Exec(Started(SHORT), steps);
            && Searching(l.daemon) && l.search == SearchHistory(60, None, Some(Clock(0, 15 * SECOND)))
            && forall now :: ClockStops(l.daemon, now, 15 * SECOND)
  {
    var first := Pass(None, [OFFER], 0, Accept(1, true, Nothing));
    var second := Pass(None, [], 0, Discover);
    var third := Pass(Some(LONG), [], SECOND, Discover);
    steps := first + second + third;
    ExecSplits(Started(SHORT), first + second, third);
    ExecSplits(Started(SHORT), first, second);
    OfferedPass();
    SearchingPass(Exec(Started(SHORT), first));
    LingeringPass(Exec(Started(SHORT), first + second));
    forall now
      ensures ClockStops(Exec(Started(SHORT), steps).daemon, now, 15 * SECOND)
    {
      InheritedClockStops(Exec(Started(SHORT), steps).daemon, now);
    }
  }

  // ------------------------------------------------------------------
  // A transfer whose start is moved
  // ------------------------------------------------------------------

  const HALF: Elapsed := 500_000_000

  /** A peer acceptance handled during a transfer, whatever share it names, changes
      no share and moves the transfer's start. */
  lemma StrayAcceptanceMovesStart(d: State, id: nat, now: Elapsed)
    requires Transferring(d)
    ensures Handle(d, OutboundAccepted(id), now) == d.(transferStart := Some(now))
  {
  }

  lemma MovedClockRuns(now: Elapsed)
    ensures !ClockFails(Held(S.Transferring, Some(HALF)), now, SECOND)
  {
  }

  lemma StrayPass(l: Loop)
    requires Received(l)
    ensures var l1 := Next(Next(l, Tick(0, 0, Nothing)), Reload(None, Nothing, Nothing, 0));
            var l' := Next(l1, Observe(OutboundAccepted(7), HALF));
            && l'.daemon == Held(S.Transferring, Some(HALF)) && l'.share == ShareHistory(1, None)
            && l'.transfer == TransferHistory(Some(0), Some(HALF))
  {
    QuietPass(l);
    StrayAcceptanceMovesStart(l.daemon, 7, HALF);
  }

  /** A whole run in which a transfer accepted at time zero, under a timeout of one
      second, is not ended at one second. */
  lemma MovedStartIsReachable() returns (steps: seq<Step>)
    ensures var l := Exec(Started(SHORT), steps);
            && Transferring(l.daemon) && l.share == ShareHistory(1, None) && l.transfer == TransferHistory(Some(0), Some(HALF))
            && forall now :: !ClockFails(l.daemon, now, SECOND)
  {
    var first := Pass(None, [OFFER], 0, Accept(1, true, Nothing));
    var tick, reload, stray := Tick(0, 0, Nothing), Reload(None, Nothing, Nothing, 0), Observe(OutboundAccepted(7), HALF);
    steps := first + ([tick] + [reload] + [stray]);
    OfferedPass();
    var l := Exec(Started(SHORT), first);
    ExecSplits(Started(SHORT), first, [tick] + [reload] + [stray]);
    ExecThree(l, tick, reload, stray);
    StrayPass(l);
    forall now
      ensures !ClockFails(Exec(Started(SHORT), steps).daemon, now, SECOND)
    {
      MovedClockRuns(now);
    }
  }

  lemma ExecThree(l: Loop, a: Step, b: Step, c: Step)
    ensures Exec(l, [a] + [b] + [c]) == Next(Next(Next(l, a), b), c)
  {
    ExecSplits(l, [a] + [b], [c]);
    ExecSplits(l, [a], [b]);
    ExecOne(l, a);
    ExecOne(Next(l, a), b);
    ExecOne(Next(Next(l, a), b), c);
  }
}
