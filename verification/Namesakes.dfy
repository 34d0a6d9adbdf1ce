/** Shares that get the largest identifier after an earlier one had it: what was
    captured for the earlier one is taken for theirs. */
module Namesakes {
  import opened Base
  import S = Sharing
  import opened Daemon
  import opened ClockGaps

  /** The failing family: whenever the identifiers are used up, a share offered in
      the pass that cancelled its namesake is held to the timeout captured for that
      one, whatever is configured. */
  lemma NamesakeKeepsTimeout(l: Loop, attachment: S.Attachment, size: nat, code: string, now: Elapsed)
    requires l.stage.Observing? && l.daemon.sharing.HasActive() && Captured(l.daemon)
    requires l.daemon.sharing.Is(U64_MAX) && l.daemon.sharing.nextId == U64_MAX
    ensures var l1 := Next(l, Observe(InboundCancelled(U64_MAX), now));
            var l2 := Next(l1, Observe(InboundOffered(attachment, size, code, true), now));
            && l2.daemon.sharing.HasActive() && l2.daemon.sharing.Is(U64_MAX) && !l1.daemon.sharing.HasActive()
            && l2.share == ShareHistory(l.daemon.config.transferSecs, Some(l.daemon.timeouts.transfer))
  {
    var c1 := S.Apply(l.daemon.sharing, S.Cancel(U64_MAX));
    OfferIsTaken(c1, attachment, size, code);
  }

  /** An offer from the sender just observed, with nothing live. */
  lemma OfferIsTaken(c: S.Coord, attachment: S.Attachment, size: nat, code: string)
    requires !c.HasActive()
    ensures var c1 := S.Apply(c, S.ObservePeer(INBOUND_PEER, INBOUND_NAME));
            var c2 := Admit(c1, attachment, INBOUND_PEER, Some(size), Some(code), true);
            && c2.HasActive() && c2.Is(c.nextId) && c2.nextId == NextU64(c.nextId) && c2.discovery == c.discovery
            && c2.active.value.phase.AwaitingLocalConsent?
  {
    var c1 := S.Apply(c, S.ObservePeer(INBOUND_PEER, INBOUND_NAME));
    ObservedIsNamed(c.peers, INBOUND_PEER, INBOUND_NAME);
    assert S.Applies(c1, S.OfferInbound(attachment, INBOUND_PEER, Some(size)));
  }

  lemma ObservedIsNamed(peers: seq<S.Peer>, id: string, name: string)
    ensures S.Named(S.Observe(peers, id, name), id).Some?
  {
    var k := S.Named(peers, id);
    var i := if k.Some? then k.value else |peers|;
    assert S.Observe(peers, id, name)[i].id == id;
  }

  // ------------------------------------------------------------------
  // A whole run that gets there
  // ------------------------------------------------------------------

  /** No clock runs out at time zero. */
  predicate AtRest(d: State) {
    && d.config == SHORT && !Transferring(d)
    && (Searching(d) ==> d.searchStart.None? || (d.searchStart == Some(0) && d.timeouts.discovery == 15 * SECOND))
  }

  lemma TickAtRest(d: State)
    requires AtRest(d)
    ensures var d' := ApplyTimeouts(d, 0, 0, Nothing);
            AtRest(d') && d'.sharing == d.sharing && (!Searching(d') ==> d'.searchStart.None?)
  {
  }

  lemma PassAtRest(l: Loop)
    requires l.stage.Top? && AtRest(l.daemon)
    ensures var tick := Tick(0, 0, Nothing);
            var l' := Next(Next(Next(Next(l, tick), Reload(None, Nothing, Nothing, 0)), tick), tick);
            && l'.stage.Responding? && AtRest(l'.daemon) && l'.daemon.sharing == l.daemon.sharing
            && (!Searching(l'.daemon) ==> l'.daemon.searchStart.None?)
  {
    var l0 := Next(l, Tick(0, 0, Nothing));
    TickAtRest(l.daemon);
    var l1 := Next(l0, Reload(None, Nothing, Nothing, 0));
    assert l1.daemon == l0.daemon && l1.stage.Observing?;
    TickAtRest(l1.daemon);
    TickAtRest(Next(l1, Tick(0, 0, Nothing)).daemon);
  }

  predicate At(l: Loop, c: S.Coord) {
    l.stage.Top? && AtRest(l.daemon) && l.daemon.sharing == c
  }

  /** Nothing displayed, and the next identifier. */
  function Blank(n: nat): S.Coord {
    S.Initial().(nextId := n)
  }

  function Waiting(n: nat): S.Coord {
    S.Coord(NextU64(n), Some(S.Share(S.Text([]), S.Outbound, n, None, S.WaitingForPeer, 0, 0, None)), S.Searching, [])
  }

  function Withdrawn(n: nat): S.Coord {
    S.Coord(NextU64(n), Some(S.Share(S.Text([]), S.Outbound, n, None, S.Cancelled, 0, 0, None)), S.Idle, [])
  }

  /** What a pass at rest answers its request from. */
  lemma Answering(l: Loop, request: Request) returns (d: State)
    requires l.stage.Top? && AtRest(l.daemon)
    ensures AtRest(d) && d.sharing == l.daemon.sharing && (!Searching(d) ==> d.searchStart.None?)
    ensures var l' := Exec(l, Pass(None, [], 0, request)); l'.stage.Top? && l'.daemon == Respond(d, request, 0)
  {
    PassIs(l, None, [], 0, request);
    PassAtRest(l);
    var tick := Tick(0, 0, Nothing);
    d := Next(Next(Next(Next(l, tick), Reload(None, Nothing, Nothing, 0)), tick), tick).daemon;
  }

  lemma Queued(d: State, n: nat)
    requires AtRest(d) && d.sharing == Blank(n) && d.searchStart.None?
    ensures var d' := Respond(d, Submit(S.Text([]), None, NoWorker), 0); AtRest(d') && d'.sharing == Waiting(n)
  {
  }

  lemma QueuePass(l: Loop, n: nat)
    requires At(l, Blank(n))
    ensures At(Exec(l, Pass(None, [], 0, Submit(S.Text([]), None, NoWorker))), Waiting(n))
  {
    var d := Answering(l, Submit(S.Text([]), None, NoWorker));
    Queued(d, n);
  }

  lemma CancelPass(l: Loop, n: nat)
    requires At(l, Waiting(n))
    ensures At(Exec(l, Pass(None, [], 0, CancelShare(n))), Withdrawn(n))
  {
    var d := Answering(l, CancelShare(n));
    assert Respond(d, CancelShare(n), 0).sharing == Withdrawn(n);
  }

  lemma DismissPass(l: Loop, n: nat)
    requires At(l, Withdrawn(n))
    ensures At(Exec(l, Pass(None, [], 0, Dismiss(n))), Blank(NextU64(n)))
  {
    var d := Answering(l, Dismiss(n));
    assert Respond(d, Dismiss(n), 0).sharing == Blank(NextU64(n));
  }

  /** Queue, cancel and dismiss, a pass each. */
  function RoundPasses(n: nat): seq<Step> {
    Pass(None, [], 0, Submit(S.Text([]), None, NoWorker)) + Pass(None, [], 0, CancelShare(n)) + Pass(None, [], 0, Dismiss(n))
  }

  lemma RoundCounts(l: Loop, n: nat)
    requires At(l, Blank(n))
    ensures At(Exec(l, RoundPasses(n)), Blank(NextU64(n)))
  {
    var first, second := Pass(None, [], 0, Submit(S.Text([]), None, NoWorker)), Pass(None, [], 0, CancelShare(n));
    ExecSplits(l, first + second, Pass(None, [], 0, Dismiss(n)));
    ExecSplits(l, first, second);
    QueuePass(l, n);
    CancelPass(Exec(l, first), n);
    DismissPass(Exec(l, first + second), n);
  }

  lemma {:induction false} ManyPasses(n: nat) returns (steps: seq<Step>)
    requires 1 <= n <= U64_MAX
    ensures At(Exec(Started(SHORT), steps), Blank(n))
    decreases n
  {
    if n == 1 {
      steps := [];
    } else {
      var front := ManyPasses(n - 1);
      RoundCounts(Exec(Started(SHORT), front), n - 1);
      ExecSplits(Started(SHORT), front, RoundPasses(n - 1));
      steps := front + RoundPasses(n - 1);
    }
  }

  const LATER := Config(15, 2, None)

  lemma LastIsOffered(l: Loop)
    requires At(l, Blank(U64_MAX))
    ensures var l' := Next(Next(Next(l, Tick(0, 0, Nothing)), Reload(None, Nothing, Nothing, 0)), OFFER);
            && l'.stage.Observing? && AtRest(l'.daemon) && l'.daemon.timeouts.shareId.None?
            && l'.daemon.sharing.HasActive() && l'.daemon.sharing.Is(U64_MAX) && l'.daemon.sharing.nextId == U64_MAX
  {
    TickAtRest(l.daemon);
    var l1 := Next(Next(l, Tick(0, 0, Nothing)), Reload(None, Nothing, Nothing, 0));
    assert l1.stage.Observing? && l1.daemon.timeouts.shareId.None?;
    OfferIsTaken(l1.daemon.sharing, S.Text([]), 0, "");
  }

  /** The last identifier is offered and its timeout of one second captured. */
  lemma LastIsCaptured(l: Loop)
    requires At(l, Blank(U64_MAX))
    ensures var l' := Exec(l, Pass(None, [OFFER], 0, Read));
            && l'.stage.Top? && l'.daemon.sharing.HasActive() && l'.daemon.sharing.Is(U64_MAX)
            && l'.daemon.sharing.nextId == U64_MAX && AtRest(l'.daemon)
            && Captured(l'.daemon) && l'.daemon.timeouts.transfer == SECOND
  {
    PassIs(l, None, [OFFER], 0, Read);
    LastIsOffered(l);
    var l2 := Next(Next(Next(l, Tick(0, 0, Nothing)), Reload(None, Nothing, Nothing, 0)), OFFER);
    OfferedIsCaptured(l2);
  }

  lemma OfferedIsCaptured(l: Loop)
    requires l.stage.Observing? && AtRest(l.daemon) && l.daemon.sharing.HasActive() && l.daemon.timeouts.shareId.None?
    ensures var l' := Next(Next(Next(l, Tick(0, 0, Nothing)), Tick(0, 0, Nothing)), Answer(Read, 0));
            && l'.stage.Top? && l'.daemon.sharing == l.daemon.sharing && AtRest(l'.daemon)
            && Captured(l'.daemon) && l'.daemon.timeouts.transfer == SECOND
  {
    var l1 := Next(l, Tick(0, 0, Nothing));
    CaptureAtRest(l.daemon);
    assert l1.stage.Accepting?;
    CaptureAtRest(l1.daemon);
    var l2 := Next(l1, Tick(0, 0, Nothing));
    assert l2.stage.Responding? && Next(l2, Answer(Read, 0)).daemon == l2.daemon;
  }

  lemma CaptureAtRest(d: State)
    requires AtRest(d) && d.sharing.HasActive()
    requires d.timeouts.shareId.None? || (Captured(d) && d.timeouts.transfer == SECOND)
    ensures var d' := ApplyTimeouts(d, 0, 0, Nothing);
            AtRest(d') && d'.sharing == d.sharing && Captured(d') && d'.timeouts.transfer == SECOND
  {
  }

  /** A whole run in which a share created under a timeout of two seconds is allowed
      one, its namesake's. */
  lemma NamesakeIsReachable() returns (steps: seq<Step>)
    ensures var l := Exec(Started(SHORT), steps);
            && l.daemon.sharing.HasActive() && l.daemon.sharing.Is(U64_MAX)
            && l.share == ShareHistory(2, Some(SECOND)) && Allowed(l.share) != l.share.secs * SECOND
  {
    var front := ManyPasses(U64_MAX);
    var pass := Pass(None, [OFFER], 0, Read);
    var l := Exec(Started(SHORT), front + pass);
    ExecSplits(Started(SHORT), front, pass);
    LastIsCaptured(Exec(Started(SHORT), front));
    var tick, reload := Tick(0, 0, Nothing), Reload(Some(LATER), Nothing, Nothing, 0);
    var cancel := Observe(InboundCancelled(U64_MAX), 0);
    var l1 := Next(Next(l, tick), reload);
    ReloadedIsCaptured(l);
    NamesakeKeepsTimeout(l1, S.Text([]), 0, "", 0);
    steps := front + pass + ([tick] + [reload] + [cancel] + [OFFER]);
    ExecSplits(Started(SHORT), front + pass, [tick] + [reload] + [cancel] + [OFFER]);
    ExecSplits(l, [tick] + [reload] + [cancel], [OFFER]);
    ExecThree(l, tick, reload, cancel);
    ExecOne(Next(l1, cancel), OFFER);
  }

  lemma ReloadedIsCaptured(l: Loop)
    requires l.stage.Top? && AtRest(l.daemon) && l.daemon.sharing.HasActive()
    requires Captured(l.daemon) && l.daemon.timeouts.transfer == SECOND
    ensures var l' := Next(Next(l, Tick(0, 0, Nothing)), Reload(Some(LATER), Nothing, Nothing, 0));
            && l'.stage.Observing? && Captured(l'.daemon) && l'.daemon.timeouts.transfer == SECOND && l'.daemon.config == LATER
            && l'.daemon.sharing.active == l.daemon.sharing.active && l'.daemon.sharing.nextId == l.daemon.sharing.nextId
  {
    CaptureAtRest(l.daemon);
  }
}
