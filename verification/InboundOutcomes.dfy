/** What becomes of an offer: it can be received, a withdrawal cancels its share and
    its own deadline fails it. */
module InboundOutcomes {
  import opened Base
  import opened Consent
  import V = Visibility
  import VisibilityLaws
  import S = Sharing
  import opened Inbound
  import opened InboundSafety
  import opened InboundTheorems

  /** An offer on display: its share waits for consent, and the daemon keeps its
      token, admitted and undecided. */
  predicate Displayed(s: System) {
    && s.control.Between? && s.sharing.active.Some? && s.sharing.active.value.phase == S.AwaitingLocalConsent
    && s.pending.Some? && s.pending.value in s.cells && s.cells[s.pending.value].token.outcome == Pending
  }

  // ------------------------------------------------------------------
  // Withdrawals and deadlines
  // ------------------------------------------------------------------

  lemma {:induction false} SettledForever(s: System, steps: seq<Step>, t: nat)
    requires Inv(s) && t in s.cells && !s.cells[t].token.outcome.Undecided()
    ensures t in Exec(s, steps).cells && Exec(s, steps).cells[t].token.outcome == s.cells[t].token.outcome
    decreases |steps|
  {
    if steps != [] {
      StepEvolves(s, steps[0], t);
      StepKeepsInv(s, steps[0]);
      SettledForever(Next(s, steps[0]), steps[1..], t);
    }
  }

  lemma RevocationCancels(s: System, e: V.Effect<nat>, nowToken: Elapsed)
    requires Inv(s) && Displayed(s) && e.cancels && nowToken < s.cells[s.pending.value].token.deadline
    ensures var s' := OnVisibility(s, e, nowToken);
            s.pending.value in s'.cells && s'.cells[s.pending.value].token.outcome == Cancelled
  {
    var t := s.pending.value;
    assert s.cells[t].token.outcome.Busy() && IsLive(s.cells[t], t, s.pending, s.control);
    assert s.vis.pending == Some(t);
    OutcomesAre(s.cells[t].token, Cancel, nowToken);
  }

  lemma WithdrawalCancelsToken(s: System, step: Step)
    requires Inv(s) && Displayed(s) && Withdraws(s, step) && step.nowToken < s.cells[s.pending.value].token.deadline
    ensures var s' := Next(s, step);
            s.pending.value in s'.cells && s'.cells[s.pending.value].token.outcome == Cancelled
  {
    match step
    case Close(now, nowToken) =>
      CloseWithdraws(s.vis, now);
      RevocationCancels(s, V.Close(s.vis, now), nowToken);
    case SetPolicy(_, now, nowToken) =>
      PolicyOffWithdraws(s.vis, now);
      RevocationCancels(s, V.SetPolicy(s.vis, false, now), nowToken);
  }

  /** A live inbound share has its token, bound to it, with the daemon. */
  lemma HeldAndBound(s: System)
    requires Inv(s) && s.control.Between? && s.sharing.HasActive() && s.sharing.active.value.direction == S.Inbound
    ensures s.pending.Some? && s.pending.value in s.cells
    ensures s.cells[s.pending.value].token.shareId == Some(s.sharing.active.value.id)
  {
  }

  lemma WaitingIsInbound(s: System)
    requires Inv(s) && s.sharing.active.Some? && s.sharing.active.value.phase == S.AwaitingLocalConsent
    ensures s.sharing.HasActive() && s.sharing.active.value.direction == S.Inbound
  {
  }

  /** The token the daemon keeps for the share it displays. */
  predicate Kept(s: System, t: nat) {
    && s.control.Between? && s.pending == Some(t) && t in s.cells
    && s.sharing.active.Some? && s.cells[t].token.shareId == Some(s.sharing.active.value.id)
    && s.sharing.active.value.direction == S.Inbound
  }

  lemma ProjectsKept(s: System, t: nat, now: Elapsed)
    requires Kept(s, t) && s.clock <= now && s.sharing.active.value.phase == S.AwaitingLocalConsent
    ensures var s', share, token := Next(s, SyncConsent(now)), s.sharing.active.value, s.cells[t].token;
            && (token.outcome == Cancelled ==> s'.sharing.active == Some(share.SetPhase(S.Cancelled)) && s'.pending == None)
            && (token.outcome == Pending && now >= token.deadline ==>
                  s'.sharing.active == Some(share.SetPhase(S.Failed)) && s'.pending == None)
            && (token.outcome == Pending && now < token.deadline ==> s'.sharing == s.sharing && s'.pending == s.pending)
  {
    OutcomesAre(s.cells[t].token, Touch, now);
  }

  /** The next projection shows a share as its token was settled. */
  lemma ProjectionShows(s: System, now: Elapsed)
    requires Inv(s) && s.clock <= now && s.control.Between? && s.pending.Some?
    requires s.sharing.active.Some? && s.sharing.active.value.phase == S.AwaitingLocalConsent
    ensures var s', share := Next(s, SyncConsent(now)), s.sharing.active.value;
            var token := s.cells[s.pending.value].token;
            && (token.outcome == Cancelled ==> s'.sharing.active == Some(share.SetPhase(S.Cancelled)) && s'.pending == None)
            && (token.outcome == Pending && now >= token.deadline ==>
                  s'.sharing.active == Some(share.SetPhase(S.Failed)) && s'.pending == None)
            && (token.outcome == Pending && now < token.deadline ==> s'.sharing == s.sharing && s'.pending == s.pending)
  {
    WaitingIsInbound(s);
    HeldAndBound(s);
    ProjectsKept(s, s.pending.value, now);
  }

  /** An explicit withdrawal while an offer is displayed and in time: whatever else
      happens that leaves the display alone, the next projection shows the share as
      cancelled and lets the token go. */
  lemma WithdrawalCancelsShare(before: seq<Step>, step: Step, between: seq<Step>, now: Elapsed)
    requires var s := Exec(Initial(), before);
             Displayed(s) && Withdraws(s, step) && step.nowToken < s.cells[s.pending.value].token.deadline
    requires var s := Exec(Initial(), before);
             var s1 := Exec(Next(s, step), between);
             s1.clock <= now && s1.control.Between? && s1.sharing == s.sharing && s1.pending == s.pending
    ensures var s := Exec(Initial(), before);
            var s2 := Next(Exec(Next(s, step), between), SyncConsent(now));
            && s2.sharing.Is(s.sharing.active.value.id) && s2.sharing.active.value.phase == S.Cancelled && s2.pending == None
  {
    EveryRunIsSafe(before);
    var s := Exec(Initial(), before);
    WithdrawalCancelsToken(s, step);
    StepKeepsInv(s, step);
    SettledForever(Next(s, step), between, s.pending.value);
    RunKeepsInv(Next(s, step), between);
    ProjectionShows(Exec(Next(s, step), between), now);
  }

  /** Once its token's deadline has passed, the next projection shows the share as
      failed and lets the token go; before that it changes nothing. */
  lemma DeadlineFailsShare(before: seq<Step>, now: Elapsed)
    requires var s := Exec(Initial(), before); Displayed(s) && s.clock <= now
    ensures var s := Exec(Initial(), before);
            var s' := Next(s, SyncConsent(now));
            var late := now >= s.cells[s.pending.value].token.deadline;
            && s'.sharing.Is(s.sharing.active.value.id)
            && s'.sharing.active.value.phase == (if late then S.Failed else S.AwaitingLocalConsent)
            && s'.pending == (if late then None else s.pending)
  {
    EveryRunIsSafe(before);
    ProjectionShows(Exec(Initial(), before), now);
  }

  // ------------------------------------------------------------------
  // Decisions of the user
  // ------------------------------------------------------------------

  lemma RejectsKept(s: System, t: nat, now: Elapsed, later: Elapsed)
    requires Kept(s, t) && s.sharing.active.value.phase == S.AwaitingLocalConsent && s.cells[t].token.outcome == Pending
    requires s.clock <= now <= later < s.cells[t].token.deadline
    ensures var s' := Next(s, RejectPending(s.sharing.active.value.id, now, later));
            && s'.sharing.active == Some(s.sharing.active.value.SetPhase(S.Rejected))
            && t in s'.cells && s'.cells[t].token.outcome == Rejected(s.sharing.active.value.id)
  {
    OutcomesAre(s.cells[t].token, Touch, now);
    OutcomesAre(s.cells[t].token.Apply(Touch, now), Reject(s.sharing.active.value.id), later);
  }

  /** Rejecting the displayed offer in time rejects its token for that share, and the
      share with it. */
  lemma RejectionRejects(before: seq<Step>, now: Elapsed, later: Elapsed)
    requires var s := Exec(Initial(), before);
             Displayed(s) && s.clock <= now <= later < s.cells[s.pending.value].token.deadline
    ensures var s := Exec(Initial(), before);
            var share, t := s.sharing.active.value, s.pending.value;
            var s' := Next(s, RejectPending(share.id, now, later));
            && s'.sharing.active == Some(share.SetPhase(S.Rejected))
            && t in s'.cells && s'.cells[t].token.outcome == Rejected(share.id)
  {
    EveryRunIsSafe(before);
    var s := Exec(Initial(), before);
    WaitingIsInbound(s);
    HeldAndBound(s);
    RejectsKept(s, s.pending.value, now, later);
  }

  /** The share as it is cancelled, and what that leaves of its token. */
  predicate CancelledWith(s: System, t: nat, later: Elapsed, s': System)
    requires s.sharing.active.Some? && t in s.cells
  {
    && s'.sharing.active == Some(s.sharing.active.value.SetPhase(S.Cancelled)) && s'.control.Between? && t in s'.cells
    && (s.cells[t].token.outcome == Pending && later < s.cells[t].token.deadline ==> s'.cells[t].token.outcome == Cancelled)
    && (s.cells[t].token.outcome.Accepted? ==> s'.cells[t].token.outcome == s.cells[t].token.outcome)
  }

  lemma CancelsKept(s: System, t: nat, now: Elapsed, later: Elapsed)
    requires Kept(s, t) && s.sharing.HasActive() && s.clock <= now <= later
    ensures CancelledWith(s, t, later, Next(Next(s, CancelShare(s.sharing.active.value.id, now)), CancelConsent(later)))
  {
    ShareIsCancelled(s, t, now);
    OutcomesAre(s.cells[t].token, Touch, now);
    OutcomesAre(s.cells[t].token.Apply(Touch, now), Cancel, later);
  }

  lemma ShareIsCancelled(s: System, t: nat, now: Elapsed)
    requires Kept(s, t) && s.sharing.HasActive() && s.clock <= now
    ensures var s' := Next(s, CancelShare(s.sharing.active.value.id, now));
            && s'.sharing.active == Some(s.sharing.active.value.SetPhase(S.Cancelled)) && s'.control == Cancelling(t)
            && s'.clock == now && t in s'.cells && s'.cells[t].token == s.cells[t].token.Apply(Touch, now)
  {
  }

  /** Cancelling a displayed share cancels it, and its token if that was still
      undecided in time; an accepted token stays accepted. */
  lemma CancellationCancels(before: seq<Step>, now: Elapsed, later: Elapsed)
    requires var s := Exec(Initial(), before);
             && s.control.Between? && s.clock <= now <= later
             && s.sharing.HasActive() && s.sharing.active.value.direction == S.Inbound
    ensures var s := Exec(Initial(), before);
            && s.pending.Some? && s.pending.value in s.cells
            && CancelledWith(s, s.pending.value, later,
                             Next(Next(s, CancelShare(s.sharing.active.value.id, now)), CancelConsent(later)))
  {
    EveryRunIsSafe(before);
    var s := Exec(Initial(), before);
    HeldAndBound(s);
    CancelsKept(s, s.pending.value, now, later);
  }

  /** An offer that finds a share in the way is rejected without one, if it was in
      time, and its reference goes. */
  lemma BusyRefusesOffer(s: System, t: nat, now: Elapsed)
    requires s.clock <= now && s.control.Between? && Holds(s, t) && s.sharing.HasActive()
    requires s.cells[t].token.outcome == Offered && now < s.cells[t].token.deadline
    ensures var s' := Next(s, OfferRefused(t, now));
            && t in s'.cells && s'.cells[t] == Cell(s.cells[t].token.(outcome := Rejected(0)), s.cells[t].others - 1)
            && s'.sharing == s.sharing && s'.pending == s.pending && s'.vis == s.vis
  {
    OutcomesAre(s.cells[t].token, Reject(0), now);
  }

  lemma UnknownIsDiscarded(s: System, t: nat, attachment: S.Attachment, peer: string, size: Option<nat>, now: Elapsed)
    requires s.clock <= now && s.control.Between? && Holds(s, t) && !s.sharing.HasActive()
    requires S.FindPeer(s.sharing.peers, peer) == None && AdmissionOf(s, t, now, now, now).admitted
    ensures var s' := Next(s, OfferAdmitted(t, attachment, peer, size, now, now, now));
            && s'.control == Discarding(t) && s'.sharing == s.sharing && s'.clock == now
            && t in s'.cells && s'.cells[t].token.outcome == Pending && s'.cells[t].token.deadline == s.cells[t].token.deadline
  {
  }

  /** An admitted offer of an unknown sender displays nothing, and is rejected without a
      share unless its deadline comes first. */
  lemma UnknownSenderIsRejected(s: System, t: nat, attachment: S.Attachment, peer: string, size: Option<nat>, now: Elapsed, later: Elapsed)
    requires s.clock <= now <= later && s.control.Between? && Holds(s, t) && !s.sharing.HasActive()
    requires S.FindPeer(s.sharing.peers, peer) == None
    requires AdmissionOf(s, t, now, now, now).admitted && later < s.cells[t].token.deadline
    ensures var s' := Next(Next(s, OfferAdmitted(t, attachment, peer, size, now, now, now)), DiscardOffer(later));
            && s'.sharing == s.sharing && s'.control == Between
            && t in s'.cells && s'.cells[t].token.outcome == Rejected(0)
  {
    UnknownIsDiscarded(s, t, attachment, peer, size, now);
    var s1 := Next(s, OfferAdmitted(t, attachment, peer, size, now, now, now));
    OutcomesAre(s1.cells[t].token, Reject(0), later);
  }

  /** A token nobody holds any more does not stand in the way of an offer, whatever was
      decided about it. */
  lemma ForgottenTokensDoNotBlock(s: System, t: nat, u: nat, now: Elapsed)
    requires s.control.Between? && s.vis.pending == Some(u) && s.pending != Some(u)
    requires u in s.cells && s.cells[u].others == 0 && t in s.cells && t != u
    requires VisibilityLaws.Ready(s.vis, now) && s.vis.phase == V.Open && s.vis.generation == s.cells[t].token.generation
    requires s.cells[t].token.outcome == Offered && now < s.cells[t].token.deadline
    ensures AdmissionOf(s, t, now, now, now).admitted
  {
    VisibilityLaws.RefusalDecides(s.vis, None, s.cells[t].token, t, now, now);
  }

  /** A worker that holds a token may cancel or fail it while it is undecided in time. */
  lemma WorkersDecide(s: System, t: nat, why: string, now: Elapsed)
    requires s.clock <= now && Holds(s, t) && now < s.cells[t].token.deadline
    requires s.cells[t].token.outcome == Offered || s.cells[t].token.outcome == Pending
    ensures Next(s, Worker(t, Cancel, now)).cells == s.cells[t := s.cells[t].(token := s.cells[t].token.(outcome := Cancelled))]
    ensures Next(s, Worker(t, Fail(why), now)).cells == s.cells[t := s.cells[t].(token := s.cells[t].token.(outcome := Failed(why)))]
  {
    OutcomesAre(s.cells[t].token, Cancel, now);
    OutcomesAre(s.cells[t].token, Fail(why), now);
  }

  /** References are counted: one taken and given back leaves everything as it was. */
  lemma ReferencesAreCounted(s: System, t: nat)
    requires Holds(s, t)
    ensures Next(s, Retain(t)) != s && Next(Next(s, Retain(t)), Release(t)) == s
  {
    assert s.cells[t := s.cells[t].(others := s.cells[t].others + 1)][t := s.cells[t]] == s.cells;
    assert Next(s, Retain(t)).cells[t].others == s.cells[t].others + 1;
  }

  // ------------------------------------------------------------------
  // An offer that is received
  // ------------------------------------------------------------------

  const SENDER := S.Peer("sender", "Sender", false)

  function Opening(lease: V.Lease): seq<Step> {
    [ShareOperation(S.ObservePeer("sender", "Sender"))] + [RequestOpen(0)] + [CompleteActivation(1, Ok(lease), 0)]
  }

  function Offering(attachment: S.Attachment, size: nat, timeout: Elapsed): seq<Step> {
    [Propose(0, 1, timeout, 0, 0)] + [OfferAdmitted(0, attachment, "sender", Some(size), 0, 0, 0)] + [BindOffer(0)]
  }

  lemma {:induction false} ExecSplits(s: System, first: seq<Step>, second: seq<Step>)
    ensures Exec(s, first + second) == Exec(Exec(s, first), second)
    decreases |first|
  {
    if first == [] {
      assert first + second == second;
    } else {
      assert (first + second)[1..] == first[1..] + second;
      ExecSplits(Next(s, first[0]), first[1..], second);
    }
  }

  lemma ExecOne(s: System, step: Step)
    ensures Exec(s, [step]) == Next(s, step)
  {
    assert [step][1..] == [];
    assert Exec(Next(s, step), []) == Next(s, step);
  }

  lemma ExecThree(s: System, a: Step, b: Step, c: Step)
    ensures Exec(s, [a] + [b] + [c]) == Next(Next(Next(s, a), b), c)
  {
    ExecSplits(s, [a] + [b], [c]);
    ExecSplits(s, [a], [b]);
    ExecOne(s, a);
    ExecOne(Next(s, a), b);
    ExecOne(Next(Next(s, a), b), c);
  }

  function Known(): S.Coord {
    S.Initial().(peers := [SENDER])
  }

  function Opened(lease: V.Lease): System {
    Initial().(sharing := Known(), given := {lease}, activatedAt := map[1 := 0],
               vis := V.Vis(1, false, true, V.Open, Some(600_000_000_000), Some(lease), None, false))
  }

  /** From the start, a request and its activation open the endpoint. */
  lemma EndpointOpens(lease: V.Lease)
    ensures Exec(Initial(), Opening(lease)) == Opened(lease)
  {
    var s1 := Next(Initial(), ShareOperation(S.ObservePeer("sender", "Sender")));
    assert s1 == Initial().(sharing := Known());
    var s2 := Next(s1, RequestOpen(0));
    assert s2 == s1.(vis := V.Vis(1, false, true, V.Starting, None, None, None, false));
    ActivationIs(s2, lease);
    ExecThree(Initial(), ShareOperation(S.ObservePeer("sender", "Sender")), RequestOpen(0), CompleteActivation(1, Ok(lease), 0));
  }

  lemma ActivationIs(s: System, lease: V.Lease)
    requires s == Initial().(sharing := Known(), vis := V.Vis(1, false, true, V.Starting, None, None, None, false))
    ensures Next(s, CompleteActivation(1, Ok(lease), 0)) == Opened(lease)
  {
    var s' := Next(s, CompleteActivation(1, Ok(lease), 0));
    assert s'.given == {lease} && s'.closed == multiset{};
    assert s'.activatedAt == map[1 := 0];
  }

  function Waiting(attachment: S.Attachment, size: nat): S.Share {
    S.Share(attachment, S.Inbound, 1, Some(SENDER), S.AwaitingLocalConsent, size, 0, None)
  }

  function Proposed(lease: V.Lease, timeout: Elapsed): System {
    Opened(lease).(cells := map[0 := Cell(Token(1, SaturatingAdd(0, timeout), Offered, None), 1)])
  }

  function Presented(lease: V.Lease, attachment: S.Attachment, size: nat, timeout: Elapsed): System {
    var s := Opened(lease);
    s.(cells := map[0 := Cell(Token(1, SaturatingAdd(0, timeout), Pending, Some(1)), 0)],
       sharing := Known().(nextId := 2, active := Some(Waiting(attachment, size))),
       vis := s.vis.(pending := Some(0)), pending := Some(0))
  }

  lemma OfferIsProposed(lease: V.Lease, timeout: Elapsed)
    ensures Next(Opened(lease), Propose(0, 1, timeout, 0, 0)) == Proposed(lease, timeout)
  {
    var s := Opened(lease);
    assert V.Proposes(s.vis, 1, 0);
    assert s.closed + multiset(V.Expire(s.vis, 0).closed) == multiset{};
  }

  lemma OfferIsAdmitted(lease: V.Lease, attachment: S.Attachment, size: nat, timeout: Elapsed)
    requires timeout > 0
    ensures Next(Proposed(lease, timeout), OfferAdmitted(0, attachment, "sender", Some(size), 0, 0, 0)) ==
            Presented(lease, attachment, size, timeout)
              .(cells := map[0 := Cell(Token(1, SaturatingAdd(0, timeout), Pending, None), 0)],
                pending := None, control := Binding(0, 1))
  {
    var s := Proposed(lease, timeout);
    var offer := S.OfferInbound(attachment, "sender", Some(size));
    assert S.Named(s.sharing.peers, "sender") == Some(0);
    assert S.Applies(s.sharing, offer);
    assert S.Apply(s.sharing, offer) == Known().(nextId := 2, active := Some(Waiting(attachment, size)));
    AdmissionIs(lease, timeout);
  }

  lemma AdmissionIs(lease: V.Lease, timeout: Elapsed)
    requires timeout > 0
    ensures var s := Proposed(lease, timeout);
            var a := AdmissionOf(s, 0, 0, 0, 0);
            && !ConsultsPrior(s, 0, 0) && a.admitted && a.vis == s.vis.(pending := Some(0)) && a.closed == []
            && a.token == s.cells[0].token.(outcome := Pending) && s.closed + multiset(a.closed) == multiset{}
  {
    assert V.Proposes(Proposed(lease, timeout).vis, 1, 0);
  }

  /** Then an offer is proposed, admitted and bound to the share it is displayed as. */
  lemma OfferIsPresented(lease: V.Lease, attachment: S.Attachment, size: nat, timeout: Elapsed)
    requires timeout > 0
    ensures Exec(Initial(), Opening(lease) + Offering(attachment, size, timeout)) == Presented(lease, attachment, size, timeout)
    ensures Displayed(Presented(lease, attachment, size, timeout))
  {
    EndpointOpens(lease);
    ExecSplits(Initial(), Opening(lease), Offering(attachment, size, timeout));
    OfferIsProposed(lease, timeout);
    OfferIsAdmitted(lease, attachment, size, timeout);
    ExecThree(Opened(lease), Propose(0, 1, timeout, 0, 0), OfferAdmitted(0, attachment, "sender", Some(size), 0, 0, 0), BindOffer(0));
  }

  /** A whole run from the start: the endpoint opens, and any offer that is given
      some time is presented and, once accepted, transfers. */
  lemma OfferIsReceived(lease: V.Lease, attachment: S.Attachment, size: nat, timeout: Elapsed)
    requires timeout > 0
    ensures var s := Exec(Initial(), Opening(lease) + Offering(attachment, size, timeout) + [AcceptPending(1, 0)]);
            && s.vis.phase == V.Open && s.vis.lease == Some(lease) && s.vis.generation == 1
            && s.sharing.active == Some(Waiting(attachment, size).(phase := S.Transferring))
            && s.pending == Some(0) && 0 in s.cells && s.cells[0].token.outcome == Accepted(1)
  {
    OfferIsPresented(lease, attachment, size, timeout);
    ExecSplits(Initial(), Opening(lease) + Offering(attachment, size, timeout), [AcceptPending(1, 0)]);
    ExecOne(Presented(lease, attachment, size, timeout), AcceptPending(1, 0));
  }
}
