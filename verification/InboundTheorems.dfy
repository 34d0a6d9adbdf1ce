/** What the inbound invariant promises over whole runs. */
module InboundTheorems {
  import opened Base
  import opened Consent
  import V = Visibility
  import S = Sharing
  import opened Inbound
  import opened InboundSafety

  // ------------------------------------------------------------------
  // One step, seen from one token
  // ------------------------------------------------------------------

  /** What any step may do to a token: its stamp is fixed, decisions absorb, a
      lost token stays lost, only a live admitted one is accepted and only a
      live one of the current generation is admitted. */
  predicate Evolves(s: System, s': System, t: nat) {
    && t in s.cells && t in s'.cells
    && s.vis.generation <= s'.vis.generation
    && s'.cells[t].token.generation == s.cells[t].token.generation
    && (!s.cells[t].token.outcome.Undecided() ==> s'.cells[t].token.outcome == s.cells[t].token.outcome)
    && (s'.cells[t].token.outcome.Offered? ==> s.cells[t].token.outcome.Offered?)
    && (s'.cells[t].token.outcome.Pending? && !s.cells[t].token.outcome.Pending? ==>
          s.cells[t].token.generation == s.vis.generation && s.Live(t))
    && (s'.cells[t].token.outcome.Accepted? && !s.cells[t].token.outcome.Accepted? ==>
          s.cells[t].token.outcome.Pending? && s.Live(t))
    && (s'.Live(t) ==> s.Live(t))
  }

  lemma SectionEvolves(s: System, u: nat, action: Action, now: Elapsed, t: nat)
    requires u in s.cells && t in s.cells && !action.Admit?
    requires action.Accept? ==> s.Live(u)
    ensures Evolves(s, Act(s, u, action, now), t)
  {
  }

  lemma VisibilityEvolves(s: System, e: V.Effect<nat>, nowToken: Elapsed, t: nat)
    requires Orderly(s.vis, e) && t in s.cells && (s.vis.pending.Some? ==> s.vis.pending.value in s.cells)
    ensures Evolves(s, OnVisibility(s, e, nowToken), t)
  {
    if e.cancels && s.vis.pending.Some? && s.Live(s.vis.pending.value) {
      SectionEvolves(s, s.vis.pending.value, Cancel, nowToken, t);
    }
  }

  lemma AdmissionEvolves(s: System, u: nat, offer: S.Op, now: Elapsed, nowPrior: Elapsed, nowToken: Elapsed, t: nat)
    requires Holds(s, u) && s.control.Between? && t in s.cells
    ensures Evolves(s, AdmitInbound(s, u, offer, now, nowPrior, nowToken), t)
  {
    AdmitCases(s, u, offer, now, nowPrior, nowToken);
    var s1 := AfterPrior(s, u, now, nowPrior);
    assert Evolves(s, s1, t) && (s1.Live(t) <==> s.Live(t)) && s1.vis == s.vis by {
      if ConsultsPrior(s, u, now) {
        SectionEvolves(s, s.vis.pending.value, Touch, nowPrior, t);
      }
    }
    var a := AdmissionOf(s, u, now, nowPrior, nowToken);
    if t == u && !a.admitted {
      assert !a.token.outcome.Pending? || a.token.outcome == s1.cells[t].token.outcome;
    }
  }

  lemma AcceptEvolves(s: System, share: nat, now: Elapsed, t: nat)
    requires HeldToken(s).Some? && t in s.cells
    ensures Evolves(s, AcceptShare(s, share, now), t)
  {
    SectionEvolves(s, s.pending.value, Accept(share), now, t);
  }

  lemma RejectEvolves(s: System, share: nat, now: Elapsed, later: Elapsed, t: nat)
    requires HeldToken(s).Some? && t in s.cells
    ensures Evolves(s, RejectShare(s, share, now, later), t)
  {
    SectionEvolves(s, s.pending.value, Touch, now, t);
    SectionEvolves(Act(s, s.pending.value, Touch, now), s.pending.value, Reject(share), later, t);
  }

  lemma SyncEvolves(s: System, now: Elapsed, t: nat)
    requires HeldToken(s).Some? && t in s.cells
    ensures Evolves(s, Sync(s, now), t)
  {
    SectionEvolves(s, s.pending.value, Touch, now, t);
  }

  lemma ActivationEvolves(s: System, generation: nat, result: Result<V.Lease, string>, now: Elapsed, t: nat)
    requires t in s.cells
    ensures Evolves(s, Activate(s, generation, result, now), t)
  {
    var e := V.CompleteActivation(s.vis, generation, result, now);
    assert !e.cancels && e.vis.generation == V.Expire(s.vis, now).vis.generation;
  }

  lemma PolicyEvolves(s: System, policy: bool, now: Elapsed, nowToken: Elapsed, t: nat)
    requires s.vis.Valid() && t in s.cells && (s.vis.pending.Some? ==> s.vis.pending.value in s.cells)
    ensures Evolves(s, OnVisibility(s, V.SetPolicy(s.vis, policy, now), nowToken), t)
  {
    OperationsAreOrderly(s.vis, policy, now);
    VisibilityEvolves(s, V.SetPolicy(s.vis, policy, now), nowToken, t);
  }

  lemma CloseEvolves(s: System, now: Elapsed, nowToken: Elapsed, t: nat)
    requires s.vis.Valid() && t in s.cells && (s.vis.pending.Some? ==> s.vis.pending.value in s.cells)
    ensures Evolves(s, OnVisibility(s, V.Close(s.vis, now), nowToken), t)
  {
    OperationsAreOrderly(s.vis, false, now);
    VisibilityEvolves(s, V.Close(s.vis, now), nowToken, t);
  }

  lemma PollEvolves(s: System, now: Elapsed, t: nat)
    requires s.vis.Valid() && t in s.cells && (s.vis.pending.Some? ==> s.vis.pending.value in s.cells)
    ensures Evolves(s, OnVisibility(s, V.Expire(s.vis, now), now), t)
  {
    ExpireIsOrderly(s.vis, now);
    VisibilityEvolves(s, V.Expire(s.vis, now), now, t);
  }

  lemma OpenEvolves(s: System, now: Elapsed, t: nat)
    requires s.vis.Valid() && t in s.cells && (s.vis.pending.Some? ==> s.vis.pending.value in s.cells)
    ensures Evolves(s, OnVisibility(s, V.RequestOpen(s.vis, now), now), t)
  {
    OperationsAreOrderly(s.vis, false, now);
    VisibilityEvolves(s, V.RequestOpen(s.vis, now), now, t);
  }

  lemma ProposeEvolves(s: System, u: nat, generation: nat, timeout: Elapsed, now: Elapsed, nowToken: Elapsed, t: nat)
    requires s.vis.Valid() && t in s.cells && u !in s.cells
    ensures Evolves(s, ProposeToken(s, u, generation, timeout, now, nowToken), t)
  {
    var s1 := OnVisibility(s, V.Expire(s.vis, now), nowToken);
    assert s1.cells == s.cells && s1.pending == s.pending && s1.control == s.control;
  }

  lemma VisibilityStepEvolves(s: System, step: Step, t: nat)
    requires s.vis.Valid() && t in s.cells && (s.vis.pending.Some? ==> s.vis.pending.value in s.cells)
    requires UnderVisibilityLock(step)
    ensures Evolves(s, Next(s, step), t)
  {
    match step
    case RequestOpen(now) => OpenEvolves(s, now, t);
    case SetPolicy(policy, now, nowToken) => PolicyEvolves(s, policy, now, nowToken, t);
    case Close(now, nowToken) => CloseEvolves(s, now, nowToken, t);
    case CompleteActivation(generation, result, now) => ActivationEvolves(s, generation, result, now, t);
    case Poll(now) => PollEvolves(s, now, t);
    case Propose(u, generation, timeout, now, nowToken) =>
      if u !in s.cells {
        ProposeEvolves(s, u, generation, timeout, now, nowToken, t);
      }
  }

  lemma WorkerEvolves(s: System, u: nat, action: Action, now: Elapsed, t: nat)
    requires t in s.cells
    ensures Evolves(s, Next(s, Worker(u, action, now)), t)
  {
    if Holds(s, u) && WorkerAction(action) {
      SectionEvolves(s, u, action, now, t);
    }
  }

  lemma RefusalEvolves(s: System, u: nat, now: Elapsed, t: nat)
    requires t in s.cells
    ensures Evolves(s, Next(s, OfferRefused(u, now)), t)
  {
    if Holds(s, u) {
      SectionEvolves(s, u, Reject(0), now, t);
    }
  }

  lemma AdmittedEvolves(s: System, u: nat, attachment: S.Attachment, peer: string, size: Option<nat>,
                        now: Elapsed, nowPrior: Elapsed, nowToken: Elapsed, t: nat)
    requires t in s.cells
    ensures Evolves(s, Next(s, OfferAdmitted(u, attachment, peer, size, now, nowPrior, nowToken)), t)
  {
    if Holds(s, u) && s.control.Between? {
      AdmissionEvolves(s, u, S.OfferInbound(attachment, peer, size), now, nowPrior, nowToken, t);
    }
  }

  lemma OfferStepEvolves(s: System, step: Step, t: nat)
    requires t in s.cells && WithBorrowedToken(step)
    ensures Evolves(s, Next(s, step), t)
  {
    match step
    case OfferAdmitted(u, attachment, peer, size, now, nowPrior, nowToken) =>
      AdmittedEvolves(s, u, attachment, peer, size, now, nowPrior, nowToken, t);
    case Worker(u, action, now) => WorkerEvolves(s, u, action, now, t);
    case OfferRefused(u, now) => RefusalEvolves(s, u, now, t);
    case _ =>
  }

  lemma PendingStepEvolves(s: System, step: Step, t: nat)
    requires t in s.cells && HeldToken(s).Some?
    requires step.AcceptPending? || step.RejectPending? || step.SyncConsent?
    ensures Evolves(s, Next(s, step), t)
  {
    match step
    case AcceptPending(share, now) => AcceptEvolves(s, share, now, t);
    case RejectPending(share, now, later) => RejectEvolves(s, share, now, later, t);
    case SyncConsent(now) => SyncEvolves(s, now, t);
  }

  lemma BindEvolves(s: System, now: Elapsed, t: nat)
    requires t in s.cells
    ensures Evolves(s, Next(s, BindOffer(now)), t)
  {
    if s.control.Binding? && s.control.token in s.cells {
      SectionEvolves(s, s.control.token, Bind(s.control.share), now, t);
    }
  }

  lemma DiscardEvolves(s: System, now: Elapsed, t: nat)
    requires t in s.cells
    ensures Evolves(s, Next(s, DiscardOffer(now)), t)
  {
    if s.control.Discarding? && s.control.token in s.cells {
      SectionEvolves(s, s.control.token, Reject(0), now, t);
    }
  }

  lemma CancelEvolves(s: System, share: nat, now: Elapsed, t: nat)
    requires t in s.cells
    ensures Evolves(s, CancelActive(s, share, now), t)
  {
    if HeldToken(s).Some? {
      SectionEvolves(s, s.pending.value, Touch, now, t);
    }
  }

  lemma CancelConsentEvolves(s: System, now: Elapsed, t: nat)
    requires t in s.cells
    ensures Evolves(s, Next(s, CancelConsent(now)), t)
  {
    if s.control.Cancelling? && s.control.token in s.cells {
      SectionEvolves(s, s.control.token, Cancel, now, t);
    }
  }

  lemma ControlStepEvolves(s: System, step: Step, t: nat)
    requires t in s.cells
    requires step.BindOffer? || step.DiscardOffer? || step.CancelShare? || step.CancelConsent?
    ensures Evolves(s, Next(s, step), t)
  {
    match step
    case BindOffer(now) => BindEvolves(s, now, t);
    case DiscardOffer(now) => DiscardEvolves(s, now, t);
    case CancelShare(share, now) => CancelEvolves(s, share, now, t);
    case CancelConsent(now) => CancelConsentEvolves(s, now, t);
  }

  lemma StepEvolves(s: System, step: Step, t: nat)
    requires Inv(s) && t in s.cells
    ensures Evolves(s, Next(s, step), t)
  {
    if UnderVisibilityLock(step) {
      VisibilityStepEvolves(s, step, t);
    } else if WithBorrowedToken(step) {
      OfferStepEvolves(s, step, t);
    } else if step.AcceptPending? || step.RejectPending? || step.SyncConsent? {
      if HeldToken(s).Some? {
        PendingStepEvolves(s, step, t);
      }
    } else if !step.ShareOperation? {
      ControlStepEvolves(s, step, t);
    }
  }

  // ------------------------------------------------------------------
  // Withdrawal of permission is final
  // ------------------------------------------------------------------

  /** A token that can no longer be accepted: unadmitted under an older
      generation, admitted but unreferenced, or decided otherwise. */
  predicate Barred(s: System, t: nat) {
    && t in s.cells && !s.cells[t].token.outcome.Accepted?
    && (s.cells[t].token.outcome.Offered? ==> s.cells[t].token.generation < s.vis.generation)
    && (s.cells[t].token.outcome.Pending? ==> !s.Live(t))
  }

  /** A step that explicitly withdraws permission and returns: `close`, or the
      durable policy going from on to off. */
  predicate Withdraws(s: System, step: Step) {
    && !Next(s, step).vis.poisoned
    && ((step.Close? && s.clock <= step.now <= step.nowToken)
        || (step.SetPolicy? && s.clock <= step.now <= step.nowToken && !step.policy && s.vis.policy))
  }

  lemma RevocationBars(s: System, e: V.Effect<nat>, nowToken: Elapsed, t: nat)
    requires ConsentInv(s) && e.cancels && s.vis.generation < e.vis.generation && e.vis.pending == s.vis.pending
    requires t in s.cells && !s.cells[t].token.outcome.Accepted?
    ensures Barred(OnVisibility(s, e, nowToken), t)
  {
    assert TokenValid(s.cells[t].token, s.vis.generation, At(s.acceptedAt, t));
  }

  lemma CloseWithdraws(v: V.Vis<nat>, now: Elapsed)
    requires v.Valid() && !V.Close(v, now).vis.poisoned
    ensures var e := V.Close(v, now); e.cancels && v.generation < e.vis.generation && e.vis.pending == v.pending
  {
  }

  lemma PolicyOffWithdraws(v: V.Vis<nat>, now: Elapsed)
    requires v.Valid() && v.policy && !V.SetPolicy(v, false, now).vis.poisoned
    ensures var e := V.SetPolicy(v, false, now); e.cancels && v.generation < e.vis.generation && e.vis.pending == v.pending
  {
  }

  lemma WithdrawalBars(s: System, step: Step, t: nat)
    requires Inv(s) && Withdraws(s, step)
    requires t in s.cells && !s.cells[t].token.outcome.Accepted?
    ensures Barred(Next(s, step), t)
  {
    match step
    case Close(now, nowToken) =>
      CloseWithdraws(s.vis, now);
      RevocationBars(s, V.Close(s.vis, now), nowToken, t);
    case SetPolicy(_, now, nowToken) =>
      PolicyOffWithdraws(s.vis, now);
      RevocationBars(s, V.SetPolicy(s.vis, false, now), nowToken, t);
  }

  lemma {:induction false} BarredForever(s: System, steps: seq<Step>, t: nat)
    requires Inv(s) && Barred(s, t)
    ensures Barred(Exec(s, steps), t)
    decreases |steps|
  {
    if steps != [] {
      StepEvolves(s, steps[0], t);
      StepKeepsInv(s, steps[0]);
      BarredForever(Next(s, steps[0]), steps[1..], t);
    }
  }

  /** After an explicit withdrawal, in any later run, no token proposed before
      it and not already accepted is ever accepted. */
  lemma WithdrawalIsFinal(before: seq<Step>, step: Step, later: seq<Step>, t: nat)
    requires var s := Exec(Initial(), before);
             Withdraws(s, step) && t in s.cells && !s.cells[t].token.outcome.Accepted?
    ensures var s := Exec(Next(Exec(Initial(), before), step), later);
            t in s.cells && !s.cells[t].token.outcome.Accepted?
  {
    EveryRunIsSafe(before);
    var s := Exec(Initial(), before);
    WithdrawalBars(s, step, t);
    StepKeepsInv(s, step);
    BarredForever(Next(s, step), later, t);
  }

  /** An accepted token stays accepted for the same share, whatever follows:
      withdrawals and expiry leave it alone. */
  lemma {:induction false} AcceptanceIsForever(s: System, steps: seq<Step>, t: nat)
    requires Inv(s) && t in s.cells && s.cells[t].token.outcome.Accepted?
    ensures t in Exec(s, steps).cells && Exec(s, steps).cells[t].token.outcome == s.cells[t].token.outcome
    decreases |steps|
  {
    if steps != [] {
      StepEvolves(s, steps[0], t);
      StepKeepsInv(s, steps[0]);
      AcceptanceIsForever(Next(s, steps[0]), steps[1..], t);
    }
  }

  /** Passive expiry closes the window, hands back the lease and touches no
      token: an admitted offer can still be accepted up to its own deadline,
      and its share then transfers. */
  lemma PassiveExpirySparesAdmittedOffer(s: System, now: Elapsed, later: Elapsed)
    requires Inv(s) && s.clock <= now <= later && s.control.Between?
    requires s.sharing.HasActive() && s.sharing.active.value.phase.AwaitingLocalConsent?
    requires s.pending.Some? && s.cells[s.pending.value].token.outcome.Pending?
    requires later < s.cells[s.pending.value].token.deadline
    ensures var s1 := Next(s, Poll(now));
            && s1.cells == s.cells && s1.sharing == s.sharing
            && (s.vis.Expired(now) && !s1.vis.poisoned ==> s1.vis.phase == V.Closed)
            && var s2 := Next(s1, AcceptPending(s.sharing.active.value.id, later));
            && s2.sharing.active.Some? && s2.sharing.active.value.phase.Transferring?
            && s2.cells[s.pending.value].token.outcome == Accepted(s.sharing.active.value.id)
  {
    StepKeepsInv(s, Poll(now));
  }

  // ------------------------------------------------------------------
  // One token at a time, and agreement with the share
  // ------------------------------------------------------------------

  /** Over every interleaving, two live tokens are never both admitted or
      accepted, and the one that is, is the one the weak reference names. */
  lemma AtMostOneBusy(steps: seq<Step>, t: nat, u: nat)
    requires var s := Exec(Initial(), steps);
             && s.Live(t) && (s.cells[t].token.outcome == Pending || s.cells[t].token.outcome.Accepted?)
             && s.Live(u) && (s.cells[u].token.outcome == Pending || s.cells[u].token.outcome.Accepted?)
    ensures t == u && Exec(Initial(), steps).vis.pending == Some(t)
  {
    EveryRunIsSafe(steps);
  }

  /** Between control operations, a live inbound share has its bound token held
      by the daemon; a transferring one was accepted under its own identifier,
      strictly before the token's captured deadline. */
  lemma ShareAndConsentAgree(steps: seq<Step>)
    requires var s := Exec(Initial(), steps);
             s.control.Between? && s.sharing.HasActive() && s.sharing.active.value.direction.Inbound?
    ensures var s := Exec(Initial(), steps);
            && s.pending.Some? && s.Live(s.pending.value)
            && s.cells[s.pending.value].token.shareId == Some(s.sharing.active.value.id)
            && (s.sharing.active.value.phase.Transferring? ==>
                  && s.cells[s.pending.value].token.outcome == Accepted(s.sharing.active.value.id)
                  && s.pending.value in s.acceptedAt
                  && s.acceptedAt[s.pending.value] < s.cells[s.pending.value].token.deadline)
  {
    EveryRunIsSafe(steps);
    var s := Exec(Initial(), steps);
    assert TokenValid(s.cells[s.pending.value].token, s.vis.generation, At(s.acceptedAt, s.pending.value));
  }

  /** Accepting is all or nothing: a control request moves the token exactly when
      it moves the share, and exactly when the displayed offer is still open. */
  lemma AcceptIsAllOrNothing(steps: seq<Step>, share: nat, now: Elapsed)
    requires var s := Exec(Initial(), steps); s.clock <= now && s.control.Between? && s.pending.Some?
    ensures var s := Exec(Initial(), steps);
            var s' := Next(s, AcceptPending(share, now));
            var t := s.pending.value;
            && t in s.cells && t in s'.cells
            && (s'.cells[t].token.outcome.Accepted? && !s.cells[t].token.outcome.Accepted? <==>
                  s.sharing.Is(share) && s.sharing.active.value.phase.AwaitingLocalConsent?
                  && s.cells[t].token.outcome.Pending? && now < s.cells[t].token.deadline)
            && (s'.cells[t].token.outcome.Accepted? && !s.cells[t].token.outcome.Accepted? <==>
                  s'.sharing != s.sharing)
            && (s'.sharing != s.sharing ==> s'.sharing == S.SetPhase(s.sharing, S.Transferring))
  {
    EveryRunIsSafe(steps);
    var s := Exec(Initial(), steps);
    assert TokenValid(s.cells[s.pending.value].token, s.vis.generation, At(s.acceptedAt, s.pending.value));
  }

  // ------------------------------------------------------------------
  // Leases and windows
  // ------------------------------------------------------------------

  /** Every lease ever handed to an activation is the one held, or has been
      closed exactly once; one is held exactly while the endpoint is open. */
  lemma LeaseConservation(steps: seq<Step>, lease: V.Lease)
    requires lease in Exec(Initial(), steps).given
    ensures var s := Exec(Initial(), steps);
            && s.closed[lease] <= 1
            && (s.closed[lease] == 0 <==> s.vis.lease == Some(lease))
            && (!s.vis.poisoned ==> (s.vis.lease.Some? <==> s.vis.phase == V.Open))
  {
    EveryRunIsSafe(steps);
  }

  /** Storing a lease never overwrites one, and only the awaited generation stores it. */
  lemma NewLeaseNeverOverwrites(steps: seq<Step>, generation: nat, lease: V.Lease, now: Elapsed)
    requires var s := Exec(Initial(), steps); s.clock <= now && lease !in s.given
    requires Next(Exec(Initial(), steps), CompleteActivation(generation, Ok(lease), now)).vis.lease == Some(lease)
    ensures var s := Exec(Initial(), steps); s.vis.lease.None? && V.Awaited(s.vis, generation) && !s.vis.poisoned
  {
    EveryRunIsSafe(steps);
  }

  lemma OnlyActivationsAreRecorded(s: System, step: Step)
    requires !step.CompleteActivation?
    ensures Next(s, step).activatedAt == s.activatedAt
  {
  }

  lemma StepKeepsActivations(s: System, step: Step, generation: nat)
    requires VisibilityInv(s) && generation in s.activatedAt
    ensures generation in Next(s, step).activatedAt
    ensures Next(s, step).activatedAt[generation] == s.activatedAt[generation]
  {
    if step.CompleteActivation? {
      assert V.Awaited(V.Expire(s.vis, step.now).vis, step.generation) ==>
          V.Expire(s.vis, step.now).vis.poisoned || V.Awaited(s.vis, step.generation);
    } else {
      OnlyActivationsAreRecorded(s, step);
    }
  }

  lemma {:induction false} ActivationTimesAreFixed(s: System, steps: seq<Step>, generation: nat)
    requires Inv(s) && generation in s.activatedAt
    ensures generation in Exec(s, steps).activatedAt
    ensures Exec(s, steps).activatedAt[generation] == s.activatedAt[generation]
    decreases |steps|
  {
    if steps != [] {
      StepKeepsInv(s, steps[0]);
      StepKeepsActivations(s, steps[0], generation);
      ActivationTimesAreFixed(Next(s, steps[0]), steps[1..], generation);
    }
  }

  /** A temporary window never moves: while the generation stands, every
      temporary deadline read is ten minutes after its one activation. */
  lemma WindowNeverMoves(before: seq<Step>, later: seq<Step>)
    requires var s := Exec(Initial(), before); !s.vis.poisoned && s.vis.deadline.Some?
    requires var s := Exec(Initial(), before);
             var s' := Exec(s, later);
             !s'.vis.poisoned && s'.vis.deadline.Some? && s'.vis.generation == s.vis.generation
    ensures var s := Exec(Initial(), before);
            && s.vis.generation in s.activatedAt
            && Exec(s, later).vis.deadline == s.vis.deadline
            && s.vis.deadline == Some(SaturatingAdd(s.activatedAt[s.vis.generation], V.TEMPORARY_LIFETIME))
  {
    EveryRunIsSafe(before);
    var s := Exec(Initial(), before);
    RunKeepsInv(s, later);
    ActivationTimesAreFixed(s, later, s.vis.generation);
  }

  /** Without durable policy, every admission falls strictly within ten minutes
      of the activation of the generation it was made under; time spent starting
      does not count. */
  lemma AdmissionsFallInTheWindow(steps: seq<Step>, t: nat, now: Elapsed, nowPrior: Elapsed, nowToken: Elapsed)
    requires var s := Exec(Initial(), steps);
             && Holds(s, t) && !s.vis.policy
             && AdmissionOf(s, t, now, nowPrior, nowToken).admitted
    ensures var s := Exec(Initial(), steps);
            && s.cells[t].token.generation == s.vis.generation
            && s.vis.generation in s.activatedAt
            && now < s.activatedAt[s.vis.generation] + V.TEMPORARY_LIFETIME
  {
    EveryRunIsSafe(steps);
    var s := Exec(Initial(), steps);
    AdmitCases(s, t, S.OfferInbound(S.Text([]), "", None), now, nowPrior, nowToken);
  }

  // ------------------------------------------------------------------
  // The share lifecycle under concurrent control
  // ------------------------------------------------------------------

  /** Nothing, or one operation within its guard. */
  predicate AsksFor(c: S.Coord, op: S.Op, c': S.Coord) {
    c' == c || (S.Guarded(c, op) && c' == S.Apply(c, op))
  }

  lemma VisibilityAsksNothing(s: System, step: Step)
    requires UnderVisibilityLock(step)
    ensures Next(s, step).sharing == s.sharing
  {
  }

  lemma OthersAskNothing(s: System, step: Step)
    requires step.Worker? || step.Retain? || step.Release? || step.OfferRefused?
             || step.BindOffer? || step.DiscardOffer? || step.CancelConsent?
    ensures Next(s, step).sharing == s.sharing
  {
  }

  lemma AdmissionAsks(s: System, step: Step)
    requires step.OfferAdmitted?
    ensures AsksFor(s.sharing, S.OfferInbound(step.attachment, step.peer, step.size), Next(s, step).sharing)
  {
  }

  lemma DecisionAsks(s: System, step: Step)
    requires step.AcceptPending? || step.RejectPending?
    ensures AsksFor(s.sharing, if step.AcceptPending? then S.AcceptInbound(step.share) else S.RejectInbound(step.share),
                    Next(s, step).sharing)
  {
  }

  lemma SyncAsks(s: System, now: Elapsed) returns (op: S.Op)
    requires HeldToken(s).Some?
    ensures AsksFor(s.sharing, op, Sync(s, now).sharing)
  {
    var token := s.cells[s.pending.value].token.Apply(Touch, now);
    var id := if token.shareId.Some? then token.shareId.value else 0;
    op := if token.outcome.TimedOut? then S.Fail(id) else S.Cancel(id);
  }

  lemma CancellationAsks(s: System, share: nat, now: Elapsed)
    ensures AsksFor(s.sharing, S.Cancel(share), CancelActive(s, share, now).sharing)
  {
  }

  /** Each step asks the coordinator for at most one operation, within its guard. */
  lemma StepAsks(s: System, step: Step) returns (op: S.Op)
    ensures AsksFor(s.sharing, op, Next(s, step).sharing)
  {
    op := S.StopDiscovery;
    if UnderVisibilityLock(step) {
      VisibilityAsksNothing(s, step);
    } else {
      match step {
        case OfferAdmitted(_, attachment, peer, size, _, _, _) =>
          op := S.OfferInbound(attachment, peer, size);
          AdmissionAsks(s, step);
        case AcceptPending(share, _) =>
          op := S.AcceptInbound(share);
          DecisionAsks(s, step);
        case RejectPending(share, _, _) =>
          op := S.RejectInbound(share);
          DecisionAsks(s, step);
        case SyncConsent(now) =>
          if HeldToken(s).Some? {
            op := SyncAsks(s, now);
          }
        case CancelShare(share, now) =>
          op := S.Cancel(share);
          CancellationAsks(s, share, now);
        case ShareOperation(asked) => op := asked;
        case _ => OthersAskNothing(s, step);
      }
    }
  }

  lemma StepIsGuarded(s: System, step: Step) returns (ops: seq<S.Op>)
    ensures |ops| <= 1 && S.GuardedRun(s.sharing, ops) && S.Run(s.sharing, ops) == Next(s, step).sharing
  {
    var op := StepAsks(s, step);
    AskedIsGuarded(s.sharing, op, Next(s, step).sharing);
    ops := if Next(s, step).sharing == s.sharing then [] else [op];
  }

  lemma AskedIsGuarded(c: S.Coord, op: S.Op, c': S.Coord)
    requires AsksFor(c, op, c')
    ensures c' != c ==> S.GuardedRun(c, [op]) && S.Run(c, [op]) == c'
  {
    assert [op][1..] == [];
    assert S.Run(c', []) == c' && S.GuardedRun(c', []);
  }

  lemma {:induction false} RunIsGuarded(s: System, steps: seq<Step>) returns (ops: seq<S.Op>)
    ensures S.GuardedRun(s.sharing, ops) && S.Run(s.sharing, ops) == Exec(s, steps).sharing
    decreases |steps|
  {
    if steps == [] {
      ops := [];
    } else {
      var first := StepIsGuarded(s, steps[0]);
      var rest := RunIsGuarded(Next(s, steps[0]), steps[1..]);
      S.GuardedRunsCompose(s.sharing, first, rest);
      ops := first + rest;
    }
  }

  /** Whatever the threads interleave, a share that ended keeps the phase it ended
      with unless it has the largest identifier, and a share shown later instead of
      it was created since under an identifier reserved since. */
  lemma EndedSharesStayEnded(before: seq<Step>, later: seq<Step>)
    requires Exec(Initial(), before).sharing.active.Some?
    ensures var s := Exec(Initial(), before);
            var share := s.sharing.active.value;
            var s' := Exec(s, later);
            && (share.phase.Terminal() && share.id < U64_MAX && s'.sharing.Is(share.id) ==>
                  s'.sharing.active.value.phase == share.phase)
            && (s'.sharing.active.Some? ==> s'.sharing.Is(share.id) || s'.sharing.active.value.id >= s.sharing.nextId)
  {
    EveryRunIsSafe(before);
    var s := Exec(Initial(), before);
    var ops := RunIsGuarded(s, later);
    if s.sharing.active.value.phase.Terminal() && s.sharing.active.value.id < U64_MAX {
      S.TerminalPhaseIsFinal(s.sharing, ops);
    }
    if Exec(s, later).sharing.active.Some? {
      S.IdentifiersIncrease(s.sharing, ops);
    }
  }

  lemma StepKeepsLiveShare(s: System, step: Step)
    requires s.sharing.HasActive()
    ensures Next(s, step).sharing.Is(s.sharing.active.value.id)
  {
    var ops := StepIsGuarded(s, step);
    if !S.Run(s.sharing, ops).Is(s.sharing.active.value.id) {
      var _ := S.LiveShareIsNeverReplaced(s.sharing, ops);
    }
  }

  /** No interleaving replaces or clears a live share: one that is no longer
      displayed was displayed with a terminal phase first. */
  lemma {:induction false} LiveShareIsNeverLost(s: System, steps: seq<Step>) returns (k: nat)
    requires s.sharing.active.Some? && !Exec(s, steps).sharing.Is(s.sharing.active.value.id)
    ensures k < |steps| && Exec(s, steps[..k]).sharing.Is(s.sharing.active.value.id)
    ensures !Exec(s, steps[..k]).sharing.HasActive()
    decreases |steps|
  {
    var id := s.sharing.active.value.id;
    var next := Next(s, steps[0]);
    if next.sharing.Is(id) {
      var j := LiveShareIsNeverLost(next, steps[1..]);
      k := j + 1;
      assert steps[..k][1..] == steps[1..][..j];
    } else {
      k := 0;
      if s.sharing.HasActive() {
        StepKeepsLiveShare(s, steps[0]);
      }
    }
  }
}
