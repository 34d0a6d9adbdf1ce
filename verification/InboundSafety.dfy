/** Safety of every inbound run. */
module InboundSafety {
  import opened Base
  import opened Consent
  import V = Visibility
  import S = Sharing
  import opened Inbound

  /** What one visibility operation may do to the state it locks: it keeps the
      weak reference, never rewinds the generation and accounts for its lease. */
  ghost predicate Orderly(v: V.Vis<nat>, e: V.Effect<nat>) {
    && e.vis.Valid() && e.vis.pending == v.pending && v.generation <= e.vis.generation
    && ((e.closed == [] && e.vis.lease == v.lease) || (e.closed == V.Leases(v.lease) && e.vis.lease.None?))
    && (v.poisoned ==> e.vis.poisoned)
    && (!e.vis.poisoned && e.vis.phase == V.Open ==>
          && e.vis.generation == v.generation && v.phase == V.Open
          && (e.vis.deadline.Some? ==> e.vis.deadline == v.deadline))
    && (!e.vis.poisoned && e.vis.phase == V.Starting ==>
          v.generation < e.vis.generation || (v.phase == V.Starting && v.generation == e.vis.generation))
  }

  lemma ExpireIsOrderly(v: V.Vis<nat>, now: Elapsed)
    requires v.Valid()
    ensures Orderly(v, V.Expire(v, now))
  {
  }

  lemma OperationsAreOrderly(v: V.Vis<nat>, policy: bool, now: Elapsed)
    requires v.Valid()
    ensures Orderly(v, V.RequestOpen(v, now)) && Orderly(v, V.Close(v, now)) && Orderly(v, V.SetPolicy(v, policy, now))
  {
    var first := V.Expire(v, now);
    assert first.closed + [] == first.closed;
    assert [] + V.Leases(v.lease) == V.Leases(v.lease);
  }

  lemma LeasesStayConserved(v: V.Vis<nat>, e: V.Effect<nat>, given: set<V.Lease>, closed: multiset<V.Lease>)
    requires LeasesConserved(v.lease, given, closed) && Orderly(v, e)
    ensures LeasesConserved(e.vis.lease, given, closed + multiset(e.closed))
  {
  }

  /** A token section that neither admits, binds nor accepts keeps everything. */
  lemma ActKeepsInv(s: System, t: nat, action: Action, now: Elapsed)
    requires Inv(s) && t in s.cells
    requires !action.Admit? && !action.Bind? && !action.Accept?
    ensures Inv(Act(s, t, action, now))
  {
  }

  lemma OnVisibilityKeepsInv(s: System, e: V.Effect<nat>, nowToken: Elapsed)
    requires Inv(s) && Orderly(s.vis, e)
    ensures Inv(OnVisibility(s, e, nowToken))
  {
    if e.cancels && s.vis.pending.Some? && s.Live(s.vis.pending.value) {
      ActKeepsInv(s, s.vis.pending.value, Cancel, nowToken);
    }
    LeasesStayConserved(s.vis, e, s.given, s.closed);
  }

  lemma NewLeaseIsHeldOrClosed(v: V.Vis<nat>, given: set<V.Lease>, closed: multiset<V.Lease>,
                               generation: nat, result: Result<V.Lease, string>, now: Elapsed)
    requires v.Valid() && LeasesConserved(v.lease, given, closed) && result.Ok? && result.value !in given
    ensures var e := V.CompleteActivation(v, generation, result, now);
            LeasesConserved(e.vis.lease, given + {result.value}, closed + multiset(e.closed))
  {
    var first := V.Expire(v, now);
    var e := V.CompleteActivation(v, generation, result, now);
    ExpireIsOrderly(v, now);
    LeasesStayConserved(v, first, given, closed);
    if e.vis.lease == Some(result.value) {
      assert e.closed == first.closed;
    } else {
      assert e.closed == first.closed + [result.value];
      assert closed + multiset(e.closed) == closed + multiset(first.closed) + multiset{result.value};
    }
  }

  /** Only visibility and its history move. */
  lemma VisibilityAloneKeepsInv(s: System, s': System)
    requires Inv(s) && VisibilityInv(s')
    requires s' == s.(clock := s'.clock, vis := s'.vis, given := s'.given, closed := s'.closed, activatedAt := s'.activatedAt)
    requires s'.vis.pending == s.vis.pending && s.vis.generation <= s'.vis.generation
    ensures Inv(s')
  {
  }

  lemma CompletionKeepsWindows(v: V.Vis<nat>, activatedAt: map<nat, Elapsed>,
                               generation: nat, result: Result<V.Lease, string>, now: Elapsed)
    requires v.Valid() && WindowsValid(v, activatedAt)
    ensures var current := V.Expire(v, now).vis;
            var opens := result.Ok? && !current.poisoned && V.Awaited(current, generation);
            WindowsValid(V.CompleteActivation(v, generation, result, now).vis,
                         if opens then activatedAt[generation := now] else activatedAt)
  {
  }

  lemma ActivationKeepsInv(s: System, generation: nat, result: Result<V.Lease, string>, now: Elapsed)
    requires Inv(s) && (result.Ok? ==> result.value !in s.given)
    ensures Inv(Activate(s, generation, result, now))
  {
    var e := V.CompleteActivation(s.vis, generation, result, now);
    var s' := Activate(s, generation, result, now);
    CompletionKeepsWindows(s.vis, s.activatedAt, generation, result, now);
    assert LeasesConserved(e.vis.lease, s'.given, s'.closed) by {
      if result.Ok? {
        NewLeaseIsHeldOrClosed(s.vis, s.given, s.closed, generation, result, now);
      } else {
        ExpireIsOrderly(s.vis, now);
        LeasesStayConserved(s.vis, V.Expire(s.vis, now), s.given, s.closed);
        assert e.closed == V.Expire(s.vis, now).closed;
      }
    }
    VisibilityAloneKeepsInv(s, s');
  }

  lemma ActivateKeepsInv(s: System, generation: nat, result: Result<V.Lease, string>, now: Elapsed)
    requires Inv(s)
    ensures Inv(Next(s, CompleteActivation(generation, result, now)))
  {
    if result.Ok? ==> result.value !in s.given {
      ActivationKeepsInv(s, generation, result, now);
    }
  }

  lemma ProposeKeepsInv(s: System, t: nat, generation: nat, timeout: Elapsed, now: Elapsed, nowToken: Elapsed)
    requires Inv(s)
    ensures Inv(Next(s, Propose(t, generation, timeout, now, nowToken)))
  {
    ExpireIsOrderly(s.vis, now);
    OnVisibilityKeepsInv(s, V.Expire(s.vis, now), nowToken);
  }

  lemma ReferencesKeepInv(s: System, t: nat, others: nat)
    requires Inv(s) && Holds(s, t)
    ensures Inv(s.(cells := s.cells[t := s.cells[t].(others := others)]))
  {
  }

  lemma RetainKeepsInv(s: System, t: nat)
    requires Inv(s)
    ensures Inv(Next(s, Retain(t)))
  {
    if Holds(s, t) {
      ReferencesKeepInv(s, t, s.cells[t].others + 1);
    }
  }

  lemma ReleaseKeepsInv(s: System, t: nat)
    requires Inv(s)
    ensures Inv(Next(s, Release(t)))
  {
    if Holds(s, t) {
      ReferencesKeepInv(s, t, s.cells[t].others - 1);
    }
  }

  lemma WorkerKeepsInv(s: System, t: nat, action: Action, now: Elapsed)
    requires Inv(s)
    ensures Inv(Next(s, Worker(t, action, now)))
  {
    if t in s.cells && WorkerAction(action) {
      ActKeepsInv(s, t, action, now);
    }
  }

  lemma DroppingKeepsInv(s: System, t: nat)
    requires Inv(s) && Holds(s, t)
    ensures Inv(DropReference(s, t))
  {
    ReferencesKeepInv(s, t, s.cells[t].others - 1);
  }

  lemma OfferRefusedKeepsInv(s: System, t: nat, now: Elapsed)
    requires Inv(s)
    ensures Inv(Next(s, OfferRefused(t, now)))
  {
    if Holds(s, t) {
      ActKeepsInv(s, t, Reject(0), now);
      DroppingKeepsInv(Act(s, t, Reject(0), now), t);
    }
  }

  lemma RefusalKeepsInv(s: System, t: nat, token: Token, e: V.Effect<nat>, nowToken: Elapsed)
    requires Inv(s) && Holds(s, t) && Orderly(s.vis, e)
    requires token == s.cells[t].token || token == s.cells[t].token.Apply(Reject(0), nowToken)
             || token == s.cells[t].token.Apply(Touch, nowToken)
    ensures Inv(s.(clock := nowToken, vis := e.vis, closed := s.closed + multiset(e.closed),
                   cells := s.cells[t := Cell(token, s.cells[t].others - 1)]))
  {
    LeasesStayConserved(s.vis, e, s.given, s.closed);
  }

  /** The new busy token displaces a dead or decided one. */
  lemma AdmittedKeepsOneBusy(s: System, t: nat, control: Control)
    requires Inv(s) && Holds(s, t) && s.control.Between?
    requires s.vis.pending.Some? && s.Live(s.vis.pending.value) ==>
               !s.cells[s.vis.pending.value].token.outcome.Busy()
    requires control.Binding? || control.Discarding?
    requires control.token == t
    ensures OneBusy(s.cells[t := Cell(s.cells[t].token.(outcome := Pending), s.cells[t].others - 1)],
                    s.pending, control, Some(t))
  {
    forall u | u in s.cells && u != t && s.cells[u].token.outcome.Busy() && IsLive(s.cells[u], u, s.pending, control)
      ensures false
    {
      assert IsLive(s.cells[u], u, s.pending, s.control);
    }
  }

  lemma AdmissionKeepsInv(s: System, t: nat, offer: S.Op, nowToken: Elapsed)
    requires Inv(s) && Holds(s, t) && s.control.Between? && !s.sharing.HasActive() && offer.OfferInbound?
    requires s.cells[t].token.outcome.Offered? && !s.vis.poisoned
    requires s.vis.pending.Some? && s.Live(s.vis.pending.value) ==>
               !s.cells[s.vis.pending.value].token.outcome.Busy()
    ensures var s1 := s.(clock := nowToken, vis := s.vis.(pending := Some(t)),
                         cells := s.cells[t := Cell(s.cells[t].token.(outcome := Pending), s.cells[t].others - 1)]);
            && (S.Applies(s.sharing, offer) ==>
                  Inv(s1.(sharing := S.Apply(s.sharing, offer), control := Binding(t, s.sharing.nextId))))
            && Inv(s1.(control := Discarding(t)))
  {
    S.ApplyKeepsValid(s.sharing, offer);
    AdmittedKeepsOneBusy(s, t, Binding(t, s.sharing.nextId));
    AdmittedKeepsOneBusy(s, t, Discarding(t));
  }

  /** What admission does, read off the state the prior token was consulted in. */
  lemma AdmitCases(s: System, t: nat, offer: S.Op, now: Elapsed, nowPrior: Elapsed, nowToken: Elapsed)
    requires Holds(s, t)
    ensures var s1 := AfterPrior(s, t, now, nowPrior);
            var a := AdmissionOf(s, t, now, nowPrior, nowToken);
            var s2 := s1.(clock := nowToken, vis := a.vis, closed := s.closed + multiset(a.closed),
                          cells := s1.cells[t := Cell(a.token, s1.cells[t].others - 1)]);
            AdmitInbound(s, t, offer, now, nowPrior, nowToken) ==
              if !a.admitted then s2
              else if S.Applies(s.sharing, offer) then
                s2.(sharing := S.Apply(s.sharing, offer), control := Binding(t, s.sharing.nextId))
              else s2.(control := Discarding(t))
    ensures AdmissionOf(s, t, now, nowPrior, nowToken).admitted ==>
              var s1 := AfterPrior(s, t, now, nowPrior);
              && s1.cells[t].token.outcome.Offered? && !s.vis.poisoned && !s.vis.Expired(now)
              && AdmissionOf(s, t, now, nowPrior, nowToken).closed == []
              && (s.vis.pending.Some? && s.Live(s.vis.pending.value) ==>
                    !s1.cells[s.vis.pending.value].token.outcome.Busy())
  {
  }

  lemma AdmitKeepsInv(s: System, t: nat, offer: S.Op, now: Elapsed, nowPrior: Elapsed, nowToken: Elapsed)
    requires Inv(s) && Holds(s, t) && s.control.Between? && !s.sharing.HasActive() && offer.OfferInbound?
    ensures Inv(AdmitInbound(s, t, offer, now, nowPrior, nowToken))
  {
    var s1 := AfterPrior(s, t, now, nowPrior);
    assert Inv(s1) && Holds(s1, t) && s1.vis == s.vis && s1.sharing == s.sharing && s1.control == s.control
           && s1.pending == s.pending && s1.closed == s.closed by {
      if ConsultsPrior(s, t, now) {
        ActKeepsInv(s, s.vis.pending.value, Touch, nowPrior);
      }
    }
    AdmitCases(s, t, offer, now, nowPrior, nowToken);
    var a := AdmissionOf(s, t, now, nowPrior, nowToken);
    if a.admitted {
      assert s1.vis.pending.Some? && s1.Live(s1.vis.pending.value) ==> s.Live(s.vis.pending.value);
      AdmissionKeepsInv(s1, t, offer, nowToken);
      assert s.closed + multiset(a.closed) == s.closed;
    } else {
      ExpireIsOrderly(s.vis, now);
      RefusalKeepsInv(s1, t, a.token, V.Expire(s.vis, now), nowToken);
    }
  }

  lemma OfferAdmittedKeepsInv(s: System, t: nat, offer: S.Op, now: Elapsed, nowPrior: Elapsed, nowToken: Elapsed)
    requires Inv(s) && offer.OfferInbound?
    ensures Inv(Next(s, OfferAdmitted(t, offer.attachment, offer.peer, offer.size, now, nowPrior, nowToken)))
  {
    if Holds(s, t) && s.control.Between? && !s.sharing.HasActive() {
      AdmitKeepsInv(s, t, offer, now, nowPrior, nowToken);
    }
  }

  lemma BindKeepsInv(s: System, now: Elapsed)
    requires Inv(s)
    ensures Inv(Next(s, BindOffer(now)))
  {
  }

  lemma AcceptedKeepsInv(s: System, share: nat, now: Elapsed)
    requires Inv(s) && s.control.Between? && s.pending.Some?
    requires s.sharing.Is(share) && s.sharing.active.value.phase.AwaitingLocalConsent?
    requires s.cells[s.pending.value].token.Succeeds(Accept(share), now)
    ensures var t := s.pending.value;
            Inv(Act(s, t, Accept(share), now)
                  .(sharing := S.Apply(s.sharing, S.AcceptInbound(share)), acceptedAt := s.acceptedAt[t := now]))
  {
    S.ApplyKeepsValid(s.sharing, S.AcceptInbound(share));
  }

  lemma AcceptKeepsInv(s: System, share: nat, now: Elapsed)
    requires Inv(s)
    ensures Inv(Next(s, AcceptPending(share, now)))
  {
    if s.control.Between? && s.pending.Some? {
      if s.sharing.Is(share) && s.sharing.active.value.phase.AwaitingLocalConsent? {
        if s.cells[s.pending.value].token.Succeeds(Accept(share), now) {
          AcceptedKeepsInv(s, share, now);
        } else {
          ActKeepsInv(s, s.pending.value, Touch, now);
          assert Act(s, s.pending.value, Accept(share), now) == Act(s, s.pending.value, Touch, now);
        }
      }
    }
  }

  /** Outside a half-finished offer, no guarded operation uncovers a live inbound share. */
  lemma ShareKeepsInv(s: System, op: S.Op)
    requires Inv(s) && !s.control.Binding? && !s.control.Discarding?
    requires !op.OfferInbound? && !op.AcceptInbound? && S.Guarded(s.sharing, op)
    ensures Inv(s.(sharing := S.Apply(s.sharing, op)))
  {
    S.ApplyKeepsValid(s.sharing, op);
    var sharing := S.Apply(s.sharing, op);
    assert sharing.HasActive() && sharing.active.value.direction.Inbound? ==>
        && s.sharing.HasActive() && s.sharing.active.value.direction.Inbound?
        && sharing.active.value.id == s.sharing.active.value.id
        && (sharing.active.value.phase.Transferring? ==> s.sharing.active.value.phase.Transferring?);
  }

  lemma OperationKeepsInv(s: System, op: S.Op)
    requires Inv(s)
    ensures Inv(Next(s, ShareOperation(op)))
  {
    if s.control.Between? && !op.OfferInbound? && !op.AcceptInbound? && S.Guarded(s.sharing, op) {
      ShareKeepsInv(s, op);
    }
  }

  lemma RejectKeepsInv(s: System, share: nat, now: Elapsed, later: Elapsed)
    requires Inv(s)
    ensures Inv(Next(s, RejectPending(share, now, later)))
  {
    if s.control.Between? && s.pending.Some? {
      var t := s.pending.value;
      var s1 := Act(s, t, Touch, now);
      ActKeepsInv(s, t, Touch, now);
      if s.cells[t].token.shareId == Some(share) {
        ActKeepsInv(s1, t, Reject(share), later);
        ShareKeepsInv(Act(s1, t, Reject(share), later), S.RejectInbound(share));
      }
    }
  }

  /** A token is let go once no live inbound share needs it. */
  lemma LettingGoKeepsInv(s: System)
    requires Inv(s) && s.control.Between?
    requires !(s.sharing.HasActive() && s.sharing.active.value.direction.Inbound?)
    ensures Inv(s.(pending := None))
  {
  }

  /** What `sync_visibility` makes of the share, given the token's outcome. */
  lemma ProjectionKeepsInv(s: System, share: nat, outcome: Outcome)
    requires Inv(s) && s.control.Between?
    ensures Inv(s.(sharing := Projected(s.sharing, share, outcome)))
  {
    match outcome
    case TimedOut => ShareKeepsInv(s, S.Fail(share));
    case Cancelled => ShareKeepsInv(s, S.Cancel(share));
    case _ =>
  }

  lemma SyncedKeepsInv(s: System, now: Elapsed)
    requires Inv(s) && s.control.Between? && s.pending.Some?
    ensures Inv(Sync(s, now))
  {
    var s1 := Act(s, s.pending.value, Touch, now);
    ActKeepsInv(s, s.pending.value, Touch, now);
    var token := s1.cells[s.pending.value].token;
    var share := token.shareId.value;
    ProjectionKeepsInv(s1, share, token.outcome);
    var s2 := s1.(sharing := Sync(s, now).sharing);
    if !Undecided(s2.sharing, share) {
      LettingGoKeepsInv(s2);
    }
  }

  lemma SyncKeepsInv(s: System, now: Elapsed)
    requires Inv(s)
    ensures Inv(Next(s, SyncConsent(now)))
  {
    if s.control.Between? && s.pending.Some? {
      SyncedKeepsInv(s, now);
    }
  }

  lemma CancelKeepsInv(s: System, share: nat, now: Elapsed)
    requires Inv(s)
    ensures Inv(Next(s, CancelShare(share, now)))
  {
    if s.control.Between? {
      ShareKeepsInv(s, S.Cancel(share));
      var s1 := s.(sharing := S.Apply(s.sharing, S.Cancel(share)));
      if s.pending.Some? {
        ActKeepsInv(s1, s.pending.value, Touch, now);
      }
    }
  }

  lemma DiscardKeepsInv(s: System, now: Elapsed)
    requires Inv(s)
    ensures Inv(Next(s, DiscardOffer(now)))
  {
    if s.control.Discarding? {
      ActKeepsInv(s, s.control.token, Reject(0), now);
    }
  }

  lemma CancelConsentKeepsInv(s: System, now: Elapsed)
    requires Inv(s)
    ensures Inv(Next(s, CancelConsent(now)))
  {
    if s.control.Cancelling? {
      ActKeepsInv(s, s.control.token, Cancel, now);
    }
  }

  lemma RequestOpenKeepsInv(s: System, now: Elapsed)
    requires Inv(s)
    ensures Inv(Next(s, RequestOpen(now)))
  {
    OperationsAreOrderly(s.vis, false, now);
    OnVisibilityKeepsInv(s, V.RequestOpen(s.vis, now), now);
  }

  lemma SetPolicyKeepsInv(s: System, policy: bool, now: Elapsed, nowToken: Elapsed)
    requires Inv(s)
    ensures Inv(Next(s, SetPolicy(policy, now, nowToken)))
  {
    OperationsAreOrderly(s.vis, policy, now);
    OnVisibilityKeepsInv(s, V.SetPolicy(s.vis, policy, now), nowToken);
  }

  lemma CloseKeepsInv(s: System, now: Elapsed, nowToken: Elapsed)
    requires Inv(s)
    ensures Inv(Next(s, Close(now, nowToken)))
  {
    OperationsAreOrderly(s.vis, false, now);
    OnVisibilityKeepsInv(s, V.Close(s.vis, now), nowToken);
  }

  lemma PollKeepsInv(s: System, now: Elapsed)
    requires Inv(s)
    ensures Inv(Next(s, Poll(now)))
  {
    ExpireIsOrderly(s.vis, now);
    OnVisibilityKeepsInv(s, V.Expire(s.vis, now), now);
  }

  lemma VisibilityStepKeepsInv(s: System, step: Step)
    requires Inv(s) && UnderVisibilityLock(step)
    ensures Inv(Next(s, step))
  {
    match step
    case RequestOpen(now) => RequestOpenKeepsInv(s, now);
    case SetPolicy(policy, now, nowToken) => SetPolicyKeepsInv(s, policy, now, nowToken);
    case Close(now, nowToken) => CloseKeepsInv(s, now, nowToken);
    case CompleteActivation(generation, result, now) => ActivateKeepsInv(s, generation, result, now);
    case Poll(now) => PollKeepsInv(s, now);
    case Propose(t, generation, timeout, now, nowToken) => ProposeKeepsInv(s, t, generation, timeout, now, nowToken);
  }

  lemma OfferStepKeepsInv(s: System, step: Step)
    requires Inv(s) && WithBorrowedToken(step)
    ensures Inv(Next(s, step))
  {
    match step
    case Worker(t, action, now) => WorkerKeepsInv(s, t, action, now);
    case Retain(t) => RetainKeepsInv(s, t);
    case Release(t) => ReleaseKeepsInv(s, t);
    case OfferRefused(t, now) => OfferRefusedKeepsInv(s, t, now);
    case OfferAdmitted(t, attachment, peer, size, now, nowPrior, nowToken) =>
      OfferAdmittedKeepsInv(s, t, S.OfferInbound(attachment, peer, size), now, nowPrior, nowToken);
  }

  lemma ControlStepKeepsInv(s: System, step: Step)
    requires Inv(s) && !UnderVisibilityLock(step) && !WithBorrowedToken(step)
    ensures Inv(Next(s, step))
  {
    match step
    case BindOffer(now) => BindKeepsInv(s, now);
    case DiscardOffer(now) => DiscardKeepsInv(s, now);
    case AcceptPending(share, now) => AcceptKeepsInv(s, share, now);
    case RejectPending(share, now, later) => RejectKeepsInv(s, share, now, later);
    case SyncConsent(now) => SyncKeepsInv(s, now);
    case CancelShare(share, now) => CancelKeepsInv(s, share, now);
    case CancelConsent(now) => CancelConsentKeepsInv(s, now);
    case ShareOperation(op) => OperationKeepsInv(s, op);
  }

  /** Every step of every thread keeps the invariant. */
  lemma StepKeepsInv(s: System, step: Step)
    requires Inv(s)
    ensures Inv(Next(s, step))
  {
    if UnderVisibilityLock(step) {
      VisibilityStepKeepsInv(s, step);
    } else if WithBorrowedToken(step) {
      OfferStepKeepsInv(s, step);
    } else {
      ControlStepKeepsInv(s, step);
    }
  }

  lemma {:induction false} RunKeepsInv(s: System, steps: seq<Step>)
    requires Inv(s)
    ensures Inv(Exec(s, steps))
    decreases |steps|
  {
    if steps != [] {
      StepKeepsInv(s, steps[0]);
      RunKeepsInv(Next(s, steps[0]), steps[1..]);
    }
  }

  lemma EveryRunIsSafe(steps: seq<Step>)
    ensures Inv(Exec(Initial(), steps))
  {
    RunKeepsInv(Initial(), steps);
  }
}
