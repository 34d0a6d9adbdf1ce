/** The control thread's side of inbound consent over the shared visibility, the
    token objects and the coordinator: projection, admission, acceptance,
    rejection and cancellation. Each call that no other thread interrupts is a
    run of the concurrent system, step for step. */
module Control {
  import opened Base
  import opened Consent
  import V = Visibility
  import S = Sharing
  import I = Inbound
  import opened ControlRuns

  /** A token object and the index the concurrent system knows it by. */
  ghost predicate Named(roster: seq<PendingConsent>, token: Option<PendingConsent>, index: Option<nat>) {
    && (token.None? <==> index.None?)
    && (index.Some? ==> index.value < |roster| && token == Some(roster[index.value]))
  }

  ghost predicate Distinct(roster: seq<PendingConsent>) {
    forall i, j :: 0 <= i < j < |roster| ==> roster[i] != roster[j]
  }

  ghost predicate SameVisibility(roster: seq<PendingConsent>, v: V.Vis<PendingConsent>, w: V.Vis<nat>) {
    && w.generation == v.generation && w.policy == v.policy && w.requested == v.requested && w.phase == v.phase
    && w.deadline == v.deadline && w.lease == v.lease && w.poisoned == v.poisoned
    && Named(roster, v.pending, w.pending)
  }

  /** How the concurrent system sees one object: its token, and the references
      that are not the one the daemon keeps. */
  ghost predicate SeenAs(token: PendingConsent, kept: bool, cell: I.Cell)
    reads token
  {
    cell.token == token.View() && cell.others + (if kept then 1 else 0) == token.strong
  }

  ghost predicate AllSeenAs(roster: seq<PendingConsent>, pending: Option<PendingConsent>, cells: map<nat, I.Cell>)
    reads roster
  {
    && (forall t :: t in cells <==> t < |roster|)
    && (forall t :: 0 <= t < |roster| ==> SeenAs(roster[t], pending == Some(roster[t]), cells[t]))
  }

  /** One token may have changed, and is seen as it is now. */
  lemma OneSeen(roster: seq<PendingConsent>, pending: Option<PendingConsent>, cells: map<nat, I.Cell>, t: nat, cell: I.Cell)
    requires t < |roster| && (forall k :: k in cells <==> k < |roster|)
    requires forall k :: 0 <= k < |roster| && k != t ==> SeenAs(roster[k], pending == Some(roster[k]), cells[k])
    requires SeenAs(roster[t], pending == Some(roster[t]), cell)
    ensures AllSeenAs(roster, pending, cells[t := cell])
  {
  }

  /** Two tokens may have changed, and are seen as they are now. */
  lemma StillSeen(roster: seq<PendingConsent>, pending: Option<PendingConsent>, s: I.System, s': I.System, t: nat)
    requires KeepsOthers(s, s', t) && t < |roster| && (forall k :: k in s.cells <==> k < |roster|)
    requires s.vis.pending.Some? ==> s.vis.pending.value < |roster|
    requires forall k :: 0 <= k < |roster| && k != t && s.vis.pending != Some(k) ==>
               SeenAs(roster[k], pending == Some(roster[k]), s.cells[k])
    requires SeenAs(roster[t], pending == Some(roster[t]), s'.cells[t])
    requires s.vis.pending.Some? ==>
               var w := s.vis.pending.value; SeenAs(roster[w], pending == Some(roster[w]), s'.cells[w])
    ensures AllSeenAs(roster, pending, s'.cells)
  {
  }

  /** Admission does not depend on how tokens are named. */
  lemma AdmissionRenames(roster: seq<PendingConsent>, v: V.Vis<PendingConsent>, w: V.Vis<nat>, prior: Option<Outcome>,
                         token: Token, t: nat, now: Elapsed, nowToken: Elapsed)
    requires SameVisibility(roster, v, w) && t < |roster|
    ensures var a := V.AdmitOffer(v, prior, token, roster[t], now, nowToken);
            var b := V.AdmitOffer(w, prior, token, t, now, nowToken);
            && a.admitted == b.admitted && a.closed == b.closed && a.token == b.token
            && SameVisibility(roster, a.vis, b.vis)
  {
  }

  /** What asking the objects and asking the concurrent system must agree on. */
  ghost predicate Agreed(roster: seq<PendingConsent>, v: V.Vis<PendingConsent>, upgraded: bool, s: I.System, s': I.System, t: nat,
                         now: Elapsed, nowPrior: Elapsed, nowToken: Elapsed, admitted: bool)
    requires t < |roster| && t in s.cells && t in s'.cells && (upgraded ==> s.vis.pending.Some? && s.vis.pending.value in s.cells)
  {
    var consulted := V.Proposes(v, s.cells[t].token.generation, now) && upgraded;
    var prior := if consulted then Some(s.cells[s.vis.pending.value].token.Apply(Touch, nowPrior)) else None;
    var offered := if consulted && v.pending == Some(roster[t]) then prior.value else s.cells[t].token;
    var a := V.AdmitOffer(v, if consulted then Some(prior.value.outcome) else None, offered, roster[t], now, nowToken);
    && a.admitted == admitted
    && SameVisibility(roster, a.vis, s'.vis) && s'.closed == s.closed + multiset(a.closed)
    && s'.cells[t].token == a.token
    && (var w := s.vis.pending;
        w.Some? && w != Some(t) && w.value in s.cells && w.value in s'.cells ==>
          s'.cells[w.value].token == if consulted then prior.value else s.cells[w.value].token)
  }

  lemma AskedAgrees(roster: seq<PendingConsent>, v: V.Vis<PendingConsent>, upgraded: bool, s: I.System, t: nat,
                    now: Elapsed, nowPrior: Elapsed, nowToken: Elapsed)
    requires SameVisibility(roster, v, s.vis) && Distinct(roster) && t < |roster| && I.Holds(s, t)
    requires upgraded == (s.vis.pending.Some? && s.Live(s.vis.pending.value))
    ensures Agreed(roster, v, upgraded, s, Asked(s, t, now, nowPrior, nowToken), t, now, nowPrior, nowToken,
                   I.AdmissionOf(s, t, now, nowPrior, nowToken).admitted)
  {
    AskedIs(s, t, now, nowPrior, nowToken);
    var prior := if I.ConsultsPrior(s, t, now) then Some(s.cells[s.vis.pending.value].token.Apply(Touch, nowPrior).outcome) else None;
    AdmissionRenames(roster, v, s.vis, prior, TokenAsked(s, t, now, nowPrior), t, now, nowToken);
  }

  /** No other object is the offer's or the weakly held one. */
  lemma Unasked(roster: seq<PendingConsent>, v: V.Vis<PendingConsent>, s: I.System, t: nat)
    requires SameVisibility(roster, v, s.vis) && Distinct(roster) && t < |roster|
    ensures forall k :: 0 <= k < |roster| && k != t && s.vis.pending != Some(k) ==> roster[k] != roster[t] && v.pending != Some(roster[k])
  {
  }

  class InboundControl {
    const sharing: S.Coordinator
    const visibility: V.SharedVisibility
    var pending: Option<PendingConsent>

    constructor (visibility: V.SharedVisibility)
      ensures this.visibility == visibility && fresh(sharing) && sharing.View() == S.Initial() && pending.None?
    {
      this.visibility := visibility;
      this.pending := None;
      this.sharing := new S.Coordinator();
    }

    /** The token the daemon retains. */
    function Kept(): set<PendingConsent>
      reads this
    {
      if pending.Some? then {pending.value} else {}
    }

    /** The objects are what the concurrent system says, between two operations. */
    ghost predicate Shows(roster: seq<PendingConsent>, s: I.System)
      reads this, sharing, visibility, roster
    {
      && s.control.Between? && Distinct(roster)
      && s.sharing == sharing.View()
      && SameVisibility(roster, visibility.View(), s.vis)
      && Named(roster, pending, s.pending)
      && AllSeenAs(roster, pending, s.cells)
    }

    method HasActiveShare() returns (active: bool)
      ensures active == sharing.View().HasActive()
    {
      active := sharing.active.Some? && match sharing.active.value.phase
        case WaitingForPeer | AwaitingLocalConsent | AwaitingPeerConsent | Transferring => true
        case _ => false;
    }

    /** The consent half of `sync_visibility`: a timed-out or cancelled token
        ends its share, and the token is let go once no live share needs it. */
    method ProjectConsent(now: Elapsed, later: Elapsed)
      requires now <= later && (pending.Some? ==> pending.value.strong > 0)
      modifies this, sharing, Kept()
      ensures old(pending).None? ==> sharing.View() == old(sharing.View()) && pending.None?
      ensures old(pending).Some? ==>
                var before, token := old(pending.value.View()), old(pending).value;
                var share := before.shareId;
                && token.View() == before.Apply(Touch, if share.Some? then later else now)
                && sharing.View() == (if share.None? then old(sharing.View()) else I.Projected(old(sharing.View()), share.value, token.outcome))
                && pending == (if share.None? || I.Undecided(sharing.View(), share.value) then old(pending) else None)
                && token.strong == old(pending.value.strong) - (if pending.None? then 1 else 0)
    {
      if pending.None? {
        return;
      }
      var share := pending.value.ReadShare(now);
      if share.None? {
        return;
      }
      var outcome := pending.value.ReadOutcome(later);
      match outcome {
        case TimedOut => var _ := sharing.FailShare(share.value);
        case Cancelled => var _ := sharing.CancelShare(share.value);
        case _ =>
      }
      if !(sharing.active.Some? && sharing.active.value.id == share.value
           && (sharing.active.value.phase == S.AwaitingLocalConsent || sharing.active.value.phase == S.Transferring)) {
        pending.value.strong := pending.value.strong - 1;
        pending := None;
      }
    }

    method SyncConsent(now: Elapsed, later: Elapsed, ghost roster: seq<PendingConsent>, ghost s: I.System)
      requires Shows(roster, s) && s.clock <= now <= later
      modifies this, sharing, Kept()
      ensures Shows(roster, if s.pending.None? then s else I.Sync(s, Reading(s, now, later)))
    {
      if pending.Some? {
        SyncIs(s, now, later);
      }
      ghost var token := pending;
      ProjectConsent(now, later);
      if token.Some? {
        ghost var t := s.pending.value;
        OneSeen(roster, pending, s.cells, t, s.cells[t].(token := token.value.View()));
      }
    }

    /** The projected status applies passive expiry. */
    method PollVisibility(now: Elapsed, ghost roster: seq<PendingConsent>, ghost s: I.System) returns (closed: seq<V.Lease>)
      requires Shows(roster, s)
      modifies visibility
      ensures Shows(roster, Polled(s, now)) && Polled(s, now).closed == s.closed + multiset(closed)
    {
      closed := visibility.ExpireState(now);
    }

    /** `sync_visibility`. */
    method SyncVisibility(polled: Elapsed, now: Elapsed, later: Elapsed, ghost roster: seq<PendingConsent>, ghost s: I.System)
      returns (closed: seq<V.Lease>)
      requires Shows(roster, s) && s.clock <= polled <= now <= later
      modifies this, sharing, visibility, Kept()
      ensures var s' := Synced(s, polled, now, later); Shows(roster, s') && s'.closed == s.closed + multiset(closed)
    {
      closed := PollVisibility(polled, roster, s);
      SyncConsent(now, later, roster, Polled(s, polled));
    }

    /** The token's half of `accept_pending`, and the transition that follows it. */
    method DecideAcceptance(share: nat, now: Elapsed) returns (accepted: bool)
      requires pending.Some? && (sharing.active.Some? ==> sharing.active.value.Valid())
      modifies sharing, Kept()
      ensures var before, token := old(pending.value.View()), pending.value;
              var open := old(sharing.View()).Is(share) && old(sharing.active).value.phase == S.AwaitingLocalConsent;
              && accepted == (open && before.Succeeds(Accept(share), now))
              && token.View() == (if open then before.Apply(Accept(share), now) else before)
              && sharing.View() == (if accepted then S.Apply(old(sharing.View()), S.AcceptInbound(share)) else old(sharing.View()))
              && token.strong == old(pending.value.strong)
    {
      accepted := sharing.active.Some? && sharing.active.value.id == share
                  && sharing.active.value.phase == S.AwaitingLocalConsent;
      if accepted {
        accepted := pending.value.AcceptShare(share, now);
      }
      if accepted {
        accepted := sharing.LocalAccepts(share);
      }
    }

    method AcceptToken(share: nat, now: Elapsed, ghost roster: seq<PendingConsent>, ghost s: I.System) returns (accepted: bool)
      requires Shows(roster, s) && pending.Some? && (sharing.active.Some? ==> sharing.active.value.Valid())
      modifies sharing, Kept()
      ensures accepted == Accepts(s, share, now)
      ensures Shows(roster, I.AcceptShare(s, share, now))
    {
      accepted := DecideAcceptance(share, now);
      ghost var t := s.pending.value;
      OneSeen(roster, pending, s.cells, t, s.cells[t].(token := pending.value.View()));
    }

    /** `accept_pending`: the share starts transferring exactly when the displayed
        offer is open and its token accepts in time; a refusal resynchronises. */
    method AcceptPending(share: nat, now: Elapsed, polled: Elapsed, read: Elapsed, later: Elapsed,
                         ghost roster: seq<PendingConsent>, ghost s: I.System)
      returns (accepted: bool, closed: seq<V.Lease>)
      requires Shows(roster, s) && s.clock <= now <= polled <= read <= later
      requires sharing.active.Some? ==> sharing.active.value.Valid()
      modifies this, sharing, visibility, Kept()
      ensures accepted == (s.pending.Some? && Accepts(s, share, now))
      ensures var s' := AcceptCall(s, share, now, polled, read, later);
              Shows(roster, s') && s'.closed == s.closed + multiset(closed)
    {
      closed := [];
      if pending.None? {
        return false, closed;
      }
      accepted := AcceptToken(share, now, roster, s);
      if !accepted {
        closed := SyncVisibility(polled, read, later, roster, I.AcceptShare(s, share, now));
      }
    }

    /** The token's half of `reject_pending`, and the transition that follows it. */
    method DecideRejection(share: nat, now: Elapsed, decide: Elapsed) returns (decided: bool, rejected: bool)
      requires pending.Some? && now <= decide
      modifies sharing, Kept()
      ensures var before, token := old(pending.value.View()), pending.value;
              && decided == (before.shareId == Some(share) && before.Succeeds(Reject(share), decide))
              && token.View() == (if before.shareId == Some(share) then before.Apply(Touch, now).Apply(Reject(share), decide)
                                  else before.Apply(Touch, now))
              && sharing.View() == (if decided then S.Apply(old(sharing.View()), S.RejectInbound(share)) else old(sharing.View()))
              && rejected == (decided && S.Applies(old(sharing.View()), S.RejectInbound(share)))
              && token.strong == old(pending.value.strong)
    {
      decided, rejected := false, false;
      var bound := pending.value.ReadShare(now);
      if bound == Some(share) {
        decided := pending.value.RejectShare(share, decide);
        if decided {
          rejected := sharing.LocalRejects(share);
        }
      }
    }

    method RejectToken(share: nat, now: Elapsed, decide: Elapsed, ghost roster: seq<PendingConsent>, ghost s: I.System)
      returns (decided: bool, rejected: bool)
      requires Shows(roster, s) && pending.Some? && now <= decide
      modifies sharing, Kept()
      ensures decided == Decides(s, share, decide)
      ensures rejected == (decided && S.Applies(s.sharing, S.RejectInbound(share)))
      ensures var s1 := I.RejectShare(s, share, now, decide); Shows(roster, s1) && s1.closed == s.closed && s1.clock <= decide
    {
      RejectIs(s, share, now, decide);
      decided, rejected := DecideRejection(share, now, decide);
      ghost var t := s.pending.value;
      OneSeen(roster, pending, s.cells, t, s.cells[t].(token := pending.value.View()));
    }

    /** `reject_pending`. */
    method RejectPending(share: nat, now: Elapsed, decide: Elapsed, polled: Elapsed, read: Elapsed, later: Elapsed,
                         ghost roster: seq<PendingConsent>, ghost s: I.System)
      returns (rejected: bool, closed: seq<V.Lease>)
      requires Shows(roster, s) && s.clock <= now <= decide <= polled <= read <= later
      modifies this, sharing, visibility, Kept()
      ensures rejected == (Decides(s, share, decide) && S.Applies(s.sharing, S.RejectInbound(share)))
      ensures var s' := RejectCall(s, share, now, decide, polled, read, later);
              Shows(roster, s') && s'.closed == s.closed + multiset(closed)
    {
      rejected, closed := false, [];
      if pending.None? {
        closed := SyncVisibility(polled, read, later, roster, s);
        return;
      }
      ghost var s1 := I.RejectShare(s, share, now, decide);
      var decided;
      decided, rejected := RejectToken(share, now, decide, roster, s);
      if decided {
        assert RejectCall(s, share, now, decide, polled, read, later) == s1;
      } else {
        assert RejectCall(s, share, now, decide, polled, read, later) == Synced(s1, polled, read, later);
        closed := SyncVisibility(polled, read, later, roster, s1);
      }
    }

    /** `Request::Cancel`: the token bound to a cancelled share is cancelled too. */
    method CancelBoth(share: nat, now: Elapsed, later: Elapsed) returns (cancelled: bool)
      modifies sharing, Kept()
      ensures cancelled == S.Applies(old(sharing.View()), S.Cancel(share))
      ensures sharing.View() == S.Apply(old(sharing.View()), S.Cancel(share))
      ensures pending.Some? ==>
                var before, token := old(pending.value.View()), pending.value;
                && token.View() == (if !cancelled then before
                                    else if before.shareId == Some(share) then before.Apply(Touch, now).Apply(Cancel, later)
                                    else before.Apply(Touch, now))
                && token.strong == old(pending.value.strong)
    {
      cancelled := sharing.CancelShare(share);
      if cancelled && pending.Some? {
        var bound := pending.value.ReadShare(now);
        if bound == Some(share) {
          pending.value.CancelOffer(later);
        }
      }
    }

    method CancelShare(share: nat, now: Elapsed, later: Elapsed, ghost roster: seq<PendingConsent>, ghost s: I.System)
      returns (cancelled: bool)
      requires Shows(roster, s) && s.clock <= now <= later
      modifies sharing, Kept()
      ensures cancelled == S.Applies(s.sharing, S.Cancel(share))
      ensures Shows(roster, CancelCall(s, share, now, later))
    {
      CancelIs(s, share, now, later);
      cancelled := CancelBoth(share, now, later);
      if cancelled && pending.Some? {
        ghost var t := s.pending.value;
        OneSeen(roster, pending, s.cells, t, s.cells[t].(token := pending.value.View()));
      }
    }

    // Admission.

    /** An offer's reference goes. */
    method DropOffer(consent: PendingConsent, ghost roster: seq<PendingConsent>, ghost s: I.System, ghost t: nat)
      requires Shows(roster, s) && I.Holds(s, t) && t < |roster| && consent == roster[t]
      modifies consent
      ensures Shows(roster, I.DropReference(s, t))
    {
      consent.strong := consent.strong - 1;
    }

    /** A rejected offer is let go. */
    method RefuseOffer(consent: PendingConsent, now: Elapsed, ghost roster: seq<PendingConsent>, ghost s: I.System, ghost t: nat)
      requires Shows(roster, s) && I.Holds(s, t) && t < |roster| && consent == roster[t]
      modifies consent
      ensures Shows(roster, I.DropReference(I.Act(s, t, Reject(0), now), t))
    {
      var _ := consent.RejectShare(0, now);
      DropOffer(consent, roster, I.Act(s, t, Reject(0), now), t);
    }

    /** The shared state admits or refuses an offer, whose reference the caller still holds. */
    method AskState(consent: PendingConsent, now: Elapsed, nowPrior: Elapsed, nowToken: Elapsed,
                    ghost roster: seq<PendingConsent>, ghost s: I.System, ghost s': I.System, ghost t: nat, ghost expected: bool)
      returns (admitted: bool, closed: seq<V.Lease>)
      requires Shows(roster, s) && I.Holds(s, t) && t < |roster| && consent == roster[t] && KeepsOthers(s, s', t)
      requires Agreed(roster, visibility.View(), visibility.Upgrade().Some?, s, s', t, now, nowPrior, nowToken, expected)
      modifies visibility, consent, visibility.Watched()
      ensures admitted == expected && SameVisibility(roster, visibility.View(), s'.vis) && s'.closed == s.closed + multiset(closed)
      ensures SeenAs(consent, pending == Some(consent), s'.cells[t])
      ensures s.vis.pending.Some? ==> var w := s.vis.pending.value; SeenAs(roster[w], pending == Some(roster[w]), s'.cells[w])
    {
      admitted, closed := visibility.AdmitConsent(consent, now, nowPrior, nowToken);
    }

    method AskTokens(consent: PendingConsent, now: Elapsed, nowPrior: Elapsed, nowToken: Elapsed,
                     ghost roster: seq<PendingConsent>, ghost s: I.System, ghost s': I.System, ghost t: nat, ghost expected: bool)
      returns (admitted: bool, closed: seq<V.Lease>)
      requires Shows(roster, s) && I.Holds(s, t) && t < |roster| && consent == roster[t] && KeepsOthers(s, s', t)
      requires Agreed(roster, visibility.View(), visibility.Upgrade().Some?, s, s', t, now, nowPrior, nowToken, expected)
      modifies visibility, consent, visibility.Watched()
      ensures admitted == expected && Shows(roster, s') && s'.closed == s.closed + multiset(closed)
    {
      Unasked(roster, visibility.View(), s, t);
      admitted, closed := AskState(consent, now, nowPrior, nowToken, roster, s, s', t, expected);
      StillSeen(roster, pending, s, s', t);
    }

    method AskVisibility(consent: PendingConsent, now: Elapsed, nowPrior: Elapsed, nowToken: Elapsed,
                         ghost roster: seq<PendingConsent>, ghost s: I.System, ghost t: nat)
      returns (admitted: bool, closed: seq<V.Lease>)
      requires Shows(roster, s) && I.Holds(s, t) && t < |roster| && consent == roster[t]
      modifies visibility, consent, visibility.Watched()
      ensures var s' := Asked(s, t, now, nowPrior, nowToken);
              && admitted == I.AdmissionOf(s, t, now, nowPrior, nowToken).admitted
              && Shows(roster, s') && s'.closed == s.closed + multiset(closed)
    {
      AskedKeeps(s, t, now, nowPrior, nowToken);
      AskedAgrees(roster, visibility.View(), visibility.Upgrade().Some?, s, t, now, nowPrior, nowToken);
      admitted, closed := AskTokens(consent, now, nowPrior, nowToken, roster, s, Asked(s, t, now, nowPrior, nowToken), t,
                                    I.AdmissionOf(s, t, now, nowPrior, nowToken).admitted);
    }

    /** The daemon's reference moves from the token it kept, if any, to this one. */
    method KeepOffer(consent: PendingConsent, ghost roster: seq<PendingConsent>, ghost s: I.System, ghost t: nat)
      requires Shows(roster, s) && I.Holds(s, t) && t < |roster| && consent == roster[t]
      modifies this, Kept()
      ensures Shows(roster, I.DropReference(s, t).(pending := Some(t)))
    {
      if pending.Some? {
        pending.value.strong := pending.value.strong - 1;
      }
      pending := Some(consent);
    }

    method BindOffer(consent: PendingConsent, share: nat, now: Elapsed, ghost roster: seq<PendingConsent>, ghost s: I.System, ghost t: nat)
      requires Shows(roster, s) && I.Holds(s, t) && t < |roster| && consent == roster[t]
      modifies consent
      ensures Shows(roster, I.Act(s, t, Bind(share), now))
    {
      consent.BindShare(share, now);
    }

    /** The share of an admitted offer and its token, bound to each other; or the
        token rejected, when the peer is unknown. */
    method OfferShare(attachment: S.Attachment, peer: string, size: Option<nat>, consent: PendingConsent, now: Elapsed,
                      ghost roster: seq<PendingConsent>, ghost s: I.System, ghost t: nat)
      returns (id: Option<nat>)
      requires Shows(roster, s) && I.Holds(s, t) && t < |roster| && consent == roster[t]
      modifies this, sharing, consent, Kept()
      ensures var offer := S.OfferInbound(attachment, peer, size);
              && id == (if S.Applies(s.sharing, offer) then Some(s.sharing.nextId) else None)
              && Shows(roster, Paired(s, t, offer, now))
    {
      id := sharing.Offer(attachment, peer, size);
      ghost var s1 := s.(sharing := S.Apply(s.sharing, S.OfferInbound(attachment, peer, size)));
      assert Shows(roster, s1);
      if id.None? {
        RefuseOffer(consent, now, roster, s1, t);
      } else {
        BindOffer(consent, id.value, now, roster, s1, t);
        KeepOffer(consent, roster, I.Act(s1, t, Bind(id.value), now), t);
      }
    }

    /** `admit_inbound` with no live share in the way. */
    method AdmitOffer(attachment: S.Attachment, peer: string, size: Option<nat>, consent: PendingConsent,
                      now: Elapsed, nowPrior: Elapsed, nowToken: Elapsed, nowBind: Elapsed,
                      ghost roster: seq<PendingConsent>, ghost s: I.System, ghost t: nat)
      returns (id: Option<nat>, closed: seq<V.Lease>)
      requires Shows(roster, s) && I.Holds(s, t) && t < |roster| && consent == roster[t]
      modifies this, sharing, visibility, consent, visibility.Watched(), Kept()
      ensures var s1, offer := Asked(s, t, now, nowPrior, nowToken), S.OfferInbound(attachment, peer, size);
              && s1.closed == s.closed + multiset(closed)
              && (if I.AdmissionOf(s, t, now, nowPrior, nowToken).admitted
                  then Shows(roster, Paired(s1, t, offer, nowBind)) && id == (if S.Applies(s.sharing, offer) then Some(s.sharing.nextId) else None)
                  else Shows(roster, I.DropReference(s1, t)) && id.None?)
    {
      AskedKeeps(s, t, now, nowPrior, nowToken);
      ghost var s1 := Asked(s, t, now, nowPrior, nowToken);
      var allowed;
      allowed, closed := AskVisibility(consent, now, nowPrior, nowToken, roster, s, t);
      if allowed {
        id := OfferShare(attachment, peer, size, consent, nowBind, roster, s1, t);
      } else {
        DropOffer(consent, roster, s1, t);
        id := None;
      }
    }

    /** `admit_inbound`, which takes the offer's own reference: the share exists
        exactly when the token was admitted and the peer is known, and is then
        bound to the token, which the daemon keeps in place of any earlier one. */
    method AdmitInbound(attachment: S.Attachment, peer: string, size: Option<nat>, consent: PendingConsent,
                        now: Elapsed, nowPrior: Elapsed, nowToken: Elapsed, nowBind: Elapsed,
                        ghost roster: seq<PendingConsent>, ghost s: I.System, ghost t: nat)
      returns (id: Option<nat>, closed: seq<V.Lease>)
      requires Shows(roster, s) && s.clock <= now <= nowPrior <= nowToken <= nowBind
      requires I.Holds(s, t) && t < |roster| && consent == roster[t]
      modifies this, sharing, visibility, consent, visibility.Watched(), Kept()
      ensures var offer := S.OfferInbound(attachment, peer, size);
              var s' := AdmitCall(s, t, offer, now, nowPrior, nowToken, nowBind);
              && Shows(roster, s') && s'.closed == s.closed + multiset(closed)
              && (id.Some? <==> !s.sharing.HasActive() && I.AdmissionOf(s, t, now, nowPrior, nowToken).admitted && S.Applies(s.sharing, offer))
              && (id.Some? ==> id.value == s.sharing.nextId)
    {
      AdmitCallCloses(s, t, S.OfferInbound(attachment, peer, size), now, nowPrior, nowToken, nowBind);
      var active := HasActiveShare();
      if active {
        RefuseOffer(consent, now, roster, s, t);
        return None, [];
      }
      id, closed := AdmitOffer(attachment, peer, size, consent, now, nowPrior, nowToken, nowBind, roster, s, t);
    }
  }
}
