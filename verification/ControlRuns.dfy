/** The control thread's calls on the concurrent system's own state: each call that
    no other thread interrupts is a run of its steps. */
module ControlRuns {
  import opened Base
  import opened Consent
  import V = Visibility
  import S = Sharing
  import I = Inbound

  /** The moment of the last read of `sync_visibility`: an unbound token is read once. */
  ghost function Reading(s: I.System, now: Elapsed, later: Elapsed): Elapsed {
    if s.pending.Some? && s.pending.value in s.cells && s.cells[s.pending.value].token.shareId.Some? then later else now
  }

  lemma SyncIs(s: I.System, now: Elapsed, later: Elapsed)
    requires I.HeldToken(s).Some?
    ensures var t := s.pending.value;
            var share, read := s.cells[t].token.shareId, Reading(s, now, later);
            var token := s.cells[t].token.Apply(Touch, read);
            var sharing := if share.None? then s.sharing else I.Projected(s.sharing, share.value, token.outcome);
            I.Sync(s, read) ==
            s.(clock := read, cells := s.cells[t := s.cells[t].(token := token)], sharing := sharing,
               pending := if share.None? || I.Undecided(sharing, share.value) then s.pending else None)
  {
  }

  ghost function Polled(s: I.System, now: Elapsed): I.System {
    I.OnVisibility(s, V.Expire(s.vis, now), now)
  }

  ghost function Synced(s: I.System, polled: Elapsed, now: Elapsed, later: Elapsed): I.System {
    var s1 := Polled(s, polled);
    if I.HeldToken(s1).None? then s1 else I.Sync(s1, Reading(s1, now, later))
  }

  // What the steps of the concurrent system do where they are enabled.

  lemma PollStep(s: I.System, now: Elapsed)
    requires s.clock <= now
    ensures I.Next(s, I.Poll(now)) == Polled(s, now)
    ensures Polled(s, now).clock == now && Polled(s, now).control == s.control
  {
  }

  lemma SyncStep(s: I.System, now: Elapsed)
    requires s.clock <= now && s.control.Between?
    ensures I.Next(s, I.SyncConsent(now)) == if I.HeldToken(s).None? then s else I.Sync(s, now)
  {
  }

  lemma AcceptStep(s: I.System, share: nat, now: Elapsed)
    requires s.clock <= now && s.control.Between? && I.HeldToken(s).Some?
    ensures I.Next(s, I.AcceptPending(share, now)) == I.AcceptShare(s, share, now)
    ensures I.AcceptShare(s, share, now).clock <= now && I.AcceptShare(s, share, now).control.Between?
  {
  }

  lemma RejectStep(s: I.System, share: nat, now: Elapsed, decide: Elapsed)
    requires s.clock <= now <= decide && s.control.Between?
    ensures I.Next(s, I.RejectPending(share, now, decide)) ==
            if I.HeldToken(s).None? then s else I.RejectShare(s, share, now, decide)
    ensures I.HeldToken(s).Some? ==>
              I.RejectShare(s, share, now, decide).clock <= decide && I.RejectShare(s, share, now, decide).control.Between?
  {
  }

  /** Passive expiry, then one reading of the token. */
  lemma SyncIsARun(s: I.System, polled: Elapsed, now: Elapsed, later: Elapsed)
    requires s.control.Between? && s.clock <= polled <= now <= later
    ensures Synced(s, polled, now, later) == I.Next(I.Next(s, I.Poll(polled)), I.SyncConsent(Reading(Polled(s, polled), now, later)))
  {
    PollStep(s, polled);
    SyncStep(Polled(s, polled), Reading(Polled(s, polled), now, later));
  }

  ghost predicate Accepts(s: I.System, share: nat, now: Elapsed) {
    && s.sharing.Is(share) && s.sharing.active.value.phase.AwaitingLocalConsent?
    && I.HeldToken(s).Some? && s.cells[s.pending.value].token.Succeeds(Accept(share), now)
  }

  ghost function AcceptCall(s: I.System, share: nat, now: Elapsed, polled: Elapsed, read: Elapsed, later: Elapsed): I.System {
    if I.HeldToken(s).None? then s
    else
      var s1 := I.AcceptShare(s, share, now);
      if Accepts(s, share, now) then s1 else Synced(s1, polled, read, later)
  }

  /** Accepting is one step; a refusal is followed by a projection. */
  lemma AcceptIsARun(s: I.System, share: nat, now: Elapsed, polled: Elapsed, read: Elapsed, later: Elapsed)
    requires s.control.Between? && s.clock <= now <= polled <= read <= later && I.HeldToken(s).Some?
    ensures var s1 := I.Next(s, I.AcceptPending(share, now));
            AcceptCall(s, share, now, polled, read, later) ==
            if Accepts(s, share, now) then s1
            else I.Next(I.Next(s1, I.Poll(polled)), I.SyncConsent(Reading(Polled(s1, polled), read, later)))
  {
    AcceptStep(s, share, now);
    SyncIsARun(I.AcceptShare(s, share, now), polled, read, later);
  }

  /** Whether `reject_pending` finds its token bound to the share and undecided. */
  ghost predicate Decides(s: I.System, share: nat, now: Elapsed) {
    && I.HeldToken(s).Some?
    && s.cells[s.pending.value].token.shareId == Some(share)
    && s.cells[s.pending.value].token.Succeeds(Reject(share), now)
  }

  lemma RejectIs(s: I.System, share: nat, now: Elapsed, decide: Elapsed)
    requires I.HeldToken(s).Some? && now <= decide
    ensures var t := s.pending.value;
            var before := s.cells[t].token;
            var token := if before.shareId == Some(share) then before.Apply(Touch, now).Apply(Reject(share), decide)
                         else before.Apply(Touch, now);
            I.RejectShare(s, share, now, decide) ==
            s.(clock := if before.shareId == Some(share) then decide else now,
               cells := s.cells[t := s.cells[t].(token := token)],
               sharing := if Decides(s, share, decide) then S.Apply(s.sharing, S.RejectInbound(share)) else s.sharing)
  {
    var t := s.pending.value;
    UpdatedTwice(s.cells, t, s.cells[t].(token := s.cells[t].token.Apply(Touch, now)),
                 s.cells[t].(token := s.cells[t].token.Apply(Touch, now).Apply(Reject(share), decide)));
  }

  lemma UpdatedTwice(cells: map<nat, I.Cell>, t: nat, first: I.Cell, second: I.Cell)
    ensures cells[t := first][t := second] == cells[t := second]
  {
  }

  ghost function RejectCall(s: I.System, share: nat, now: Elapsed, decide: Elapsed, polled: Elapsed, read: Elapsed, later: Elapsed): I.System {
    var s1 := if I.HeldToken(s).None? then s else I.RejectShare(s, share, now, decide);
    if Decides(s, share, decide) then s1 else Synced(s1, polled, read, later)
  }

  lemma RejectIsARun(s: I.System, share: nat, now: Elapsed, decide: Elapsed, polled: Elapsed, read: Elapsed, later: Elapsed)
    requires s.control.Between? && s.clock <= now <= decide <= polled <= read <= later
    ensures var s1 := I.Next(s, I.RejectPending(share, now, decide));
            RejectCall(s, share, now, decide, polled, read, later) ==
            if Decides(s, share, decide) then s1
            else I.Next(I.Next(s1, I.Poll(polled)), I.SyncConsent(Reading(Polled(s1, polled), read, later)))
  {
    RejectStep(s, share, now, decide);
    if !Decides(s, share, decide) {
      SyncIsARun(I.Next(s, I.RejectPending(share, now, decide)), polled, read, later);
    }
  }

  ghost function CancelCall(s: I.System, share: nat, now: Elapsed, later: Elapsed): I.System {
    var s1 := I.CancelActive(s, share, now);
    if s1.control.Cancelling? && s1.control.token in s1.cells
    then I.Act(s1, s1.control.token, Cancel, later).(control := I.Between) else s1
  }

  lemma CancelIs(s: I.System, share: nat, now: Elapsed, later: Elapsed)
    requires s.control.Between?
    ensures !S.Applies(s.sharing, S.Cancel(share)) ==> CancelCall(s, share, now, later) == s
    ensures S.Applies(s.sharing, S.Cancel(share)) && I.HeldToken(s).None? ==>
              CancelCall(s, share, now, later) == s.(sharing := S.Apply(s.sharing, S.Cancel(share)))
    ensures S.Applies(s.sharing, S.Cancel(share)) && I.HeldToken(s).Some? ==>
              var t := s.pending.value;
              var before := s.cells[t].token;
              var bound := before.shareId == Some(share);
              CancelCall(s, share, now, later) ==
              s.(clock := if bound then later else now, sharing := S.Apply(s.sharing, S.Cancel(share)),
                 cells := s.cells[t := s.cells[t].(token := if bound then before.Apply(Touch, now).Apply(Cancel, later)
                                                            else before.Apply(Touch, now))])
  {
    if I.HeldToken(s).Some? {
      var t := s.pending.value;
      UpdatedTwice(s.cells, t, s.cells[t].(token := s.cells[t].token.Apply(Touch, now)),
                   s.cells[t].(token := s.cells[t].token.Apply(Touch, now).Apply(Cancel, later)));
    }
  }

  lemma CancelIsARun(s: I.System, share: nat, now: Elapsed, later: Elapsed)
    requires s.control.Between? && s.clock <= now <= later
    ensures CancelCall(s, share, now, later) == I.Next(I.Next(s, I.CancelShare(share, now)), I.CancelConsent(later))
  {
  }

  /** The token of the offer when its turn comes: reading the prior token's
      decision may have been reading its own. */
  ghost function TokenAsked(s: I.System, t: nat, now: Elapsed, nowPrior: Elapsed): Token
    requires t in s.cells
  {
    if I.ConsultsPrior(s, t, now) && s.vis.pending == Some(t) then s.cells[t].token.Apply(Touch, nowPrior) else s.cells[t].token
  }

  /** The shared state and the tokens after they were asked; no reference has moved. */
  ghost function Asked(s: I.System, t: nat, now: Elapsed, nowPrior: Elapsed, nowToken: Elapsed): I.System
    requires I.Holds(s, t)
  {
    var s1, a := I.AfterPrior(s, t, now, nowPrior), I.AdmissionOf(s, t, now, nowPrior, nowToken);
    s1.(clock := nowToken, vis := a.vis, closed := s.closed + multiset(a.closed), cells := s1.cells[t := s1.cells[t].(token := a.token)])
  }

  lemma AskedIs(s: I.System, t: nat, now: Elapsed, nowPrior: Elapsed, nowToken: Elapsed)
    requires I.Holds(s, t)
    ensures var consulted := I.ConsultsPrior(s, t, now);
            var p := if consulted then s.vis.pending.value else t;
            var prior := if consulted then Some(s.cells[p].token.Apply(Touch, nowPrior).outcome) else None;
            var a := V.AdmitOffer(s.vis, prior, TokenAsked(s, t, now, nowPrior), t, now, nowToken);
            var cells := if consulted then s.cells[p := s.cells[p].(token := s.cells[p].token.Apply(Touch, nowPrior))] else s.cells;
            && I.AdmissionOf(s, t, now, nowPrior, nowToken) == a
            && Asked(s, t, now, nowPrior, nowToken) ==
               s.(clock := nowToken, vis := a.vis, closed := s.closed + multiset(a.closed),
                  cells := cells[t := s.cells[t].(token := a.token)])
  {
  }

  ghost predicate KeepsOthers(s: I.System, s': I.System, t: nat) {
    && s'.control == s.control && s'.sharing == s.sharing && s'.pending == s.pending && s'.cells.Keys == s.cells.Keys
    && (forall k :: k in s.cells ==> s'.cells[k].others == s.cells[k].others)
    && (forall k :: k in s.cells && k != t && s.vis.pending != Some(k) ==> s'.cells[k] == s.cells[k])
  }

  /** Asking touches the offer's token and the weakly held one, and no reference. */
  lemma AskedKeeps(s: I.System, t: nat, now: Elapsed, nowPrior: Elapsed, nowToken: Elapsed)
    requires I.Holds(s, t)
    ensures KeepsOthers(s, Asked(s, t, now, nowPrior, nowToken), t)
  {
  }

  /** An admitted offer's reference moves to the daemon with its share, or goes. */
  ghost function Paired(s: I.System, t: nat, offer: S.Op, now: Elapsed): I.System
    requires I.Holds(s, t)
  {
    var s1 := s.(sharing := S.Apply(s.sharing, offer));
    if S.Applies(s.sharing, offer) then I.DropReference(I.Act(s1, t, Bind(s.sharing.nextId), now), t).(pending := Some(t))
    else I.DropReference(I.Act(s1, t, Reject(0), now), t)
  }

  ghost function AdmitCall(s: I.System, t: nat, offer: S.Op, now: Elapsed, nowPrior: Elapsed, nowToken: Elapsed, nowBind: Elapsed): I.System
    requires I.Holds(s, t)
  {
    if s.sharing.HasActive() then I.DropReference(I.Act(s, t, Reject(0), now), t)
    else
      var s1 := Asked(s, t, now, nowPrior, nowToken);
      if I.AdmissionOf(s, t, now, nowPrior, nowToken).admitted then Paired(s1, t, offer, nowBind)
      else I.DropReference(s1, t)
  }

  lemma AdmitCallCloses(s: I.System, t: nat, offer: S.Op, now: Elapsed, nowPrior: Elapsed, nowToken: Elapsed, nowBind: Elapsed)
    requires I.Holds(s, t)
    ensures AdmitCall(s, t, offer, now, nowPrior, nowToken, nowBind).closed ==
            if s.sharing.HasActive() then s.closed else Asked(s, t, now, nowPrior, nowToken).closed
  {
  }

  /** The concurrent admission step moves the reference at once; nothing in between
      can tell. */
  lemma AdmissionStep(s: I.System, t: nat, offer: S.Op, now: Elapsed, nowPrior: Elapsed, nowToken: Elapsed)
    requires I.Holds(s, t)
    ensures var s1 := I.DropReference(Asked(s, t, now, nowPrior, nowToken), t);
            I.AdmitInbound(s, t, offer, now, nowPrior, nowToken) ==
            if !I.AdmissionOf(s, t, now, nowPrior, nowToken).admitted then s1
            else if S.Applies(s.sharing, offer)
            then s1.(sharing := S.Apply(s.sharing, offer), control := I.Binding(t, s.sharing.nextId))
            else s1.(control := I.Discarding(t))
  {
    var s1, a := I.AfterPrior(s, t, now, nowPrior), I.AdmissionOf(s, t, now, nowPrior, nowToken);
    UpdatedTwice(s1.cells, t, s1.cells[t].(token := a.token), I.Cell(a.token, s1.cells[t].others - 1));
  }

  lemma DropCommutes(s: I.System, t: nat, action: Action, now: Elapsed)
    requires I.Holds(s, t)
    ensures I.Act(I.DropReference(s, t), t, action, now) == I.DropReference(I.Act(s, t, action, now), t)
  {
    var cell := s.cells[t];
    var token := cell.token.Apply(action, now);
    UpdatedTwice(s.cells, t, cell.(others := cell.others - 1), I.Cell(token, cell.others - 1));
    UpdatedTwice(s.cells, t, cell.(token := token), I.Cell(token, cell.others - 1));
  }

  lemma BoundNext(s: I.System, t: nat, share: nat, now: Elapsed)
    requires t in s.cells && s.clock <= now
    ensures I.Next(I.Next(s.(control := I.Binding(t, share)), I.BindOffer(now)), I.DiscardOffer(now)) ==
            I.Act(s, t, Bind(share), now).(pending := Some(t), control := I.Between)
  {
  }

  lemma DiscardedNext(s: I.System, t: nat, now: Elapsed)
    requires t in s.cells && s.clock <= now
    ensures I.Next(I.Next(s.(control := I.Discarding(t)), I.BindOffer(now)), I.DiscardOffer(now)) ==
            I.Act(s, t, Reject(0), now).(control := I.Between)
  {
  }

  lemma IdleNext(s: I.System, now: Elapsed)
    requires s.control.Between?
    ensures I.Next(I.Next(s, I.BindOffer(now)), I.DiscardOffer(now)) == s
  {
  }

  lemma RefusalStep(s: I.System, t: nat, now: Elapsed)
    requires I.Holds(s, t) && s.control.Between? && s.clock <= now && s.sharing.HasActive()
    ensures I.Next(s, I.OfferRefused(t, now)) == I.DropReference(I.Act(s, t, Reject(0), now), t)
  {
  }

  lemma OfferStep(s: I.System, t: nat, attachment: S.Attachment, peer: string, size: Option<nat>,
                  now: Elapsed, nowPrior: Elapsed, nowToken: Elapsed)
    requires I.Holds(s, t) && s.control.Between? && s.clock <= now <= nowPrior <= nowToken && !s.sharing.HasActive()
    ensures I.Next(s, I.OfferAdmitted(t, attachment, peer, size, now, nowPrior, nowToken)) ==
            I.AdmitInbound(s, t, S.OfferInbound(attachment, peer, size), now, nowPrior, nowToken)
  {
  }

  /** One refusal; or an admission, then its binding or its dismissal, whichever
      the admission left to do. */
  lemma AdmitIsARun(s: I.System, t: nat, attachment: S.Attachment, peer: string, size: Option<nat>,
                    now: Elapsed, nowPrior: Elapsed, nowToken: Elapsed, nowBind: Elapsed)
    requires I.Holds(s, t) && s.control.Between? && s.clock <= now <= nowPrior <= nowToken <= nowBind
    ensures var offer := S.OfferInbound(attachment, peer, size);
            var s1 := I.Next(s, I.OfferAdmitted(t, attachment, peer, size, now, nowPrior, nowToken));
            AdmitCall(s, t, offer, now, nowPrior, nowToken, nowBind) ==
            if s.sharing.HasActive() then I.Next(s, I.OfferRefused(t, now))
            else I.Next(I.Next(s1, I.BindOffer(nowBind)), I.DiscardOffer(nowBind))
  {
    if s.sharing.HasActive() {
      RefusalStep(s, t, now);
    } else {
      var offer := S.OfferInbound(attachment, peer, size);
      var s1 := I.AdmitInbound(s, t, offer, now, nowPrior, nowToken);
      OfferStep(s, t, attachment, peer, size, now, nowPrior, nowToken);
      AdmissionStep(s, t, offer, now, nowPrior, nowToken);
      AdmissionRun(s, t, offer, s1, now, nowPrior, nowToken, nowBind);
    }
  }

  /** What the admission left to do, and that it is done. */
  lemma AdmissionRun(s: I.System, t: nat, offer: S.Op, s1: I.System, now: Elapsed, nowPrior: Elapsed, nowToken: Elapsed, nowBind: Elapsed)
    requires I.Holds(s, t) && s.control.Between? && !s.sharing.HasActive() && nowToken <= nowBind
    requires var s2 := I.DropReference(Asked(s, t, now, nowPrior, nowToken), t);
             s1 == if !I.AdmissionOf(s, t, now, nowPrior, nowToken).admitted then s2
                   else if S.Applies(s.sharing, offer)
                   then s2.(sharing := S.Apply(s.sharing, offer), control := I.Binding(t, s.sharing.nextId))
                   else s2.(control := I.Discarding(t))
    ensures AdmitCall(s, t, offer, now, nowPrior, nowToken, nowBind) == I.Next(I.Next(s1, I.BindOffer(nowBind)), I.DiscardOffer(nowBind))
  {
    var s2 := Asked(s, t, now, nowPrior, nowToken);
    if !I.AdmissionOf(s, t, now, nowPrior, nowToken).admitted {
      IdleNext(s1, nowBind);
    } else if S.Applies(s.sharing, offer) {
      PairedRun(s2, t, offer, nowBind);
    } else {
      DiscardedRun(s2, t, offer, nowBind);
    }
  }

  lemma PairedRun(s: I.System, t: nat, offer: S.Op, now: Elapsed)
    requires I.Holds(s, t) && s.control.Between? && s.clock <= now && S.Applies(s.sharing, offer)
    ensures var s1 := I.DropReference(s, t).(sharing := S.Apply(s.sharing, offer), control := I.Binding(t, s.sharing.nextId));
            I.Next(I.Next(s1, I.BindOffer(now)), I.DiscardOffer(now)) == Paired(s, t, offer, now)
  {
    var s1 := s.(sharing := S.Apply(s.sharing, offer));
    BoundNext(I.DropReference(s1, t), t, s.sharing.nextId, now);
    DropCommutes(s1, t, Bind(s.sharing.nextId), now);
  }

  lemma DiscardedRun(s: I.System, t: nat, offer: S.Op, now: Elapsed)
    requires I.Holds(s, t) && s.control.Between? && s.clock <= now && !S.Applies(s.sharing, offer)
    ensures I.Next(I.Next(I.DropReference(s, t).(control := I.Discarding(t)), I.BindOffer(now)), I.DiscardOffer(now)) ==
            Paired(s, t, offer, now)
  {
    DiscardedNext(I.DropReference(s, t), t, now);
    DropCommutes(s, t, Reject(0), now);
  }
}
