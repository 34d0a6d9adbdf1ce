/** What each visibility operation leaves, to the caller: the state, the leases it
    hands back, whether the admitted offer is cancelled, and what to activate. */
module VisibilityLaws {
  import opened Base
  import opened Consent
  import opened Visibility

  /** A state no operation has to expire first, with generations left. */
  predicate Ready<T>(v: Vis<T>, now: Elapsed) {
    v.Valid() && !v.poisoned && v.generation < 18_446_744_073_709_551_615 && !(v.deadline.Some? && now >= v.deadline.value)
  }

  /** Nothing requested: a request starts the next generation, for the caller to activate. */
  lemma RequestStarts<T>(v: Vis<T>, now: Elapsed)
    requires Ready(v, now) && !v.requested
    ensures var e := RequestOpen(v, now);
            && e.vis.phase == Starting && e.vis.requested && e.vis.generation == v.generation + 1
            && e.vis.deadline == None && e.vis.lease == None && e.vis.policy == v.policy && e.vis.pending == v.pending
            && e.activation == Some(v.generation + 1) && e.closed == [] && !e.cancels && !e.vis.poisoned
  {
  }

  /** Turning the durable policy on starts a generation too, or makes the one that
      is starting or open durable. */
  lemma PolicyOnStarts<T>(v: Vis<T>, now: Elapsed)
    requires Ready(v, now) && !v.policy
    ensures var e := SetPolicy(v, true, now);
            && e.vis.policy && e.vis.requested && e.vis.deadline == None && e.vis.pending == v.pending
            && e.closed == [] && !e.cancels && !e.vis.poisoned && e.vis.lease == v.lease
            && (if v.requested
                then e.vis.generation == v.generation && e.vis.phase == v.phase && e.activation == None
                else e.vis.generation == v.generation + 1 && e.vis.phase == Starting && e.activation == Some(v.generation + 1))
  {
  }

  /** Turning it off, and closing, withdraw permission: the lease goes back, a new
      generation begins, and the admitted offer is cancelled. */
  lemma WithdrawalCloses<T>(v: Vis<T>, now: Elapsed)
    requires Ready(v, now)
    ensures var e := Close(v, now);
            && e.vis.phase == Closed && !e.vis.requested && e.vis.generation == v.generation + 1 && e.vis.policy == v.policy
            && e.vis.deadline == None && e.vis.lease == None && e.vis.pending == v.pending && !e.vis.poisoned
            && e.closed == (if v.lease.Some? then [v.lease.value] else []) && e.cancels && e.activation == None
    ensures v.policy ==> SetPolicy(v, false, now) == Close(v, now).(vis := Close(v, now).vis.(policy := false))
  {
  }

  /** Setting the policy it already has changes nothing. */
  lemma SamePolicyIsInert<T>(v: Vis<T>, now: Elapsed)
    requires Ready(v, now)
    ensures SetPolicy(v, v.policy, now) == Effect(v, [], false, None)
  {
  }

  /** The temporary deadline closes the endpoint and hands the lease back, but leaves
      the admitted offer alone. */
  lemma ExpiryCloses<T>(v: Vis<T>, now: Elapsed)
    requires v.Valid() && !v.poisoned && v.generation < 18_446_744_073_709_551_615
    requires v.deadline.Some? && now >= v.deadline.value
    ensures var e := Expire(v, now);
            && e.vis == v.(generation := v.generation + 1, requested := false, phase := Closed, deadline := None, lease := None)
            && e.closed == (if v.lease.Some? then [v.lease.value] else []) && !e.cancels && e.activation == None
  {
  }

  function Earlier(a: Elapsed, b: Elapsed): Elapsed {
    if a <= b then a else b
  }

  /** The awaited activation opens the endpoint under its lease, for ten minutes or
      for good; a failed one leaves it unavailable and nothing requested. */
  lemma ActivationOpens<T>(v: Vis<T>, result: Result<Lease, string>, now: Elapsed)
    requires Ready(v, now) && v.phase == Starting
    ensures var e := CompleteActivation(v, v.generation, result, now);
            && e.vis.generation == v.generation && e.vis.policy == v.policy && e.vis.pending == v.pending && !e.vis.poisoned
            && !e.cancels && e.activation == None && e.closed == []
            && (result.Ok? ==>
                  && e.vis.phase == Open && e.vis.requested && e.vis.lease == Some(result.value)
                  && e.vis.deadline == if v.policy then None else Some(Earlier(now + 600_000_000_000, 18_446_744_073_709_551_615_999_999_999)))
            && (result.Err? ==> e.vis.phase == Unavailable && !e.vis.requested && e.vis.lease == None && e.vis.deadline == None)
  {
  }

  /** Any other result changes nothing, and its lease goes straight back. */
  lemma UnwantedActivationIsReturned<T>(v: Vis<T>, generation: nat, result: Result<Lease, string>, now: Elapsed)
    requires Ready(v, now) && (v.generation != generation || v.phase != Starting)
    ensures CompleteActivation(v, generation, result, now) == Effect(v, if result.Ok? then [result.value] else [], false, None)
  {
  }

  /** The last generation cannot be left: the panic poisons the lock, and every
      later call finds it so. */
  lemma ExhaustionPoisons<T>(v: Vis<T>, now: Elapsed, policy: bool, result: Result<Lease, string>)
    requires v.Valid() && v.generation == 18_446_744_073_709_551_615 && !v.poisoned
    ensures Close(v, now) == Effect(v.(poisoned := true), [], false, None)
    ensures !v.requested ==> RequestOpen(v, now) == Effect(v.(poisoned := true), [], false, None)
    ensures var w := v.(poisoned := true);
            && RequestOpen(w, now) == Effect(w, [], false, None) && Close(w, now) == Effect(w, [], false, None)
            && SetPolicy(w, policy, now) == Effect(w, [], false, None)
            && CompleteActivation(w, w.generation, result, now).vis == w
  {
  }

  /** Request, activate, close: the endpoint is as before but for two generations,
      and the lease it was given is the one handed back. */
  lemma OpeningAndClosing<T>(v: Vis<T>, lease: Lease, now: Elapsed)
    requires Ready(v, now) && !v.requested && v.generation + 2 <= 18_446_744_073_709_551_615
    requires v.phase == Closed && now < 18_446_744_073_709_551_615_999_999_999
    ensures var e1 := RequestOpen(v, now);
            var e2 := CompleteActivation(e1.vis, v.generation + 1, Ok(lease), now);
            var e3 := Close(e2.vis, now);
            e2.vis.phase == Open && e3.closed == [lease] && e3.vis == v.(generation := v.generation + 2)
  {
    RequestStarts(v, now);
    ActivationOpens(RequestOpen(v, now).vis, Ok(lease), now);
  }

  /** An offer is refused by the state, or because an earlier one is admitted or
      accepted: it is then rejected without a share. Otherwise its own deadline or
      decision refused it, and it is left as that makes it. */
  lemma RefusalDecides<T>(v: Vis<T>, prior: Option<Outcome>, token: Token, reference: T, now: Elapsed, nowToken: Elapsed)
    requires Ready(v, now)
    ensures var a := AdmitOffer(v, prior, token, reference, now, nowToken);
            var permits := v.phase == Open && v.generation == token.generation;
            var busy := prior.Some? && (prior.value == Pending || prior.value.Accepted?);
            && (a.admitted <==> permits && !busy && token.outcome == Offered && nowToken < token.deadline)
            && (!permits || busy ==> a.token == token.Apply(Reject(0), nowToken))
            && (permits && !busy && !a.admitted ==> a.token == token.Apply(Touch, nowToken))
            && (a.admitted ==> a.token == token.(outcome := Pending) && a.vis == v.(pending := Some(reference)))
            && (!a.admitted ==> a.vis == v)
  {
  }
}
