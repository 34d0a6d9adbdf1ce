/** Permission to receive: the generation-stamped state every thread updates
    under one lock, its temporary deadline and the listener lease it owns. */
module Visibility {
  import opened Base
  import opened Consent

  /** Identity of one `Resources` value: the published listeners of one activation. */
  type Lease = nat

  const TEMPORARY_LIFETIME: Elapsed := 600 * SECOND

  datatype Phase = Closed | Open | Starting | Unavailable

  /** The locked state. `T` is how the weak reference names a token. A poisoned
      lock stands for the panic that generation exhaustion raises while the
      lock is held: every later call panics too. */
  datatype Vis<T> = Vis(
    generation: nat,
    policy: bool,
    requested: bool,
    phase: Phase,
    deadline: Option<Elapsed>,
    lease: Option<Lease>,
    pending: Option<T>,
    poisoned: bool)
  {
    /** What every reachable state satisfies. */
    predicate Valid() {
      && generation <= U64_MAX
      && (!poisoned ==>
            && (lease.Some? <==> phase == Open)
            && (requested <==> phase == Starting || phase == Open)
            && (deadline.Some? <==> phase == Open && !policy))
      && (lease.Some? ==> phase == Open)
    }

    predicate Expired(now: Elapsed) {
      !poisoned && deadline.Some? && now >= deadline.value
    }

    /** Open for offers of exactly this generation. */
    predicate Permits(token: nat) {
      !poisoned && phase == Open && requested && generation == token
    }
  }

  /** What one locked operation does: the new state, the leases it hands to
      `Resources::close`, whether it cancels the admitted offer, and the
      generation of an activation the caller must now start. */
  datatype Effect<T> = Effect(
    vis: Vis<T>,
    closed: seq<Lease>,
    cancels: bool,
    activation: Option<nat>)

  function Leases(lease: Option<Lease>): seq<Lease> {
    if lease.Some? then [lease.value] else []
  }

  function Initial<T>(): (v: Vis<T>)
    ensures v.Valid()
  {
    Vis(0, false, false, Closed, None, None, None, false)
  }

  /** `State::revoke`. */
  function Revoke<T>(v: Vis<T>, explicit: bool): (e: Effect<T>)
  {
    if v.generation >= U64_MAX then
      Effect(v.(poisoned := true), [], false, None)
    else
      Effect(
        v.(generation := v.generation + 1, requested := false, phase := Closed, deadline := None, lease := None),
        Leases(v.lease), explicit, None)
  }

  /** `State::request`. */
  function Request<T>(v: Vis<T>): (e: Effect<T>)
  {
    if v.requested then
      Effect(v, [], false, None)
    else if v.generation >= U64_MAX then
      Effect(v.(poisoned := true), [], false, None)
    else
      Effect(v.(generation := v.generation + 1, requested := true, phase := Starting, deadline := None),
             [], false, Some(v.generation + 1))
  }

  /** The lazy expiry that opens every `Visibility::update`. */
  function Expire<T>(v: Vis<T>, now: Elapsed): (e: Effect<T>)
    ensures v.Valid() ==> e.vis.Valid()
    ensures !e.cancels && e.vis.pending == v.pending && e.vis.policy == v.policy
    ensures e.vis.generation >= v.generation
    ensures !v.Expired(now) ==> e == Effect(v, [], false, None)
    ensures v.Expired(now) && !e.vis.poisoned ==> e.vis.generation > v.generation && e.vis.phase == Closed
  {
    if v.Expired(now) then Revoke(v, false) else Effect(v, [], false, None)
  }

  /** Runs `second` after the effects already gathered in `first`. */
  function After<T>(first: Effect<T>, second: Effect<T>): Effect<T> {
    Effect(second.vis, first.closed + second.closed, second.cancels, second.activation)
  }

  /** `Visibility::request_open`: a repeated request is a no-op. */
  function RequestOpen<T>(v: Vis<T>, now: Elapsed): (e: Effect<T>)
    ensures v.Valid() ==> e.vis.Valid()
    ensures v.requested && !v.Expired(now) ==> e == Effect(v, [], false, None)
  {
    var first := Expire(v, now);
    if first.vis.poisoned then first else After(first, Request(first.vis))
  }

  /** `Visibility::set_policy`. */
  function SetPolicy<T>(v: Vis<T>, policy: bool, now: Elapsed): (e: Effect<T>)
    ensures v.Valid() ==> e.vis.Valid()
  {
    var first := Expire(v, now);
    var current := first.vis;
    if current.poisoned || current.policy == policy then
      first
    else if policy then
      After(first, Request(current.(policy := true, deadline := None)))
    else
      After(first, Revoke(current.(policy := false), true))
  }

  /** `Visibility::close`. */
  function Close<T>(v: Vis<T>, now: Elapsed): (e: Effect<T>)
    ensures v.Valid() ==> e.vis.Valid()
  {
    var first := Expire(v, now);
    if first.vis.poisoned then first else After(first, Revoke(first.vis, true))
  }

  /** Whether `generation` is still the activation being waited for. */
  predicate Awaited<T>(v: Vis<T>, generation: nat) {
    v.generation == generation && v.requested && v.phase == Starting
  }

  /** `Visibility::complete_activation`: a lease that is no longer wanted, or
      that a panic drops, is closed. */
  function CompleteActivation<T>(v: Vis<T>, generation: nat, result: Result<Lease, string>, now: Elapsed): (e: Effect<T>)
    ensures v.Valid() ==> e.vis.Valid()
  {
    var first := Expire(v, now);
    var current := first.vis;
    if current.poisoned || !Awaited(current, generation) then
      After(first, Effect(current, if result.Ok? then [result.value] else [], false, None))
    else if result.Ok? then
      After(first, Effect(
        current.(lease := Some(result.value), phase := Open,
                 deadline := if current.policy then None else Some(SaturatingAdd(now, TEMPORARY_LIFETIME))),
        [], false, None))
    else
      After(first, Effect(current.(requested := false, phase := Unavailable), [], false, None))
  }

  /** A stale generation's result changes nothing but expiry: not the phase, the
      permission or the held lease. */
  lemma StaleActivationIsInert<T>(v: Vis<T>, generation: nat, result: Result<Lease, string>, now: Elapsed)
    requires v.Valid() && v.generation != generation
    requires generation <= v.generation
    ensures CompleteActivation(v, generation, result, now).vis == Expire(v, now).vis
    ensures result.Ok? ==> result.value in CompleteActivation(v, generation, result, now).closed
  {
    var first := Expire(v, now);
    var last := if result.Ok? then [result.value] else [];
    assert CompleteActivation(v, generation, result, now).closed == first.closed + last;
    if result.Ok? {
      assert (first.closed + last)[|first.closed|] == result.value;
    }
  }

  /** `Visibility::propose` succeeds exactly under the current open generation. */
  predicate Proposes<T>(v: Vis<T>, generation: nat, now: Elapsed) {
    Expire(v, now).vis.Permits(generation)
  }

  datatype Admission<T> = Admission(vis: Vis<T>, closed: seq<Lease>, token: Token, admitted: bool)

  /** `Visibility::admit`. `prior` is the decision read through the weak
      reference, absent when it no longer upgrades; it is consulted only once the
      state permits the token's generation. */
  function AdmitOffer<T>(v: Vis<T>, prior: Option<Outcome>, token: Token, reference: T,
                         now: Elapsed, nowToken: Elapsed): (a: Admission<T>)
    ensures v.Valid() ==> a.vis.Valid()
    ensures a.admitted <==>
            && Proposes(v, token.generation, now)
            && !(prior.Some? && prior.value.Busy())
            && token.outcome.Offered? && nowToken < token.deadline
    ensures a.admitted ==> a.token == token.(outcome := Pending) && a.vis == v.(pending := Some(reference))
    ensures a.closed == Expire(v, now).closed
    ensures !a.admitted ==>
              && a.vis == Expire(v, now).vis
              && a.token in {token, token.Apply(Reject(0), nowToken), token.Apply(Touch, nowToken)}
  {
    var first := Expire(v, now);
    var current := first.vis;
    if current.poisoned then
      Admission(current, first.closed, token, false)
    else if !current.Permits(token.generation) || (prior.Some? && prior.value.Busy()) then
      Admission(current, first.closed, token.Apply(Reject(0), nowToken), false)
    else if !token.Succeeds(Admit, nowToken) then
      Admission(current, first.closed, token.Apply(Admit, nowToken), false)
    else
      Admission(current.(pending := Some(reference)), first.closed, token.Apply(Admit, nowToken), true)
  }

  /** The shared, lock-protected object. Each method is one lock acquisition;
      it returns the leases it hands to `Resources::close`. */
  class SharedVisibility {
    var generation: nat
    var policy: bool
    var requested: bool
    var phase: Phase
    var deadline: Option<Elapsed>
    var lease: Option<Lease>
    /** Weak: it keeps nothing alive. */
    var pending: Option<PendingConsent>
    var poisoned: bool

    function View(): Vis<PendingConsent>
      reads this
    {
      Vis(generation, policy, requested, phase, deadline, lease, pending, poisoned)
    }

    /** The token a weak upgrade would yield. */
    function Upgrade(): Option<PendingConsent>
      reads this, Watched()
    {
      if pending.Some? && pending.value.strong > 0 then pending else None
    }

    function Watched(): set<PendingConsent>
      reads this
    {
      if pending.Some? then {pending.value} else {}
    }

    constructor ()
      ensures View() == Initial()
    {
      generation, policy, requested, phase := 0, false, false, Closed;
      deadline, lease, pending, poisoned := None, None, None, false;
    }

    /** The field updates of `State::revoke`. */
    method WithdrawPermission() returns (closed: seq<Lease>)
      modifies this
      ensures View() == Revoke(old(View()), false).vis && closed == Revoke(old(View()), false).closed
    {
      if generation >= U64_MAX {
        poisoned := true;
        return [];
      }
      generation := generation + 1;
      requested := false;
      phase := Closed;
      deadline := None;
      closed := Leases(lease);
      lease := None;
    }

    /** An explicit `State::revoke` also cancels the admitted offer if it is still alive. */
    method RevokeExplicitly(nowToken: Elapsed) returns (closed: seq<Lease>)
      requires !poisoned
      modifies this, Watched()
      ensures View() == Revoke(old(View()), true).vis && closed == Revoke(old(View()), true).closed
      ensures pending.Some? ==>
                && pending.value.strong == old(pending.value.strong)
                && pending.value.View() ==
                     if Revoke(old(View()), true).cancels && old(Upgrade()).Some?
                     then old(pending.value.View()).Apply(Cancel, nowToken)
                     else old(pending.value.View())
    {
      closed := WithdrawPermission();
      if !poisoned && pending.Some? && pending.value.strong > 0 {
        pending.value.CancelOffer(nowToken);
      }
    }

    /** `State::request`. */
    method RequestState() returns (activation: Option<nat>)
      modifies this
      ensures View() == Request(old(View())).vis && activation == Request(old(View())).activation
    {
      if requested {
        return None;
      }
      if generation >= U64_MAX {
        poisoned := true;
        return None;
      }
      generation := generation + 1;
      requested := true;
      phase := Starting;
      deadline := None;
      return Some(generation);
    }

    /** The opening of `Visibility::update`. Passive expiry touches no token. */
    method ExpireState(now: Elapsed) returns (closed: seq<Lease>)
      modifies this
      ensures View() == Expire(old(View()), now).vis && closed == Expire(old(View()), now).closed
    {
      closed := [];
      if !poisoned && deadline.Some? && now >= deadline.value {
        closed := WithdrawPermission();
      }
    }

    method OpenTemporarily(now: Elapsed) returns (activation: Option<nat>, closed: seq<Lease>)
      modifies this
      ensures var e := RequestOpen(old(View()), now);
              View() == e.vis && activation == e.activation && closed == e.closed
    {
      closed := ExpireState(now);
      activation := None;
      if !poisoned {
        activation := RequestState();
      }
    }

    method ChangePolicy(newPolicy: bool, now: Elapsed, nowToken: Elapsed)
      returns (activation: Option<nat>, closed: seq<Lease>)
      modifies this, Watched()
      ensures var e := SetPolicy(old(View()), newPolicy, now);
              View() == e.vis && activation == e.activation && closed == e.closed
      ensures pending == old(pending)
      ensures pending.Some? ==>
                && pending.value.strong == old(pending.value.strong)
                && pending.value.View() ==
                     if SetPolicy(old(View()), newPolicy, now).cancels && old(Upgrade()).Some?
                     then old(pending.value.View()).Apply(Cancel, nowToken)
                     else old(pending.value.View())
    {
      closed := ExpireState(now);
      activation := None;
      if poisoned || policy == newPolicy {
        return;
      }
      policy := newPolicy;
      if newPolicy {
        deadline := None;
        activation := RequestState();
      } else {
        var released := RevokeExplicitly(nowToken);
        closed := closed + released;
      }
    }

    method CloseNow(now: Elapsed, nowToken: Elapsed) returns (closed: seq<Lease>)
      modifies this, Watched()
      ensures View() == Close(old(View()), now).vis && closed == Close(old(View()), now).closed
      ensures pending == old(pending)
      ensures pending.Some? ==>
                && pending.value.strong == old(pending.value.strong)
                && pending.value.View() ==
                     if Close(old(View()), now).cancels && old(Upgrade()).Some?
                     then old(pending.value.View()).Apply(Cancel, nowToken)
                     else old(pending.value.View())
    {
      closed := ExpireState(now);
      if !poisoned {
        var released := RevokeExplicitly(nowToken);
        closed := closed + released;
      }
    }

    method FinishActivation(activation: nat, result: Result<Lease, string>, now: Elapsed)
      returns (closed: seq<Lease>)
      modifies this
      ensures var e := CompleteActivation(old(View()), activation, result, now);
              View() == e.vis && closed == e.closed
    {
      closed := ExpireState(now);
      if poisoned || generation != activation || !requested || phase != Starting {
        if result.Ok? {
          closed := closed + [result.value];
        }
        return;
      }
      match result
      case Ok(resources) =>
        lease := Some(resources);
        phase := Open;
        deadline := if policy then None else Some(SaturatingAdd(now, TEMPORARY_LIFETIME));
      case Err(_) =>
        requested := false;
        phase := Unavailable;
    }

    method ProposeOffer(current: nat, timeout: Elapsed, now: Elapsed, nowToken: Elapsed)
      returns (token: PendingConsent?, closed: seq<Lease>)
      modifies this
      ensures View() == Expire(old(View()), now).vis && closed == Expire(old(View()), now).closed
      ensures token != null <==> Proposes(old(View()), current, now)
      ensures token != null ==>
                fresh(token) && token.strong == 1 && token.View() == NewToken(current, timeout, nowToken)
    {
      closed := ExpireState(now);
      token := null;
      if !poisoned && phase == Open && requested && generation == current {
        token := new PendingConsent(current, timeout, nowToken);
      }
    }

    /** The offer's own reference keeps it alive across the call. */
    method AdmitConsent(token: PendingConsent, now: Elapsed, nowPrior: Elapsed, nowToken: Elapsed)
      returns (admitted: bool, closed: seq<Lease>)
      modifies this, token, Watched()
      ensures var consulted := Proposes(old(View()), token.generation, now) && old(Upgrade()).Some?;
              var prior := if consulted then Some(old(pending.value.View()).Apply(Touch, nowPrior)) else None;
              var offered := if consulted && old(pending) == Some(token) then prior.value else old(token.View());
              var a := AdmitOffer(old(View()), if consulted then Some(prior.value.outcome) else None,
                                  offered, token, now, nowToken);
              && View() == a.vis && closed == a.closed && admitted == a.admitted
              && token.View() == a.token && token.strong == old(token.strong)
              && (old(pending).Some? && old(pending) != Some(token) ==>
                    && old(pending).value.strong == old(pending.value.strong)
                    && old(pending).value.View() == if consulted then prior.value else old(pending.value.View()))
    {
      closed := ExpireState(now);
      if poisoned {
        return false, closed;
      }
      var allowed := phase == Open && requested && generation == token.generation;
      if allowed && pending.Some? && pending.value.strong > 0 {
        var decided := pending.value.ReadOutcome(nowPrior);
        allowed := !decided.Busy();
      }
      if !allowed {
        var _ := token.RejectShare(0, nowToken);
        return false, closed;
      }
      admitted := token.AdmitOffer(nowToken);
      if admitted {
        pending := Some(token);
      }
    }
  }
}
