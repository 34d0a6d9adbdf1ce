/** One inbound offer's decision: a lock-protected cell whose boot-clock
    deadline is applied lazily, on every access. */
module Consent {
  import opened Base

  datatype Outcome =
    | Offered
    | Pending
    | Accepted(share: nat)
    | Rejected(share: nat)
    | Cancelled
    | TimedOut
    | Failed(reason: string)
  {
    predicate Undecided() {
      Offered? || Pending?
    }

    /** The outcomes that keep a later offer from being admitted. */
    predicate Busy() {
      Pending? || Accepted?
    }
  }

  /** The critical sections of the token. */
  datatype Action =
    | Touch
    | Admit
    | Bind(share: nat)
    | Accept(share: nat)
    | Reject(share: nat)
    | CancelUnadmitted
    | Cancel
    | Fail(reason: string)

  datatype Token = Token(
    generation: nat,
    deadline: Elapsed,
    outcome: Outcome,
    shareId: Option<nat>)
  {
    /** The deadline check every access begins with. */
    function Decision(now: Elapsed): Token {
      if outcome.Undecided() && now >= deadline then this.(outcome := TimedOut) else this
    }

    /** One critical section entered at boot time `now`. Decisions absorb, the
        captured generation and deadline never change, and the two ways
        forward are exact: `Accepted(share)` is entered only by an accept for
        the bound share of an admitted offer strictly before the deadline, and
        `Pending` only by admitting an unexpired offer. */
    function Apply(action: Action, now: Elapsed): (r: Token)
      ensures !outcome.Undecided() ==> r.outcome == outcome
      ensures r.generation == generation && r.deadline == deadline
      ensures r.shareId == if action.Bind? then Some(action.share) else shareId
      ensures !outcome.Accepted? ==> forall share: nat :: r.outcome == Accepted(share) <==>
                action == Accept(share) && outcome.Pending? && shareId == Some(share) && now < deadline
      ensures !outcome.Pending? ==>
                (r.outcome.Pending? <==> action.Admit? && outcome.Offered? && now < deadline)
      ensures r.outcome.Offered? ==> outcome.Offered? && now < deadline
    {
      var t := Decision(now);
      match action
      case Touch => t
      case Admit => if t.outcome.Offered? then t.(outcome := Pending) else t
      case Bind(share) => t.(shareId := Some(share))
      case Accept(share) =>
        if t.outcome.Pending? && t.shareId == Some(share) then t.(outcome := Accepted(share)) else t
      case Reject(share) => if t.outcome.Undecided() then t.(outcome := Rejected(share)) else t
      case CancelUnadmitted => if t.outcome.Offered? then t.(outcome := Cancelled) else t
      case Cancel => if t.outcome.Undecided() then t.(outcome := Cancelled) else t
      case Fail(reason) => if t.outcome.Undecided() then t.(outcome := Failed(reason)) else t
    }

    /** Whether `action` reports success to its caller. */
    predicate Succeeds(action: Action, now: Elapsed) {
      var t := Decision(now);
      match action
      case Admit => t.outcome.Offered?
      case Accept(share) => t.outcome.Pending? && t.shareId == Some(share)
      case Reject(_) => t.outcome.Undecided()
      case _ => true
    }
  }

  /** `PendingConsent::new`. */
  function NewToken(generation: nat, timeout: Elapsed, now: Elapsed): Token {
    Token(generation, SaturatingAdd(now, timeout), Offered, None)
  }

  /** Every outcome a token can have after an action, by what can have left it: a
      timeout comes before any action, and a settled outcome is the action's own. */
  lemma OutcomesAre(t: Token, action: Action, now: Elapsed)
    ensures var r, open := t.Apply(action, now).outcome, now < t.deadline;
            var undecided := t.outcome == Offered || t.outcome == Pending;
            && (r == TimedOut <==> t.outcome == TimedOut || (undecided && !open))
            && (r == Cancelled <==>
                t.outcome == Cancelled || (open && undecided && action == Cancel)
                || (open && t.outcome == Offered && action == CancelUnadmitted))
            && (forall n: nat :: r == Rejected(n) <==> t.outcome == Rejected(n) || (open && undecided && action == Reject(n)))
            && (forall why :: r == Failed(why) <==> t.outcome == Failed(why) || (open && undecided && action == Fail(why)))
            && (forall n: nat :: r == Accepted(n) <==>
                  t.outcome == Accepted(n) || (open && t.outcome == Pending && t.shareId == Some(n) && action == Accept(n)))
            && (r == Offered <==> open && t.outcome == Offered && (action == Touch || action.Bind? || action.Accept?))
            && (r == Pending <==>
                || (open && t.outcome == Offered && action == Admit)
                || (open && t.outcome == Pending
                    && (action == Touch || action == Admit || action.Bind? || action == CancelUnadmitted
                        || (action.Accept? && t.shareId != Some(action.share)))))
  {
  }

  /** A decision is reported exactly when it is taken. */
  lemma SuccessIsTheDecision(t: Token, n: nat, now: Elapsed)
    ensures t.Succeeds(Admit, now) <==> t.outcome == Offered && now < t.deadline
    ensures t.Succeeds(Accept(n), now) <==> t.outcome == Pending && t.shareId == Some(n) && now < t.deadline
    ensures t.Succeeds(Reject(n), now) <==> (t.outcome == Offered || t.outcome == Pending) && now < t.deadline
  {
  }

  /** A new token can be decided until its timeout has passed, or the clock has run
      as far as it counts, and not after. */
  lemma NewTokenLasts(generation: nat, timeout: Elapsed, now: Elapsed, later: Elapsed)
    ensures var t := NewToken(generation, timeout, now);
            && t.generation == generation && t.outcome == Offered && t.shareId == None
            && (t.Apply(Touch, later).outcome == Offered <==>
                later < now + timeout && later < 18_446_744_073_709_551_615_999_999_999)
  {
  }

  class PendingConsent {
    const generation: nat
    const deadline: Elapsed
    var outcome: Outcome
    var shareId: Option<nat>
    /** Strong references; a weak one upgrades exactly while this is positive. */
    var strong: nat

    function View(): Token
      reads this
    {
      Token(generation, deadline, outcome, shareId)
    }

    constructor (generation: nat, timeout: Elapsed, now: Elapsed)
      ensures View() == NewToken(generation, timeout, now) && strong == 1
    {
      this.generation := generation;
      this.deadline := SaturatingAdd(now, timeout);
      this.outcome := Offered;
      this.shareId := None;
      this.strong := 1;
    }

    method Decide(now: Elapsed)
      modifies this`outcome
      ensures View() == old(View()).Decision(now)
    {
      if outcome.Undecided() && now >= deadline {
        outcome := TimedOut;
      }
    }

    method AdmitOffer(now: Elapsed) returns (admitted: bool)
      modifies this`outcome
      ensures View() == old(View()).Apply(Admit, now)
      ensures admitted == old(View()).Succeeds(Admit, now)
    {
      Decide(now);
      if outcome != Offered {
        return false;
      }
      outcome := Pending;
      return true;
    }

    method BindShare(share: nat, now: Elapsed)
      modifies this`outcome, this`shareId
      ensures View() == old(View()).Apply(Bind(share), now)
    {
      Decide(now);
      shareId := Some(share);
    }

    method ReadShare(now: Elapsed) returns (share: Option<nat>)
      modifies this`outcome
      ensures View() == old(View()).Apply(Touch, now)
      ensures share == shareId
    {
      Decide(now);
      share := shareId;
    }

    method ReadOutcome(now: Elapsed) returns (result: Outcome)
      modifies this`outcome
      ensures View() == old(View()).Apply(Touch, now)
      ensures result == outcome
    {
      Decide(now);
      result := outcome;
    }

    method AcceptShare(share: nat, now: Elapsed) returns (accepted: bool)
      modifies this`outcome
      ensures View() == old(View()).Apply(Accept(share), now)
      ensures accepted == old(View()).Succeeds(Accept(share), now)
    {
      Decide(now);
      if outcome != Pending || shareId != Some(share) {
        return false;
      }
      outcome := Accepted(share);
      return true;
    }

    method RejectShare(share: nat, now: Elapsed) returns (rejected: bool)
      modifies this`outcome
      ensures View() == old(View()).Apply(Reject(share), now)
      ensures rejected == old(View()).Succeeds(Reject(share), now)
    {
      Decide(now);
      if !outcome.Undecided() {
        return false;
      }
      outcome := Rejected(share);
      return true;
    }

    method CancelIfUnadmitted(now: Elapsed)
      modifies this`outcome
      ensures View() == old(View()).Apply(CancelUnadmitted, now)
    {
      Decide(now);
      if outcome == Offered {
        outcome := Cancelled;
      }
    }

    method CancelOffer(now: Elapsed)
      modifies this`outcome
      ensures View() == old(View()).Apply(Cancel, now)
    {
      Decide(now);
      if outcome.Undecided() {
        outcome := Cancelled;
      }
    }

    method FailOffer(reason: string, now: Elapsed)
      modifies this`outcome
      ensures View() == old(View()).Apply(Fail(reason), now)
    {
      Decide(now);
      if outcome.Undecided() {
        outcome := Failed(reason);
      }
    }
  }
}
