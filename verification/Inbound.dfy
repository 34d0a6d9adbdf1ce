/** Inbound admission as one concurrent system: the shared visibility state,
    every consent token, and the control thread's share and held token. Each
    step is one critical section of one thread, entered at the boot times it
    reads; thread-local work is merged with the section before it. A step whose
    guard does not hold changes nothing, so every sequence of steps is a run. */
module Inbound {
  import opened Base
  import opened Consent
  import V = Visibility
  import S = Sharing

  /** A token and the strong references held outside the control thread. */
  datatype Cell = Cell(token: Token, others: nat)

  /** Where the control thread stands inside a multi-section operation. */
  datatype Control =
    | Between
    | Binding(token: nat, share: nat)
    | Discarding(token: nat)
    | Cancelling(token: nat)

  datatype System = System(
    clock: Elapsed,
    vis: V.Vis<nat>,
    cells: map<nat, Cell>,
    sharing: S.Coord,
    pending: Option<nat>,
    control: Control,
    // What has happened so far; no step reads these four.
    given: set<V.Lease>,
    closed: multiset<V.Lease>,
    acceptedAt: map<nat, Elapsed>,
    activatedAt: map<nat, Elapsed>)
  {
    predicate Live(t: nat) {
      t in cells && IsLive(cells[t], t, pending, control)
    }
  }

  /** Some strong reference is left, so a weak one upgrades: one outside the
      control thread, the token it keeps, or the one it is working on. */
  predicate IsLive(cell: Cell, t: nat, pending: Option<nat>, control: Control) {
    cell.others > 0 || pending == Some(t) || control == Discarding(t) || (control.Binding? && control.token == t)
  }

  datatype Step =
    // Any thread, under the visibility lock.
    | RequestOpen(now: Elapsed)
    | SetPolicy(policy: bool, now: Elapsed, nowToken: Elapsed)
    | Close(now: Elapsed, nowToken: Elapsed)
    | CompleteActivation(generation: nat, result: Result<V.Lease, string>, now: Elapsed)
    | Poll(now: Elapsed)
    | Propose(token: nat, generation: nat, timeout: Elapsed, now: Elapsed, nowToken: Elapsed)
    // The network worker, holding a reference.
    | Worker(token: nat, action: Action, now: Elapsed)
    | Retain(token: nat)
    | Release(token: nat)
    // The control thread.
    | OfferRefused(token: nat, now: Elapsed)
    | OfferAdmitted(token: nat, attachment: S.Attachment, peer: string, size: Option<nat>,
                    now: Elapsed, nowPrior: Elapsed, nowToken: Elapsed)
    | BindOffer(now: Elapsed)
    | DiscardOffer(now: Elapsed)
    | AcceptPending(share: nat, now: Elapsed)
    | RejectPending(share: nat, now: Elapsed, later: Elapsed)
    | SyncConsent(now: Elapsed)
    | CancelShare(share: nat, now: Elapsed)
    | CancelConsent(now: Elapsed)
    | ShareOperation(op: S.Op)

  predicate UnderVisibilityLock(step: Step) {
    step.RequestOpen? || step.SetPolicy? || step.Close? || step.CompleteActivation? || step.Poll? || step.Propose?
  }

  /** Steps taken with a reference owned outside the control thread. */
  predicate WithBorrowedToken(step: Step) {
    step.Worker? || step.Retain? || step.Release? || step.OfferRefused? || step.OfferAdmitted?
  }

  function Initial(): System {
    System(0, V.Initial(), map[], S.Initial(), None, Between, {}, multiset{}, map[], map[])
  }

  /** One section of token `t`. */
  function Act(s: System, t: nat, action: Action, now: Elapsed): (r: System)
    requires t in s.cells
    ensures r.activatedAt == s.activatedAt
  {
    s.(clock := now, cells := s.cells[t := s.cells[t].(token := s.cells[t].token.Apply(action, now))])
  }

  /** The effect of one visibility operation, including the cancellation of the
      admitted token while its weak reference still upgrades. */
  function OnVisibility(s: System, e: V.Effect<nat>, nowToken: Elapsed): (r: System)
    ensures r.activatedAt == s.activatedAt
  {
    var s1 := if e.cancels && s.vis.pending.Some? && s.Live(s.vis.pending.value)
              then Act(s, s.vis.pending.value, Cancel, nowToken) else s;
    s1.(clock := nowToken, vis := e.vis, closed := s.closed + multiset(e.closed))
  }

  function Activate(s: System, generation: nat, result: Result<V.Lease, string>, now: Elapsed): System {
    var opens := result.Ok? && !V.Expire(s.vis, now).vis.poisoned && V.Awaited(V.Expire(s.vis, now).vis, generation);
    OnVisibility(s, V.CompleteActivation(s.vis, generation, result, now), now)
      .(given := if result.Ok? then s.given + {result.value} else s.given,
        activatedAt := if opens then s.activatedAt[generation := now] else s.activatedAt)
  }

  function ProposeToken(s: System, t: nat, generation: nat, timeout: Elapsed, now: Elapsed, nowToken: Elapsed): (r: System)
    ensures r.activatedAt == s.activatedAt
  {
    var s1 := OnVisibility(s, V.Expire(s.vis, now), nowToken);
    if V.Proposes(s.vis, generation, now)
    then s1.(cells := s.cells[t := Cell(NewToken(generation, timeout, nowToken), 1)])
    else s1
  }

  /** Whether admission reads the prior token's decision. */
  predicate ConsultsPrior(s: System, t: nat, now: Elapsed)
    requires t in s.cells
  {
    && V.Proposes(s.vis, s.cells[t].token.generation, now)
    && s.vis.pending.Some? && s.Live(s.vis.pending.value)
  }

  function AfterPrior(s: System, t: nat, now: Elapsed, nowPrior: Elapsed): (r: System)
    requires t in s.cells
    ensures r.activatedAt == s.activatedAt
  {
    if ConsultsPrior(s, t, now) then Act(s, s.vis.pending.value, Touch, nowPrior) else s
  }

  function AdmissionOf(s: System, t: nat, now: Elapsed, nowPrior: Elapsed, nowToken: Elapsed): V.Admission<nat>
    requires t in s.cells
  {
    var s1 := AfterPrior(s, t, now, nowPrior);
    V.AdmitOffer(s.vis,
                 if ConsultsPrior(s, t, now) then Some(s1.cells[s.vis.pending.value].token.outcome) else None,
                 s1.cells[t].token, t, now, nowToken)
  }

  /** `admit_inbound` up to the offer: the event's reference moves to the
      control thread when admitted and is dropped otherwise. */
  function AdmitInbound(s: System, t: nat, offer: S.Op, now: Elapsed, nowPrior: Elapsed, nowToken: Elapsed): (r: System)
    requires t in s.cells && s.cells[t].others > 0
    ensures r.activatedAt == s.activatedAt
  {
    var s1 := AfterPrior(s, t, now, nowPrior);
    var a := AdmissionOf(s, t, now, nowPrior, nowToken);
    var s2 := s1.(clock := nowToken, vis := a.vis, closed := s.closed + multiset(a.closed),
                  cells := s1.cells[t := Cell(a.token, s1.cells[t].others - 1)]);
    if !a.admitted then s2
    else if S.Applies(s.sharing, offer) then
      s2.(sharing := S.Apply(s.sharing, offer), control := Binding(t, s.sharing.nextId))
    else s2.(control := Discarding(t))
  }

  /** `accept_pending`, with the coordinator transition that follows a successful accept. */
  function AcceptShare(s: System, share: nat, now: Elapsed): (r: System)
    requires s.pending.Some? && s.pending.value in s.cells
    ensures r.activatedAt == s.activatedAt
  {
    var t := s.pending.value;
    if !(s.sharing.Is(share) && s.sharing.active.value.phase.AwaitingLocalConsent?) then s
    else
      var s1 := Act(s, t, Accept(share), now);
      if s.cells[t].token.Succeeds(Accept(share), now)
      then s1.(sharing := S.Apply(s.sharing, S.AcceptInbound(share)), acceptedAt := s.acceptedAt[t := now])
      else s1
  }

  /** `reject_pending`. */
  function RejectShare(s: System, share: nat, now: Elapsed, later: Elapsed): (r: System)
    requires s.pending.Some? && s.pending.value in s.cells
    ensures r.activatedAt == s.activatedAt
  {
    var t := s.pending.value;
    var s1 := Act(s, t, Touch, now);
    if s.cells[t].token.shareId != Some(share) then s1
    else
      var s2 := Act(s1, t, Reject(share), later);
      if s1.cells[t].token.Succeeds(Reject(share), later)
      then s2.(sharing := S.Apply(s.sharing, S.RejectInbound(share)))
      else s2
  }

  predicate Undecided(c: S.Coord, share: nat) {
    c.Is(share) && (c.active.value.phase.AwaitingLocalConsent? || c.active.value.phase.Transferring?)
  }

  /** What a token's decision makes of its share. */
  function Projected(c: S.Coord, share: nat, outcome: Outcome): S.Coord {
    match outcome
    case TimedOut => S.Apply(c, S.Fail(share))
    case Cancelled => S.Apply(c, S.Cancel(share))
    case _ => c
  }

  /** The consent half of `sync_visibility`. */
  function Sync(s: System, now: Elapsed): (r: System)
    requires s.pending.Some? && s.pending.value in s.cells
    ensures r.activatedAt == s.activatedAt
  {
    var t := s.pending.value;
    var s1 := Act(s, t, Touch, now);
    var token := s1.cells[t].token;
    if token.shareId.None? then s1
    else
      var share := token.shareId.value;
      var sharing := Projected(s.sharing, share, token.outcome);
      s1.(sharing := sharing, pending := if Undecided(sharing, share) then s.pending else None)
  }

  /** `Request::Cancel`: the share first, then the token bound to it. */
  function CancelActive(s: System, share: nat, now: Elapsed): (r: System)
    ensures r.activatedAt == s.activatedAt
  {
    if !S.Applies(s.sharing, S.Cancel(share)) then s
    else
      var s1 := s.(sharing := S.Apply(s.sharing, S.Cancel(share)));
      if s.pending.Some? && s.pending.value in s.cells then
        var s2 := Act(s1, s.pending.value, Touch, now);
        if s.cells[s.pending.value].token.shareId == Some(share)
        then s2.(control := Cancelling(s.pending.value)) else s2
      else s1
  }

  predicate WorkerAction(action: Action) {
    action.Touch? || action.CancelUnadmitted? || action.Cancel? || action.Fail?
  }

  predicate Holds(s: System, t: nat) {
    t in s.cells && s.cells[t].others > 0
  }

  /** One strong reference outside the control thread goes away. */
  function DropReference(s: System, t: nat): System
    requires Holds(s, t)
  {
    s.(cells := s.cells[t := s.cells[t].(others := s.cells[t].others - 1)])
  }

  function HeldToken(s: System): Option<nat> {
    if s.pending.Some? && s.pending.value in s.cells then s.pending else None
  }

  function Next(s: System, step: Step): System {
    match step
    case RequestOpen(now) =>
      if s.clock <= now then OnVisibility(s, V.RequestOpen(s.vis, now), now) else s
    case SetPolicy(policy, now, nowToken) =>
      if s.clock <= now <= nowToken then OnVisibility(s, V.SetPolicy(s.vis, policy, now), nowToken) else s
    case Close(now, nowToken) =>
      if s.clock <= now <= nowToken then OnVisibility(s, V.Close(s.vis, now), nowToken) else s
    case CompleteActivation(generation, result, now) =>
      if s.clock <= now && (result.Ok? ==> result.value !in s.given) then Activate(s, generation, result, now) else s
    case Poll(now) =>
      if s.clock <= now then OnVisibility(s, V.Expire(s.vis, now), now) else s
    case Propose(t, generation, timeout, now, nowToken) =>
      if s.clock <= now <= nowToken && t !in s.cells then ProposeToken(s, t, generation, timeout, now, nowToken) else s
    case Worker(t, action, now) =>
      if s.clock <= now && Holds(s, t) && WorkerAction(action) then Act(s, t, action, now) else s
    case Retain(t) =>
      if Holds(s, t) then s.(cells := s.cells[t := s.cells[t].(others := s.cells[t].others + 1)]) else s
    case Release(t) =>
      if Holds(s, t) then DropReference(s, t) else s
    case OfferRefused(t, now) =>
      if s.clock <= now && s.control.Between? && Holds(s, t) && s.sharing.HasActive() then
        DropReference(Act(s, t, Reject(0), now), t)
      else s
    case OfferAdmitted(t, attachment, peer, size, now, nowPrior, nowToken) =>
      if s.clock <= now <= nowPrior <= nowToken && s.control.Between? && Holds(s, t) && !s.sharing.HasActive()
      then AdmitInbound(s, t, S.OfferInbound(attachment, peer, size), now, nowPrior, nowToken) else s
    case BindOffer(now) =>
      if s.clock <= now && s.control.Binding? && s.control.token in s.cells
      then Act(s, s.control.token, Bind(s.control.share), now).(pending := Some(s.control.token), control := Between)
      else s
    case DiscardOffer(now) =>
      if s.clock <= now && s.control.Discarding? && s.control.token in s.cells
      then Act(s, s.control.token, Reject(0), now).(control := Between) else s
    case AcceptPending(share, now) =>
      if s.clock <= now && s.control.Between? && HeldToken(s).Some? then AcceptShare(s, share, now) else s
    case RejectPending(share, now, later) =>
      if s.clock <= now <= later && s.control.Between? && HeldToken(s).Some? then RejectShare(s, share, now, later) else s
    case SyncConsent(now) =>
      if s.clock <= now && s.control.Between? && HeldToken(s).Some? then Sync(s, now) else s
    case CancelShare(share, now) =>
      if s.clock <= now && s.control.Between? then CancelActive(s, share, now) else s
    case CancelConsent(now) =>
      if s.clock <= now && s.control.Cancelling? && s.control.token in s.cells
      then Act(s, s.control.token, Cancel, now).(control := Between) else s
    case ShareOperation(op) =>
      if s.control.Between? && !op.OfferInbound? && !op.AcceptInbound? && S.Guarded(s.sharing, op)
      then s.(sharing := S.Apply(s.sharing, op)) else s
  }

  function Exec(s: System, steps: seq<Step>): System
    decreases |steps|
  {
    if steps == [] then s else Exec(Next(s, steps[0]), steps[1..])
  }

  // ------------------------------------------------------------------
  // What every reachable state satisfies
  // ------------------------------------------------------------------

  /** A token's generation never runs ahead, an unadmitted offer is unbound, and
      an acceptance names the bound share and predates the captured deadline. */
  predicate TokenValid(token: Token, generation: nat, accepted: Option<Elapsed>) {
    && token.generation <= generation
    && (token.outcome.Offered? ==> token.shareId.None?)
    && (token.outcome.Accepted? ==>
          && token.shareId == Some(token.outcome.share)
          && accepted.Some? && accepted.value < token.deadline)
  }

  function At(times: map<nat, Elapsed>, key: nat): Option<Elapsed> {
    if key in times then Some(times[key]) else None
  }

  ghost predicate TokensValid(cells: map<nat, Cell>, generation: nat, acceptedAt: map<nat, Elapsed>) {
    forall t :: t in cells ==> TokenValid(cells[t].token, generation, At(acceptedAt, t))
  }

  /** At most one live token is Pending or Accepted: the one the weak reference names. */
  ghost predicate OneBusy(cells: map<nat, Cell>, pending: Option<nat>, control: Control, weak: Option<nat>) {
    forall t :: t in cells && cells[t].token.outcome.Busy() && IsLive(cells[t], t, pending, control) ==> weak == Some(t)
  }

  /** The token the control thread keeps or works on fits its share. */
  predicate ControlValid(cells: map<nat, Cell>, pending: Option<nat>, control: Control, sharing: S.Coord) {
    && (pending.Some? ==> pending.value in cells && cells[pending.value].token.shareId.Some?)
    && (match control
        case Between => true
        case Binding(t, share) =>
          && t in cells && cells[t].token.shareId.None? && !cells[t].token.outcome.Offered?
          && sharing.Is(share) && sharing.active.value.phase.AwaitingLocalConsent?
        case Discarding(t) => t in cells && !sharing.HasActive()
        case Cancelling(t) => pending == Some(t))
  }

  /** A live inbound share is backed by the bound token the control thread
      keeps, and a transferring one by that token's acceptance. */
  predicate Backed(cells: map<nat, Cell>, pending: Option<nat>, control: Control, sharing: S.Coord) {
    sharing.HasActive() && sharing.active.value.direction.Inbound? && !control.Binding? ==>
      && pending.Some? && pending.value in cells
      && cells[pending.value].token.shareId == Some(sharing.active.value.id)
      && (sharing.active.value.phase.Transferring? ==>
            cells[pending.value].token.outcome == Accepted(sharing.active.value.id))
  }

  /** Every lease handed over is held, or has been closed exactly once. */
  ghost predicate LeasesConserved(lease: Option<V.Lease>, given: set<V.Lease>, closed: multiset<V.Lease>) {
    && (lease.Some? ==> lease.value in given)
    && (forall l :: l in given ==> closed[l] == if lease == Some(l) then 0 else 1)
    && (forall l :: l in closed ==> l in given)
  }

  /** A temporary window ends ten minutes after the activation that opened it. */
  ghost predicate WindowsValid(vis: V.Vis<nat>, activatedAt: map<nat, Elapsed>) {
    && (forall g :: g in activatedAt ==> g <= vis.generation)
    && (!vis.poisoned && vis.phase == V.Starting ==> vis.generation !in activatedAt)
    && (!vis.poisoned && vis.phase == V.Open ==>
          && vis.generation in activatedAt
          && (vis.deadline.Some? ==>
                vis.deadline == Some(SaturatingAdd(activatedAt[vis.generation], V.TEMPORARY_LIFETIME))))
  }

  ghost predicate VisibilityInv(s: System) {
    && s.vis.Valid()
    && LeasesConserved(s.vis.lease, s.given, s.closed)
    && WindowsValid(s.vis, s.activatedAt)
  }

  ghost predicate ConsentInv(s: System) {
    && (s.vis.pending.Some? ==> s.vis.pending.value in s.cells)
    && TokensValid(s.cells, s.vis.generation, s.acceptedAt)
    && OneBusy(s.cells, s.pending, s.control, s.vis.pending)
    && s.sharing.Valid()
    && ControlValid(s.cells, s.pending, s.control, s.sharing)
    && Backed(s.cells, s.pending, s.control, s.sharing)
  }

  ghost predicate Inv(s: System) {
    VisibilityInv(s) && ConsentInv(s)
  }
}
