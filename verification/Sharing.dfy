/** The user-visible share lifecycle: one active share, the peers in view and
    the outbound search. */
module Sharing {
  import opened Base

  datatype Direction = Inbound | Outbound

  datatype Discovery = Idle | Searching | SearchTimedOut

  datatype Phase =
    | AwaitingLocalConsent
    | AwaitingPeerConsent
    | Cancelled
    | Completed
    | Failed
    | Rejected
    | Transferring
    | WaitingForPeer
  {
    predicate Terminal() {
      Cancelled? || Completed? || Failed? || Rejected?
    }

    predicate AwaitsConsent() {
      AwaitingLocalConsent? || AwaitingPeerConsent?
    }
  }

  /** Text and URLs are their UTF-8 octets. */
  datatype Attachment = File(name: string, size: nat) | Text(value: Bytes) | Url(value: Bytes) {
    function ByteLength(): nat {
      match this
      case File(_, size) => size
      case Text(value) => |value|
      case Url(value) => |value|
    }
  }

  datatype Peer = Peer(id: string, name: string, pinned: bool)

  datatype Share = Share(
    attachment: Attachment,
    direction: Direction,
    id: nat,
    peer: Option<Peer>,
    phase: Phase,
    total: nat,
    transferred: nat,
    code: Option<string>)
  {
    /** `set_phase`: a decided share forgets its verification code. */
    function SetPhase(to: Phase): Share {
      this.(phase := to, code := if to.AwaitsConsent() then code else None)
    }

    /** A code is four digits shown while consent is undecided, and every
        waiting phase belongs to one direction. */
    predicate Valid() {
      && (code.Some? ==> phase.AwaitsConsent() && FourDigits(code.value))
      && (phase.AwaitingLocalConsent? ==> direction.Inbound?)
      && (phase.AwaitingPeerConsent? || phase.WaitingForPeer? ==> direction.Outbound?)
    }
  }

  predicate FourDigits(code: string) {
    |code| == 4 && forall i :: 0 <= i < |code| ==> '0' <= code[i] <= '9'
  }

  /** Peer identifiers are distinct and at most one peer is pinned. */
  ghost predicate PeersValid(peers: seq<Peer>) {
    && (forall i, j :: 0 <= i < j < |peers| ==> peers[i].id != peers[j].id)
    && (forall i, j :: 0 <= i < j < |peers| ==> !(peers[i].pinned && peers[j].pinned))
  }

  datatype Coord = Coord(
    nextId: nat,
    active: Option<Share>,
    discovery: Discovery,
    peers: seq<Peer>)
  {
    predicate ShareValid() {
      && nextId <= U64_MAX
      && (active.Some? ==>
            && active.value.Valid() && active.value.id <= U64_MAX
            && (active.value.id < nextId || nextId == U64_MAX))
    }

    /** What every daemon run keeps. */
    ghost predicate Valid() {
      ShareValid() && PeersValid(peers)
    }

    /** `has_active_share`. */
    predicate HasActive() {
      active.Some? && !active.value.phase.Terminal()
    }

    predicate Is(id: nat) {
      active.Some? && active.value.id == id
    }
  }

  function Initial(): Coord {
    Coord(1, None, Idle, [])
  }

  /** The first index at or after `from` whose peer satisfies the test. */
  function Position(peers: seq<Peer>, test: Peer -> bool, from: nat := 0): (k: Option<nat>)
    requires from <= |peers|
    ensures k.Some? ==> from <= k.value < |peers| && test(peers[k.value])
    ensures k.Some? ==> forall i :: from <= i < k.value ==> !test(peers[i])
    ensures k.None? ==> forall i :: from <= i < |peers| ==> !test(peers[i])
    decreases |peers| - from
  {
    if from == |peers| then None
    else if test(peers[from]) then Some(from)
    else Position(peers, test, from + 1)
  }

  function Named(peers: seq<Peer>, id: string): (k: Option<nat>)
    ensures k.Some? ==> k.value < |peers| && peers[k.value].id == id
    ensures k.None? <==> forall i :: 0 <= i < |peers| ==> peers[i].id != id
  {
    Position(peers, (peer: Peer) => peer.id == id)
  }

  function FindPeer(peers: seq<Peer>, id: string): Option<Peer> {
    var k := Named(peers, id);
    if k.Some? then Some(peers[k.value]) else None
  }

  function PinnedPeer(peers: seq<Peer>): Option<Peer> {
    var k := Position(peers, (peer: Peer) => peer.pinned);
    if k.Some? then Some(peers[k.value]) else None
  }

  function Observe(peers: seq<Peer>, id: string, name: string): seq<Peer> {
    var k := Named(peers, id);
    if k.Some? then peers[k.value := peers[k.value].(name := name)] else peers + [Peer(id, name, false)]
  }

  function Remove(peers: seq<Peer>, id: string): seq<Peer> {
    var k := Named(peers, id);
    if k.Some? then peers[..k.value] + peers[k.value + 1..] else peers
  }

  function Pin(peers: seq<Peer>, id: Option<string>): (r: seq<Peer>)
    ensures |r| == |peers|
    ensures forall i :: 0 <= i < |peers| ==> r[i] == peers[i].(pinned := id == Some(peers[i].id))
  {
    seq(|peers|, i requires 0 <= i < |peers| => peers[i].(pinned := id == Some(peers[i].id)))
  }

  /** The coordinator's public operations. */
  datatype Op =
    | AcceptByPeer(id: nat)
    | AcceptInbound(id: nat)
    | Cancel(id: nat)
    | Complete(id: nat)
    | DiscoveryTimedOut
    | Dismiss(id: nat)
    | Fail(id: nat)
    | ObservePeer(peer: string, name: string)
    | OfferInbound(attachment: Attachment, peer: string, size: Option<nat>)
    | PinPeer(peer: string)
    | UnpinPeers
    | QueueOutbound(attachment: Attachment, usePreference: bool)
    | RecordProgress(id: nat, bytes: nat)
    | ReplaceAttachment(id: nat, attachment: Attachment)
    | RecordCode(id: nat, code: string)
    | RejectByPeer(id: nat)
    | RejectInbound(id: nat)
    | RemovePeer(peer: string)
    | SelectPeer(id: nat, peer: string)
    | StartDiscovery
    | StopDiscovery

  /** Whether the operation finds the state it needs. */
  predicate Applies(c: Coord, op: Op) {
    match op
    case AcceptByPeer(id) => c.Is(id) && c.active.value.direction.Outbound? && c.active.value.phase.AwaitingPeerConsent?
    case AcceptInbound(id) => c.Is(id) && c.active.value.direction.Inbound? && c.active.value.phase.AwaitingLocalConsent?
    case Cancel(id) => c.Is(id) && !c.active.value.phase.Terminal()
    case Complete(id) =>
      c.Is(id) && c.active.value.phase.Transferring? && c.active.value.transferred == c.active.value.total
    case DiscoveryTimedOut => c.discovery.Searching?
    case Dismiss(id) => c.Is(id) && c.active.value.phase.Terminal()
    case Fail(id) => c.Is(id) && !c.active.value.phase.Terminal()
    case OfferInbound(_, peer, _) => FindPeer(c.peers, peer).Some?
    case PinPeer(peer) => FindPeer(c.peers, peer).Some?
    case RecordProgress(id, bytes) =>
      c.Is(id) && c.active.value.phase.Transferring? && c.active.value.transferred <= bytes <= c.active.value.total
    case ReplaceAttachment(id, _) => c.Is(id)
    case RecordCode(id, code) => c.Is(id) && c.active.value.phase.AwaitsConsent() && FourDigits(code)
    case RejectByPeer(id) => c.Is(id) && c.active.value.direction.Outbound? && c.active.value.phase.AwaitingPeerConsent?
    case RejectInbound(id) => c.Is(id) && c.active.value.direction.Inbound? && c.active.value.phase.AwaitingLocalConsent?
    case RemovePeer(peer) => FindPeer(c.peers, peer).Some?
    case SelectPeer(id, peer) =>
      && FindPeer(c.peers, peer).Some?
      && c.Is(id) && c.active.value.direction.Outbound? && c.active.value.phase.WaitingForPeer?
    case _ => true
  }

  function SetPhase(c: Coord, to: Phase): Coord
    requires c.active.Some?
  {
    c.(active := Some(c.active.value.SetPhase(to)))
  }

  function Effect(c: Coord, op: Op): Coord
    requires Applies(c, op)
  {
    match op
    case AcceptByPeer(_) => SetPhase(c, Transferring)
    case AcceptInbound(_) => SetPhase(c, Transferring)
    case Cancel(_) => SetPhase(c, Cancelled).(discovery := Idle)
    case Complete(_) => SetPhase(c, Completed)
    case DiscoveryTimedOut => c.(discovery := SearchTimedOut)
    case Dismiss(_) => c.(active := None)
    case Fail(_) => SetPhase(c, Failed).(discovery := Idle)
    case ObservePeer(peer, name) => c.(peers := Observe(c.peers, peer, name))
    case OfferInbound(attachment, peer, size) =>
      var declared := if size.Some? then size.value else attachment.ByteLength();
      c.(nextId := NextU64(c.nextId),
         active := Some(Share(attachment, Inbound, c.nextId, FindPeer(c.peers, peer), AwaitingLocalConsent, declared, 0, None)))
    case PinPeer(peer) => c.(peers := Pin(c.peers, Some(peer)))
    case UnpinPeers => c.(peers := Pin(c.peers, None))
    case QueueOutbound(attachment, usePreference) =>
      var pinned := if usePreference then PinnedPeer(c.peers) else None;
      var phase := if pinned.Some? then AwaitingPeerConsent else WaitingForPeer;
      c.(nextId := NextU64(c.nextId),
         discovery := if pinned.Some? then c.discovery else Searching,
         active := Some(Share(attachment, Outbound, c.nextId, pinned, phase, attachment.ByteLength(), 0, None)))
    case RecordProgress(_, bytes) => c.(active := Some(c.active.value.(transferred := bytes)))
    case ReplaceAttachment(_, attachment) =>
      c.(active := Some(c.active.value.(attachment := attachment, total := attachment.ByteLength())))
    case RecordCode(_, code) => c.(active := Some(c.active.value.(code := Some(code))))
    case RejectByPeer(_) => SetPhase(c, Rejected)
    case RejectInbound(_) => SetPhase(c, Rejected)
    case RemovePeer(peer) => c.(peers := Remove(c.peers, peer))
    case SelectPeer(_, peer) =>
      c.(active := Some(c.active.value.(peer := FindPeer(c.peers, peer), phase := AwaitingPeerConsent)), discovery := Idle)
    case StartDiscovery => c.(discovery := Searching)
    case StopDiscovery => c.(discovery := Idle)
  }

  /** One operation; a refused one changes nothing. */
  function Apply(c: Coord, op: Op): Coord {
    if Applies(c, op) then Effect(c, op) else c
  }

  /** The daemon asks for a new share only when `has_active_share` is false. */
  predicate Guarded(c: Coord, op: Op) {
    op.OfferInbound? || op.QueueOutbound? ==> !c.HasActive()
  }

  function Run(c: Coord, ops: seq<Op>): Coord
    decreases |ops|
  {
    if ops == [] then c else Run(Apply(c, ops[0]), ops[1..])
  }

  predicate GuardedRun(c: Coord, ops: seq<Op>)
    decreases |ops|
  {
    ops == [] || (Guarded(c, ops[0]) && GuardedRun(Apply(c, ops[0]), ops[1..]))
  }

  lemma ObserveKeepsPeers(peers: seq<Peer>, id: string, name: string)
    requires PeersValid(peers)
    ensures PeersValid(Observe(peers, id, name))
  {
    var r := Observe(peers, id, name);
    forall i, j | 0 <= i < j < |r|
      ensures r[i].id != r[j].id && !(r[i].pinned && r[j].pinned)
    {
      assert j < |peers| ==> peers[i].id != peers[j].id && !(peers[i].pinned && peers[j].pinned);
    }
  }

  lemma RemoveKeepsPeers(peers: seq<Peer>, id: string)
    requires PeersValid(peers)
    ensures PeersValid(Remove(peers, id))
  {
    var r := Remove(peers, id);
    var k := Named(peers, id);
    if k.Some? {
      forall i, j | 0 <= i < j < |r|
        ensures r[i].id != r[j].id && !(r[i].pinned && r[j].pinned)
      {
        var i', j' := if i < k.value then i else i + 1, if j < k.value then j else j + 1;
        assert r[i] == peers[i'] && r[j] == peers[j'];
      }
    }
  }

  lemma PinKeepsPeers(peers: seq<Peer>, pin: Option<string>)
    requires PeersValid(peers)
    ensures PeersValid(Pin(peers, pin))
  {
    var r := Pin(peers, pin);
    forall i, j | 0 <= i < j < |r|
      ensures r[i].id != r[j].id && !(r[i].pinned && r[j].pinned)
    {
      assert r[i].id == peers[i].id && r[j].id == peers[j].id;
    }
  }

  lemma ApplyKeepsPeers(c: Coord, op: Op)
    requires PeersValid(c.peers)
    ensures PeersValid(Apply(c, op).peers)
  {
    match op
    case ObservePeer(peer, name) => ObserveKeepsPeers(c.peers, peer, name);
    case RemovePeer(peer) => RemoveKeepsPeers(c.peers, peer);
    case PinPeer(peer) => PinKeepsPeers(c.peers, Some(peer));
    case UnpinPeers => PinKeepsPeers(c.peers, None);
    case _ => assert Apply(c, op).peers == c.peers;
  }

  lemma ApplyKeepsShare(c: Coord, op: Op)
    requires c.ShareValid()
    ensures Apply(c, op).ShareValid()
  {
  }

  lemma ApplyKeepsValid(c: Coord, op: Op)
    requires c.Valid()
    ensures Apply(c, op).Valid()
  {
    ApplyKeepsPeers(c, op);
    ApplyKeepsShare(c, op);
  }

  predicate Starts(c: Coord, op: Op) {
    Applies(c, op) && (op.OfferInbound? || op.QueueOutbound?)
  }

  /** One guarded operation starts a share under the reserved identifier over an
      absent or ended one, clears an ended one, or leaves the identity of the
      displayed share alone, and then also the phase it ended with. */
  lemma OperationContinues(c: Coord, op: Op)
    requires Guarded(c, op)
    ensures var r := Apply(c, op);
            if Starts(c, op) then
              !c.HasActive() && r.nextId == NextU64(c.nextId) && r.Is(c.nextId)
            else
              && r.nextId == c.nextId
              && (r.active.None? ==> !c.HasActive())
              && (r.active.Some? ==>
                    && c.Is(r.active.value.id)
                    && (c.active.value.phase.Terminal() ==> r.active.value.phase == c.active.value.phase))
  {
  }

  lemma {:induction false} RunKeepsValid(c: Coord, ops: seq<Op>)
    requires c.Valid()
    ensures Run(c, ops).Valid() && c.nextId <= Run(c, ops).nextId
    decreases |ops|
  {
    if ops != [] {
      ApplyKeepsValid(c, ops[0]);
      RunKeepsValid(Apply(c, ops[0]), ops[1..]);
    }
  }

  lemma {:induction false} GuardedRunsCompose(c: Coord, first: seq<Op>, second: seq<Op>)
    requires GuardedRun(c, first) && GuardedRun(Run(c, first), second)
    ensures GuardedRun(c, first + second) && Run(c, first + second) == Run(Run(c, first), second)
    decreases |first|
  {
    if first == [] {
      assert first + second == second;
    } else {
      assert (first + second)[1..] == first[1..] + second;
      GuardedRunsCompose(Apply(c, first[0]), first[1..], second);
    }
  }

  /** A reserved identifier that is not displayed never is again. */
  lemma {:induction false} IdentifiersNeverReturn(c: Coord, ops: seq<Op>, id: nat)
    requires GuardedRun(c, ops) && id < c.nextId && !c.Is(id)
    ensures !Run(c, ops).Is(id)
    decreases |ops|
  {
    if ops != [] {
      OperationContinues(c, ops[0]);
      IdentifiersNeverReturn(Apply(c, ops[0]), ops[1..], id);
    }
  }

  /** Each share below the largest identifier gets at most one terminal phase,
      whatever guarded operations follow. */
  lemma {:induction false} TerminalPhaseIsFinal(c: Coord, ops: seq<Op>)
    requires c.Valid() && GuardedRun(c, ops)
    requires c.active.Some? && c.active.value.phase.Terminal() && c.active.value.id < U64_MAX
    ensures Run(c, ops).Is(c.active.value.id) ==> Run(c, ops).active.value.phase == c.active.value.phase
    decreases |ops|
  {
    if ops != [] {
      var next := Apply(c, ops[0]);
      ApplyKeepsValid(c, ops[0]);
      OperationContinues(c, ops[0]);
      if next.Is(c.active.value.id) {
        TerminalPhaseIsFinal(next, ops[1..]);
      } else {
        IdentifiersNeverReturn(next, ops[1..], c.active.value.id);
      }
    }
  }

  /** A share that is no longer displayed was displayed with a terminal phase
      first: nothing replaces or clears a live share. */
  lemma {:induction false} LiveShareIsNeverReplaced(c: Coord, ops: seq<Op>) returns (k: nat)
    requires GuardedRun(c, ops) && c.active.Some? && !Run(c, ops).Is(c.active.value.id)
    ensures k < |ops| && Run(c, ops[..k]).Is(c.active.value.id)
    ensures Run(c, ops[..k]).active.value.phase.Terminal()
    decreases |ops|
  {
    var next := Apply(c, ops[0]);
    OperationContinues(c, ops[0]);
    if next.Is(c.active.value.id) {
      var j := LiveShareIsNeverReplaced(next, ops[1..]);
      k := j + 1;
      assert ops[..k][1..] == ops[1..][..j];
    } else {
      k := 0;
    }
  }

  /** A share displayed later is the same one, or was created since under an
      identifier reserved since. */
  lemma {:induction false} IdentifiersIncrease(c: Coord, ops: seq<Op>)
    requires GuardedRun(c, ops) && Run(c, ops).active.Some?
    ensures c.Is(Run(c, ops).active.value.id) || Run(c, ops).active.value.id >= c.nextId
  {
    var id := Run(c, ops).active.value.id;
    if id < c.nextId && !c.Is(id) {
      IdentifiersNeverReturn(c, ops, id);
    }
  }

  // ------------------------------------------------------------------
  // Saturation
  // ------------------------------------------------------------------

  /** The identifiers of the shares a run creates, in order. */
  function Created(c: Coord, ops: seq<Op>): seq<nat>
    decreases |ops|
  {
    if ops == [] then []
    else (if Starts(c, ops[0]) then [Apply(c, ops[0]).active.value.id] else []) + Created(Apply(c, ops[0]), ops[1..])
  }

  function Clamped(n: nat): nat {
    if n <= U64_MAX then n else U64_MAX
  }

  /** The shares of a run are numbered one after another, up to the largest
      identifier, which every later one shares. */
  lemma {:induction false} CreatedAreNumbered(c: Coord, ops: seq<Op>)
    requires c.nextId <= U64_MAX
    ensures Run(c, ops).nextId == Clamped(c.nextId + |Created(c, ops)|)
    ensures forall k :: 0 <= k < |Created(c, ops)| ==> Created(c, ops)[k] == Clamped(c.nextId + k)
    decreases |ops|
  {
    if ops != [] {
      var next := Apply(c, ops[0]);
      CreatedAreNumbered(next, ops[1..]);
      if !Starts(c, ops[0]) {
        assert next.nextId == c.nextId;
      }
    }
  }

  predicate Increasing(ids: seq<nat>) {
    forall i, j :: 0 <= i < j < |ids| ==> ids[i] < ids[j]
  }

  /** From the start, identifiers strictly increase if and only if the run creates
      no more shares than there are identifiers. */
  lemma IdentifiersAreDistinctExactly(ops: seq<Op>)
    ensures Increasing(Created(Initial(), ops)) <==> |Created(Initial(), ops)| <= U64_MAX
  {
    var ids := Created(Initial(), ops);
    CreatedAreNumbered(Initial(), ops);
    if |ids| > U64_MAX {
      assert ids[U64_MAX - 1] == Clamped(U64_MAX) && ids[U64_MAX] == Clamped(U64_MAX + 1);
    }
  }

  function Round(id: nat): seq<Op> {
    [QueueOutbound(Text([]), false), Cancel(id), Dismiss(id)]
  }

  /** Queue, cancel and dismiss: back to nothing, one identifier on. */
  lemma RoundIs(c: Coord)
    requires c.active.None? && c.discovery.Idle?
    ensures GuardedRun(c, Round(c.nextId)) && Run(c, Round(c.nextId)) == c.(nextId := NextU64(c.nextId))
    ensures Created(c, Round(c.nextId)) == [c.nextId]
  {
    var ops := Round(c.nextId);
    var c1 := Apply(c, ops[0]);
    var c2 := Apply(c1, ops[1]);
    var c3 := Apply(c2, ops[2]);
    assert ops[1..][0] == ops[1] && ops[1..][1..] == ops[2..];
    assert ops[2..][0] == ops[2] && ops[2..][1..] == [];
    assert Run(c, ops) == Run(c1, ops[1..]) == Run(c2, ops[2..]) == Run(c3, []) == c3;
    assert GuardedRun(c2, ops[2..]);
    assert GuardedRun(c1, ops[1..]);
    assert Created(c, ops) == [c.nextId] + Created(c1, ops[1..]);
    assert Created(c1, ops[1..]) == Created(c2, ops[2..]) == Created(c3, []);
  }

  lemma {:induction false} CreatedCompose(c: Coord, first: seq<Op>, second: seq<Op>)
    ensures Created(c, first + second) == Created(c, first) + Created(Run(c, first), second)
    decreases |first|
  {
    if first == [] {
      assert first + second == second;
    } else {
      assert (first + second)[0] == first[0] && (first + second)[1..] == first[1..] + second;
      CreatedCompose(Apply(c, first[0]), first[1..], second);
    }
  }

  /** A run from the start that creates and clears any number of shares. */
  lemma {:induction false} ManyRounds(n: nat) returns (ops: seq<Op>)
    ensures GuardedRun(Initial(), ops) && Run(Initial(), ops) == Coord(Clamped(n + 1), None, Idle, [])
    ensures |Created(Initial(), ops)| == n
    decreases n
  {
    if n == 0 {
      ops := [];
    } else {
      var front := ManyRounds(n - 1);
      var c := Run(Initial(), front);
      RoundIs(c);
      GuardedRunsCompose(Initial(), front, Round(c.nextId));
      CreatedCompose(Initial(), front, Round(c.nextId));
      ops := front + Round(c.nextId);
    }
  }

  /** A run from the start in which the largest identifier is displayed as ended
      and afterwards as live: it was handed out twice. */
  lemma SaturatedIdentifiersRepeat() returns (before: seq<Op>, later: seq<Op>)
    ensures var c := Run(Initial(), before);
            && GuardedRun(Initial(), before) && GuardedRun(c, later)
            && c.Is(U64_MAX) && c.active.value.phase.Terminal()
            && Run(c, later).Is(U64_MAX) && Run(c, later).HasActive()
            && |Created(Initial(), before + later)| == U64_MAX + 1
  {
    var front := ManyRounds(U64_MAX - 1);
    var c0 := Run(Initial(), front);
    var ops := [QueueOutbound(Text([]), false), Cancel(U64_MAX)];
    var c1 := Apply(c0, ops[0]);
    var c2 := Apply(c1, ops[1]);
    assert ops[1..] == [ops[1]] && [ops[1]][1..] == [];
    assert GuardedRun(c1, ops[1..]);
    assert Run(c0, ops) == Run(c1, ops[1..]) == c2;
    assert Created(c0, ops) == [U64_MAX] + Created(c1, ops[1..]);
    assert Created(c1, ops[1..]) == Created(c2, []);
    GuardedRunsCompose(Initial(), front, ops);
    CreatedCompose(Initial(), front, ops);
    before := front + ops;
    later := [QueueOutbound(Text([]), false)];
    QueueAgain(c2);
    CreatedCompose(Initial(), before, later);
  }

  lemma QueueAgain(c: Coord)
    requires !c.HasActive()
    ensures var ops := [QueueOutbound(Text([]), false)];
            && GuardedRun(c, ops) && Run(c, ops).Is(c.nextId) && Run(c, ops).HasActive()
            && |Created(c, ops)| == 1
  {
    var ops := [QueueOutbound(Text([]), false)];
    assert ops[1..] == [];
    assert Run(c, ops) == Apply(c, ops[0]);
    assert Created(c, ops) == [c.nextId] + Created(Apply(c, ops[0]), []);
  }

  predicate KeepsPhase(c: Coord, ops: seq<Op>)
    requires c.active.Some?
  {
    Run(c, ops).Is(c.active.value.id) ==> Run(c, ops).active.value.phase == c.active.value.phase
  }

  /** An ended share keeps its phase in every later run if and only if its
      identifier is not the largest one. */
  lemma EndedIsFinalExactly(c: Coord)
    requires c.Valid() && c.active.Some? && c.active.value.phase.Terminal()
    ensures (forall ops :: GuardedRun(c, ops) ==> KeepsPhase(c, ops)) <==> c.active.value.id < U64_MAX
  {
    if c.active.value.id < U64_MAX {
      forall ops | GuardedRun(c, ops)
        ensures KeepsPhase(c, ops)
      {
        TerminalPhaseIsFinal(c, ops);
      }
    } else {
      QueueAgain(c);
      assert !KeepsPhase(c, [QueueOutbound(Text([]), false)]);
    }
  }

  /** Progress stays within the declared total under every operation but
      `replace_attachment`, which keeps it exactly when the new content is at
      least as long as what was already counted. */
  lemma ProgressBound(c: Coord, op: Op)
    requires c.active.Some? && c.active.value.transferred <= c.active.value.total
    requires Apply(c, op).active.Some?
    ensures var share := Apply(c, op).active.value;
            share.transferred <= share.total <==>
            (op.ReplaceAttachment? && c.Is(op.id) ==> c.active.value.transferred <= op.attachment.ByteLength())
  {
  }

  /** The local endpoint's one share, its peers and its search. */
  class Coordinator {
    var nextId: nat
    var active: Option<Share>
    var discovery: Discovery
    var peers: seq<Peer>

    function View(): Coord
      reads this
    {
      Coord(nextId, active, discovery, peers)
    }

    constructor ()
      ensures View() == Initial()
    {
      nextId, active, discovery, peers := 1, None, Idle, [];
    }

    /** The scan behind `EndpointSnapshot::peer`. */
    method Lookup(id: string) returns (k: Option<nat>)
      ensures k == Named(peers, id)
    {
      var i := 0;
      while i < |peers|
        invariant 0 <= i <= |peers|
        invariant forall j :: 0 <= j < i ==> peers[j].id != id
      {
        if peers[i].id == id {
          return Some(i);
        }
        i := i + 1;
      }
      return None;
    }

    /** The scan behind `EndpointSnapshot::pinned_peer`. */
    method Preferred() returns (peer: Option<Peer>)
      ensures peer == PinnedPeer(peers)
    {
      var i := 0;
      while i < |peers|
        invariant 0 <= i <= |peers|
        invariant forall j :: 0 <= j < i ==> !peers[j].pinned
      {
        if peers[i].pinned {
          return Some(peers[i]);
        }
        i := i + 1;
      }
      return None;
    }

    method Pinning(pin: Option<string>)
      modifies this`peers
      ensures peers == Pin(old(peers), pin)
    {
      var i := 0;
      while i < |peers|
        invariant 0 <= i <= |peers| == |old(peers)|
        invariant forall j :: 0 <= j < i ==> peers[j] == Pin(old(peers), pin)[j]
        invariant forall j :: i <= j < |peers| ==> peers[j] == old(peers)[j]
      {
        peers := peers[i := peers[i].(pinned := pin == Some(peers[i].id))];
        i := i + 1;
      }
    }

    method NextId() returns (id: nat)
      modifies this`nextId
      ensures id == old(nextId) && nextId == NextU64(old(nextId))
    {
      id := nextId;
      nextId := NextU64(nextId);
    }

    /** Moves the share on, if it is this one, in this direction and in this phase. */
    method Transition(id: nat, direction: Direction, from: Phase, to: Phase) returns (applied: bool)
      modifies this`active
      ensures applied <==> old(View()).Is(id) && old(active).value.direction == direction && old(active).value.phase == from
      ensures active == if applied then Some(old(active).value.SetPhase(to)) else old(active)
    {
      if active.None? || active.value.id != id || active.value.direction != direction || active.value.phase != from {
        return false;
      }
      active := Some(active.value.SetPhase(to));
      return true;
    }

    method PeerAccepts(id: nat) returns (applied: bool)
      modifies this
      ensures View() == Apply(old(View()), AcceptByPeer(id)) && applied == Applies(old(View()), AcceptByPeer(id))
    {
      applied := Transition(id, Outbound, AwaitingPeerConsent, Transferring);
    }

    method LocalAccepts(id: nat) returns (applied: bool)
      modifies this
      ensures View() == Apply(old(View()), AcceptInbound(id)) && applied == Applies(old(View()), AcceptInbound(id))
    {
      applied := Transition(id, Inbound, AwaitingLocalConsent, Transferring);
    }

    method PeerRejects(id: nat) returns (applied: bool)
      modifies this
      ensures View() == Apply(old(View()), RejectByPeer(id)) && applied == Applies(old(View()), RejectByPeer(id))
    {
      applied := Transition(id, Outbound, AwaitingPeerConsent, Rejected);
    }

    method LocalRejects(id: nat) returns (applied: bool)
      modifies this
      ensures View() == Apply(old(View()), RejectInbound(id)) && applied == Applies(old(View()), RejectInbound(id))
    {
      applied := Transition(id, Inbound, AwaitingLocalConsent, Rejected);
    }

    method CancelShare(id: nat) returns (applied: bool)
      modifies this
      ensures View() == Apply(old(View()), Cancel(id)) && applied == Applies(old(View()), Cancel(id))
    {
      if active.None? || active.value.id != id || active.value.phase.Terminal() {
        return false;
      }
      active := Some(active.value.SetPhase(Cancelled));
      discovery := Idle;
      return true;
    }

    method FailShare(id: nat) returns (applied: bool)
      modifies this
      ensures View() == Apply(old(View()), Fail(id)) && applied == Applies(old(View()), Fail(id))
    {
      if active.None? || active.value.id != id || active.value.phase.Terminal() {
        return false;
      }
      active := Some(active.value.SetPhase(Failed));
      discovery := Idle;
      return true;
    }

    method CompleteShare(id: nat) returns (applied: bool)
      modifies this
      ensures View() == Apply(old(View()), Complete(id)) && applied == Applies(old(View()), Complete(id))
    {
      if active.None? {
        return false;
      }
      var share := active.value;
      if share.id != id || share.phase != Transferring || share.transferred != share.total {
        return false;
      }
      active := Some(share.SetPhase(Completed));
      return true;
    }

    method DismissShare(id: nat) returns (applied: bool)
      modifies this
      ensures View() == Apply(old(View()), Dismiss(id)) && applied == Applies(old(View()), Dismiss(id))
    {
      if active.None? || active.value.id != id || !active.value.phase.Terminal() {
        return false;
      }
      active := None;
      return true;
    }

    method EndSearch() returns (applied: bool)
      modifies this
      ensures View() == Apply(old(View()), DiscoveryTimedOut) && applied == Applies(old(View()), DiscoveryTimedOut)
    {
      applied := discovery.Searching?;
      if applied {
        discovery := SearchTimedOut;
      }
    }

    method SeePeer(peer: string, name: string)
      modifies this
      ensures View() == Apply(old(View()), ObservePeer(peer, name))
    {
      var k := Lookup(peer);
      if k.Some? {
        peers := peers[k.value := peers[k.value].(name := name)];
        return;
      }
      peers := peers + [Peer(peer, name, false)];
    }

    method LosePeer(peer: string) returns (applied: bool)
      modifies this
      ensures View() == Apply(old(View()), RemovePeer(peer)) && applied == Applies(old(View()), RemovePeer(peer))
    {
      var k := Lookup(peer);
      if k.None? {
        return false;
      }
      peers := peers[..k.value] + peers[k.value + 1..];
      return true;
    }

    method PreferPeer(peer: string) returns (applied: bool)
      modifies this
      ensures View() == Apply(old(View()), PinPeer(peer)) && applied == Applies(old(View()), PinPeer(peer))
    {
      var k := Lookup(peer);
      if k.None? {
        return false;
      }
      Pinning(Some(peer));
      return true;
    }

    method PreferNone()
      modifies this
      ensures View() == Apply(old(View()), UnpinPeers)
    {
      Pinning(None);
    }

    method Offer(attachment: Attachment, peer: string, size: Option<nat>) returns (id: Option<nat>)
      modifies this
      ensures View() == Apply(old(View()), OfferInbound(attachment, peer, size))
      ensures id == if Applies(old(View()), OfferInbound(attachment, peer, size)) then Some(old(nextId)) else None
    {
      var k := Lookup(peer);
      if k.None? {
        return None;
      }
      var found := peers[k.value];
      var reserved := NextId();
      var declared := if size.Some? then size.value else attachment.ByteLength();
      var share := Share(attachment, Inbound, reserved, None, AwaitingLocalConsent, declared, 0, None);
      active := Some(share.(peer := Some(found), phase := AwaitingLocalConsent));
      return Some(reserved);
    }

    method Queue(attachment: Attachment, usePreference: bool) returns (id: nat)
      modifies this
      ensures View() == Apply(old(View()), QueueOutbound(attachment, usePreference)) && id == old(nextId)
    {
      id := NextId();
      var pinned := None;
      if usePreference {
        pinned := Preferred();
      }
      var share := Share(attachment, Outbound, id, None, WaitingForPeer, attachment.ByteLength(), 0, None);
      if pinned.Some? {
        share := share.(peer := pinned, phase := AwaitingPeerConsent);
      } else {
        discovery := Searching;
      }
      active := Some(share);
    }

    method Progress(id: nat, bytes: nat) returns (applied: bool)
      modifies this
      ensures View() == Apply(old(View()), RecordProgress(id, bytes))
      ensures applied == Applies(old(View()), RecordProgress(id, bytes))
    {
      if active.None? || active.value.id != id {
        return false;
      }
      var share := active.value;
      if share.phase != Transferring || bytes < share.transferred || bytes > share.total {
        return false;
      }
      active := Some(share.(transferred := bytes));
      return true;
    }

    method Replace(id: nat, attachment: Attachment) returns (applied: bool)
      modifies this
      ensures View() == Apply(old(View()), ReplaceAttachment(id, attachment))
      ensures applied == Applies(old(View()), ReplaceAttachment(id, attachment))
    {
      if active.None? || active.value.id != id {
        return false;
      }
      active := Some(active.value.(attachment := attachment, total := attachment.ByteLength()));
      return true;
    }

    method ShowCode(id: nat, code: string) returns (applied: bool)
      modifies this
      ensures View() == Apply(old(View()), RecordCode(id, code)) && applied == Applies(old(View()), RecordCode(id, code))
    {
      if active.None? || active.value.id != id || !active.value.phase.AwaitsConsent() || !FourDigits(code) {
        return false;
      }
      active := Some(active.value.(code := Some(code)));
      return true;
    }

    method Choose(id: nat, peer: string) returns (applied: bool)
      modifies this
      ensures View() == Apply(old(View()), SelectPeer(id, peer)) && applied == Applies(old(View()), SelectPeer(id, peer))
    {
      var k := Lookup(peer);
      if k.None? || active.None? {
        return false;
      }
      var share := active.value;
      if share.id != id || share.direction != Outbound || share.phase != WaitingForPeer {
        return false;
      }
      active := Some(share.(peer := Some(peers[k.value]), phase := AwaitingPeerConsent));
      discovery := Idle;
      return true;
    }

    method Search(running: bool)
      modifies this
      ensures View() == Apply(old(View()), if running then StartDiscovery else StopDiscovery)
    {
      discovery := if running then Searching else Idle;
    }
  }
}
