/** The share lifecycle as its user sees it: which operation moves a share where,
    what else it may change, and that both directions can run to completion. */
module SharingLaws {
  import opened Base
  import opened Sharing

  predicate Live(phase: Phase) {
    phase == WaitingForPeer || phase == AwaitingPeerConsent || phase == AwaitingLocalConsent || phase == Transferring
  }

  /** The moves of a share, one line each. */
  predicate Move(share: Share, op: Op, to: Phase) {
    var from := share.phase;
    || (op == AcceptByPeer(share.id) && share.direction == Outbound && from == AwaitingPeerConsent && to == Transferring)
    || (op == AcceptInbound(share.id) && share.direction == Inbound && from == AwaitingLocalConsent && to == Transferring)
    || (op == RejectByPeer(share.id) && share.direction == Outbound && from == AwaitingPeerConsent && to == Rejected)
    || (op == RejectInbound(share.id) && share.direction == Inbound && from == AwaitingLocalConsent && to == Rejected)
    || (op == Cancel(share.id) && Live(from) && to == Cancelled)
    || (op == Fail(share.id) && Live(from) && to == Failed)
    || (op == Complete(share.id) && from == Transferring && share.transferred == share.total && to == Completed)
  }

  predicate Chooses(c: Coord, op: Op) {
    && c.active.Some? && op.SelectPeer? && op.id == c.active.value.id
    && c.active.value.direction == Outbound && c.active.value.phase == WaitingForPeer
    && exists i :: 0 <= i < |c.peers| && c.peers[i].id == op.peer
  }

  predicate Creates(op: Op) {
    op.OfferInbound? || op.QueueOutbound?
  }

  /** A displayed share changes phase only along these moves, or by the choice of a
      known peer; it goes exactly when it has ended and is dismissed. */
  lemma PhasesMove(c: Coord, op: Op)
    requires c.active.Some? && !Creates(op)
    ensures var share, c' := c.active.value, Apply(c, op);
            && (c'.active == None <==> op == Dismiss(share.id) && !Live(share.phase))
            && (c'.active.Some? && c'.active.value.phase != share.phase ==>
                  var to := c'.active.value.phase; Move(share, op, to) || (Chooses(c, op) && to == AwaitingPeerConsent))
  {
  }

  /** And it makes each of them when asked. */
  lemma MovesAreMade(c: Coord, op: Op, to: Phase)
    requires c.active.Some? && (Move(c.active.value, op, to) || (Chooses(c, op) && to == AwaitingPeerConsent))
    ensures Apply(c, op).Is(c.active.value.id) && Apply(c, op).active.value.phase == to
  {
  }

  /** What an operation leaves of everything else a share says. */
  lemma FieldsFollow(c: Coord, op: Op)
    requires c.active.Some? && !Creates(op) && Apply(c, op).active.Some?
    ensures var share, share' := c.active.value, Apply(c, op).active.value;
            && share'.id == share.id && share'.direction == share.direction
            && share'.transferred == (if op.RecordProgress? && op.id == share.id && share.phase == Transferring
                                         && share.transferred <= op.bytes <= share.total
                                      then op.bytes else share.transferred)
            && (if op.ReplaceAttachment? && op.id == share.id
                then share'.attachment == op.attachment && share'.total == Octets(op.attachment)
                else share'.attachment == share.attachment && share'.total == share.total)
            && (Chooses(c, op) ==> share'.peer.Some? && share'.peer.value in c.peers && share'.peer.value.id == op.peer)
            && (!Chooses(c, op) ==> share'.peer == share.peer)
  {
  }

  /** A report is taken exactly between what was counted and the total, both included. */
  lemma ReportsAreTaken(c: Coord, id: nat, bytes: nat)
    ensures Applies(c, RecordProgress(id, bytes)) <==>
            && c.active.Some? && c.active.value.id == id && c.active.value.phase == Transferring
            && c.active.value.transferred <= bytes && bytes <= c.active.value.total
  {
  }

  /** A code is shown exactly from its recording, while consent is undecided, until
      the share is decided. */
  lemma CodesFollow(c: Coord, op: Op)
    requires c.ShareValid() && c.active.Some? && !Creates(op) && Apply(c, op).active.Some?
    ensures var share, share' := c.active.value, Apply(c, op).active.value;
            var undecided := share.phase == AwaitingLocalConsent || share.phase == AwaitingPeerConsent;
            share'.code ==
            if op.RecordCode? && op.id == share.id && undecided && |op.code| == 4
               && (forall i :: 0 <= i < 4 ==> op.code[i] in "0123456789")
            then Some(op.code)
            else if share'.phase == share.phase || share'.phase == AwaitingPeerConsent then share.code else None
  {
    if op.RecordCode? && |op.code| == 4 {
      assert forall i :: 0 <= i < 4 ==> (op.code[i] in "0123456789" <==> '0' <= op.code[i] <= '9') by {
        forall i | 0 <= i < 4
          ensures op.code[i] in "0123456789" <==> '0' <= op.code[i] <= '9'
        {
          Digits(op.code[i]);
        }
      }
    }
  }

  lemma Digits(c: char)
    ensures c in "0123456789" <==> '0' <= c <= '9'
  {
    if '0' <= c <= '9' {
      assert "0123456789"[c as int - '0' as int] == c;
    }
  }

  /** The length of what is shared, in octets. */
  function Octets(attachment: Attachment): nat {
    if attachment.File? then attachment.size else |attachment.value|
  }

  /** An offer from a known peer waits for consent here; any other is refused. */
  lemma OffersAwaitConsent(c: Coord, attachment: Attachment, peer: string, size: Option<nat>)
    ensures var c', known := Apply(c, OfferInbound(attachment, peer, size)), exists i :: 0 <= i < |c.peers| && c.peers[i].id == peer;
            && (!known ==> c' == c)
            && (known ==>
                  && c'.active.Some? && c'.peers == c.peers && c'.discovery == c.discovery
                  && var share := c'.active.value;
                     && share.id == c.nextId && share.direction == Inbound && share.phase == AwaitingLocalConsent
                     && share.attachment == attachment && share.transferred == 0 && share.code == None
                     && share.total == (if size.Some? then size.value else Octets(attachment))
                     && share.peer.Some? && share.peer.value in c.peers && share.peer.value.id == peer)
  {
  }

  /** An outbound share waits for its pinned peer's consent, or for a peer. */
  lemma QueuedSharesWait(c: Coord, attachment: Attachment, usePreference: bool)
    ensures var c' := Apply(c, QueueOutbound(attachment, usePreference));
            var pinned := usePreference && exists i :: 0 <= i < |c.peers| && c.peers[i].pinned;
            && c'.active.Some? && c'.peers == c.peers
            && c'.discovery == (if pinned then c.discovery else Searching)
            && var share := c'.active.value;
               && share.id == c.nextId && share.direction == Outbound && share.attachment == attachment
               && share.total == Octets(attachment) && share.transferred == 0 && share.code == None
               && (if pinned then share.phase == AwaitingPeerConsent && share.peer.Some? && share.peer.value in c.peers
                                  && share.peer.value.pinned
                   else share.phase == WaitingForPeer && share.peer == None)
  {
  }

  /** The search: what starts it, what ends it, and when it is said to have timed out. */
  lemma SearchFollows(c: Coord, op: Op)
    requires !op.QueueOutbound?
    ensures var c' := Apply(c, op);
            var ends := c.active.Some? && Live(c.active.value.phase)
                        && (op == Cancel(c.active.value.id) || op == Fail(c.active.value.id));
            c'.discovery ==
            if op == StartDiscovery then Searching
            else if op == StopDiscovery || ends || Chooses(c, op) then Idle
            else if op == DiscoveryTimedOut && c.discovery == Searching then SearchTimedOut
            else c.discovery
  {
  }

  // ------------------------------------------------------------------
  // Peers
  // ------------------------------------------------------------------

  lemma FoundIs(peers: seq<Peer>, id: string, k: nat)
    requires PeersValid(peers) && k < |peers| && peers[k].id == id
    ensures Named(peers, id) == Some(k) && FindPeer(peers, id) == Some(peers[k])
  {
  }

  /** Observing a peer makes it known under that name, pinned only if it was, and
      leaves every other peer as it is known. */
  lemma ObservedIsKnown(peers: seq<Peer>, id: string, name: string, other: string)
    requires PeersValid(peers)
    ensures var before, after := FindPeer(peers, id), FindPeer(Observe(peers, id, name), id);
            after == Some(Peer(id, name, before.Some? && before.value.pinned))
    ensures other != id ==> FindPeer(Observe(peers, id, name), other) == FindPeer(peers, other)
  {
    var peers' := Observe(peers, id, name);
    var k := Named(peers, id);
    ObserveKeepsPeers(peers, id, name);
    FoundIs(peers', id, if k.Some? then k.value else |peers|);
    if other != id && Named(peers, other).Some? {
      FoundIs(peers', other, Named(peers, other).value);
    }
  }

  /** Removing a peer makes it unknown, and no other. */
  lemma RemovedIsUnknown(peers: seq<Peer>, id: string, other: string)
    requires PeersValid(peers)
    ensures FindPeer(Remove(peers, id), id) == None
    ensures other != id ==> FindPeer(Remove(peers, id), other) == FindPeer(peers, other)
  {
    var peers' := Remove(peers, id);
    RemoveKeepsPeers(peers, id);
    var k := Named(peers, id);
    if k.Some? {
      forall i | 0 <= i < |peers'|
        ensures peers'[i].id != id
      {
        assert peers'[i] == if i < k.value then peers[i] else peers[i + 1];
      }
    }
    if other != id && Named(peers, other).Some? {
      var j := Named(peers, other).value;
      if k.Some? {
        FoundIs(peers', other, if j < k.value then j else j - 1);
      }
    } else if other != id && k.Some? {
      assert forall i :: 0 <= i < |peers'| ==> peers'[i].id != other;
    }
  }

  /** Pinning makes that peer the pinned one, and unpinning leaves none. */
  lemma PinnedIsChosen(c: Coord, id: string)
    requires PeersValid(c.peers)
    ensures FindPeer(c.peers, id).Some? ==>
              PinnedPeer(Apply(c, PinPeer(id)).peers) == Some(FindPeer(c.peers, id).value.(pinned := true))
    ensures FindPeer(c.peers, id) == None ==> Apply(c, PinPeer(id)) == c
    ensures PinnedPeer(Apply(c, UnpinPeers).peers) == None
  {
    var k := Named(c.peers, id);
    if k.Some? {
      var peers' := Pin(c.peers, Some(id));
      assert peers'[k.value].pinned && forall i :: 0 <= i < |peers'| && i != k.value ==> !peers'[i].pinned;
    }
  }

  // ------------------------------------------------------------------
  // Shares that complete
  // ------------------------------------------------------------------

  lemma RunTwo(c: Coord, first: Op, second: Op, rest: seq<Op>)
    ensures Run(c, [first, second] + rest) == Run(Apply(Apply(c, first), second), rest)
  {
    var ops := [first, second] + rest;
    assert ops[1..] == [second] + rest && ops[1..][1..] == rest;
    assert Run(c, ops) == Run(Apply(c, first), ops[1..]);
  }

  /** Whatever is sent, from any idle endpoint: queued, sighted, chosen, accepted and
      counted in full, it completes. */
  lemma OutboundCompletes(c: Coord, attachment: Attachment, peer: string, name: string)
    requires c.Valid() && !c.HasActive() && c.nextId < U64_MAX
    ensures var ops := [QueueOutbound(attachment, false), ObservePeer(peer, name)]
                       + ([SelectPeer(c.nextId, peer), AcceptByPeer(c.nextId)]
                          + ([RecordProgress(c.nextId, Octets(attachment)), Complete(c.nextId)] + []));
            var c' := Run(c, ops);
            && c'.active.Some? && c'.active.value.id == c.nextId && c'.active.value.phase == Completed
            && c'.active.value.transferred == Octets(attachment) && c'.active.value.peer.Some? && c'.active.value.peer.value.id == peer
  {
    var id := c.nextId;
    var last := [RecordProgress(id, Octets(attachment)), Complete(id)] + [];
    var c2 := Apply(Apply(c, QueueOutbound(attachment, false)), ObservePeer(peer, name));
    var c4 := Apply(Apply(c2, SelectPeer(id, peer)), AcceptByPeer(id));
    RunTwo(c, QueueOutbound(attachment, false), ObservePeer(peer, name), [SelectPeer(id, peer), AcceptByPeer(id)] + last);
    RunTwo(c2, SelectPeer(id, peer), AcceptByPeer(id), last);
    RunTwo(c4, RecordProgress(id, Octets(attachment)), Complete(id), []);
    SightedWhileWaiting(c, attachment, peer, name);
    ChosenAndAccepted(c2, id, peer);
    CountedInFull(c4, id);
  }

  lemma SightedWhileWaiting(c: Coord, attachment: Attachment, peer: string, name: string)
    requires c.Valid()
    ensures var c' := Apply(Apply(c, QueueOutbound(attachment, false)), ObservePeer(peer, name));
            && c'.active == Some(Share(attachment, Outbound, c.nextId, None, WaitingForPeer, Octets(attachment), 0, None))
            && FindPeer(c'.peers, peer).Some?
  {
    ObservedIsKnown(c.peers, peer, name, peer);
  }

  lemma ChosenAndAccepted(c: Coord, id: nat, peer: string)
    requires c.Is(id) && c.active.value.direction == Outbound && c.active.value.phase == WaitingForPeer
    requires FindPeer(c.peers, peer).Some?
    ensures var share, share' := c.active.value, Apply(Apply(c, SelectPeer(id, peer)), AcceptByPeer(id)).active;
            && share'.Some? && share'.value.id == id && share'.value.phase == Transferring
            && share'.value.total == share.total && share'.value.transferred == share.transferred
            && share'.value.peer == FindPeer(c.peers, peer) && share'.value.peer.value.id == peer
  {
  }

  lemma CountedInFull(c: Coord, id: nat)
    requires c.Is(id) && c.active.value.phase == Transferring && c.active.value.transferred <= c.active.value.total
    ensures var share, share' := c.active.value, Apply(Apply(c, RecordProgress(id, c.active.value.total)), Complete(id)).active;
            && share'.Some? && share'.value.id == id && share'.value.phase == Completed
            && share'.value.transferred == share.total && share'.value.peer == share.peer
  {
  }

  /** Whatever a known peer offers: accepted and counted in full, it completes. */
  lemma InboundCompletes(c: Coord, attachment: Attachment, peer: string, size: nat)
    requires c.Valid() && !c.HasActive() && c.nextId < U64_MAX && FindPeer(c.peers, peer).Some?
    ensures var ops := [OfferInbound(attachment, peer, Some(size)), AcceptInbound(c.nextId)]
                       + ([RecordProgress(c.nextId, size), Complete(c.nextId)] + []);
            var c' := Run(c, ops);
            && c'.active.Some? && c'.active.value.id == c.nextId && c'.active.value.phase == Completed
            && c'.active.value.transferred == size == c'.active.value.total
  {
    var id := c.nextId;
    var last := [RecordProgress(id, size), Complete(id)] + [];
    RunTwo(c, OfferInbound(attachment, peer, Some(size)), AcceptInbound(id), last);
    RunTwo(Apply(Apply(c, OfferInbound(attachment, peer, Some(size))), AcceptInbound(id)), RecordProgress(id, size), Complete(id), []);
  }
}
