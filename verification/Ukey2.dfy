/** The three-message UKEY2 exchange. Elliptic-curve, hash, key-derivation and
    protobuf operations are uninterpreted; what is assumed of them is `Lawful`. */
module Ukey2 {
  import opened Base

  const KEY_LENGTH: nat := 32

  datatype Role = Initiator | Responder

  datatype HandshakeError =
    InvalidMessage | InvalidField | InvalidState | Unsupported | Commitment | PublicKey | KeyAgreement

  // ------------------------------------------------------------------
  // Messages and primitives
  // ------------------------------------------------------------------

  /** An affine point: two 32-byte big-endian coordinates. */
  datatype Point = Point(x: Bytes, y: Bytes)

  /** A public key on the wire: coordinates as signed big-endian integers. */
  datatype GenericKey = GenericKey(kind: int, ec: Option<Point>)

  datatype Wire = Wire(kind: Option<int>, data: Option<Bytes>)

  datatype CipherCommitment = CipherCommitment(cipher: Option<int>, commitment: Option<Bytes>)

  datatype ClientInit = ClientInit(version: Option<int>, random: Option<Bytes>,
                                   commitments: seq<CipherCommitment>, nextProtocol: Option<string>)

  datatype ServerInit = ServerInit(version: Option<int>, random: Option<Bytes>,
                                   cipher: Option<int>, publicKey: Option<Bytes>)

  datatype Finished = Finished(publicKey: Option<Bytes>)

  const CLIENT_INIT: int := 2
  const SERVER_INIT: int := 3
  const CLIENT_FINISH: int := 4
  const P256_SHA512: int := 100
  const EC_P256: int := 1
  const UKEY2_VERSION: int := 1
  const NEXT_PROTOCOL: string := "AES_256_CBC-HMAC_SHA256"

  datatype Codec<!T> = Codec(encode: T -> Bytes, decode: Bytes -> Option<T>)

  /** The codec decodes what it encodes, for values whose fields fit the wire. */
  ghost predicate Faithful<T(!new)>(codec: Codec<T>, fits: T -> bool) {
    forall v: T :: fits(v) ==> codec.decode(codec.encode(v)) == Some(v)
  }

  predicate MaybeI32(value: Option<int>) {
    value.Some? ==> FitsI32(value.value)
  }

  predicate KeyFits(key: GenericKey) {
    FitsI32(key.kind)
  }

  predicate WireFits(wire: Wire) {
    MaybeI32(wire.kind)
  }

  predicate ClientInitFits(init: ClientInit) {
    MaybeI32(init.version) && forall i :: 0 <= i < |init.commitments| ==> MaybeI32(init.commitments[i].cipher)
  }

  predicate ServerInitFits(init: ServerInit) {
    MaybeI32(init.version) && MaybeI32(init.cipher)
  }

  datatype Primitives = Primitives(
    wire: Codec<Wire>,
    clientInit: Codec<ClientInit>,
    serverInit: Codec<ServerInit>,
    finished: Codec<Finished>,
    key: Codec<GenericKey>,
    point: Bytes -> Point,
    onCurve: Point -> bool,
    agree: (Bytes, Point) -> Bytes,
    sha512: Bytes -> Bytes,
    token: (Bytes, Bytes) -> Bytes,
    master: (Bytes, Bytes) -> Bytes,
    d2d: (Bytes, Role) -> Bytes)

  /** Codecs decode what they encode, public points are valid, and either side of
      a key agreement computes the same secret. */
  ghost predicate Lawful(p: Primitives) {
    && Faithful(p.wire, WireFits) && Faithful(p.clientInit, ClientInitFits) && Faithful(p.serverInit, ServerInitFits)
    && Faithful(p.finished, (_: Finished) => true) && Faithful(p.key, KeyFits)
    && (forall s: Bytes :: ValidPoint(p.point(s)) && p.onCurve(p.point(s)))
    && (forall s: Bytes :: p.sha512(s) != [])
    && (forall a: Bytes, b: Bytes :: p.agree(a, p.point(b)) == p.agree(b, p.point(a)))
    && (forall k: Bytes, role: Role :: |p.d2d(k, role)| == KEY_LENGTH)
  }

  predicate ValidPoint(point: Point) {
    |point.x| == KEY_LENGTH && |point.y| == KEY_LENGTH
  }

  // ------------------------------------------------------------------
  // Coordinates
  // ------------------------------------------------------------------

  /** A non-negative two's-complement integer: a leading zero keeps the sign bit clear. */
  function Positive(value: Bytes): Result<Bytes, HandshakeError> {
    if |value| != KEY_LENGTH then Err(PublicKey)
    else if value[0] & 0x80 != 0 then Ok([0] + value)
    else Ok(value)
  }

  function Coordinate(value: Bytes): Result<Bytes, HandshakeError> {
    if |value| == KEY_LENGTH then Ok(value)
    else if |value| == KEY_LENGTH + 1 && value[0] == 0 then Ok(value[1..])
    else Err(PublicKey)
  }

  lemma CoordinateRoundTrip(value: Bytes)
    requires |value| == KEY_LENGTH
    ensures Positive(value).Ok? && Coordinate(Positive(value).value) == Ok(value)
    ensures Positive(value).value[0] & 0x80 == 0
  {
    var encoded := Positive(value).value;
    assert value[0] & 0x80 != 0 ==> encoded[1..] == value;
  }

  function EncodePoint(point: Point): Result<GenericKey, HandshakeError> {
    var x, y := Positive(point.x), Positive(point.y);
    if x.Err? then Err(x.error)
    else if y.Err? then Err(y.error)
    else Ok(GenericKey(EC_P256, Some(Point(x.value, y.value))))
  }

  function ParsePoint(p: Primitives, bytes: Bytes): Result<Point, HandshakeError> {
    match p.key.decode(bytes)
    case None => Err(PublicKey)
    case Some(GenericKey(kind, ec)) =>
      if kind != EC_P256 || ec.None? then Err(PublicKey)
      else
        var x, y := Coordinate(ec.value.x), Coordinate(ec.value.y);
        if x.Err? || y.Err? then Err(PublicKey)
        else if p.onCurve(Point(x.value, y.value)) then Ok(Point(x.value, y.value))
        else Err(PublicKey)
  }

  lemma PointRoundTrip(p: Primitives, point: Point)
    requires Faithful(p.key, KeyFits) && ValidPoint(point) && p.onCurve(point)
    ensures EncodePoint(point).Ok? && ParsePoint(p, p.key.encode(EncodePoint(point).value)) == Ok(point)
  {
    CoordinateRoundTrip(point.x);
    CoordinateRoundTrip(point.y);
  }

  // ------------------------------------------------------------------
  // The state machine
  // ------------------------------------------------------------------

  datatype State = Start | WaitForPeer | SendFinish | Complete

  datatype Handshake = Handshake(role: Role, random: Bytes, secret: Bytes, state: State,
                                 clientInit: Option<Bytes>, serverInit: Option<Bytes>,
                                 commitment: Option<Bytes>, peerKey: Option<Point>)

  function New(role: Role, random: Bytes, secret: Bytes): Handshake {
    Handshake(role, random, secret, Start, None, None, None, None)
  }

  function Wrap(p: Primitives, kind: int, data: Bytes): Bytes {
    p.wire.encode(Wire(Some(kind), Some(data)))
  }

  function Unwrap(p: Primitives, bytes: Bytes, expected: int): Result<Bytes, HandshakeError> {
    match p.wire.decode(bytes)
    case None => Err(InvalidMessage)
    case Some(Wire(kind, data)) =>
      if kind != Some(expected) then Err(InvalidMessage)
      else if data.None? then Err(InvalidField)
      else Ok(data.value)
  }

  function PublicKeyOf(p: Primitives, secret: Bytes): Result<Bytes, HandshakeError> {
    match EncodePoint(p.point(secret))
    case Err(error) => Err(error)
    case Ok(key) => Ok(p.key.encode(key))
  }

  function FinishOf(p: Primitives, secret: Bytes): Result<Bytes, HandshakeError> {
    match PublicKeyOf(p, secret)
    case Err(error) => Err(error)
    case Ok(key) => Ok(Wrap(p, CLIENT_FINISH, p.finished.encode(Finished(Some(key)))))
  }

  function ClientInitOf(p: Primitives, random: Bytes, secret: Bytes): Result<Bytes, HandshakeError> {
    match FinishOf(p, secret)
    case Err(error) => Err(error)
    case Ok(finish) =>
      var offer := CipherCommitment(Some(P256_SHA512), Some(p.sha512(finish)));
      Ok(Wrap(p, CLIENT_INIT,
              p.clientInit.encode(ClientInit(Some(UKEY2_VERSION), Some(random), [offer], Some(NEXT_PROTOCOL)))))
  }

  function ServerInitOf(p: Primitives, random: Bytes, secret: Bytes): Result<Bytes, HandshakeError> {
    match PublicKeyOf(p, secret)
    case Err(error) => Err(error)
    case Ok(key) =>
      Ok(Wrap(p, SERVER_INIT,
              p.serverInit.encode(ServerInit(Some(UKEY2_VERSION), Some(random), Some(P256_SHA512), Some(key)))))
  }

  /** The first offered commitment for the supported cipher that is present. */
  function FindCommitment(offers: seq<CipherCommitment>): Option<Bytes>
    decreases |offers|
  {
    if offers == [] then None
    else if offers[0].cipher == Some(P256_SHA512) && offers[0].commitment.Some? then offers[0].commitment
    else FindCommitment(offers[1..])
  }

  predicate RandomOk(random: Option<Bytes>) {
    random.Some? && |random.value| == KEY_LENGTH
  }

  /** What a responder takes from a client-init message: its commitment. */
  function ReadClientInit(p: Primitives, bytes: Bytes): Result<Bytes, HandshakeError> {
    match Unwrap(p, bytes, CLIENT_INIT)
    case Err(error) => Err(error)
    case Ok(body) =>
      match p.clientInit.decode(body)
      case None => Err(InvalidMessage)
      case Some(init) =>
        if init.version != Some(UKEY2_VERSION) || !RandomOk(init.random) then Err(InvalidField)
        else if init.nextProtocol != Some(NEXT_PROTOCOL) then Err(Unsupported)
        else
          match FindCommitment(init.commitments)
          case None => Err(Unsupported)
          case Some(commitment) => if commitment == [] then Err(Unsupported) else Ok(commitment)
  }

  function ReadServerInit(p: Primitives, bytes: Bytes): Result<Point, HandshakeError> {
    match Unwrap(p, bytes, SERVER_INIT)
    case Err(error) => Err(error)
    case Ok(body) =>
      match p.serverInit.decode(body)
      case None => Err(InvalidMessage)
      case Some(init) =>
        if init.version != Some(UKEY2_VERSION) || !RandomOk(init.random) then Err(InvalidField)
        else if init.cipher != Some(P256_SHA512) then Err(Unsupported)
        else if init.publicKey.None? then Err(InvalidField)
        else ParsePoint(p, init.publicKey.value)
  }

  function ReadClientFinish(p: Primitives, commitment: Option<Bytes>, bytes: Bytes): Result<Point, HandshakeError> {
    if commitment.None? then Err(InvalidState)
    else if p.sha512(bytes) != commitment.value then Err(Commitment)
    else
      match Unwrap(p, bytes, CLIENT_FINISH)
      case Err(error) => Err(error)
      case Ok(body) =>
        match p.finished.decode(body)
        case None => Err(InvalidMessage)
        case Some(Finished(key)) => if key.None? then Err(InvalidField) else ParsePoint(p, key.value)
  }

  /** `next_message`: the message, or why there is none, and the new state. */
  function NextMessage(p: Primitives, h: Handshake): (Handshake, Result<Bytes, HandshakeError>) {
    match (h.role, h.state)
    case (Initiator, Start) =>
      var m := ClientInitOf(p, h.random, h.secret);
      if m.Ok? then (h.(clientInit := Some(m.value), state := WaitForPeer), m) else (h, m)
    case (Responder, WaitForPeer) =>
      var m := ServerInitOf(p, h.random, h.secret);
      if m.Ok? then (h.(serverInit := Some(m.value)), m) else (h, m)
    case (Initiator, SendFinish) =>
      var m := FinishOf(p, h.secret);
      if m.Ok? then (h.(state := Complete), m) else (h, m)
    case _ => (h, Err(InvalidState))
  }

  function Receive(p: Primitives, h: Handshake, bytes: Bytes): (Handshake, Result<(), HandshakeError>) {
    match (h.role, h.state)
    case (Responder, Start) =>
      (match ReadClientInit(p, bytes)
       case Err(error) => (h, Err(error))
       case Ok(commitment) =>
         (h.(clientInit := Some(bytes), commitment := Some(commitment), state := WaitForPeer), Ok(())))
    case (Initiator, WaitForPeer) =>
      (match ReadServerInit(p, bytes)
       case Err(error) => (h, Err(error))
       case Ok(key) => (h.(peerKey := Some(key), serverInit := Some(bytes), state := SendFinish), Ok(())))
    case (Responder, WaitForPeer) =>
      (match ReadClientFinish(p, h.commitment, bytes)
       case Err(error) => (h, Err(error))
       case Ok(key) => (h.(peerKey := Some(key), state := Complete), Ok(())))
    case _ => (h, Err(InvalidState))
  }

  /** The verification token and the two directional keys. */
  datatype Completed = Completed(token: Bytes, send: Bytes, receive: Bytes)

  function Finish(p: Primitives, h: Handshake): Result<Completed, HandshakeError> {
    if h.state != Complete || h.clientInit.None? || h.serverInit.None? || h.peerKey.None? then Err(InvalidState)
    else
      var shared := p.agree(h.secret, h.peerKey.value);
      var transcript := h.clientInit.value + h.serverInit.value;
      var master := p.master(shared, transcript);
      var client, server := p.d2d(master, Initiator), p.d2d(master, Responder);
      Ok(if h.role == Initiator then Completed(p.token(shared, transcript), client, server)
         else Completed(p.token(shared, transcript), server, client))
  }

  /** The exchange as the source keeps it: an object updated by each call. */
  class Exchange {
    const p: Primitives
    const role: Role
    const random: Bytes
    const secret: Bytes
    var state: State
    var clientInit: Option<Bytes>
    var serverInit: Option<Bytes>
    var commitment: Option<Bytes>
    var peerKey: Option<Point>

    function Value(): Handshake
      reads this
    {
      Handshake(role, random, secret, state, clientInit, serverInit, commitment, peerKey)
    }

    constructor (p: Primitives, role: Role, random: Bytes, secret: Bytes)
      ensures this.p == p && Value() == New(role, random, secret)
    {
      this.p, this.role, this.random, this.secret := p, role, random, secret;
      state, clientInit, serverInit, commitment, peerKey := Start, None, None, None, None;
    }

    method Next() returns (result: Result<Bytes, HandshakeError>)
      modifies this
      ensures (Value(), result) == NextMessage(p, old(Value()))
    {
      if role == Initiator && state == Start {
        result := ClientInitOf(p, random, secret);
        if result.Ok? {
          clientInit := Some(result.value);
          state := WaitForPeer;
        }
      } else if role == Responder && state == WaitForPeer {
        result := ServerInitOf(p, random, secret);
        if result.Ok? {
          serverInit := Some(result.value);
        }
      } else if role == Initiator && state == SendFinish {
        result := FinishOf(p, secret);
        if result.Ok? {
          state := Complete;
        }
      } else {
        result := Err(InvalidState);
      }
    }

    method Accept(bytes: Bytes) returns (result: Result<(), HandshakeError>)
      modifies this
      ensures (Value(), result) == Receive(p, old(Value()), bytes)
    {
      if role == Responder && state == Start {
        var read := ReadClientInit(p, bytes);
        if read.Err? {
          return Err(read.error);
        }
        clientInit := Some(bytes);
        commitment := Some(read.value);
        state := WaitForPeer;
        return Ok(());
      }
      if role == Initiator && state == WaitForPeer {
        var read := ReadServerInit(p, bytes);
        if read.Err? {
          return Err(read.error);
        }
        peerKey := Some(read.value);
        serverInit := Some(bytes);
        state := SendFinish;
        return Ok(());
      }
      if role == Responder && state == WaitForPeer {
        var read := ReadClientFinish(p, commitment, bytes);
        if read.Err? {
          return Err(read.error);
        }
        peerKey := Some(read.value);
        state := Complete;
        return Ok(());
      }
      return Err(InvalidState);
    }
  }

  // ------------------------------------------------------------------
  // One side, driven by anything
  // ------------------------------------------------------------------

  datatype Call = Next | Deliver(bytes: Bytes)

  function Do(p: Primitives, h: Handshake, call: Call): Handshake {
    match call
    case Next => NextMessage(p, h).0
    case Deliver(bytes) => Receive(p, h, bytes).0
  }

  function Run(p: Primitives, h: Handshake, calls: seq<Call>): Handshake
    decreases |calls|
  {
    if calls == [] then h else Do(p, Run(p, h, calls[..|calls| - 1]), calls[|calls| - 1])
  }

  /** What a responder holds after any calls: its client-init message and its
      finish message both arrived, and the finish hashes to the commitment the
      client-init made. */
  ghost predicate ResponderHolds(p: Primitives, h: Handshake, calls: seq<Call>) {
    && h.role == Responder && h.state != SendFinish
    && (h.state == Start ==> h.clientInit.None? && h.commitment.None? && h.serverInit.None?)
    && (h.state != Start ==>
          && h.clientInit.Some? && Deliver(h.clientInit.value) in calls
          && h.commitment.Some? && ReadClientInit(p, h.clientInit.value) == Ok(h.commitment.value))
    && (h.peerKey.Some? <==> h.state == Complete)
    && (h.serverInit.Some? ==> Ok(h.serverInit.value) == ServerInitOf(p, h.random, h.secret))
    && (h.state == Complete ==>
          exists finish :: && Deliver(finish) in calls && p.sha512(finish) == h.commitment.value
                           && ReadClientFinish(p, h.commitment, finish) == Ok(h.peerKey.value))
  }

  ghost predicate InitiatorHolds(p: Primitives, h: Handshake, calls: seq<Call>) {
    && h.role == Initiator
    && (h.clientInit.Some? <==> h.state != Start)
    && (h.clientInit.Some? ==> Ok(h.clientInit.value) == ClientInitOf(p, h.random, h.secret))
    && (h.serverInit.Some? <==> h.state == SendFinish || h.state == Complete)
    && (h.peerKey.Some? <==> h.serverInit.Some?)
    && (h.serverInit.Some? ==>
          Deliver(h.serverInit.value) in calls && ReadServerInit(p, h.serverInit.value) == Ok(h.peerKey.value))
  }

  lemma ResponderStep(p: Primitives, h: Handshake, calls: seq<Call>, call: Call)
    requires ResponderHolds(p, h, calls)
    ensures ResponderHolds(p, Do(p, h, call), calls + [call])
  {
    var h' := Do(p, h, call);
    assert forall c :: c in calls ==> c in calls + [call];
    assert call in calls + [call];
    if h'.state == Complete {
      if h.state != Complete {
        assert call.Deliver? && ReadClientFinish(p, h.commitment, call.bytes) == Ok(h'.peerKey.value);
      } else {
        assert h' == h;
      }
    }
  }

  lemma InitiatorStep(p: Primitives, h: Handshake, calls: seq<Call>, call: Call)
    requires InitiatorHolds(p, h, calls)
    ensures InitiatorHolds(p, Do(p, h, call), calls + [call])
  {
    assert forall c :: c in calls ==> c in calls + [call];
    assert call in calls + [call];
  }

  /** Whatever bytes are delivered, in whatever order, a responder that
      completes verified the commitment it was given; and an initiator's
      recorded transcript is its own message and one it was delivered. */
  lemma {:induction false} TranscriptIsBound(p: Primitives, role: Role, random: Bytes, secret: Bytes, calls: seq<Call>)
    ensures var h := Run(p, New(role, random, secret), calls);
            && h.random == random && h.secret == secret
            && (role == Responder ==> ResponderHolds(p, h, calls))
            && (role == Initiator ==> InitiatorHolds(p, h, calls))
    decreases |calls|
  {
    if calls != [] {
      var last := |calls| - 1;
      TranscriptIsBound(p, role, random, secret, calls[..last]);
      assert calls == calls[..last] + [calls[last]];
      var h := Run(p, New(role, random, secret), calls[..last]);
      match role
      case Responder => ResponderStep(p, h, calls[..last], calls[last]);
      case Initiator => InitiatorStep(p, h, calls[..last], calls[last]);
    }
  }

  /** `complete` succeeds exactly in the final state with both transcript
      messages recorded; for an initiator the final state is enough. */
  lemma CompletionNeedsBothMessages(p: Primitives, role: Role, random: Bytes, secret: Bytes, calls: seq<Call>)
    ensures var h := Run(p, New(role, random, secret), calls);
            && (Finish(p, h).Ok? <==> h.state == Complete && h.serverInit.Some?)
            && (Finish(p, h).Ok? ==> h.clientInit.Some?)
            && (role == Initiator ==> (Finish(p, h).Ok? <==> h.state == Complete))
  {
    TranscriptIsBound(p, role, random, secret, calls);
  }

  lemma {:induction false} CompleteIsStuck(p: Primitives, h: Handshake, calls: seq<Call>)
    requires h.state == Complete
    ensures Run(p, h, calls) == h
    decreases |calls|
  {
    if calls != [] {
      CompleteIsStuck(p, h, calls[..|calls| - 1]);
    }
  }

  /** A responder handed the finish before it has replied is complete, accepts no
      further call, and can never derive keys. */
  lemma EarlyFinishNeverCompletes(p: Primitives, random: Bytes, secret: Bytes,
                                  peerRandom: Bytes, peerSecret: Bytes, later: seq<Call>)
    requires Lawful(p) && |peerRandom| == KEY_LENGTH
    ensures var init, finish := ClientInitOf(p, peerRandom, peerSecret), FinishOf(p, peerSecret);
            && init.Ok? && finish.Ok?
            && var h := Run(p, New(Responder, random, secret), [Deliver(init.value), Deliver(finish.value)]);
               && h.state == Complete
               && Run(p, h, later) == h
               && Finish(p, h) == Err(InvalidState)
  {
    ClientInitIsRead(p, peerRandom, peerSecret);
    FinishIsRead(p, peerSecret);
    var first, second := Deliver(ClientInitOf(p, peerRandom, peerSecret).value), Deliver(FinishOf(p, peerSecret).value);
    var h0 := New(Responder, random, secret);
    var h1 := Do(p, h0, first);
    var h2 := Do(p, h1, second);
    assert [first, second][..1] == [first] && [first][..0] == [];
    assert Run(p, h0, [first]) == Do(p, Run(p, h0, []), first);
    assert Run(p, h0, [first, second]) == Do(p, Run(p, h0, [first]), second);
    CompleteIsStuck(p, h2, later);
  }

  lemma PublicKeyIsRead(p: Primitives, secret: Bytes)
    requires Lawful(p)
    ensures PublicKeyOf(p, secret).Ok? && ParsePoint(p, PublicKeyOf(p, secret).value) == Ok(p.point(secret))
  {
    assert ValidPoint(p.point(secret)) && p.onCurve(p.point(secret));
    PointRoundTrip(p, p.point(secret));
  }

  lemma FinishIsRead(p: Primitives, secret: Bytes)
    requires Lawful(p)
    ensures FinishOf(p, secret).Ok?
    ensures var finish := FinishOf(p, secret).value;
            && ReadClientFinish(p, Some(p.sha512(finish)), finish) == Ok(p.point(secret))
            && ReadClientInit(p, finish).Err? && ReadServerInit(p, finish).Err?
  {
    PublicKeyIsRead(p, secret);
    var finished := Finished(Some(PublicKeyOf(p, secret).value));
    var wire := Wire(Some(CLIENT_FINISH), Some(p.finished.encode(finished)));
    assert p.wire.decode(p.wire.encode(wire)) == Some(wire);
    assert p.finished.decode(p.finished.encode(finished)) == Some(finished);
  }

  lemma ClientInitIsRead(p: Primitives, random: Bytes, secret: Bytes)
    requires Lawful(p) && |random| == KEY_LENGTH
    ensures FinishOf(p, secret).Ok? && ClientInitOf(p, random, secret).Ok?
    ensures var init := ClientInitOf(p, random, secret).value;
            && ReadClientInit(p, init) == Ok(p.sha512(FinishOf(p, secret).value))
            && ReadServerInit(p, init).Err?
            && forall commitment :: ReadClientFinish(p, commitment, init).Err?
  {
    FinishIsRead(p, secret);
    var hash := p.sha512(FinishOf(p, secret).value);
    var offer := CipherCommitment(Some(P256_SHA512), Some(hash));
    var init := ClientInit(Some(UKEY2_VERSION), Some(random), [offer], Some(NEXT_PROTOCOL));
    var wire := Wire(Some(CLIENT_INIT), Some(p.clientInit.encode(init)));
    assert p.wire.decode(p.wire.encode(wire)) == Some(wire);
    assert p.clientInit.decode(p.clientInit.encode(init)) == Some(init);
    assert FindCommitment([offer]) == Some(hash);
  }

  lemma ServerInitIsRead(p: Primitives, random: Bytes, secret: Bytes)
    requires Lawful(p) && |random| == KEY_LENGTH
    ensures ServerInitOf(p, random, secret).Ok?
    ensures ReadServerInit(p, ServerInitOf(p, random, secret).value) == Ok(p.point(secret))
  {
    PublicKeyIsRead(p, secret);
    var init := ServerInit(Some(UKEY2_VERSION), Some(random), Some(P256_SHA512), Some(PublicKeyOf(p, secret).value));
    var wire := Wire(Some(SERVER_INIT), Some(p.serverInit.encode(init)));
    assert p.wire.decode(p.wire.encode(wire)) == Some(wire);
    assert p.serverInit.decode(p.serverInit.encode(init)) == Some(init);
  }

  // ------------------------------------------------------------------
  // Two sides that receive only what the other produced
  // ------------------------------------------------------------------

  /** Both sides and every message each has produced so far, oldest first. */
  datatype Pair = Pair(initiator: Handshake, responder: Handshake, fromInitiator: seq<Bytes>, fromResponder: seq<Bytes>)

  /** Either side is asked for a message, or is handed any message its peer has
      ever produced, again if need be. */
  datatype Step = InitiatorNext | ResponderNext | InitiatorHears(k: nat) | ResponderHears(k: nat)

  function Act(p: Primitives, s: Pair, step: Step): Pair {
    match step
    case InitiatorNext =>
      var (h, m) := NextMessage(p, s.initiator);
      s.(initiator := h, fromInitiator := if m.Ok? then s.fromInitiator + [m.value] else s.fromInitiator)
    case ResponderNext =>
      var (h, m) := NextMessage(p, s.responder);
      s.(responder := h, fromResponder := if m.Ok? then s.fromResponder + [m.value] else s.fromResponder)
    case InitiatorHears(k) =>
      if k < |s.fromResponder| then s.(initiator := Receive(p, s.initiator, s.fromResponder[k]).0) else s
    case ResponderHears(k) =>
      if k < |s.fromInitiator| then s.(responder := Receive(p, s.responder, s.fromInitiator[k]).0) else s
  }

  function Exec(p: Primitives, s: Pair, steps: seq<Step>): Pair
    decreases |steps|
  {
    if steps == [] then s else Exec(p, Act(p, s, steps[0]), steps[1..])
  }

  /** What one side brings to the exchange. */
  datatype Party = Party(random: Bytes, secret: Bytes)

  function Begin(i: Party, r: Party): Pair {
    Pair(New(Initiator, i.random, i.secret), New(Responder, r.random, r.secret), [], [])
  }

  predicate PartiesValid(i: Party, r: Party) {
    |i.random| == KEY_LENGTH && |r.random| == KEY_LENGTH
  }

  /** The three messages the two parties can produce. */
  ghost predicate Produced(p: Primitives, i: Party, r: Party, init: Bytes, finish: Bytes, reply: Bytes) {
    && ClientInitOf(p, i.random, i.secret) == Ok(init)
    && FinishOf(p, i.secret) == Ok(finish)
    && ServerInitOf(p, r.random, r.secret) == Ok(reply)
  }

  ghost predicate InitiatorInv(p: Primitives, h: Handshake, i: Party, r: Party, init: Bytes, reply: Bytes) {
    && h.role == Initiator && h.random == i.random && h.secret == i.secret
    && h.clientInit == (if h.state == Start then None else Some(init))
    && (if h.state == SendFinish || h.state == Complete
        then h.serverInit == Some(reply) && h.peerKey == Some(p.point(r.secret))
        else h.serverInit.None? && h.peerKey.None?)
  }

  ghost predicate ResponderInv(p: Primitives, h: Handshake, i: Party, r: Party, init: Bytes, finish: Bytes, reply: Bytes) {
    && h.role == Responder && h.random == r.random && h.secret == r.secret && h.state != SendFinish
    && (if h.state == Start then h.clientInit.None? && h.commitment.None?
        else h.clientInit == Some(init) && h.commitment == Some(p.sha512(finish)))
    && (h.serverInit.None? || h.serverInit == Some(reply))
    && h.peerKey == (if h.state == Complete then Some(p.point(i.secret)) else None)
  }

  /** Every message in flight is one of the three; a reply exists only once the
      responder recorded it, and a finish only once a reply exists. */
  ghost predicate TrafficInv(s: Pair, init: Bytes, finish: Bytes, reply: Bytes) {
    && (forall k :: 0 <= k < |s.fromInitiator| ==>
          || s.fromInitiator[k] == init
          || (s.fromInitiator[k] == finish && s.responder.serverInit == Some(reply) && s.initiator.state == Complete))
    && (forall k :: 0 <= k < |s.fromResponder| ==> s.fromResponder[k] == reply)
    && (s.fromResponder != [] ==> s.responder.serverInit == Some(reply))
    && (s.initiator.state == SendFinish || s.initiator.state == Complete ==> s.responder.serverInit == Some(reply))
    && (s.responder.state == Complete ==> s.responder.serverInit == Some(reply) && s.initiator.state == Complete)
  }

  ghost predicate PairInv(p: Primitives, s: Pair, i: Party, r: Party, init: Bytes, finish: Bytes, reply: Bytes) {
    && InitiatorInv(p, s.initiator, i, r, init, reply)
    && ResponderInv(p, s.responder, i, r, init, finish, reply)
    && TrafficInv(s, init, finish, reply)
  }

  lemma NextKeepsInv(p: Primitives, s: Pair, step: Step, i: Party, r: Party, init: Bytes, finish: Bytes, reply: Bytes)
    requires Produced(p, i, r, init, finish, reply)
    requires PairInv(p, s, i, r, init, finish, reply) && (step.InitiatorNext? || step.ResponderNext?)
    ensures PairInv(p, Act(p, s, step), i, r, init, finish, reply)
  {
  }

  lemma InitiatorHearsKeepsInv(p: Primitives, s: Pair, k: nat, i: Party, r: Party, init: Bytes, finish: Bytes, reply: Bytes)
    requires Produced(p, i, r, init, finish, reply) && ReadServerInit(p, reply) == Ok(p.point(r.secret))
    requires PairInv(p, s, i, r, init, finish, reply)
    ensures PairInv(p, Act(p, s, InitiatorHears(k)), i, r, init, finish, reply)
  {
    if k < |s.fromResponder| {
      assert s.fromResponder[k] == reply;
    }
  }

  lemma ResponderHearsKeepsInv(p: Primitives, s: Pair, k: nat, i: Party, r: Party, init: Bytes, finish: Bytes, reply: Bytes)
    requires Produced(p, i, r, init, finish, reply)
    requires ReadClientInit(p, init) == Ok(p.sha512(finish)) && ReadClientFinish(p, Some(p.sha512(finish)), init).Err?
    requires ReadClientInit(p, finish).Err? && ReadClientFinish(p, Some(p.sha512(finish)), finish) == Ok(p.point(i.secret))
    requires PairInv(p, s, i, r, init, finish, reply)
    ensures PairInv(p, Act(p, s, ResponderHears(k)), i, r, init, finish, reply)
  {
    if k < |s.fromInitiator| {
      assert s.fromInitiator[k] == init || s.fromInitiator[k] == finish;
    }
  }

  lemma {:induction false} RunKeepsInv(p: Primitives, s: Pair, steps: seq<Step>, i: Party, r: Party,
                                       init: Bytes, finish: Bytes, reply: Bytes)
    requires Lawful(p) && PartiesValid(i, r) && Produced(p, i, r, init, finish, reply)
    requires PairInv(p, s, i, r, init, finish, reply)
    ensures PairInv(p, Exec(p, s, steps), i, r, init, finish, reply)
    decreases |steps|
  {
    if steps != [] {
      match steps[0] {
        case InitiatorNext => NextKeepsInv(p, s, steps[0], i, r, init, finish, reply);
        case ResponderNext => NextKeepsInv(p, s, steps[0], i, r, init, finish, reply);
        case InitiatorHears(k) =>
          ServerInitIsRead(p, r.random, r.secret);
          InitiatorHearsKeepsInv(p, s, k, i, r, init, finish, reply);
        case ResponderHears(k) =>
          ClientInitIsRead(p, i.random, i.secret);
          FinishIsRead(p, i.secret);
          ResponderHearsKeepsInv(p, s, k, i, r, init, finish, reply);
      }
      RunKeepsInv(p, Act(p, s, steps[0]), steps[1..], i, r, init, finish, reply);
    }
  }

  lemma MessagesExist(p: Primitives, i: Party, r: Party) returns (init: Bytes, finish: Bytes, reply: Bytes)
    requires Lawful(p) && PartiesValid(i, r)
    ensures Produced(p, i, r, init, finish, reply)
  {
    ClientInitIsRead(p, i.random, i.secret);
    ServerInitIsRead(p, r.random, r.secret);
    init, finish := ClientInitOf(p, i.random, i.secret).value, FinishOf(p, i.secret).value;
    reply := ServerInitOf(p, r.random, r.secret).value;
  }

  /** After any schedule, however often either side is asked or told: if both
      complete, they hold the same token and mirrored keys. */
  lemma CompletedSidesAgree(p: Primitives, i: Party, r: Party, steps: seq<Step>)
    requires Lawful(p) && PartiesValid(i, r)
    requires var s := Exec(p, Begin(i, r), steps); Finish(p, s.initiator).Ok? && Finish(p, s.responder).Ok?
    ensures var s := Exec(p, Begin(i, r), steps);
            var a, b := Finish(p, s.initiator).value, Finish(p, s.responder).value;
            a.token == b.token && a.send == b.receive && a.receive == b.send
  {
    var init, finish, reply := MessagesExist(p, i, r);
    RunKeepsInv(p, Begin(i, r), steps, i, r, init, finish, reply);
    assert p.agree(i.secret, p.point(r.secret)) == p.agree(r.secret, p.point(i.secret));
  }

  /** Between two such sides, a side in its final state always completes: the
      early finish cannot arise. */
  lemma FinalStatesComplete(p: Primitives, i: Party, r: Party, steps: seq<Step>)
    requires Lawful(p) && PartiesValid(i, r)
    ensures var s := Exec(p, Begin(i, r), steps);
            && (Finish(p, s.initiator).Ok? <==> s.initiator.state == Complete)
            && (Finish(p, s.responder).Ok? <==> s.responder.state == Complete)
            && (Finish(p, s.responder).Ok? ==> s.initiator.state == Complete)
  {
    var init, finish, reply := MessagesExist(p, i, r);
    RunKeepsInv(p, Begin(i, r), steps, i, r, init, finish, reply);
  }

  lemma ExecTwo(p: Primitives, s: Pair, first: Step, second: Step, rest: seq<Step>)
    ensures Exec(p, s, [first, second] + rest) == Exec(p, Act(p, Act(p, s, first), second), rest)
  {
    var steps := [first, second] + rest;
    assert steps[1..] == [second] + rest && steps[1..][1..] == rest;
    assert Exec(p, s, steps) == Exec(p, Act(p, s, first), steps[1..]);
  }

  lemma OpeningIsHeard(p: Primitives, i: Party, r: Party, init: Bytes, finish: Bytes, reply: Bytes)
    requires Produced(p, i, r, init, finish, reply) && ReadClientInit(p, init) == Ok(p.sha512(finish))
    ensures var s := Act(p, Act(p, Begin(i, r), InitiatorNext), ResponderHears(0));
            && s.initiator == New(Initiator, i.random, i.secret).(state := WaitForPeer, clientInit := Some(init))
            && s.responder == New(Responder, r.random, r.secret).(state := WaitForPeer, clientInit := Some(init),
                                                                  commitment := Some(p.sha512(finish)))
            && s.fromInitiator == [init] && s.fromResponder == []
  {
  }

  lemma ReplyIsHeard(p: Primitives, s: Pair, i: Party, r: Party, init: Bytes, finish: Bytes, reply: Bytes)
    requires Produced(p, i, r, init, finish, reply) && ReadServerInit(p, reply).Ok?
    requires s.initiator.role == Initiator && s.initiator.state == WaitForPeer
    requires s.responder.role == Responder && s.responder.state == WaitForPeer
    requires s.responder.random == r.random && s.responder.secret == r.secret && s.fromResponder == []
    ensures var t := Act(p, Act(p, s, ResponderNext), InitiatorHears(0));
            && t.initiator == s.initiator.(state := SendFinish, serverInit := Some(reply),
                                           peerKey := Some(ReadServerInit(p, reply).value))
            && t.responder == s.responder.(serverInit := Some(reply))
            && t.fromInitiator == s.fromInitiator
  {
  }

  lemma FinishIsHeard(p: Primitives, s: Pair, i: Party, r: Party, init: Bytes, finish: Bytes, reply: Bytes)
    requires Produced(p, i, r, init, finish, reply) && ReadClientFinish(p, Some(p.sha512(finish)), finish).Ok?
    requires s.initiator.role == Initiator && s.initiator.state == SendFinish && s.initiator.secret == i.secret
    requires s.responder.role == Responder && s.responder.state == WaitForPeer
    requires s.responder.commitment == Some(p.sha512(finish)) && s.fromInitiator == [init]
    ensures var t := Act(p, Act(p, s, InitiatorNext), ResponderHears(1));
            t.initiator.state == Complete && t.responder.state == Complete
  {
  }

  function Orderly(): seq<Step> {
    [InitiatorNext, ResponderHears(0)] + ([ResponderNext, InitiatorHears(0)] + ([InitiatorNext, ResponderHears(1)] + []))
  }

  /** The intended order of the three messages completes both sides. */
  lemma OrderlyExchangeCompletes(p: Primitives, i: Party, r: Party)
    requires Lawful(p) && PartiesValid(i, r)
    ensures var s := Exec(p, Begin(i, r), Orderly());
            Finish(p, s.initiator).Ok? && Finish(p, s.responder).Ok?
  {
    var init, finish, reply := MessagesExist(p, i, r);
    ClientInitIsRead(p, i.random, i.secret);
    ServerInitIsRead(p, r.random, r.secret);
    FinishIsRead(p, i.secret);
    var s0 := Begin(i, r);
    var s2 := Act(p, Act(p, s0, InitiatorNext), ResponderHears(0));
    OpeningIsHeard(p, i, r, init, finish, reply);
    var s4 := Act(p, Act(p, s2, ResponderNext), InitiatorHears(0));
    ReplyIsHeard(p, s2, i, r, init, finish, reply);
    FinishIsHeard(p, s4, i, r, init, finish, reply);
    ExecTwo(p, s4, InitiatorNext, ResponderHears(1), []);
    ExecTwo(p, s2, ResponderNext, InitiatorHears(0), [InitiatorNext, ResponderHears(1)] + []);
    ExecTwo(p, s0, InitiatorNext, ResponderHears(0), [ResponderNext, InitiatorHears(0)] + ([InitiatorNext, ResponderHears(1)] + []));
    FinalStatesComplete(p, i, r, Orderly());
  }

  // ------------------------------------------------------------------
  // The session identifier
  // ------------------------------------------------------------------

  function WrapI32(n: int): int {
    (n + 0x8000_0000) % 0x1_0000_0000 - 0x8000_0000
  }

  function Signed(b: Byte): int {
    if b as nat < 128 then b as nat else b as nat - 256
  }

  /** `java_hash` continued from `value`, wrapping at 32 bits. */
  function JavaHashFrom(value: int, bytes: Bytes): int
    decreases |bytes|
  {
    if bytes == [] then value else JavaHashFrom(WrapI32(WrapI32(value * 31) + Signed(bytes[0])), bytes[1..])
  }

  function JavaHash(bytes: Bytes): int {
    JavaHashFrom(1, bytes)
  }

  /** The bytes a side digests into its session identifier. */
  function SessionPreimage(send: Bytes, receive: Bytes): Bytes {
    if JavaHash(send) < JavaHash(receive) then send + receive else receive + send
  }

  /** Both sides digest the same bytes exactly when the hashes of their two
      directional keys differ, or the keys themselves are equal. */
  lemma SessionsMatch(a: Bytes, b: Bytes)
    requires |a| == |b|
    ensures SessionPreimage(a, b) == SessionPreimage(b, a) <==> JavaHash(a) != JavaHash(b) || a == b
  {
    if JavaHash(a) == JavaHash(b) && SessionPreimage(a, b) == SessionPreimage(b, a) {
      assert a == (a + b)[..|a|] && b == (b + a)[..|a|];
    }
  }

  lemma {:induction false} JavaHashSplits(value: int, front: Bytes, back: Bytes)
    ensures JavaHashFrom(value, front + back) == JavaHashFrom(JavaHashFrom(value, front), back)
    decreases |front|
  {
    if front == [] {
      assert front + back == back;
    } else {
      assert (front + back)[1..] == front[1..] + back;
      JavaHashSplits(WrapI32(WrapI32(value * 31) + Signed(front[0])), front[1..], back);
    }
  }

  /** Different keys can share a hash: any two that differ only by ending in
      65, 97 or in 66, 66. On these the two sides digest different bytes. */
  lemma SessionsCanDiffer(prefix: Bytes)
    ensures var a, b := prefix + [65, 97], prefix + [66, 66];
            JavaHash(a) == JavaHash(b) && SessionPreimage(a, b) != SessionPreimage(b, a)
  {
    var h := JavaHashFrom(1, prefix);
    var u: Bytes, v: Bytes := [65, 97], [66, 66];
    JavaHashSplits(1, prefix, u);
    JavaHashSplits(1, prefix, v);
    TwoBytes(h, 65, 97);
    TwoBytes(h, 66, 66);
    assert (prefix + u)[|prefix|] != (prefix + v)[|prefix|];
    SessionsMatch(prefix + u, prefix + v);
  }

  lemma TwoBytes(h: int, x: Byte, y: Byte)
    ensures JavaHashFrom(h, [x, y]) == WrapI32(h * 961 + Signed(x) * 31 + Signed(y))
  {
    assert [x, y][1..] == [y] && [y][1..] == [];
    var first := WrapI32(WrapI32(h * 31) + Signed(x));
    assert JavaHashFrom(h, [x, y]) == JavaHashFrom(first, [y]) == WrapI32(WrapI32(first * 31) + Signed(y));
    TwoRounds(h, Signed(x), Signed(y));
  }

  lemma TwoRounds(h: int, x: int, y: int)
    ensures WrapI32(WrapI32(WrapI32(WrapI32(h * 31) + x) * 31) + y) == WrapI32(h * 961 + x * 31 + y)
  {
    WrapAbsorbs(h * 31, x);
    WrapScales(h * 31 + x);
    WrapAbsorbs((h * 31 + x) * 31, y);
    assert (h * 31 + x) * 31 + y == h * 961 + x * 31 + y;
  }

  lemma WrapAbsorbs(n: int, m: int)
    ensures WrapI32(WrapI32(n) + m) == WrapI32(n + m)
  {
  }

  lemma WrapScales(n: int)
    ensures WrapI32(WrapI32(n) * 31) == WrapI32(n * 31)
  {
    var k := (n + 0x8000_0000) / 0x1_0000_0000;
    assert WrapI32(n) == n - k * 0x1_0000_0000;
    WrapShifts(WrapI32(n) * 31, k * 31);
  }

  lemma WrapShifts(n: int, k: int)
    ensures WrapI32(n) == WrapI32(n + k * 0x1_0000_0000)
  {
  }

  lemma KeysAreSized(p: Primitives, h: Handshake)
    requires Lawful(p) && Finish(p, h).Ok?
    ensures |Finish(p, h).value.send| == |Finish(p, h).value.receive| == KEY_LENGTH
  {
  }

  /** For two completed sides the session identifiers are digests of the same
      bytes unless their distinct directional keys share a Java hash. */
  lemma CompletedSessionsMatch(p: Primitives, i: Party, r: Party, steps: seq<Step>)
    requires Lawful(p) && PartiesValid(i, r)
    requires var s := Exec(p, Begin(i, r), steps); Finish(p, s.initiator).Ok? && Finish(p, s.responder).Ok?
    ensures var s := Exec(p, Begin(i, r), steps);
            var a, b := Finish(p, s.initiator).value, Finish(p, s.responder).value;
            SessionPreimage(a.send, a.receive) == SessionPreimage(b.send, b.receive) <==>
            JavaHash(a.send) != JavaHash(a.receive) || a.send == a.receive
  {
    CompletedSidesAgree(p, i, r, steps);
    var initiator := Exec(p, Begin(i, r), steps).initiator;
    KeysAreSized(p, initiator);
    SessionsMatch(Finish(p, initiator).value.send, Finish(p, initiator).value.receive);
  }
}
