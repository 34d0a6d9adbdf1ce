/** The sequence-numbered D2D channel that follows a completed exchange. Ciphers,
    MACs, key derivation and protobuf are uninterpreted; see `Lawful`. */
module SecureChannel {
  import opened Base
  import Ukey2

  datatype CryptoError = InvalidMessage | Unsupported | Authentication | Decryption | Sequence | SequenceExhausted

  datatype Packet = Packet(message: Option<Bytes>, sequence: Option<int>)
  datatype Metadata = Metadata(kind: int, version: Option<int>)
  datatype Header = Header(signature: int, encryption: int, iv: Option<Bytes>, metadata: Option<Bytes>)
  datatype Inner = Inner(header: Bytes, body: Bytes)
  datatype Outer = Outer(headerAndBody: Bytes, signature: Bytes)

  const HMAC_SHA256: int := 1
  const AES_256_CBC: int := 2
  const DEVICE_TO_DEVICE_MESSAGE: int := 13
  const IV_LENGTH: nat := 16

  datatype Primitives = Primitives(
    packet: Ukey2.Codec<Packet>,
    metadata: Ukey2.Codec<Metadata>,
    header: Ukey2.Codec<Header>,
    inner: Ukey2.Codec<Inner>,
    outer: Ukey2.Codec<Outer>,
    encryptionKey: Bytes -> Bytes,
    signingKey: Bytes -> Bytes,
    encrypt: (Bytes, Bytes, Bytes) -> Bytes,
    decrypt: (Bytes, Bytes, Bytes) -> Option<Bytes>,
    hmac: (Bytes, Bytes) -> Bytes)

  predicate PacketFits(packet: Packet) {
    Ukey2.MaybeI32(packet.sequence)
  }

  predicate MetadataFits(metadata: Metadata) {
    FitsI32(metadata.kind) && Ukey2.MaybeI32(metadata.version)
  }

  predicate HeaderFits(header: Header) {
    FitsI32(header.signature) && FitsI32(header.encryption)
  }

  /** Codecs decode what they encode, and decryption undoes encryption. */
  ghost predicate Lawful(p: Primitives) {
    && Ukey2.Faithful(p.packet, PacketFits) && Ukey2.Faithful(p.metadata, MetadataFits) && Ukey2.Faithful(p.header, HeaderFits)
    && Ukey2.Faithful(p.inner, (_: Inner) => true) && Ukey2.Faithful(p.outer, (_: Outer) => true)
    && (forall key: Bytes, iv: Bytes, plain: Bytes :: p.decrypt(key, iv, p.encrypt(key, iv, plain)) == Some(plain))
  }

  /** The two directional master keys and the last sequence number each way. */
  datatype Channel = Channel(send: Bytes, receive: Bytes, sent: int, received: int)

  function New(send: Bytes, receive: Bytes): Channel {
    Channel(send, receive, 0, 0)
  }

  // ------------------------------------------------------------------
  // Sending
  // ------------------------------------------------------------------

  datatype Sending = Sending(plaintext: Bytes, iv: Bytes)

  /** The authenticated bytes around a packet. */
  function Core(p: Primitives, master: Bytes, packet: Packet, iv: Bytes): Bytes {
    var metadata := p.metadata.encode(Metadata(DEVICE_TO_DEVICE_MESSAGE, Some(1)));
    var header := p.header.encode(Header(HMAC_SHA256, AES_256_CBC, Some(iv), Some(metadata)));
    p.inner.encode(Inner(header, p.encrypt(p.encryptionKey(master), iv, p.packet.encode(packet))))
  }

  function Signed(p: Primitives, master: Bytes, core: Bytes): Bytes {
    p.outer.encode(Outer(core, p.hmac(p.signingKey(master), core)))
  }

  /** The packet of the message numbered `k`. */
  function PacketOf(k: int, s: Sending): Packet {
    Packet(Some(s.plaintext), Some(k))
  }

  function Sealed(p: Primitives, master: Bytes, k: int, s: Sending): Bytes {
    Signed(p, master, Core(p, master, PacketOf(k, s), s.iv))
  }

  function Seal(p: Primitives, c: Channel, s: Sending): (Channel, Result<Bytes, CryptoError>) {
    if c.sent >= I32_MAX then (c, Err(SequenceExhausted))
    else (c.(sent := c.sent + 1), Ok(Sealed(p, c.send, c.sent + 1, s)))
  }

  // ------------------------------------------------------------------
  // Receiving
  // ------------------------------------------------------------------

  function ValidateHeader(p: Primitives, header: Header): Result<(), CryptoError> {
    if header.signature != HMAC_SHA256 || header.encryption != AES_256_CBC then Err(Unsupported)
    else if header.metadata.None? then Err(InvalidMessage)
    else
      match p.metadata.decode(header.metadata.value)
      case None => Err(InvalidMessage)
      case Some(Metadata(kind, version)) =>
        if kind != DEVICE_TO_DEVICE_MESSAGE || version != Some(1) then Err(Unsupported) else Ok(())
  }

  /** The authenticated bytes, if their signature verifies. */
  function Authenticate(p: Primitives, master: Bytes, message: Bytes): Result<Bytes, CryptoError> {
    match p.outer.decode(message)
    case None => Err(InvalidMessage)
    case Some(Outer(core, signature)) =>
      if p.hmac(p.signingKey(master), core) != signature then Err(Authentication) else Ok(core)
  }

  /** The packet inside authenticated bytes. */
  function Unseal(p: Primitives, master: Bytes, core: Bytes): Result<Packet, CryptoError> {
    match p.inner.decode(core)
    case None => Err(InvalidMessage)
    case Some(Inner(raw, body)) =>
      match p.header.decode(raw)
      case None => Err(InvalidMessage)
      case Some(header) =>
        if ValidateHeader(p, header).Err? then Err(ValidateHeader(p, header).error)
        else if header.iv.None? || |header.iv.value| != IV_LENGTH then Err(InvalidMessage)
        else
          match p.decrypt(p.encryptionKey(master), header.iv.value, body)
          case None => Err(Decryption)
          case Some(plain) =>
            match p.packet.decode(plain)
            case None => Err(InvalidMessage)
            case Some(packet) => Ok(packet)
  }

  /** The sequence check: the number advances before the payload is looked at. */
  function TakePacket(c: Channel, packet: Packet): (Channel, Result<Bytes, CryptoError>) {
    if c.received >= I32_MAX then (c, Err(SequenceExhausted))
    else if packet.sequence != Some(c.received + 1) then (c, Err(Sequence))
    else (c.(received := c.received + 1), if packet.message.None? then Err(InvalidMessage) else Ok(packet.message.value))
  }

  function Open(p: Primitives, c: Channel, message: Bytes): (Channel, Result<Bytes, CryptoError>) {
    match Authenticate(p, c.receive, message)
    case Err(error) => (c, Err(error))
    case Ok(core) =>
      match Unseal(p, c.receive, core)
      case Err(error) => (c, Err(error))
      case Ok(packet) => TakePacket(c, packet)
  }

  /** The channel as the source keeps it. */
  class Endpoint {
    const p: Primitives
    const send: Bytes
    const receive: Bytes
    var sent: int
    var received: int

    function Value(): Channel
      reads this
    {
      Channel(send, receive, sent, received)
    }

    constructor (p: Primitives, send: Bytes, receive: Bytes)
      ensures this.p == p && Value() == New(send, receive)
    {
      this.p, this.send, this.receive := p, send, receive;
      sent, received := 0, 0;
    }

    method Encrypt(s: Sending) returns (result: Result<Bytes, CryptoError>)
      modifies this
      ensures (Value(), result) == Seal(p, old(Value()), s)
    {
      if sent >= I32_MAX {
        return Err(SequenceExhausted);
      }
      sent := sent + 1;
      var core := Core(p, send, Packet(Some(s.plaintext), Some(sent)), s.iv);
      return Ok(p.outer.encode(Outer(core, p.hmac(p.signingKey(send), core))));
    }

    method Decrypt(message: Bytes) returns (result: Result<Bytes, CryptoError>)
      modifies this
      ensures (Value(), result) == Open(p, old(Value()), message)
    {
      var core := Authenticate(p, receive, message);
      if core.Err? {
        return Err(core.error);
      }
      var packet := Unseal(p, receive, core.value);
      if packet.Err? {
        return Err(packet.error);
      }
      if received >= I32_MAX {
        return Err(SequenceExhausted);
      }
      if packet.value.sequence != Some(received + 1) {
        return Err(Sequence);
      }
      received := received + 1;
      if packet.value.message.None? {
        return Err(InvalidMessage);
      }
      return Ok(packet.value.message.value);
    }
  }

  // ------------------------------------------------------------------
  // Delivery
  // ------------------------------------------------------------------

  /** The messages produced by sending everything in order, while numbers last. */
  function SealAll(p: Primitives, c: Channel, sendings: seq<Sending>): (Channel, seq<Bytes>)
    decreases |sendings|
  {
    if sendings == [] then (c, [])
    else
      var last := |sendings| - 1;
      var (c', messages) := SealAll(p, c, sendings[..last]);
      var (c'', sealed) := Seal(p, c', sendings[last]);
      (c'', if sealed.Ok? then messages + [sealed.value] else messages)
  }

  /** Messages numbered from one, as sealed for the sendings in order. */
  predicate NumberedFromOne(p: Primitives, send: Bytes, sendings: seq<Sending>, messages: seq<Bytes>) {
    && |messages| <= |sendings|
    && forall k :: 0 <= k < |messages| ==> messages[k] == Sealed(p, send, k + 1, sendings[k])
  }

  lemma SealAllGrows(p: Primitives, c: Channel, front: seq<Sending>, last: Sending)
    ensures var (c', messages) := SealAll(p, c, front);
            SealAll(p, c, front + [last]) ==
            if c'.sent >= I32_MAX then (c', messages)
            else (c'.(sent := c'.sent + 1), messages + [Sealed(p, c'.send, c'.sent + 1, last)])
  {
    assert (front + [last])[..|front|] == front;
  }

  lemma NumberingGrows(p: Primitives, send: Bytes, sendings: seq<Sending>, last: Sending, messages: seq<Bytes>)
    requires NumberedFromOne(p, send, sendings, messages)
    ensures NumberedFromOne(p, send, sendings + [last], messages)
    ensures |messages| == |sendings| ==>
              NumberedFromOne(p, send, sendings + [last], messages + [Sealed(p, send, |messages| + 1, last)])
  {
  }

  /** A fresh sender numbers its messages from one, and refuses exactly those
      past the largest 32-bit number. */
  lemma {:induction false} SendingNumbers(p: Primitives, send: Bytes, receive: Bytes, sendings: seq<Sending>)
    ensures var (c, messages) := SealAll(p, New(send, receive), sendings);
            && c.send == send && c.sent == |messages|
            && |messages| == (if |sendings| <= 2147483647 then |sendings| else 2147483647)
            && NumberedFromOne(p, send, sendings, messages)
    decreases |sendings|
  {
    if sendings != [] {
      var front, last := sendings[..|sendings| - 1], sendings[|sendings| - 1];
      assert sendings == front + [last];
      SendingNumbers(p, send, receive, front);
      SealAllGrows(p, New(send, receive), front, last);
      NumberingGrows(p, send, front, last, SealAll(p, New(send, receive), front).1);
    }
  }

  /** What a receiver accepts of everything it is offered. */
  function OpenAll(p: Primitives, c: Channel, offers: seq<Bytes>): (Channel, seq<Bytes>)
    decreases |offers|
  {
    if offers == [] then (c, [])
    else
      var (c', plain) := Open(p, c, offers[0]);
      var (c'', rest) := OpenAll(p, c', offers[1..]);
      (c'', if plain.Ok? then [plain.value] + rest else rest)
  }

  // Delivery of packets, apart from how they are protected.

  function Take(received: int, packet: Option<Packet>): (int, Option<Bytes>) {
    if received >= I32_MAX || packet.None? || packet.value.sequence != Some(received + 1) then (received, None)
    else (received + 1, packet.value.message)
  }

  function TakeAll(received: int, packets: seq<Option<Packet>>): (int, seq<Bytes>)
    decreases |packets|
  {
    if packets == [] then (received, [])
    else
      var (next, text) := Take(received, packets[0]);
      var (end, rest) := TakeAll(next, packets[1..]);
      (end, if text.Some? then [text.value] + rest else rest)
  }

  /** The packet of the message numbered `k + 1`. */
  function Numbered(texts: seq<Bytes>, k: nat): Option<Packet>
    requires k < |texts|
  {
    Some(Packet(Some(texts[k]), Some(k + 1)))
  }

  ghost predicate Carried(texts: seq<Bytes>, packet: Option<Packet>) {
    packet.None? || exists k :: 0 <= k < |texts| && packet == Numbered(texts, k)
  }

  ghost predicate AllCarried(texts: seq<Bytes>, packets: seq<Option<Packet>>) {
    forall i :: 0 <= i < |packets| ==> Carried(texts, packets[i])
  }

  /** A sender's packet is taken exactly when it is the next one. */
  lemma TakeOne(texts: seq<Bytes>, received: nat, packet: Option<Packet>)
    requires |texts| <= I32_MAX && Carried(texts, packet)
    ensures Take(received, packet) ==
            if received < |texts| && packet == Numbered(texts, received) then (received + 1, Some(texts[received]))
            else (received, None)
  {
    if packet.Some? {
      var k :| 0 <= k < |texts| && packet == Numbered(texts, k);
    }
  }

  lemma {:induction false} TakenFrom(texts: seq<Bytes>, received: nat, packets: seq<Option<Packet>>)
    requires received <= |texts| <= I32_MAX && AllCarried(texts, packets)
    ensures var (end, taken) := TakeAll(received, packets);
            received <= end == received + |taken| <= |texts| && taken == texts[received..end]
    decreases |packets|
  {
    if packets != [] {
      TakeOne(texts, received, packets[0]);
      TakenFrom(texts, Take(received, packets[0]).0, packets[1..]);
    }
  }

  /** The messages after the `j`-th up to the `m`-th occur among the packets in
      order, with anything in between. */
  predicate InTurn(texts: seq<Bytes>, j: nat, m: nat, packets: seq<Option<Packet>>)
    requires m <= |texts|
    decreases |packets|
  {
    || j >= m
    || (packets != [] &&
        if packets[0] == Numbered(texts, j) then InTurn(texts, j + 1, m, packets[1..])
        else InTurn(texts, j, m, packets[1..]))
  }

  lemma {:induction false} InTurnIsTaken(texts: seq<Bytes>, j: nat, m: nat, received: nat, packets: seq<Option<Packet>>)
    requires received <= |texts| <= I32_MAX && AllCarried(texts, packets) && m <= |texts|
    requires j <= received && InTurn(texts, j, m, packets)
    ensures TakeAll(received, packets).0 >= m
    decreases |packets|
  {
    TakenFrom(texts, received, packets);
    if received < m {
      TakeOne(texts, received, packets[0]);
      var next := Take(received, packets[0]).0;
      InTurnIsTaken(texts, if packets[0] == Numbered(texts, j) then j + 1 else j, m, next, packets[1..]);
    }
  }

  lemma {:induction false} InOrderIsTaken(texts: seq<Bytes>, received: nat, packets: seq<Option<Packet>>)
    requires |texts| <= I32_MAX && received + |packets| == |texts|
    requires forall k :: 0 <= k < |packets| ==> packets[k] == Numbered(texts, received + k)
    ensures TakeAll(received, packets) == (|texts|, texts[received..])
    decreases |packets|
  {
    if packets != [] {
      assert packets[0] == Numbered(texts, received + 0);
      InOrderIsTaken(texts, received + 1, packets[1..]);
      assert texts[received..] == [texts[received]] + texts[received + 1..];
    }
  }

  // Packets as the channel protects them.

  /** The packet an offer yields, if it authenticates and unseals. */
  function Read(p: Primitives, master: Bytes, offer: Bytes): Option<Packet> {
    match Authenticate(p, master, offer)
    case Err(_) => None
    case Ok(core) =>
      match Unseal(p, master, core)
      case Err(_) => None
      case Ok(packet) => Some(packet)
  }

  function Reads(p: Primitives, master: Bytes, offers: seq<Bytes>): (packets: seq<Option<Packet>>)
    ensures |packets| == |offers|
  {
    seq(|offers|, i requires 0 <= i < |offers| => Read(p, master, offers[i]))
  }

  lemma OpenIsTake(p: Primitives, c: Channel, offer: Bytes)
    ensures var (c', plain) := Open(p, c, offer);
            var (received, text) := Take(c.received, Read(p, c.receive, offer));
            c' == c.(received := received) && text == (if plain.Ok? then Some(plain.value) else None)
  {
  }

  lemma {:induction false} OpenAllIsTakeAll(p: Primitives, c: Channel, offers: seq<Bytes>)
    ensures var (received, texts) := TakeAll(c.received, Reads(p, c.receive, offers));
            OpenAll(p, c, offers) == (c.(received := received), texts)
    decreases |offers|
  {
    if offers != [] {
      var packets := Reads(p, c.receive, offers);
      OpenIsTake(p, c, offers[0]);
      OpenAllIsTakeAll(p, Open(p, c, offers[0]).0, offers[1..]);
      assert packets[0] == Read(p, c.receive, offers[0]);
      assert packets[1..] == Reads(p, c.receive, offers[1..]);
    }
  }

  predicate IvsValid(sendings: seq<Sending>) {
    forall k :: 0 <= k < |sendings| ==> |sendings[k].iv| == IV_LENGTH
  }

  function Plaintexts(sendings: seq<Sending>): (texts: seq<Bytes>)
    ensures |texts| == |sendings|
  {
    seq(|sendings|, k requires 0 <= k < |sendings| => sendings[k].plaintext)
  }

  /** What a fresh sender seals: everything, while numbers last. */
  function Sealable(sendings: seq<Sending>): (sealed: seq<Sending>)
    ensures |sealed| <= I32_MAX && sealed <= sendings && (|sendings| <= I32_MAX ==> sealed == sendings)
  {
    if |sendings| <= I32_MAX then sendings else sendings[..I32_MAX]
  }

  /** Ideal authentication: a verifying offer carries bytes the sender signed. */
  ghost predicate Genuine(p: Primitives, master: Bytes, sendings: seq<Sending>, offer: Bytes) {
    Authenticate(p, master, offer).Ok? ==>
      exists k :: 0 <= k < |sendings| && Authenticate(p, master, offer).value == Core(p, master, PacketOf(k + 1, sendings[k]), sendings[k].iv)
  }

  ghost predicate AllGenuine(p: Primitives, master: Bytes, sendings: seq<Sending>, offers: seq<Bytes>) {
    forall i :: 0 <= i < |offers| ==> Genuine(p, master, sendings, offers[i])
  }

  lemma CoreUnseals(p: Primitives, master: Bytes, packet: Packet, iv: Bytes)
    requires Lawful(p) && PacketFits(packet) && |iv| == IV_LENGTH
    ensures Unseal(p, master, Core(p, master, packet, iv)) == Ok(packet)
  {
    var metadata := Metadata(DEVICE_TO_DEVICE_MESSAGE, Some(1));
    var header := Header(HMAC_SHA256, AES_256_CBC, Some(iv), Some(p.metadata.encode(metadata)));
    var body := p.encrypt(p.encryptionKey(master), iv, p.packet.encode(packet));
    var inner := Inner(p.header.encode(header), body);
    assert p.inner.decode(p.inner.encode(inner)) == Some(inner);
    assert p.header.decode(p.header.encode(header)) == Some(header);
    assert p.metadata.decode(p.metadata.encode(metadata)) == Some(metadata);
    assert p.decrypt(p.encryptionKey(master), iv, body) == Some(p.packet.encode(packet));
    assert p.packet.decode(p.packet.encode(packet)) == Some(packet);
  }

  /** What is sealed and signed under a key is read under it. */
  lemma SignedIsRead(p: Primitives, master: Bytes, packet: Packet, iv: Bytes)
    requires Lawful(p) && PacketFits(packet) && |iv| == IV_LENGTH
    ensures Read(p, master, Signed(p, master, Core(p, master, packet, iv))) == Some(packet)
  {
    var core := Core(p, master, packet, iv);
    var outer := Outer(core, p.hmac(p.signingKey(master), core));
    assert p.outer.decode(p.outer.encode(outer)) == Some(outer);
    CoreUnseals(p, master, packet, iv);
  }

  lemma GenuineIsCarried(p: Primitives, master: Bytes, sendings: seq<Sending>, offer: Bytes)
    requires Lawful(p) && IvsValid(sendings) && |sendings| <= I32_MAX && Genuine(p, master, sendings, offer)
    ensures Carried(Plaintexts(sendings), Read(p, master, offer))
  {
    if Authenticate(p, master, offer).Ok? {
      var k :| 0 <= k < |sendings| && Authenticate(p, master, offer).value == Core(p, master, PacketOf(k + 1, sendings[k]), sendings[k].iv);
      CoreUnseals(p, master, PacketOf(k + 1, sendings[k]), sendings[k].iv);
      assert Read(p, master, offer) == Numbered(Plaintexts(sendings), k);
    }
  }

  lemma GenuineAreCarried(p: Primitives, master: Bytes, sendings: seq<Sending>, offers: seq<Bytes>)
    requires Lawful(p) && IvsValid(sendings) && |sendings| <= I32_MAX && AllGenuine(p, master, sendings, offers)
    ensures AllCarried(Plaintexts(sendings), Reads(p, master, offers))
  {
    forall i | 0 <= i < |offers|
      ensures Carried(Plaintexts(sendings), Reads(p, master, offers)[i])
    {
      GenuineIsCarried(p, master, sendings, offers[i]);
    }
  }

  /** However the sender's messages are reordered, dropped, repeated or mixed with
      forgeries, what is accepted is a prefix of what was sent. */
  lemma AcceptedArePrefix(p: Primitives, send: Bytes, master: Bytes, sendings: seq<Sending>, offers: seq<Bytes>)
    requires Lawful(p) && IvsValid(sendings)
    requires AllGenuine(p, master, Sealable(sendings), offers)
    ensures var (c, accepted) := OpenAll(p, New(send, master), offers);
            accepted <= Plaintexts(sendings) && c.received == |accepted|
  {
    var sealed := Sealable(sendings);
    GenuineAreCarried(p, master, sealed, offers);
    OpenAllIsTakeAll(p, New(send, master), offers);
    TakenFrom(Plaintexts(sealed), 0, Reads(p, master, offers));
    assert Plaintexts(sealed) <= Plaintexts(sendings);
  }

  /** If a sender's first `m` messages reach the receiver in order, whatever else
      arrives between them, all `m` are accepted. */
  lemma InTurnIsDelivered(p: Primitives, send: Bytes, master: Bytes, sendings: seq<Sending>, m: nat, offers: seq<Bytes>)
    requires Lawful(p) && IvsValid(sendings) && m <= |Sealable(sendings)|
    requires AllGenuine(p, master, Sealable(sendings), offers)
    requires InTurn(Plaintexts(Sealable(sendings)), 0, m, Reads(p, master, offers))
    ensures Plaintexts(sendings)[..m] <= OpenAll(p, New(send, master), offers).1
  {
    var sealed := Sealable(sendings);
    GenuineAreCarried(p, master, sealed, offers);
    OpenAllIsTakeAll(p, New(send, master), offers);
    TakenFrom(Plaintexts(sealed), 0, Reads(p, master, offers));
    InTurnIsTaken(Plaintexts(sealed), 0, m, 0, Reads(p, master, offers));
    assert Plaintexts(sealed)[..m] == Plaintexts(sendings)[..m];
  }

  /** A genuine offer that is rejected changes nothing. */
  lemma GenuineRejectionIsInert(p: Primitives, c: Channel, sendings: seq<Sending>, offer: Bytes)
    requires Lawful(p) && IvsValid(sendings) && 0 <= c.received
    requires Genuine(p, c.receive, Sealable(sendings), offer) && Open(p, c, offer).1.Err?
    ensures Open(p, c, offer).0 == c
  {
    OpenIsTake(p, c, offer);
    GenuineIsCarried(p, c.receive, Sealable(sendings), offer);
    TakeOne(Plaintexts(Sealable(sendings)), c.received, Read(p, c.receive, offer));
  }

  /** From any channel and any bytes: a rejection moves the sequence exactly when
      the bytes authenticate and carry the expected number without a message. */
  lemma RejectionAdvancesExactlyWhen(p: Primitives, c: Channel, offer: Bytes)
    requires Open(p, c, offer).1.Err?
    ensures Open(p, c, offer).0 != c <==>
            c.received < I32_MAX && Read(p, c.receive, offer) == Some(Packet(None, Some(c.received + 1)))
  {
    OpenIsTake(p, c, offer);
  }

  /** Such bytes exist for every channel with numbers left: the next number sealed
      and signed around no message is rejected, and uses that number up. */
  lemma EmptyPacketAdvances(p: Primitives, c: Channel, iv: Bytes)
    requires Lawful(p) && |iv| == IV_LENGTH && FitsI32(c.received) && c.received < I32_MAX
    ensures Open(p, c, Signed(p, c.receive, Core(p, c.receive, Packet(None, Some(c.received + 1)), iv))) ==
            (c.(received := c.received + 1), Err(InvalidMessage))
  {
    SignedIsRead(p, c.receive, Packet(None, Some(c.received + 1)), iv);
  }

  /** The sender's own stream, delivered as it is, is accepted in full. */
  lemma InOrderIsAccepted(p: Primitives, send: Bytes, master: Bytes, sendings: seq<Sending>, messages: seq<Bytes>)
    requires Lawful(p) && IvsValid(sendings) && |messages| == |sendings| <= I32_MAX
    requires NumberedFromOne(p, master, sendings, messages)
    ensures OpenAll(p, New(send, master), messages).1 == Plaintexts(sendings)
  {
    var texts, packets := Plaintexts(sendings), Reads(p, master, messages);
    forall k | 0 <= k < |packets|
      ensures packets[k] == Numbered(texts, 0 + k)
    {
      SignedIsRead(p, master, PacketOf(k + 1, sendings[k]), sendings[k].iv);
    }
    OpenAllIsTakeAll(p, New(send, master), messages);
    InOrderIsTaken(texts, 0, packets);
    assert texts[0..] == texts;
  }

  lemma ChannelCarries(p: Primitives, there: Bytes, back: Bytes, sendings: seq<Sending>)
    requires Lawful(p) && IvsValid(sendings)
    ensures OpenAll(p, New(back, there), SealAll(p, New(there, back), sendings).1).1 == Plaintexts(Sealable(sendings))
  {
    SendingNumbers(p, there, back, sendings);
    InOrderIsAccepted(p, back, there, Sealable(sendings), SealAll(p, New(there, back), sendings).1);
  }

  /** Two sides that completed the exchange, after any schedule of it: an intact
      stream from the initiator is accepted by the responder, and an intact stream
      back by the initiator, in full while numbers last. */
  lemma ExchangedKeysCarry(u: Ukey2.Primitives, p: Primitives, i: Ukey2.Party, r: Ukey2.Party, steps: seq<Ukey2.Step>,
                           sendings: seq<Sending>)
    requires Ukey2.Lawful(u) && Ukey2.PartiesValid(i, r) && Lawful(p) && IvsValid(sendings)
    requires var s := Ukey2.Exec(u, Ukey2.Begin(i, r), steps);
             Ukey2.Finish(u, s.initiator).Ok? && Ukey2.Finish(u, s.responder).Ok?
    ensures var s := Ukey2.Exec(u, Ukey2.Begin(i, r), steps);
            var a, b := Ukey2.Finish(u, s.initiator).value, Ukey2.Finish(u, s.responder).value;
            var texts := Plaintexts(Sealable(sendings));
            && OpenAll(p, New(b.send, b.receive), SealAll(p, New(a.send, a.receive), sendings).1).1 == texts
            && OpenAll(p, New(a.send, a.receive), SealAll(p, New(b.send, b.receive), sendings).1).1 == texts
  {
    var s := Ukey2.Exec(u, Ukey2.Begin(i, r), steps);
    var a := Ukey2.Finish(u, s.initiator).value;
    Ukey2.CompletedSidesAgree(u, i, r, steps);
    ChannelCarries(p, a.send, a.receive, sendings);
    ChannelCarries(p, a.receive, a.send, sendings);
  }
}
