/** What a protected message is, layer by layer, and exactly which messages a
    receiver opens. */
module SecureChannelLaws {
  import opened Base
  import opened SecureChannel
  import Ukey2

  /** A message that protects `packet`: signed with HMAC-SHA256 over the body and its
      header, encrypted with AES-256-CBC under the initialisation vector the header
      names, and marked a device-to-device message of version one. */
  ghost predicate Protects(p: Primitives, master: Bytes, message: Bytes, packet: Packet, iv: Bytes) {
    exists core, header, body, metadata ::
      && p.outer.decode(message) == Some(Outer(core, p.hmac(p.signingKey(master), core)))
      && p.inner.decode(core) == Some(Inner(header, body))
      && p.header.decode(header) == Some(Header(1, 2, Some(iv), Some(metadata)))
      && p.metadata.decode(metadata) == Some(Metadata(13, Some(1)))
      && Holds(p, master, iv, body, packet)
  }

  ghost predicate Holds(p: Primitives, master: Bytes, iv: Bytes, body: Bytes, packet: Packet) {
    var plain := p.decrypt(p.encryptionKey(master), iv, body);
    plain.Some? && p.packet.decode(plain.value) == Some(packet)
  }

  /** Sealing protects the text under the next number and counts it, for as long as
      there is a next 32-bit number. */
  lemma SealedIs(p: Primitives, c: Channel, s: Sending)
    requires Lawful(p) && 0 <= c.sent
    ensures var (c', sealed) := Seal(p, c, s);
            && (c.sent < 2147483647 ==>
                  && c' == Channel(c.send, c.receive, c.sent + 1, c.received) && sealed.Ok?
                  && Protects(p, c.send, sealed.value, Packet(Some(s.plaintext), Some(c.sent + 1)), s.iv))
            && (c.sent >= 2147483647 ==> c' == c && sealed == Err(SequenceExhausted))
  {
    if c.sent < 2147483647 {
      var packet := Packet(Some(s.plaintext), Some(c.sent + 1));
      var metadata := Metadata(13, Some(1));
      var header := Header(1, 2, Some(s.iv), Some(p.metadata.encode(metadata)));
      var body := p.encrypt(p.encryptionKey(c.send), s.iv, p.packet.encode(packet));
      var core := p.inner.encode(Inner(p.header.encode(header), body));
      assert PacketFits(packet) && MetadataFits(metadata) && HeaderFits(header);
      assert Holds(p, c.send, s.iv, body, packet);
      assert p.metadata.decode(p.metadata.encode(metadata)) == Some(metadata);
      assert p.header.decode(p.header.encode(header)) == Some(header);
      assert p.inner.decode(core) == Some(Inner(p.header.encode(header), body));
      var outer := Outer(core, p.hmac(p.signingKey(c.send), core));
      assert p.outer.decode(p.outer.encode(outer)) == Some(outer);
    }
  }

  /** What authentication and decryption find: a packet exactly when the message
      protects it under a vector of sixteen octets. */
  ghost predicate Reveals(p: Primitives, master: Bytes, message: Bytes, packet: Packet) {
    exists iv :: |iv| == 16 && Protects(p, master, message, packet, iv)
  }

  function Revealed(p: Primitives, master: Bytes, message: Bytes): Result<Packet, CryptoError> {
    match Authenticate(p, master, message)
    case Err(error) => Err(error)
    case Ok(core) => Unseal(p, master, core)
  }

  lemma RevealedIs(p: Primitives, master: Bytes, message: Bytes, packet: Packet)
    ensures Revealed(p, master, message) == Ok(packet) <==> Reveals(p, master, message, packet)
  {
    if Revealed(p, master, message) == Ok(packet) {
      var core := Authenticate(p, master, message).value;
      var header := p.header.decode(p.inner.decode(core).value.header).value;
      assert header == Header(1, 2, Some(header.iv.value), Some(header.metadata.value));
      assert Holds(p, master, header.iv.value, p.inner.decode(core).value.body, packet);
      assert Protects(p, master, message, packet, header.iv.value);
    }
  }

  /** A message is opened exactly when it protects a text under the number after the
      last one, and that number exists; the text is then what comes out. */
  lemma OpensExactly(p: Primitives, c: Channel, message: Bytes, text: Bytes)
    ensures Open(p, c, message).1 == Ok(text) <==>
            c.received < 2147483647 && Reveals(p, c.receive, message, Packet(Some(text), Some(c.received + 1)))
    ensures Open(p, c, message).1 == Ok(text) ==>
              Open(p, c, message).0 == Channel(c.send, c.receive, c.sent, c.received + 1)
  {
    RevealedIs(p, c.receive, message, Packet(Some(text), Some(c.received + 1)));
  }

  /** The refusals that say why: a wrong signature, an authentic packet out of turn,
      and one that comes after the last number. */
  lemma RefusalsAre(p: Primitives, c: Channel, message: Bytes)
    ensures Open(p, c, message).1 == Err(Authentication) <==>
            p.outer.decode(message).Some?
            && p.outer.decode(message).value.signature != p.hmac(p.signingKey(c.receive), p.outer.decode(message).value.headerAndBody)
    ensures Open(p, c, message).1 == Err(Sequence) <==>
            c.received < 2147483647
            && exists packet :: Reveals(p, c.receive, message, packet) && packet.sequence != Some(c.received + 1)
    ensures Open(p, c, message).1 == Err(SequenceExhausted) <==>
            c.received >= 2147483647 && exists packet :: Reveals(p, c.receive, message, packet)
  {
    forall packet
      ensures Revealed(p, c.receive, message) == Ok(packet) <==> Reveals(p, c.receive, message, packet)
    {
      RevealedIs(p, c.receive, message, packet);
    }
    if Revealed(p, c.receive, message).Ok? {
      var packet := Revealed(p, c.receive, message).value;
      assert Reveals(p, c.receive, message, packet);
    }
  }
}
