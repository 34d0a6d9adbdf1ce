/** What the exchange says to a peer that shares no code with this one: the messages
    field by field, which message is refused, and which keys come out. */
module Ukey2Laws {
  import opened Base
  import opened Ukey2

  // ------------------------------------------------------------------
  // Messages
  // ------------------------------------------------------------------

  /** A public key as it is sent: P-256, with both coordinates as non-negative integers. */
  ghost predicate CarriesPoint(p: Primitives, key: Bytes, point: Point) {
    exists x, y ::
      && p.key.decode(key) == Some(GenericKey(1, Some(Point(x, y))))
      && NonNegative(point.x, x) && NonNegative(point.y, y)
  }

  /** A 32-octet number, with a zero before it if its top bit is set. */
  predicate NonNegative(value: Bytes, encoded: Bytes) {
    |value| == 32 && encoded == if value[0] >= 0x80 then [0x00] + value else value
  }

  lemma TopBit(b: Byte)
    ensures b & 0x80 != 0 <==> b >= 0x80
  {
  }

  lemma PublicKeyIsSent(p: Primitives, secret: Bytes)
    requires Lawful(p)
    ensures PublicKeyOf(p, secret).Ok? && CarriesPoint(p, PublicKeyOf(p, secret).value, p.point(secret))
  {
    var point := p.point(secret);
    assert ValidPoint(point);
    TopBit(point.x[0]);
    TopBit(point.y[0]);
    var key := EncodePoint(point).value;
    assert p.key.decode(p.key.encode(key)) == Some(key);
    assert NonNegative(point.x, key.ec.value.x) && NonNegative(point.y, key.ec.value.y);
  }

  /** The finish: message four, around the initiator's public key. */
  lemma FinishIsSent(p: Primitives, secret: Bytes)
    requires Lawful(p)
    ensures FinishOf(p, secret).Ok?
    ensures exists body, key ::
              && p.wire.decode(FinishOf(p, secret).value) == Some(Wire(Some(4), Some(body)))
              && p.finished.decode(body) == Some(Finished(Some(key))) && CarriesPoint(p, key, p.point(secret))
  {
    PublicKeyIsSent(p, secret);
    var key := PublicKeyOf(p, secret).value;
    var body := p.finished.encode(Finished(Some(key)));
    var wire := Wire(Some(4), Some(body));
    assert p.finished.decode(body) == Some(Finished(Some(key)));
    assert FinishOf(p, secret).value == p.wire.encode(wire) && p.wire.decode(p.wire.encode(wire)) == Some(wire);
  }

  /** The opening: message two, version one, one commitment for P-256 with SHA-512 to
      the finish that will follow, and the only next protocol there is. */
  lemma ClientInitIsSent(p: Primitives, random: Bytes, secret: Bytes)
    requires Lawful(p)
    ensures FinishOf(p, secret).Ok? && ClientInitOf(p, random, secret).Ok?
    ensures exists body ::
              && p.wire.decode(ClientInitOf(p, random, secret).value) == Some(Wire(Some(2), Some(body)))
              && p.clientInit.decode(body) ==
                 Some(ClientInit(Some(1), Some(random), [CipherCommitment(Some(100), Some(p.sha512(FinishOf(p, secret).value)))],
                                 Some("AES_256_CBC-HMAC_SHA256")))
  {
    FinishIsSent(p, secret);
    var init := ClientInit(Some(1), Some(random), [CipherCommitment(Some(100), Some(p.sha512(FinishOf(p, secret).value)))],
                           Some("AES_256_CBC-HMAC_SHA256"));
    var wire := Wire(Some(2), Some(p.clientInit.encode(init)));
    assert p.clientInit.decode(p.clientInit.encode(init)) == Some(init);
    assert p.wire.decode(p.wire.encode(wire)) == Some(wire);
  }

  /** The reply: message three, version one, the same cipher and the responder's key. */
  lemma ServerInitIsSent(p: Primitives, random: Bytes, secret: Bytes)
    requires Lawful(p)
    ensures ServerInitOf(p, random, secret).Ok?
    ensures exists body, key ::
              && p.wire.decode(ServerInitOf(p, random, secret).value) == Some(Wire(Some(3), Some(body)))
              && p.serverInit.decode(body) == Some(ServerInit(Some(1), Some(random), Some(100), Some(key)))
              && CarriesPoint(p, key, p.point(secret))
  {
    PublicKeyIsSent(p, secret);
    var key := PublicKeyOf(p, secret).value;
    var init := ServerInit(Some(1), Some(random), Some(100), Some(key));
    var wire := Wire(Some(3), Some(p.serverInit.encode(init)));
    assert p.serverInit.decode(p.serverInit.encode(init)) == Some(init);
    assert p.wire.decode(p.wire.encode(wire)) == Some(wire);
  }

  /** Only such messages are taken: an opening with a 32-octet random and a commitment
      that is the first present one for the cipher, */
  lemma OnlySuchOpenings(p: Primitives, bytes: Bytes)
    requires ReadClientInit(p, bytes).Ok?
    ensures exists body, random, offers ::
              && p.wire.decode(bytes) == Some(Wire(Some(2), Some(body)))
              && p.clientInit.decode(body) == Some(ClientInit(Some(1), Some(random), offers, Some("AES_256_CBC-HMAC_SHA256")))
              && |random| == 32 && FirstCommitment(offers, ReadClientInit(p, bytes).value)
  {
    var body := p.wire.decode(bytes).value.data.value;
    var init := p.clientInit.decode(body).value;
    CommitmentIsFirst(init.commitments);
    assert p.clientInit.decode(body) ==
           Some(ClientInit(Some(1), Some(init.random.value), init.commitments, Some("AES_256_CBC-HMAC_SHA256")));
  }

  ghost predicate FirstCommitment(offers: seq<CipherCommitment>, commitment: Bytes) {
    && commitment != []
    && exists k :: 0 <= k < |offers| && offers[k] == CipherCommitment(Some(100), Some(commitment))
                   && forall j :: 0 <= j < k ==> offers[j].cipher != Some(100) || offers[j].commitment == None
  }

  lemma {:induction false} CommitmentIsFirst(offers: seq<CipherCommitment>)
    requires FindCommitment(offers).Some? && FindCommitment(offers).value != []
    ensures FirstCommitment(offers, FindCommitment(offers).value)
    decreases |offers|
  {
    if offers[0].cipher == Some(100) && offers[0].commitment.Some? {
      assert offers[0] == CipherCommitment(Some(100), Some(FindCommitment(offers).value));
    } else {
      CommitmentIsFirst(offers[1..]);
      var k :| 0 <= k < |offers[1..]| && offers[1..][k] == CipherCommitment(Some(100), Some(FindCommitment(offers).value))
               && forall j :: 0 <= j < k ==> offers[1..][j].cipher != Some(100) || offers[1..][j].commitment == None;
      assert offers[k + 1] == offers[1..][k];
      forall j | 0 <= j < k + 1
        ensures offers[j].cipher != Some(100) || offers[j].commitment == None
      {
        if j > 0 {
          assert offers[j] == offers[1..][j - 1];
        }
      }
    }
  }

  /** a reply with a 32-octet random and a point on the curve, */
  lemma OnlySuchReplies(p: Primitives, bytes: Bytes)
    requires ReadServerInit(p, bytes).Ok?
    ensures p.onCurve(ReadServerInit(p, bytes).value)
    ensures exists body, random, key ::
              && p.wire.decode(bytes) == Some(Wire(Some(3), Some(body)))
              && p.serverInit.decode(body) == Some(ServerInit(Some(1), Some(random), Some(100), Some(key)))
              && |random| == 32 && ParsePoint(p, key) == Ok(ReadServerInit(p, bytes).value)
  {
    var body := p.wire.decode(bytes).value.data.value;
    var init := p.serverInit.decode(body).value;
    assert p.serverInit.decode(body) == Some(ServerInit(Some(1), Some(init.random.value), Some(100), Some(init.publicKey.value)));
  }

  /** and a finish that is the one committed to, with a point on the curve. */
  lemma OnlySuchFinishes(p: Primitives, commitment: Option<Bytes>, bytes: Bytes)
    requires ReadClientFinish(p, commitment, bytes).Ok?
    ensures commitment == Some(p.sha512(bytes)) && p.onCurve(ReadClientFinish(p, commitment, bytes).value)
    ensures exists body, key ::
              && p.wire.decode(bytes) == Some(Wire(Some(4), Some(body)))
              && p.finished.decode(body) == Some(Finished(Some(key)))
              && ParsePoint(p, key) == Ok(ReadClientFinish(p, commitment, bytes).value)
  {
    var body := p.wire.decode(bytes).value.data.value;
    var key := p.finished.decode(body).value.publicKey.value;
    assert p.finished.decode(body) == Some(Finished(Some(key)));
  }

  /** A key is taken only as P-256 with coordinates of 32 octets, or 33 with a leading zero. */
  lemma OnlySuchKeys(p: Primitives, key: Bytes)
    requires ParsePoint(p, key).Ok?
    ensures var point := ParsePoint(p, key).value;
            && |point.x| == 32 && |point.y| == 32 && p.onCurve(point)
            && p.key.decode(key).Some? && p.key.decode(key).value.kind == 1 && p.key.decode(key).value.ec.Some?
            && var sent := p.key.decode(key).value.ec.value;
               && (sent.x == point.x || sent.x == [0] + point.x) && (sent.y == point.y || sent.y == [0] + point.y)
  {
    var sent := p.key.decode(key).value.ec.value;
    assert |sent.x| == 33 ==> sent.x == [sent.x[0]] + sent.x[1..];
    assert |sent.y| == 33 ==> sent.y == [sent.y[0]] + sent.y[1..];
  }

  // ------------------------------------------------------------------
  // Keys
  // ------------------------------------------------------------------

  /** The two messages a completed exchange is over, and the secret it agreed on. */
  ghost predicate Exchanged(p: Primitives, i: Party, r: Party, init: Bytes, reply: Bytes, shared: Bytes) {
    && ClientInitOf(p, i.random, i.secret) == Ok(init) && ServerInitOf(p, r.random, r.secret) == Ok(reply)
    && shared == p.agree(i.secret, p.point(r.secret))
  }

  /** Over any schedule: a completed initiator holds the token of the opening and the
      reply in that order, sends under the initiator's key and receives under the
      responder's; a completed responder the other way round. */
  lemma CompletedKeysAre(p: Primitives, i: Party, r: Party, steps: seq<Step>, init: Bytes, reply: Bytes, shared: Bytes)
    requires Lawful(p) && PartiesValid(i, r) && Exchanged(p, i, r, init, reply, shared)
    ensures var s, master := Exec(p, Begin(i, r), steps), p.master(shared, init + reply);
            && (Finish(p, s.initiator).Ok? ==>
                  Finish(p, s.initiator).value ==
                  Completed(p.token(shared, init + reply), p.d2d(master, Initiator), p.d2d(master, Responder)))
            && (Finish(p, s.responder).Ok? ==>
                  Finish(p, s.responder).value ==
                  Completed(p.token(shared, init + reply), p.d2d(master, Responder), p.d2d(master, Initiator)))
  {
    FinishIsRead(p, i.secret);
    var finish := FinishOf(p, i.secret).value;
    RunKeepsInv(p, Begin(i, r), steps, i, r, init, finish, reply);
    assert p.agree(i.secret, p.point(r.secret)) == p.agree(r.secret, p.point(i.secret));
  }

  /** The session identifier digests the key of the lower hash first; of two equal
      hashes, the receiving key. */
  lemma LowerHashComesFirst(send: Bytes, receive: Bytes)
    ensures JavaHash(send) < JavaHash(receive) ==> SessionPreimage(send, receive) == send + receive
    ensures JavaHash(send) >= JavaHash(receive) ==> SessionPreimage(send, receive) == receive + send
  {
  }

  /** Thirty-one times the hash so far plus the next octet as a signed one, modulo 2^32. */
  lemma JavaHashIs(bytes: Bytes, b: Byte)
    ensures JavaHash([]) == 1
    ensures var value := if b < 0x80 then b as int else b as int - 256;
            (JavaHash(bytes + [b]) - (31 * JavaHash(bytes) + value)) % 0x1_0000_0000 == 0
    ensures -0x8000_0000 <= JavaHash(bytes + [b]) < 0x8000_0000
  {
    HashGrows(bytes, b);
    var h := JavaHash(bytes);
    Wraps(h * 31);
    Wraps(WrapI32(h * 31) + Signed(b));
    SignedIs(b);
    Multiples(JavaHash(bytes + [b]), WrapI32(h * 31) + Signed(b), h * 31 + Signed(b));
  }

  lemma HashGrows(bytes: Bytes, b: Byte)
    ensures JavaHash([]) == 1 && JavaHash(bytes + [b]) == WrapI32(WrapI32(JavaHash(bytes) * 31) + Signed(b))
  {
    JavaHashSplits(1, bytes, [b]);
    assert [b][1..] == [];
    assert JavaHashFrom(JavaHash(bytes), [b]) == WrapI32(WrapI32(JavaHash(bytes) * 31) + Signed(b));
  }

  lemma SignedIs(b: Byte)
    ensures Signed(b) == if b < 0x80 then b as int else b as int - 256
  {
  }

  lemma Wraps(n: int)
    ensures -0x8000_0000 <= WrapI32(n) < 0x8000_0000 && (WrapI32(n) - n) % 0x1_0000_0000 == 0
  {
    var q := (n + 0x8000_0000) / 0x1_0000_0000;
    assert n + 0x8000_0000 == q * 0x1_0000_0000 + (n + 0x8000_0000) % 0x1_0000_0000;
    assert WrapI32(n) - n == -q * 0x1_0000_0000;
  }

  lemma Multiples(a: int, b: int, c: int)
    requires (a - b) % 0x1_0000_0000 == 0 && (b - c) % 0x1_0000_0000 == 0
    ensures (a - c) % 0x1_0000_0000 == 0
  {
  }
}
