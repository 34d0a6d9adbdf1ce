/** The octets of weave packets, written out: what a peer that shares no code with
    this one sees and sends. */
module WeaveLayout {
  import opened Base
  import opened Weave

  /** Packet `k` of a message cut into chunks of `m`: its number modulo eight in bits
      4 to 6, bit 3 on the first packet, bit 2 on the last, and no other bit. */
  predicate Header(header: Byte, k: nat, last: bool) {
    && (header >> 4) as nat == k % 8
    && (header & 0x08 == 0x08 <==> k == 0)
    && (header & 0x04 == 0x04 <==> last)
    && header & 0x83 == 0
  }

  function Counter(k: nat): Byte {
    match k % 8
    case 0 => 0
    case 1 => 1
    case 2 => 2
    case 3 => 3
    case 4 => 4
    case 5 => 5
    case 6 => 6
    case _ => 7
  }

  lemma CounterAdvances(k: nat)
    ensures NextCounter(Counter(k)) == Counter(k + 1) && Counter(k) as nat == k % 8
  {
  }

  lemma HeaderIs(k: nat, last: bool)
    ensures Header(DataHeader(Counter(k), k == 0, last), k, last)
  {
    CounterAdvances(k);
    HeaderBits(Counter(k), k == 0, last);
  }

  lemma HeaderBits(counter: Byte, first: bool, last: bool)
    requires counter < 8
    ensures var header := DataHeader(counter, first, last);
            && header >> 4 == counter && (header & 0x08 == 0x08 <==> first) && (header & 0x04 == 0x04 <==> last)
            && header & 0x83 == 0
  {
  }

  function Least(a: nat, b: nat): nat {
    if a <= b then a else b
  }

  lemma {:induction false} FragmentFrom(body: Bytes, offset: nat, k: nat, m: nat, j: nat)
    requires m > 0 && offset + j * m < |body| && (offset == 0 <==> k == 0)
    ensures var packets := FragmentsFrom(body, offset, Counter(k), m);
            var from := offset + j * m;
            var to := Least(from + m, |body|);
            && j < |packets| && |packets[j]| > 0 && packets[j][1..] == body[from..to]
            && Header(packets[j][0], k + j, to == |body|)
    decreases j
  {
    var end := Min(offset + m, |body|);
    CounterAdvances(k);
    if j == 0 {
      HeaderIs(k, end == |body|);
    } else {
      assert j * m == m + (j - 1) * m;
      FragmentFrom(body, offset + m, k + 1, m, j - 1);
      var rest := FragmentsFrom(body, end, Counter(k + 1), m);
      assert FragmentsFrom(body, offset, Counter(k), m)[j] == rest[j - 1];
    }
  }

  /** Every packet of every message, whatever the chunk size: its header, and the
      part of the message it carries. */
  lemma PacketIs(body: Bytes, m: nat, k: nat)
    requires m > 0 && k * m < |body|
    ensures var packets, to := Fragments(body, m), Least(k * m + m, |body|);
            && k < |packets| && |packets[k]| > 0 && packets[k][1..] == body[k * m..to]
            && Header(packets[k][0], k, to == |body|)
  {
    FragmentFrom(body, 0, 0, m, k);
  }

  lemma {:induction false} PacketCount(body: Bytes, offset: nat, counter: Byte, m: nat)
    requires offset <= |body| && m > 0
    ensures var n := |FragmentsFrom(body, offset, counter, m)|;
            if offset == |body| then n == 0 else (n - 1) * m < |body| - offset <= n * m
    decreases |body| - offset
  {
    if offset < |body| {
      var end := Min(offset + m, |body|);
      PacketCount(body, end, NextCounter(counter), m);
      var rest := |FragmentsFrom(body, end, NextCounter(counter), m)|;
      assert (1 + rest) * m == m + rest * m && rest * m == m + (rest - 1) * m;
    }
  }

  /** No more packets than the message needs; an empty one takes a single header. */
  lemma PacketsAreEnough(body: Bytes, m: nat)
    requires m > 0
    ensures var n := |Fragments(body, m)|;
            if body == [] then Fragments(body, m) == [[0x0C]] else (n - 1) * m < |body| <= n * m
  {
    PacketCount(body, 0, 0, m);
    assert DataHeader(0, true, true) == 0x0C;
  }

  /** An encoded payload begins with the three octets that say it is data. */
  lemma PayloadIsMarked(payload: Bytes, m: nat)
    requires m >= 3
    ensures var first := EncodeData(payload, m)[0];
            |first| >= 4 && first[1] == 0xFC && first[2] == 0x9F && first[3] == 0x5E
  {
    var body := DATA_HASH + payload;
    PacketIs(body, m, 0);
    assert 0 * m == 0;
    var first := EncodeData(payload, m)[0];
    assert first[1..][0] == body[0] && first[1..][1] == body[1] && first[1..][2] == body[2];
  }

  // ------------------------------------------------------------------
  // What is read
  // ------------------------------------------------------------------

  /** A packet is data when its top bit is clear; otherwise its two low bits say which
      control packet it is, and a request and a confirm have one length each. */
  lemma PduIs(pdu: Bytes)
    ensures pdu == [] ==> DecodePdu(pdu).Err?
    ensures pdu != [] && pdu[0] < 0x80 ==>
              DecodePdu(pdu) == Ok(Data(pdu[0] & 0x08 == 0x08, pdu[0] & 0x04 == 0x04, pdu[1..]))
    ensures pdu != [] && pdu[0] >= 0x80 ==>
              && (DecodePdu(pdu) == Ok(Request) <==> pdu[0] & 0x03 == 0 && |pdu| == 7)
              && (DecodePdu(pdu) == Ok(Confirm) <==> pdu[0] & 0x03 == 1 && |pdu| == 5)
              && (DecodePdu(pdu) == Ok(Error) <==> pdu[0] & 0x03 == 2)
              && (DecodePdu(pdu).Ok? ==> !DecodePdu(pdu).value.Data?)
  {
    if pdu != [] {
      Bits(pdu[0]);
    }
  }

  lemma Bits(b: Byte)
    ensures b < 0x80 <==> b & 0x80 == 0
    ensures b & 0x08 == 0x08 <==> b & 0x08 != 0
    ensures b & 0x04 == 0x04 <==> b & 0x04 != 0
  {
  }

  /** A reassembled message is what its first three octets say. */
  lemma MessageIs(body: Bytes, rest: Bytes)
    ensures DecodeLayerB([0xFC, 0x9F, 0x5E] + rest) == Ok(Content(rest))
    ensures DecodeLayerB([0x00, 0x00, 0x00] + rest) == Ok(Control(rest))
    ensures DecodeLayerB(body).Ok? ==> |body| >= 3 && (body[..3] == [0xFC, 0x9F, 0x5E] || body[..3] == [0x00, 0x00, 0x00])
    ensures IsDisconnect(rest) <==> [0x08, 0x02] <= rest
  {
    var data: Bytes, control: Bytes := [0xFC, 0x9F, 0x5E], [0x00, 0x00, 0x00];
    assert (data + rest)[..3] == data && (data + rest)[3..] == rest;
    assert (control + rest)[..3] == control && (control + rest)[3..] == rest;
    if IsDisconnect(rest) {
      assert rest[..2] == [0x08, 0x02];
    }
  }

  function BigEndian(high: Byte, low: Byte): nat {
    256 * (high as nat) + low as nat
  }

  /** The handshake packets: protocol version one, at least and at most, and packets
      of up to 509 octets. */
  lemma HandshakeIs(request: Bytes, confirm: Bytes)
    requires request == REQUEST && confirm == CONFIRM
    ensures |request| == 7 && request[0] == 0x80
    ensures BigEndian(request[1], request[2]) == 1 && BigEndian(request[3], request[4]) == 1 && BigEndian(request[5], request[6]) == 509
    ensures |confirm| == 5 && confirm[0] == 0x81 && BigEndian(confirm[1], confirm[2]) == 1 && BigEndian(confirm[3], confirm[4]) == 509
  {
  }

  /** Fragments out of order are refused, and leave what was collected. */
  lemma MisplacedFragments(a: Asm, last: bool, payload: Bytes)
    ensures a.started ==> PushData(a, true, last, payload).0 == a && PushData(a, true, last, payload).1.Err?
    ensures !a.started ==> PushData(a, false, last, payload).0 == a && PushData(a, false, last, payload).1.Err?
  {
  }
}
