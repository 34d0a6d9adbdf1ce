/** How a conversation over the packet pipe opens and how it ends. */
module WeaveLaws {
  import opened Base
  import opened Weave
  import opened WeaveStream

  /** One payload more. */
  lemma ConversationGrows(front: seq<Bytes>, payload: Bytes)
    requires front != []
    ensures SendAll(front + [payload]) == SendAll(front) + EncodeData(payload, MAX_CHUNK)
  {
    var payloads := front + [payload];
    assert payloads[..|payloads| - 1] == front;
    assert Planned(true, payload) == EncodeData(payload, MAX_CHUNK);
  }

  lemma WireGrows(front: seq<Bytes>, payload: Bytes)
    ensures Wire(AsSent(front + [payload])) == Wire(AsSent(front)) + EncodeData(payload, MAX_CHUNK)
  {
    var m := Payload(payload, MAX_CHUNK);
    assert AsSent(front + [payload]) == AsSent(front) + [m];
    WireAppends(AsSent(front), m);
  }

  lemma Associates(a: seq<Bytes>, b: seq<Bytes>, c: seq<Bytes>)
    ensures a + b + c == a + (b + c)
  {
  }

  lemma {:induction false} RequestComesFirst(payloads: seq<Bytes>)
    requires payloads != []
    ensures SendAll(payloads) == [REQUEST] + Wire(AsSent(payloads))
    decreases |payloads|
  {
    var front, payload := payloads[..|payloads| - 1], payloads[|payloads| - 1];
    assert payloads == front + [payload];
    if front == [] {
      OnePayload(payload);
      assert payloads == [payload];
    } else {
      RequestComesFirst(front);
      ConversationGrows(front, payload);
      WireGrows(front, payload);
      Associates([REQUEST], Wire(AsSent(front)), EncodeData(payload, MAX_CHUNK));
    }
  }

  lemma OnePayload(payload: Bytes)
    ensures SendAll([payload]) == [REQUEST] + Wire(AsSent([payload]))
  {
    var m := Payload(payload, MAX_CHUNK);
    assert AsSent([payload]) == [m] && [m][1..] == [] && [payload][..0] == [];
    assert Wire([m]) == Packets(m) + [];
    assert SendAll([payload]) == [] + Planned(false, payload);
  }

  /** The packets of a conversation are one connection request, before anything else,
      and then those of the payloads in order, in chunks of 508 octets. */
  lemma ConversationOpens(payloads: seq<Bytes>)
    requires payloads != []
    ensures SendAll(payloads) == [[0x80, 0x00, 0x01, 0x00, 0x01, 0x01, 0xFD]] + Wire(AsSent(payloads))
    ensures forall i :: 0 <= i < |payloads| ==> AsSent(payloads)[i] == Payload(payloads[i], 508)
  {
    RequestComesFirst(payloads);
  }

  /** A pipe that closes between messages closes the stream; one that closes within a
      message is an error; and what was collected stays. */
  lemma ClosingIs(a: Asm, rest: seq<Input>)
    ensures Recv(a, [Fails(Closed)] + rest) ==
            Received(a, rest, 0, if a.started then Err(Protocol("truncated")) else Err(Closed))
  {
    assert ([Fails(Closed)] + rest)[1..] == rest;
  }

  /** A peer's disconnect message closes the stream, in whatever state the pipe is
      after it. */
  lemma DisconnectCloses(more: Bytes, rest: seq<Input>, confirmSent: bool)
    ensures Recv(IDLE, [Pdu([0x0C, 0x00, 0x00, 0x00, 0x08, 0x02] + more, confirmSent)] + rest) == Received(IDLE, rest, 0, Err(Closed))
  {
    var pdu: Bytes := [0x0C, 0x00, 0x00, 0x00, 0x08, 0x02] + more;
    var body: Bytes := [0x00, 0x00, 0x00, 0x08, 0x02] + more;
    assert ([Pdu(pdu, confirmSent)] + rest)[1..] == rest;
    assert pdu[1..] == body && [] + body == body;
    assert DecodePdu(pdu) == Ok(Data(true, true, body));
    assert body[..3] == CONTROL_HASH && IsDisconnect(body[3..]);
  }

  /** A closed stream reads as the end of a file, and any other failure as itself;
      either way nothing left over is lost. */
  lemma ReadsEnd(r: Reader, size: nat, inputs: seq<Input>)
    ensures r.leftover == [] && Recv(r.asm, inputs).result == Err(Closed) ==> Read(r, size, inputs).result == Ok([])
    ensures r.leftover == [] && Recv(r.asm, inputs).result.Err? && Recv(r.asm, inputs).result != Err(Closed) ==>
              Read(r, size, inputs).result == Recv(r.asm, inputs).result
    ensures r.leftover != [] ==>
              && Read(r, size, inputs).result.Ok? && Read(r, size, inputs).rest == inputs
              && Read(r, size, inputs).result.value + Read(r, size, inputs).reader.leftover == r.leftover
              && |Read(r, size, inputs).result.value| == if size < |r.leftover| then size else |r.leftover|
  {
  }
}
