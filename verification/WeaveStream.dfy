/** The byte stream over weave: a sender that requests once, a receiver whose
    calls may be cut short at any packet, and the leftover buffer in between. */
module WeaveStream {
  import opened Base
  import Blocks
  import opened Weave

  /** What one blocking read of the packet pipe yields: a packet, with the fate of
      the confirm it may provoke, or a fault. An exhausted script times out. */
  datatype Input = Pdu(bytes: Bytes, confirmSent: bool) | Fails(fault: Fault)

  /** One `recv_data` call: the assembler left, the inputs not consumed, the
      confirms written, and its result. */
  datatype Received = Received(asm: Asm, rest: seq<Input>, confirms: nat, result: Result<Bytes, Fault>)

  function Recv(a: Asm, inputs: seq<Input>): Received
    decreases |inputs|
  {
    if inputs == [] then Received(a, [], 0, Err(Timeout))
    else
      var rest := inputs[1..];
      match inputs[0]
      case Fails(fault) =>
        Received(a, rest, 0, Err(if fault.Closed? && a.started then Protocol("truncated") else fault))
      case Pdu(bytes, confirmSent) =>
        match DecodePdu(bytes)
        case Err(fault) => Received(a, rest, 0, Err(fault))
        case Ok(Request) =>
          if !confirmSent then Received(a, rest, 0, Err(Bus))
          else
            var r := Recv(a, rest);
            r.(confirms := r.confirms + 1)
        case Ok(Confirm) => Recv(a, rest)
        case Ok(Error) => Recv(a, rest)
        case Ok(Data(first, last, payload)) =>
          var (a1, result) := PushData(a, first, last, payload);
          match result
          case Err(fault) => Received(a1, rest, 0, Err(fault))
          case Ok(None) => Recv(a1, rest)
          case Ok(Some(Content(content))) => Received(a1, rest, 0, Ok(content))
          case Ok(Some(Control(control))) =>
            if IsDisconnect(control) then Received(a1, rest, 0, Err(Closed)) else Recv(a1, rest)
  }

  /** The stream's own state. */
  datatype Reader = Reader(asm: Asm, leftover: Bytes)

  datatype ReadResult = ReadResult(reader: Reader, rest: seq<Input>, confirms: nat, result: Result<Bytes, Fault>)

  /** `read_weave` into a buffer of `size` bytes: refill only when nothing is
      left over; a closed pipe reads as an empty refill. */
  function Read(r: Reader, size: nat, inputs: seq<Input>): ReadResult {
    var refill := if r.leftover == [] then Recv(r.asm, inputs) else Received(r.asm, inputs, 0, Ok(r.leftover));
    if refill.result.Err? && !refill.result.error.Closed? then
      ReadResult(Reader(refill.asm, []), refill.rest, refill.confirms, Err(refill.result.error))
    else
      var leftover := if refill.result.Ok? then refill.result.value else [];
      var count := Min(|leftover|, size);
      ReadResult(Reader(refill.asm, leftover[count..]), refill.rest, refill.confirms, Ok(leftover[..count]))
  }

  /** What a sequence of reads returned, one by one and as bytes. */
  datatype Session = Session(reader: Reader, rest: seq<Input>, confirms: nat, results: seq<Result<Bytes, Fault>>, bytes: Bytes)

  function ReadAll(r: Reader, sizes: seq<nat>, inputs: seq<Input>): Session
    decreases |sizes|
  {
    if sizes == [] then Session(r, inputs, 0, [], [])
    else
      var one := Read(r, sizes[0], inputs);
      var more := ReadAll(one.reader, sizes[1..], one.rest);
      Session(more.reader, more.rest, one.confirms + more.confirms, [one.result] + more.results,
              (if one.result.Ok? then one.result.value else []) + more.bytes)
  }

  // ------------------------------------------------------------------
  // Streams a peer may legitimately produce
  // ------------------------------------------------------------------

  predicate IsData(input: Input) {
    input.Pdu? && DecodePdu(input.bytes).Ok? && DecodePdu(input.bytes).value.Data?
  }

  predicate IsRequest(input: Input) {
    input.Pdu? && DecodePdu(input.bytes) == Ok(Request)
  }

  /** A timed-out call, or a well-formed layer-A control packet. */
  predicate IsNoise(input: Input) {
    (input.Fails? && input.fault.Timeout?) || (input.Pdu? && DecodePdu(input.bytes).Ok? && !IsData(input))
  }

  /** The data packets among the inputs, in order. */
  function DataPdus(inputs: seq<Input>): seq<Bytes>
    decreases |inputs|
  {
    if inputs == [] then []
    else (if IsData(inputs[0]) then [inputs[0].bytes] else []) + DataPdus(inputs[1..])
  }

  /** The connection requests whose confirm the pipe would accept. */
  function Requests(inputs: seq<Input>): nat
    decreases |inputs|
  {
    if inputs == [] then 0
    else (if IsRequest(inputs[0]) && inputs[0].confirmSent then 1 else 0) + Requests(inputs[1..])
  }

  /** Only data and noise, and the data packets make up acceptable messages. */
  ghost predicate Clean(a: Asm, inputs: seq<Input>) {
    && (forall i :: 0 <= i < |inputs| ==> IsData(inputs[i]) || IsNoise(inputs[i]))
    && Fold(a, DataPdus(inputs)).ok
  }

  /** The content messages that the unread packets will complete, in order. */
  function Unread(a: Asm, inputs: seq<Input>): seq<Bytes> {
    Fold(a, DataPdus(inputs)).contents
  }

  /** The bytes the reader still owes: what is left over, then everything the
      unread packets will deliver. */
  function Owed(r: Reader, inputs: seq<Input>): Bytes {
    r.leftover + Blocks.Concat(Unread(r.asm, inputs))
  }

  /** One receive call loses nothing: it takes exactly the next message, or none
      if it fails, and leaves the others in the assembler and in the pipe. */
  lemma {:induction false} RecvConserves(a: Asm, inputs: seq<Input>)
    requires Clean(a, inputs)
    ensures var r := Recv(a, inputs);
            && Clean(r.asm, r.rest)
            && Unread(a, inputs) == (if r.result.Ok? then [r.result.value] else []) + Unread(r.asm, r.rest)
            && Requests(inputs) == r.confirms + Requests(r.rest)
            && (r.result.Err? ==> r.result.error.Timeout? || r.result.error.Bus?)
    decreases |inputs|
  {
    if inputs != [] {
      var rest := inputs[1..];
      assert forall i :: 0 <= i < |rest| ==> rest[i] == inputs[i + 1];
      if IsData(inputs[0]) {
        assert DataPdus(inputs) == [inputs[0].bytes] + DataPdus(rest);
        assert ([inputs[0].bytes] + DataPdus(rest))[1..] == DataPdus(rest);
        var packet := DecodePdu(inputs[0].bytes).value;
        var (a1, result) := PushData(a, packet.first, packet.last, packet.payload);
        if !(result.value.Some? && result.value.value.Content?) {
          RecvConserves(a1, rest);
        }
      } else {
        assert DataPdus(inputs) == DataPdus(rest);
        if inputs[0].Pdu? && !(IsRequest(inputs[0]) && !inputs[0].confirmSent) {
          RecvConserves(a, rest);
        }
      }
    }
  }

  lemma SplitLeftover(leftover: Bytes, count: nat, tail: Bytes)
    requires count <= |leftover|
    ensures leftover + tail == leftover[..count] + (leftover[count..] + tail)
  {
    assert leftover == leftover[..count] + leftover[count..];
  }

  lemma RefillConserves(a: Asm, inputs: seq<Input>)
    requires Clean(a, inputs)
    ensures var r := Recv(a, inputs);
            Owed(Reader(a, []), inputs) == (if r.result.Ok? then r.result.value else []) + Blocks.Concat(Unread(r.asm, r.rest))
  {
    RecvConserves(a, inputs);
    var r := Recv(a, inputs);
    if r.result.Ok? {
      Blocks.ConcatCons(r.result.value, Unread(r.asm, r.rest));
    } else {
      assert [] + Unread(r.asm, r.rest) == Unread(r.asm, r.rest);
    }
  }

  lemma ReadConserves(r: Reader, size: nat, inputs: seq<Input>)
    requires Clean(r.asm, inputs)
    ensures var one := Read(r, size, inputs);
            && Clean(one.reader.asm, one.rest)
            && Owed(r, inputs) == (if one.result.Ok? then one.result.value else []) + Owed(one.reader, one.rest)
            && Requests(inputs) == one.confirms + Requests(one.rest)
            && (one.result.Ok? ==> |one.result.value| <= size)
            && (one.result.Err? ==> r.leftover == [])
  {
    var refill := if r.leftover == [] then Recv(r.asm, inputs) else Received(r.asm, inputs, 0, Ok(r.leftover));
    var leftover := if refill.result.Ok? then refill.result.value else [];
    var tail := Blocks.Concat(Unread(refill.asm, refill.rest));
    if r.leftover == [] {
      RecvConserves(r.asm, inputs);
      RefillConserves(r.asm, inputs);
    }
    assert Owed(r, inputs) == leftover + tail;
    SplitLeftover(leftover, Min(|leftover|, size), tail);
  }

  /** For any buffer sizes and any interruptions, the bytes read so far followed
      by the bytes still owed are the bytes owed at the start. */
  lemma {:induction false} ReadsConserve(r: Reader, sizes: seq<nat>, inputs: seq<Input>)
    requires Clean(r.asm, inputs)
    ensures var s := ReadAll(r, sizes, inputs);
            && Clean(s.reader.asm, s.rest)
            && Owed(r, inputs) == s.bytes + Owed(s.reader, s.rest)
            && Requests(inputs) == s.confirms + Requests(s.rest)
    decreases |sizes|
  {
    if sizes != [] {
      var one := Read(r, sizes[0], inputs);
      ReadConserves(r, sizes[0], inputs);
      ReadsConserve(one.reader, sizes[1..], one.rest);
      var more := ReadAll(one.reader, sizes[1..], one.rest);
      var head := if one.result.Ok? then one.result.value else [];
      assert (head + more.bytes) + Owed(more.reader, more.rest) == head + (more.bytes + Owed(more.reader, more.rest));
    } else {
      assert [] + Owed(r, inputs) == Owed(r, inputs);
    }
  }

  /** The reads that returned no bytes and no fault. */
  function EmptyReads(results: seq<Result<Bytes, Fault>>): nat {
    multiset(results)[Ok([])]
  }

  function EmptyMessages(contents: seq<Bytes>): nat {
    multiset(contents)[[]]
  }

  /** A read with room in its buffer returns no bytes exactly when it takes an empty
      message. */
  lemma ReadTakes(r: Reader, size: nat, inputs: seq<Input>)
    requires Clean(r.asm, inputs) && size > 0
    ensures var one := Read(r, size, inputs);
            EmptyMessages(Unread(r.asm, inputs)) ==
            (if one.result == Ok([]) then 1 else 0) + EmptyMessages(Unread(one.reader.asm, one.rest))
  {
    if r.leftover == [] {
      RecvConserves(r.asm, inputs);
    }
  }

  /** Over any reads with room, and any interruptions, the empty reads so far and
      the empty messages still unread are the empty messages of the stream. */
  lemma {:induction false} EmptyReadsConserve(r: Reader, sizes: seq<nat>, inputs: seq<Input>)
    requires Clean(r.asm, inputs) && forall i :: 0 <= i < |sizes| ==> sizes[i] > 0
    ensures var s := ReadAll(r, sizes, inputs);
            EmptyMessages(Unread(r.asm, inputs)) == EmptyReads(s.results) + EmptyMessages(Unread(s.reader.asm, s.rest))
    decreases |sizes|
  {
    if sizes != [] {
      var one := Read(r, sizes[0], inputs);
      ReadConserves(r, sizes[0], inputs);
      ReadTakes(r, sizes[0], inputs);
      EmptyReadsConserve(one.reader, sizes[1..], one.rest);
    }
  }

  // ------------------------------------------------------------------
  // The sender's side
  // ------------------------------------------------------------------

  /** What a peer may put on the wire between control packets: content, or a
      layer-B control message that is not a disconnect, in chunks of its choice. */
  datatype Sent = Payload(bytes: Bytes, maxChunk: nat) | Signal(bytes: Bytes, maxChunk: nat)

  predicate Legitimate(m: Sent) {
    m.maxChunk > 0 && (m.Signal? ==> !IsDisconnect(m.bytes))
  }

  function Packets(m: Sent): seq<Bytes>
    requires Legitimate(m)
  {
    Fragments((if m.Payload? then DATA_HASH else CONTROL_HASH) + m.bytes, m.maxChunk)
  }

  function Wire(messages: seq<Sent>): seq<Bytes>
    requires forall i :: 0 <= i < |messages| ==> Legitimate(messages[i])
    decreases |messages|
  {
    if messages == [] then [] else Packets(messages[0]) + Wire(messages[1..])
  }

  /** The payloads among the messages; end to end they are the plain byte pipe
      that the framing stands for. */
  function Payloads(messages: seq<Sent>): seq<Bytes>
    decreases |messages|
  {
    if messages == [] then []
    else (if messages[0].Payload? then [messages[0].bytes] else []) + Payloads(messages[1..])
  }

  lemma {:induction false} WireFolds(messages: seq<Sent>)
    requires forall i :: 0 <= i < |messages| ==> Legitimate(messages[i])
    ensures Fold(IDLE, Wire(messages)) == Folded(IDLE, Payloads(messages), true)
    decreases |messages|
  {
    if messages != [] {
      var m := messages[0];
      var hash := if m.Payload? then DATA_HASH else CONTROL_HASH;
      var body := hash + m.bytes;
      assert body[..HASH_LEN] == hash && body[HASH_LEN..] == m.bytes;
      MessageRoundTrip(body, m.maxChunk);
      WireFolds(messages[1..]);
      FoldSplits(IDLE, Packets(m), Wire(messages[1..]));
    }
  }

  /** Weave refines a byte pipe. Whatever well-formed control packets are mixed in
      anywhere, however calls time out and resume, and whatever buffers are used,
      the bytes read are a prefix of the payloads sent; they are all of them once
      nothing is owed; and every answerable request consumed was confirmed once. */
  lemma WeaveRefinesABytePipe(messages: seq<Sent>, inputs: seq<Input>, sizes: seq<nat>)
    requires forall i :: 0 <= i < |messages| ==> Legitimate(messages[i])
    requires forall i :: 0 <= i < |inputs| ==> IsData(inputs[i]) || IsNoise(inputs[i])
    requires DataPdus(inputs) == Wire(messages)
    ensures var s := ReadAll(Reader(IDLE, []), sizes, inputs);
            && s.bytes <= Blocks.Concat(Payloads(messages))
            && (s.rest == [] && s.reader.leftover == [] ==> s.bytes == Blocks.Concat(Payloads(messages)))
            && s.confirms + Requests(s.rest) == Requests(inputs)
  {
    WireFolds(messages);
    var r := Reader(IDLE, []);
    ReadsConserve(r, sizes, inputs);
    var s := ReadAll(r, sizes, inputs);
    assert Owed(r, inputs) == Blocks.Concat(Payloads(messages));
    assert s.bytes == Blocks.Concat(Payloads(messages))[..|s.bytes|];
    if s.rest == [] && s.reader.leftover == [] {
      assert Owed(s.reader, s.rest) == [];
    }
  }

  /** On an open pipe, with room in every buffer, there are never more empty reads
      than empty payloads, and as many once every packet is read. So no read of a
      drained conversation is empty if and only if no payload is. */
  lemma EmptyReadsAreEmptyPayloads(messages: seq<Sent>, inputs: seq<Input>, sizes: seq<nat>)
    requires forall i :: 0 <= i < |messages| ==> Legitimate(messages[i])
    requires forall i :: 0 <= i < |inputs| ==> IsData(inputs[i]) || IsNoise(inputs[i])
    requires DataPdus(inputs) == Wire(messages) && forall i :: 0 <= i < |sizes| ==> sizes[i] > 0
    ensures var s := ReadAll(Reader(IDLE, []), sizes, inputs);
            && EmptyReads(s.results) <= EmptyMessages(Payloads(messages))
            && (s.rest == [] ==> EmptyReads(s.results) == EmptyMessages(Payloads(messages)))
            && ([] !in Payloads(messages) ==> Ok([]) !in s.results)
            && (s.rest == [] ==> (Ok([]) !in s.results <==> [] !in Payloads(messages)))
  {
    WireFolds(messages);
    EmptyReadsConserve(Reader(IDLE, []), sizes, inputs);
  }

  const MAX_CHUNK: nat := MAX_PACKET - 1

  /** The packets one send call plans: a request if none was made, then the data. */
  function Planned(requested: bool, payload: Bytes): seq<Bytes> {
    (if requested then [] else [REQUEST]) + EncodeData(payload, MAX_CHUNK)
  }

  function SendAll(payloads: seq<Bytes>): seq<Bytes>
    decreases |payloads|
  {
    if payloads == [] then []
    else SendAll(payloads[..|payloads| - 1]) + Planned(|payloads| > 1, payloads[|payloads| - 1])
  }

  /** The packets of the pipe inputs, whatever they carry. */
  function AllPdus(inputs: seq<Input>): seq<Bytes>
    decreases |inputs|
  {
    if inputs == [] then []
    else (if inputs[0].Pdu? then [inputs[0].bytes] else []) + AllPdus(inputs[1..])
  }

  function OnlyData(pdus: seq<Bytes>): seq<Bytes>
    decreases |pdus|
  {
    if pdus == [] then []
    else (if IsData(Pdu(pdus[0], true)) then [pdus[0]] else []) + OnlyData(pdus[1..])
  }

  lemma {:induction false} DataPdusAre(inputs: seq<Input>)
    ensures DataPdus(inputs) == OnlyData(AllPdus(inputs))
    decreases |inputs|
  {
    if inputs != [] {
      DataPdusAre(inputs[1..]);
      if inputs[0].Pdu? {
        assert ([inputs[0].bytes] + AllPdus(inputs[1..]))[1..] == AllPdus(inputs[1..]);
      } else {
        assert [] + AllPdus(inputs[1..]) == AllPdus(inputs[1..]);
      }
    }
  }

  lemma {:induction false} OnlyDataSplits(first: seq<Bytes>, second: seq<Bytes>)
    ensures OnlyData(first + second) == OnlyData(first) + OnlyData(second)
    decreases |first|
  {
    if first == [] {
      assert first + second == second;
    } else {
      assert (first + second)[1..] == first[1..] + second && (first + second)[0] == first[0];
      OnlyDataSplits(first[1..], second);
      var kept := if IsData(Pdu(first[0], true)) then [first[0]] else [];
      assert kept + (OnlyData(first[1..]) + OnlyData(second)) == (kept + OnlyData(first[1..])) + OnlyData(second);
    }
  }

  lemma {:induction false} FragmentsAreData(body: Bytes, offset: nat, counter: Byte, maxChunk: nat)
    requires offset <= |body| && maxChunk > 0
    ensures OnlyData(FragmentsFrom(body, offset, counter, maxChunk)) == FragmentsFrom(body, offset, counter, maxChunk)
    decreases |body| - offset
  {
    if offset < |body| {
      var end := Min(offset + maxChunk, |body|);
      HeaderRoundTrip(counter, offset == 0, end == |body|);
      FragmentsAreData(body, end, NextCounter(counter), maxChunk);
      var pdu := [DataHeader(counter, offset == 0, end == |body|)] + body[offset..end];
      var rest := FragmentsFrom(body, end, NextCounter(counter), maxChunk);
      assert ([pdu] + rest)[1..] == rest;
    }
  }

  function AsSent(payloads: seq<Bytes>): seq<Sent> {
    seq(|payloads|, i requires 0 <= i < |payloads| => Payload(payloads[i], MAX_CHUNK))
  }

  lemma {:induction false} WireAppends(messages: seq<Sent>, m: Sent)
    requires Legitimate(m) && forall i :: 0 <= i < |messages| ==> Legitimate(messages[i])
    ensures Wire(messages + [m]) == Wire(messages) + Packets(m)
    decreases |messages|
  {
    if messages == [] {
      assert messages + [m] == [m] && [m][1..] == [];
      assert Wire([m]) == Packets(m) + [];
    } else {
      assert (messages + [m])[1..] == messages[1..] + [m];
      WireAppends(messages[1..], m);
    }
  }

  lemma PlanCarriesTheData(requested: bool, payload: Bytes)
    ensures OnlyData(Planned(requested, payload)) == EncodeData(payload, MAX_CHUNK)
    ensures forall pdu :: pdu in Planned(requested, payload) ==> DecodePdu(pdu).Ok?
  {
    var data := EncodeData(payload, MAX_CHUNK);
    FragmentsAreData(DATA_HASH + payload, 0, 0, MAX_CHUNK);
    OnlyDataDecodes(data);
    assert ([REQUEST] + data)[1..] == data;
    assert [] + data == data;
  }

  lemma {:induction false} OnlyDataDecodes(pdus: seq<Bytes>)
    ensures forall pdu :: pdu in OnlyData(pdus) ==> DecodePdu(pdu).Ok?
    decreases |pdus|
  {
    if pdus != [] {
      OnlyDataDecodes(pdus[1..]);
    }
  }

  /** A whole conversation: one request, then every payload's packets. */
  lemma {:induction false} ConversationIsTheWire(payloads: seq<Bytes>)
    ensures OnlyData(SendAll(payloads)) == Wire(AsSent(payloads))
    ensures forall pdu :: pdu in SendAll(payloads) ==> DecodePdu(pdu).Ok?
    decreases |payloads|
  {
    if payloads != [] {
      var last := |payloads| - 1;
      PlanCarriesTheData(|payloads| > 1, payloads[last]);
      ConversationIsTheWire(payloads[..last]);
      OnlyDataSplits(SendAll(payloads[..last]), Planned(|payloads| > 1, payloads[last]));
      WireAppends(AsSent(payloads[..last]), Payload(payloads[last], MAX_CHUNK));
      assert AsSent(payloads) == AsSent(payloads[..last]) + [Payload(payloads[last], MAX_CHUNK)];
    }
  }

  lemma {:induction false} InputsAreListed(inputs: seq<Input>)
    ensures forall i :: 0 <= i < |inputs| && inputs[i].Pdu? ==> inputs[i].bytes in AllPdus(inputs)
    decreases |inputs|
  {
    if inputs != [] {
      InputsAreListed(inputs[1..]);
      forall i | 0 <= i < |inputs| && inputs[i].Pdu?
        ensures inputs[i].bytes in AllPdus(inputs)
      {
        if i > 0 {
          assert inputs[i] == inputs[1..][i - 1];
        }
      }
    }
  }

  lemma {:induction false} PayloadsAreSent(payloads: seq<Bytes>)
    ensures Payloads(AsSent(payloads)) == payloads
    decreases |payloads|
  {
    if payloads != [] {
      PayloadsAreSent(payloads[1..]);
      assert AsSent(payloads)[1..] == AsSent(payloads[1..]);
      assert payloads == [payloads[0]] + payloads[1..];
    }
  }

  /** What a conversation of this sender looks like to the receiver, across any
      timeouts. */
  lemma ConversationArrives(payloads: seq<Bytes>, inputs: seq<Input>)
    requires forall i :: 0 <= i < |inputs| && inputs[i].Fails? ==> inputs[i].fault.Timeout?
    requires AllPdus(inputs) == SendAll(payloads)
    ensures forall i :: 0 <= i < |inputs| ==> IsData(inputs[i]) || IsNoise(inputs[i])
    ensures DataPdus(inputs) == Wire(AsSent(payloads)) && Payloads(AsSent(payloads)) == payloads
  {
    DataPdusAre(inputs);
    ConversationIsTheWire(payloads);
    PayloadsAreSent(payloads);
    InputsAreListed(inputs);
  }

  /** End to end: what this sender writes, read by this receiver across any
      timeouts and with any buffers, is the concatenation of the payloads. */
  lemma SentBytesAreReadBytes(payloads: seq<Bytes>, inputs: seq<Input>, sizes: seq<nat>)
    requires forall i :: 0 <= i < |inputs| && inputs[i].Fails? ==> inputs[i].fault.Timeout?
    requires AllPdus(inputs) == SendAll(payloads)
    ensures var s := ReadAll(Reader(IDLE, []), sizes, inputs);
            && s.bytes <= Blocks.Concat(payloads)
            && (s.rest == [] && s.reader.leftover == [] ==> s.bytes == Blocks.Concat(payloads))
  {
    ConversationArrives(payloads, inputs);
    WeaveRefinesABytePipe(AsSent(payloads), inputs, sizes);
  }

  /** And a drained conversation has an empty read if and only if this sender was
      given an empty payload. */
  lemma SentEmptyIsReadEmpty(payloads: seq<Bytes>, inputs: seq<Input>, sizes: seq<nat>)
    requires forall i :: 0 <= i < |inputs| && inputs[i].Fails? ==> inputs[i].fault.Timeout?
    requires AllPdus(inputs) == SendAll(payloads) && forall i :: 0 <= i < |sizes| ==> sizes[i] > 0
    ensures var s := ReadAll(Reader(IDLE, []), sizes, inputs);
            && (Ok([]) in s.results ==> [] in payloads)
            && (s.rest == [] ==> (Ok([]) in s.results <==> [] in payloads))
  {
    ConversationArrives(payloads, inputs);
    EmptyReadsAreEmptyPayloads(AsSent(payloads), inputs, sizes);
  }

  /** Such a read: this sender's empty payload, at an idle reader. */
  lemma EmptyPayloadReadsAsNothing(more: seq<Input>, size: nat, confirmSent: bool)
    requires size > 0
    ensures |EncodeData([], MAX_CHUNK)| == 1
    ensures Read(Reader(IDLE, []), size, [Pdu(EncodeData([], MAX_CHUNK)[0], confirmSent)] + more) ==
            ReadResult(Reader(IDLE, []), more, 0, Ok([]))
  {
    var body := DATA_HASH + [];
    var pdu := [DataHeader(0, true, true)] + body;
    assert body == DATA_HASH && body[0..3] == body && pdu[1..] == body;
    assert EncodeData([], MAX_CHUNK) == [pdu];
    HeaderRoundTrip(0, true, true);
    assert DecodePdu(pdu) == Ok(Data(true, true, body));
    assert PushData(IDLE, true, true, body) == (IDLE, Ok(Some(Content([])))) by {
      assert [] + body == body && body[..HASH_LEN] == DATA_HASH && body[HASH_LEN..] == [];
    }
    assert ([Pdu(pdu, confirmSent)] + more)[1..] == more;
  }

  /** Every planned packet, and the confirm that answers a request, fits the
      negotiated size. */
  lemma PlannedPacketsFit(requested: bool, payload: Bytes)
    ensures forall i :: 0 <= i < |Planned(requested, payload)| ==> 1 <= |Planned(requested, payload)[i]| <= 509
    ensures DecodePdu(REQUEST) == Ok(Request) && DecodePdu(CONFIRM) == Ok(Confirm) && |CONFIRM| <= 509
  {
    FragmentsFit(DATA_HASH + payload, 0, 0, MAX_CHUNK);
  }

  /** The part of a plan that ends with the first `i` packets of the data. */
  lemma PlanStarts(requested: bool, payload: Bytes, pdus: seq<Bytes>, i: nat)
    requires pdus == EncodeData(payload, MAX_CHUNK) && i <= |pdus|
    ensures var plan := Planned(requested, payload);
            && |plan| == |pdus| + (if requested then 0 else 1)
            && (requested ==> plan[..i] == pdus[..i]) && (!requested ==> plan[..i + 1] == [REQUEST] + pdus[..i] && plan[..0] == [])
  {
    assert [] + pdus == pdus;
    assert ([REQUEST] + pdus)[..i + 1] == [REQUEST] + pdus[..i];
  }

  /** The sending half of the socket. */
  class WeaveSender {
    var requested: bool
    var sent: seq<Bytes>

    constructor ()
      ensures !requested && sent == []
    {
      requested := false;
      sent := [];
    }

    /** The writing loop of `send_data`: as many of the packets as the pipe accepts. */
    method WritePackets(pdus: seq<Bytes>, budget: nat) returns (i: nat)
      modifies `sent
      ensures i == Min(budget, |pdus|) && sent == old(sent) + pdus[..i]
    {
      i := 0;
      while i < |pdus|
        invariant 0 <= i <= |pdus| && i <= budget
        invariant sent == old(sent) + pdus[..i]
      {
        if i == budget {
          break;
        }
        sent := sent + [pdus[i]];
        i := i + 1;
      }
    }

    /** `send_data` over a pipe that accepts `budget` more packets: a prefix of
        the plan is written, all of it exactly on success, and the request is
        remembered exactly once it has been written. */
    method SendData(payload: Bytes, budget: nat) returns (ok: bool)
      modifies this
      ensures var plan := Planned(old(requested), payload);
              && sent == old(sent) + plan[..Min(budget, |plan|)]
              && ok == (budget >= |plan|)
              && requested == (old(requested) || budget > 0)
    {
      var left := budget;
      if !requested {
        if left == 0 {
          return false;
        }
        sent := sent + [REQUEST];
        left := left - 1;
        requested := true;
      }
      var pdus := Fragment(DATA_HASH + payload, MAX_CHUNK);
      var i := WritePackets(pdus, left);
      ok := i == |pdus|;
      PlanStarts(old(requested), payload, pdus, i);
    }
  }

  /** The receiving half of the socket. */
  class WeaveReader {
    const assembler: Assembler
    var leftover: Bytes

    function View(): Reader
      reads this, assembler
    {
      Reader(assembler.View(), leftover)
    }

    constructor ()
      ensures fresh(assembler) && View() == Reader(IDLE, [])
    {
      leftover := [];
      assembler := new Assembler();
    }

    /** `recv_data`: packets are read until one completes a data payload or a
        read, a decode, a confirm or a message fails. */
    method RecvData(inputs: seq<Input>) returns (rest: seq<Input>, confirms: nat, result: Result<Bytes, Fault>)
      modifies assembler
      ensures Received(assembler.View(), rest, confirms, result) == Recv(old(assembler.View()), inputs)
    {
      rest := inputs;
      confirms := 0;
      while true
        invariant var whole := Recv(old(assembler.View()), inputs);
                  var now := Recv(assembler.View(), rest);
                  whole == now.(confirms := confirms + now.confirms)
        decreases |rest|
      {
        if rest == [] {
          return rest, confirms, Err(Timeout);
        }
        var input := rest[0];
        rest := rest[1..];
        match input {
          case Fails(fault) =>
            return rest, confirms, Err(if fault.Closed? && assembler.started then Protocol("truncated") else fault);
          case Pdu(bytes, confirmSent) =>
            match DecodePdu(bytes) {
              case Err(fault) => return rest, confirms, Err(fault);
              case Ok(packet) =>
                match packet {
                  case Request =>
                    if !confirmSent {
                      return rest, confirms, Err(Bus);
                    }
                    confirms := confirms + 1;
                  case Confirm =>
                  case Error =>
                  case Data(first, last, payload) =>
                    var pushed := assembler.Push(bytes);
                    match pushed {
                      case Err(fault) => return rest, confirms, Err(fault);
                      case Ok(None) =>
                      case Ok(Some(Content(content))) => return rest, confirms, Ok(content);
                      case Ok(Some(Control(control))) =>
                        if IsDisconnect(control) {
                          return rest, confirms, Err(Closed);
                        }
                    }
                }
            }
        }
      }
    }

    /** `read_buffered` over `recv_data`. */
    method ReadInto(size: nat, inputs: seq<Input>) returns (rest: seq<Input>, confirms: nat, result: Result<Bytes, Fault>)
      modifies this, assembler
      ensures ReadResult(View(), rest, confirms, result) == Read(old(View()), size, inputs)
    {
      rest, confirms := inputs, 0;
      if leftover == [] {
        var filled;
        rest, confirms, filled := RecvData(inputs);
        match filled {
          case Ok(bytes) => leftover := bytes;
          case Err(Closed) => leftover := [];
          case Err(fault) => return rest, confirms, Err(fault);
        }
      }
      var count := Min(|leftover|, size);
      result := Ok(leftover[..count]);
      leftover := leftover[count..];
    }
  }
}
