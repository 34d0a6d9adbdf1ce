/** Nearby weave framing: layer-A packets over GATT, layer-B messages inside. */
module Weave {
  import opened Base

  const CONTROL: Byte := 0x80
  const FIRST: Byte := 0x08
  const LAST: Byte := 0x04
  const COUNTER_MASK: Byte := 0x07
  const CMD_MASK: Byte := 0x03
  const MAX_PACKET: nat := 0x1FD
  const REQUEST_LEN: nat := 7
  const CONFIRM_LEN: nat := 5
  const HASH_LEN: nat := 3
  const DATA_HASH: Bytes := [0xFC, 0x9F, 0x5E]
  const CONTROL_HASH: Bytes := [0, 0, 0]
  const REQUEST: Bytes := [0x80, 0x00, 0x01, 0x00, 0x01, 0x01, 0xFD]
  const CONFIRM: Bytes := [0x81, 0x00, 0x01, 0x01, 0xFD]

  datatype Fault = Protocol(reason: string) | Closed | Timeout | Bus

  datatype Packet = Request | Confirm | Error | Data(first: bool, last: bool, payload: Bytes)

  datatype Message = Content(bytes: Bytes) | Control(bytes: Bytes)

  function DataHeader(counter: Byte, first: bool, last: bool): Byte {
    var header := (counter & COUNTER_MASK) << 4;
    var header1 := if first then header | FIRST else header;
    if last then header1 | LAST else header1
  }

  function DecodeControl(header: Byte, rest: Bytes): Result<Packet, Fault> {
    var command := header & CMD_MASK;
    if command == 0 then
      if |rest| != REQUEST_LEN - 1 then Err(Protocol("bad_request_length")) else Ok(Request)
    else if command == 1 then
      if |rest| != CONFIRM_LEN - 1 then Err(Protocol("bad_confirm_length")) else Ok(Confirm)
    else if command == 2 then Ok(Error)
    else Err(Protocol("unknown_command"))
  }

  function DecodePdu(pdu: Bytes): Result<Packet, Fault> {
    if pdu == [] then Err(Protocol("empty_header"))
    else
      var header := pdu[0];
      if header & CONTROL == 0 then Ok(Data(header & FIRST != 0, header & LAST != 0, pdu[1..]))
      else DecodeControl(header, pdu[1..])
  }

  function DecodeLayerB(body: Bytes): Result<Message, Fault> {
    if |body| < HASH_LEN then Err(Protocol("bad_layer_b_length"))
    else if body[..HASH_LEN] == DATA_HASH then Ok(Content(body[HASH_LEN..]))
    else if body[..HASH_LEN] == CONTROL_HASH then Ok(Control(body[HASH_LEN..]))
    else Err(Protocol("unknown_layer_b_type"))
  }

  predicate IsDisconnect(control: Bytes) {
    |control| > 0 && control[0] == 0x08 && |control| > 1 && control[1] == 0x02
  }

  // ------------------------------------------------------------------
  // Fragmentation
  // ------------------------------------------------------------------

  function NextCounter(counter: Byte): Byte {
    (counter + 1) & COUNTER_MASK
  }

  function Min(a: nat, b: nat): nat {
    if a <= b then a else b
  }

  /** The packets carrying `body[offset..]`. */
  function FragmentsFrom(body: Bytes, offset: nat, counter: Byte, maxChunk: nat): seq<Bytes>
    requires offset <= |body| && maxChunk > 0
    decreases |body| - offset
  {
    if offset == |body| then []
    else
      var end := Min(offset + maxChunk, |body|);
      [[DataHeader(counter, offset == 0, end == |body|)] + body[offset..end]]
      + FragmentsFrom(body, end, NextCounter(counter), maxChunk)
  }

  function Fragments(body: Bytes, maxChunk: nat): seq<Bytes>
    requires maxChunk > 0
  {
    if body == [] then [[DataHeader(0, true, true)]] else FragmentsFrom(body, 0, 0, maxChunk)
  }

  /** `encode_data`. */
  function EncodeData(payload: Bytes, maxChunk: nat): seq<Bytes> {
    Fragments(DATA_HASH + payload, if maxChunk == 0 then 1 else maxChunk)
  }

  method Fragment(body: Bytes, maxChunk: nat) returns (packets: seq<Bytes>)
    requires maxChunk > 0
    ensures packets == Fragments(body, maxChunk)
  {
    if body == [] {
      return [[DataHeader(0, true, true)]];
    }
    packets := [];
    var offset := 0;
    var counter: Byte := 0;
    while offset < |body|
      invariant offset <= |body|
      invariant packets + FragmentsFrom(body, offset, counter, maxChunk) == FragmentsFrom(body, 0, 0, maxChunk)
    {
      var end := Min(offset + maxChunk, |body|);
      var pdu := [DataHeader(counter, offset == 0, end == |body|)] + body[offset..end];
      assert packets + FragmentsFrom(body, offset, counter, maxChunk)
          == (packets + [pdu]) + FragmentsFrom(body, end, NextCounter(counter), maxChunk);
      packets := packets + [pdu];
      offset := end;
      counter := NextCounter(counter);
    }
  }

  /** A data header decodes to the flags it was built from, whatever the counter. */
  lemma HeaderRoundTrip(counter: Byte, first: bool, last: bool)
    ensures var header := DataHeader(counter, first, last);
            header & CONTROL == 0 && (header & FIRST != 0 <==> first) && (header & LAST != 0 <==> last)
  {
  }

  lemma {:induction false} FragmentsFit(body: Bytes, offset: nat, counter: Byte, maxChunk: nat)
    requires offset <= |body| && maxChunk > 0
    ensures forall i :: 0 <= i < |FragmentsFrom(body, offset, counter, maxChunk)| ==>
              1 <= |FragmentsFrom(body, offset, counter, maxChunk)[i]| <= maxChunk + 1
    decreases |body| - offset
  {
    if offset < |body| {
      FragmentsFit(body, Min(offset + maxChunk, |body|), NextCounter(counter), maxChunk);
    }
  }

  // ------------------------------------------------------------------
  // Reassembly
  // ------------------------------------------------------------------

  datatype Asm = Asm(buffer: Bytes, started: bool)

  const IDLE := Asm([], false)

  /** `Assembler::push_data`. */
  function PushData(a: Asm, first: bool, last: bool, payload: Bytes): (Asm, Result<Option<Message>, Fault>) {
    if first && a.started then (a, Err(Protocol("nested_first")))
    else if !first && !a.started then (a, Err(Protocol("missing_first")))
    else
      var buffer := (if first then [] else a.buffer) + payload;
      if !last then (Asm(buffer, true), Ok(None))
      else
        match DecodeLayerB(buffer)
        case Ok(message) => (IDLE, Ok(Some(message)))
        case Err(fault) => (IDLE, Err(fault))
  }

  class Assembler {
    var buffer: Bytes
    var started: bool

    function View(): Asm
      reads this
    {
      Asm(buffer, started)
    }

    constructor ()
      ensures View() == IDLE
    {
      buffer := [];
      started := false;
    }

    /** One GATT packet; control packets leave the assembler alone. */
    method Push(pdu: Bytes) returns (result: Result<Option<Message>, Fault>)
      modifies this
      ensures var packet := DecodePdu(pdu);
              if packet.Ok? && packet.value.Data? then
                (View(), result) == PushData(old(View()), packet.value.first, packet.value.last, packet.value.payload)
              else
                View() == old(View()) && result == if packet.Err? then Err(packet.error) else Ok(None)
    {
      match DecodePdu(pdu)
      case Err(fault) => return Err(fault);
      case Ok(packet) =>
        match packet {
          case Data(first, last, payload) => result := PushFragment(first, last, payload);
          case _ => return Ok(None);
        }
    }

    method PushFragment(first: bool, last: bool, payload: Bytes) returns (result: Result<Option<Message>, Fault>)
      modifies this
      ensures (View(), result) == PushData(old(View()), first, last, payload)
    {
      if first {
        if started {
          return Err(Protocol("nested_first"));
        }
        started := true;
        buffer := [];
      } else if !started {
        return Err(Protocol("missing_first"));
      }
      buffer := buffer + payload;
      if !last {
        return Ok(None);
      }
      started := false;
      var body := buffer;
      buffer := [];
      match DecodeLayerB(body)
      case Ok(message) => return Ok(Some(message));
      case Err(fault) => return Err(fault);
    }
  }

  /** What a stream of data packets amounts to: the assembler left, the content
      messages delivered, and whether every message was accepted. */
  datatype Folded = Folded(asm: Asm, contents: seq<Bytes>, ok: bool)

  function Fold(a: Asm, pdus: seq<Bytes>): Folded
    decreases |pdus|
  {
    if pdus == [] then Folded(a, [], true)
    else
      var packet := DecodePdu(pdus[0]);
      if !(packet.Ok? && packet.value.Data?) then Folded(a, [], false)
      else
        var (a1, result) := PushData(a, packet.value.first, packet.value.last, packet.value.payload);
        if result.Err? then Folded(a1, [], false)
        else if result.value.Some? && result.value.value.Control? && IsDisconnect(result.value.value.bytes) then
          Folded(a1, [], false)
        else
          var rest := Fold(a1, pdus[1..]);
          if result.value.Some? && result.value.value.Content?
          then rest.(contents := [result.value.value.bytes] + rest.contents)
          else rest
  }

  lemma {:induction false} FoldSplits(a: Asm, first: seq<Bytes>, second: seq<Bytes>)
    requires Fold(a, first).ok
    ensures var f := Fold(a, first);
            var g := Fold(f.asm, second);
            Fold(a, first + second) == Folded(g.asm, f.contents + g.contents, g.ok)
    decreases |first|
  {
    if first == [] {
      assert first + second == second;
      assert [] + Fold(a, second).contents == Fold(a, second).contents;
    } else {
      assert (first + second)[1..] == first[1..] + second && (first + second)[0] == first[0];
      var packet := DecodePdu(first[0]);
      var (a1, result) := PushData(a, packet.value.first, packet.value.last, packet.value.payload);
      FoldSplits(a1, first[1..], second);
      var rest := Fold(a1, first[1..]);
      var g := Fold(rest.asm, second);
      if result.value.Some? && result.value.value.Content? {
        var bytes := result.value.value.bytes;
        assert [bytes] + (rest.contents + g.contents) == ([bytes] + rest.contents) + g.contents;
      }
    }
  }

  /** Fragmenting and folding from the middle of a message completes it. */
  lemma {:induction false} TailCompletes(body: Bytes, offset: nat, counter: Byte, maxChunk: nat)
    requires 0 < offset < |body| && maxChunk > 0
    requires DecodeLayerB(body).Ok?
    requires DecodeLayerB(body).value.Control? ==> !IsDisconnect(DecodeLayerB(body).value.bytes)
    ensures Fold(Asm(body[..offset], true), FragmentsFrom(body, offset, counter, maxChunk)) ==
            Folded(IDLE, if DecodeLayerB(body).value.Content? then [DecodeLayerB(body).value.bytes] else [], true)
    decreases |body| - offset
  {
    var end := Min(offset + maxChunk, |body|);
    HeaderRoundTrip(counter, false, end == |body|);
    var pdu := [DataHeader(counter, false, end == |body|)] + body[offset..end];
    var rest := FragmentsFrom(body, end, NextCounter(counter), maxChunk);
    assert FragmentsFrom(body, offset, counter, maxChunk) == [pdu] + rest;
    assert ([pdu] + rest)[1..] == rest;
    assert pdu[1..] == body[offset..end];
    assert body[..offset] + body[offset..end] == body[..end];
    if end == |body| {
      assert body[..end] == body;
    } else {
      TailCompletes(body, end, NextCounter(counter), maxChunk);
    }
  }

  /** One fragmented message, data or non-disconnect control, folds to its
      content and leaves the assembler idle, for every chunk size. */
  lemma MessageRoundTrip(body: Bytes, maxChunk: nat)
    requires maxChunk > 0 && DecodeLayerB(body).Ok?
    requires DecodeLayerB(body).value.Control? ==> !IsDisconnect(DecodeLayerB(body).value.bytes)
    ensures Fold(IDLE, Fragments(body, maxChunk)) ==
            Folded(IDLE, if DecodeLayerB(body).value.Content? then [DecodeLayerB(body).value.bytes] else [], true)
  {
    var end := Min(maxChunk, |body|);
    HeaderRoundTrip(0, true, end == |body|);
    var pdu := [DataHeader(0, true, end == |body|)] + body[0..end];
    var rest := FragmentsFrom(body, end, NextCounter(0), maxChunk);
    assert Fragments(body, maxChunk) == [pdu] + rest;
    assert ([pdu] + rest)[1..] == rest;
    assert pdu[1..] == body[..end] && [] + body[..end] == body[..end];
    if end == |body| {
      assert body[..end] == body;
    } else {
      TailCompletes(body, end, NextCounter(0), maxChunk);
    }
  }
}
