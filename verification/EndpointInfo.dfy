/** The endpoint-info advertisement: a fixed header, an optional name and
    type-length-value extensions. A name that is not UTF-8 is refused. */
module EndpointInfo {
  import opened Base
  import Blocks
  import Utf8

  datatype Error = InvalidAdvertisement

  datatype Info = Info(version: Byte, deviceType: Byte, salt: Bytes, metadataKey: Bytes,
                       name: Option<Bytes>, vendor: Option<Byte>, capabilities: Bytes)

  const HEADER: nat := 17

  /** Fixed-size array types of the source. */
  predicate Shaped(info: Info) {
    |info.salt| == 2 && |info.metadataKey| == 14
  }

  function New(info: Info): Result<Info, Error> {
    if |info.capabilities| > 255 || (info.name.Some? && |info.name.value| > 255) then Err(InvalidAdvertisement)
    else if info.version > 1 || info.deviceType > 6 || (info.vendor.Some? && info.vendor.value != 1)
    then Err(InvalidAdvertisement)
    else Ok(info)
  }

  // ------------------------------------------------------------------
  // Encoding
  // ------------------------------------------------------------------

  function FirstByte(version: Byte, nameless: bool, deviceType: Byte): Byte {
    (version << 5) | ((if nameless then 1 else 0) << 4) | (deviceType << 1)
  }

  lemma FirstByteReads(version: Byte, nameless: bool, deviceType: Byte)
    requires version <= 1 && deviceType <= 6
    ensures var first := FirstByte(version, nameless, deviceType);
            first >> 5 == version && (first >> 1) & 7 == deviceType && (first & 0x10 == 0 <==> !nameless)
  {
  }

  /** One extension: its type, its length and that many bytes. */
  datatype Extension = Extension(kind: Byte, value: Bytes)

  function ExtensionBytes(x: Extension): Bytes {
    [x.kind, (|x.value| % 256) as Byte] + x.value
  }

  function NameBytes(name: Option<Bytes>): Bytes {
    match name
    case None => []
    case Some(text) => [(|text| % 256) as Byte] + text
  }

  function Header(info: Info): Bytes {
    [FirstByte(info.version, info.name.None?, info.deviceType)] + info.salt + info.metadataKey
  }

  function Extensions(info: Info): seq<Extension> {
    (if info.vendor.Some? then [Extension(2, [info.vendor.value])] else []) +
    (if info.capabilities != [] then [Extension(3, info.capabilities)] else [])
  }

  function Encoded(info: Info): Bytes {
    Header(info) + NameBytes(info.name) + Blocks.Join(ExtensionBytes, Extensions(info))
  }

  function VendorBytes(vendor: Option<Byte>): Bytes {
    if vendor.Some? then [2, 1, vendor.value] else []
  }

  function CapabilityBytes(capabilities: Bytes): Bytes {
    if capabilities != [] then [3, (|capabilities| % 256) as Byte] + capabilities else []
  }

  lemma ExtensionsAre(info: Info)
    ensures Blocks.Join(ExtensionBytes, Extensions(info)) == VendorBytes(info.vendor) + CapabilityBytes(info.capabilities)
  {
    var vendor := if info.vendor.Some? then [Extension(2, [info.vendor.value])] else [];
    var capabilities := if info.capabilities != [] then [Extension(3, info.capabilities)] else [];
    Blocks.JoinAppend(ExtensionBytes, vendor, capabilities);
    if info.vendor.Some? {
      Blocks.JoinOne(ExtensionBytes, Extension(2, [info.vendor.value]));
    }
    if info.capabilities != [] {
      Blocks.JoinOne(ExtensionBytes, Extension(3, info.capabilities));
    }
  }

  method EncodePreamble(info: Info) returns (bytes: Bytes)
    ensures bytes == Header(info) + NameBytes(info.name)
  {
    bytes := [FirstByte(info.version, info.name.None?, info.deviceType)];
    bytes := bytes + info.salt;
    bytes := bytes + info.metadataKey;
    if info.name.Some? {
      bytes := bytes + [(|info.name.value| % 256) as Byte];
      bytes := bytes + info.name.value;
    }
  }

  method Encode(info: Info) returns (bytes: Bytes)
    requires New(info).Ok?
    ensures bytes == Encoded(info)
  {
    bytes := EncodePreamble(info);
    ghost var preamble := bytes;
    if info.vendor.Some? {
      bytes := bytes + [2, 1, info.vendor.value];
    }
    ghost var before := bytes;
    assert before == preamble + VendorBytes(info.vendor);
    if info.capabilities != [] {
      bytes := bytes + [3, (|info.capabilities| % 256) as Byte];
      bytes := bytes + info.capabilities;
      Blocks.Associate(before, [3, (|info.capabilities| % 256) as Byte], info.capabilities);
    }
    assert bytes == before + CapabilityBytes(info.capabilities);
    Blocks.Associate(preamble, VendorBytes(info.vendor), CapabilityBytes(info.capabilities));
    ExtensionsAre(info);
  }

  // ------------------------------------------------------------------
  // Decoding
  // ------------------------------------------------------------------

  type Found = (Option<Byte>, Bytes)

  /** What one extension does to what was found before it. */
  function Note(found: Found, x: Extension): Result<Found, Error> {
    if x.kind == 2 then
      if |x.value| != 1 then Err(InvalidAdvertisement)
      else Ok((if x.value[0] == 1 then Some(1) else None, found.1))
    else if x.kind == 3 then Ok((found.0, x.value))
    else Ok(found)
  }

  /** The extension at the front of `bytes`, if one is complete there. */
  function FirstExtension(bytes: Bytes): Option<Extension> {
    if |bytes| < 2 || |bytes| < 2 + bytes[1] as nat then None
    else Some(Extension(bytes[0], bytes[2..2 + bytes[1] as nat]))
  }

  function DecodeExtensions(bytes: Bytes, found: Found): Result<Found, Error>
    decreases |bytes|
  {
    if bytes == [] then Ok(found)
    else
      match FirstExtension(bytes)
      case None => Err(InvalidAdvertisement)
      case Some(x) =>
        match Note(found, x)
        case Err(error) => Err(error)
        case Ok(next) => DecodeExtensions(bytes[2 + bytes[1] as nat..], next)
  }

  lemma SliceAt(bytes: Bytes, offset: nat, length: nat)
    requires offset + 2 + length <= |bytes|
    ensures bytes[offset..][2..2 + length] == bytes[offset + 2..offset + 2 + length]
    ensures bytes[offset..][2 + length..] == bytes[offset + 2 + length..]
  {
  }

  lemma ExtensionAt(bytes: Bytes, offset: nat)
    requires offset < |bytes|
    ensures var rest := bytes[offset..];
            && (offset + 1 == |bytes| ==> FirstExtension(rest).None?)
            && (offset + 1 < |bytes| ==>
                  var end := offset + 2 + bytes[offset + 1] as nat;
                  && (end > |bytes| ==> FirstExtension(rest).None?)
                  && (end <= |bytes| ==>
                        && FirstExtension(rest) == Some(Extension(bytes[offset], bytes[offset + 2..end]))
                        && rest[2 + rest[1] as nat..] == bytes[end..]))
  {
    var rest := bytes[offset..];
    if offset + 1 < |bytes| {
      var end := offset + 2 + bytes[offset + 1] as nat;
      assert rest[1] == bytes[offset + 1];
      if end <= |bytes| {
        SliceAt(bytes, offset, bytes[offset + 1] as nat);
      }
    }
  }

  lemma DecodeAt(bytes: Bytes, offset: nat, found: Found, end: nat)
    requires offset + 1 < |bytes| && end == offset + 2 + bytes[offset + 1] as nat
    ensures DecodeExtensions(bytes[offset..], found) ==
            if end > |bytes| then Err(InvalidAdvertisement)
            else
              match Note(found, Extension(bytes[offset], bytes[offset + 2..end]))
              case Err(error) => Err(error)
              case Ok(next) => DecodeExtensions(bytes[end..], next)
  {
    ExtensionAt(bytes, offset);
  }

  lemma ScanEnds(bytes: Bytes, found: Found)
    ensures DecodeExtensions(bytes[|bytes|..], found) == Ok(found)
  {
    assert bytes[|bytes|..] == [];
  }

  predicate SameFrom(bytes: Bytes, start: nat, before: Found, offset: nat, found: Found)
    requires start <= |bytes| && offset <= |bytes|
  {
    DecodeExtensions(bytes[start..], before) == DecodeExtensions(bytes[offset..], found)
  }

  /** One turn of the loop: where the next record begins and what was found. */
  method ScanOne(bytes: Bytes, offset: nat, vendor: Option<Byte>, capabilities: Bytes)
    returns (next: Option<(nat, Found)>)
    requires offset < |bytes|
    ensures next.None? ==> DecodeExtensions(bytes[offset..], (vendor, capabilities)) == Err(InvalidAdvertisement)
    ensures next.Some? ==> offset < next.value.0 <= |bytes|
                           && SameFrom(bytes, offset, (vendor, capabilities), next.value.0, next.value.1)
  {
    if offset + 1 >= |bytes| {
      ExtensionAt(bytes, offset);
      return None;
    }
    var end := offset + 2 + bytes[offset + 1] as nat;
    DecodeAt(bytes, offset, (vendor, capabilities), end);
    if end > |bytes| {
      return None;
    }
    var kind, value := bytes[offset], bytes[offset + 2..end];
    if kind == 2 {
      if |value| != 1 {
        return None;
      }
      return Some((end, (if value[0] == 1 then Some(1) else None, capabilities)));
    }
    return Some((end, (vendor, if kind == 3 then value else capabilities)));
  }

  method ScanExtensions(bytes: Bytes, start: nat) returns (result: Result<Found, Error>)
    requires start <= |bytes|
    ensures result == DecodeExtensions(bytes[start..], (None, []))
  {
    var offset := start;
    var found: Found := (None, []);
    while offset < |bytes|
      invariant start <= offset <= |bytes|
      invariant SameFrom(bytes, start, (None, []), offset, found)
    {
      var next := ScanOne(bytes, offset, found.0, found.1);
      if next.None? {
        return Err(InvalidAdvertisement);
      }
      offset, found := next.value.0, next.value.1;
    }
    ScanEnds(bytes, found);
    return Ok(found);
  }

  /** The name after the header, and where the extensions begin. */
  function DecodeName(bytes: Bytes): Result<(Option<Bytes>, nat), Error>
    requires |bytes| >= HEADER
    ensures DecodeName(bytes).Ok? ==> DecodeName(bytes).value.1 <= |bytes|
  {
    if bytes[0] & 0x10 != 0 then Ok((None, HEADER))
    else if |bytes| == HEADER then Err(InvalidAdvertisement)
    else
      var end := HEADER + 1 + bytes[HEADER] as nat;
      if end > |bytes| || end == HEADER + 1 || !Utf8.Text(bytes[HEADER + 1..end]) then Err(InvalidAdvertisement)
      else Ok((Some(bytes[HEADER + 1..end]), end))
  }

  function Decoded(bytes: Bytes): Result<Info, Error> {
    if |bytes| < HEADER || bytes[0] >> 5 > 1 || (bytes[0] >> 1) & 7 > 6 then Err(InvalidAdvertisement)
    else
      match DecodeName(bytes)
      case Err(error) => Err(error)
      case Ok((name, offset)) =>
        match DecodeExtensions(bytes[offset..], (None, []))
        case Err(error) => Err(error)
        case Ok((vendor, capabilities)) =>
          New(Info(bytes[0] >> 5, (bytes[0] >> 1) & 7, bytes[1..3], bytes[3..17], name, vendor, capabilities))
  }

  method ReadName(bytes: Bytes) returns (result: Result<(Option<Bytes>, nat), Error>)
    requires |bytes| >= HEADER
    ensures result == DecodeName(bytes)
  {
    var offset := HEADER;
    if bytes[0] & 0x10 != 0 {
      return Ok((None, offset));
    }
    if offset >= |bytes| {
      return Err(InvalidAdvertisement);
    }
    var length := bytes[offset] as nat;
    offset := offset + 1;
    if offset + length > |bytes| || length == 0 {
      return Err(InvalidAdvertisement);
    }
    var text := bytes[offset..offset + length];
    if !Utf8.Text(text) {
      return Err(InvalidAdvertisement);
    }
    return Ok((Some(text), offset + length));
  }

  method Decode(bytes: Bytes) returns (result: Result<Info, Error>)
    ensures result == Decoded(bytes)
  {
    if |bytes| < HEADER {
      return Err(InvalidAdvertisement);
    }
    var version, deviceType := bytes[0] >> 5, (bytes[0] >> 1) & 7;
    if version > 1 || deviceType > 6 {
      return Err(InvalidAdvertisement);
    }
    var name := ReadName(bytes);
    if name.Err? {
      return Err(name.error);
    }
    var extensions := ScanExtensions(bytes, name.value.1);
    if extensions.Err? {
      return Err(extensions.error);
    }
    return New(Info(version, deviceType, bytes[1..3], bytes[3..17], name.value.0, extensions.value.0, extensions.value.1));
  }

  // ------------------------------------------------------------------
  // What the extension bytes mean
  // ------------------------------------------------------------------

  predicate Sized(x: Extension) {
    |x.value| <= 255
  }

  predicate AllSized(xs: seq<Extension>) {
    forall i :: 0 <= i < |xs| ==> Sized(xs[i])
  }

  function Records(xs: seq<Extension>): Bytes {
    Blocks.Join(ExtensionBytes, xs)
  }

  /** All the records noted, first to last. */
  function NoteAll(found: Found, xs: seq<Extension>): Result<Found, Error>
    decreases |xs|
  {
    if xs == [] then Ok(found)
    else
      match Note(found, xs[0])
      case Err(error) => Err(error)
      case Ok(next) => NoteAll(next, xs[1..])
  }

  lemma FirstIsRead(x: Extension, rest: Bytes)
    requires Sized(x)
    ensures var bytes := ExtensionBytes(x) + rest;
            && FirstExtension(bytes) == Some(x) && bytes[1] as nat == |x.value|
            && bytes[2 + |x.value|..] == rest
  {
    var bytes := ExtensionBytes(x) + rest;
    Blocks.ByteRoundTrip(|x.value|);
    assert bytes[1] == (|x.value| % 256) as Byte;
    assert bytes[2..2 + |x.value|] == x.value;
    assert bytes[2 + |x.value|..] == rest;
  }

  lemma {:induction false} RecordsAreRead(xs: seq<Extension>, rest: Bytes, found: Found)
    requires AllSized(xs)
    ensures DecodeExtensions(Records(xs) + rest, found) ==
            (match NoteAll(found, xs) case Err(error) => Err(error) case Ok(next) => DecodeExtensions(rest, next))
    decreases |xs|
  {
    if xs == [] {
      assert Records(xs) + rest == rest;
    } else {
      var tail := Records(xs[1..]) + rest;
      Blocks.Associate(ExtensionBytes(xs[0]), Records(xs[1..]), rest);
      FirstIsRead(xs[0], tail);
      var next := Note(found, xs[0]);
      if next.Ok? {
        RecordsAreRead(xs[1..], rest, next.value);
      }
    }
  }

  lemma SplitFirst(bytes: Bytes)
    requires FirstExtension(bytes).Some?
    ensures var x := FirstExtension(bytes).value;
            Sized(x) && bytes == ExtensionBytes(x) + bytes[2 + bytes[1] as nat..]
  {
    var x := FirstExtension(bytes).value;
    assert |x.value| == bytes[1] as nat;
    Blocks.ByteIsItsValue(bytes[1]);
  }

  /** The records a byte string is cut into, as far as they are complete. */
  function Cut(bytes: Bytes): seq<Extension>
    decreases |bytes|
  {
    if FirstExtension(bytes).None? then []
    else [FirstExtension(bytes).value] + Cut(bytes[2 + bytes[1] as nat..])
  }

  /** Extension bytes are accepted exactly when they are records end to end, none
      an ill-sized vendor; what is found is what noting those records gives. */
  lemma {:induction false} AcceptedAreRecords(bytes: Bytes, found: Found)
    ensures AllSized(Cut(bytes))
    ensures DecodeExtensions(bytes, found).Ok? <==> bytes == Records(Cut(bytes)) && NoteAll(found, Cut(bytes)).Ok?
    ensures DecodeExtensions(bytes, found).Ok? ==> DecodeExtensions(bytes, found) == NoteAll(found, Cut(bytes))
    decreases |bytes|
  {
    if FirstExtension(bytes).Some? {
      var x, rest := FirstExtension(bytes).value, bytes[2 + bytes[1] as nat..];
      SplitFirst(bytes);
      CutCons(x, rest, bytes);
      var next := Note(found, x);
      AcceptedAreRecords(rest, if next.Ok? then next.value else found);
    }
  }

  lemma CutCons(x: Extension, rest: Bytes, bytes: Bytes)
    requires FirstExtension(bytes) == Some(x) && rest == bytes[2 + bytes[1] as nat..]
    requires bytes == ExtensionBytes(x) + rest
    ensures Cut(bytes) == [x] + Cut(rest)
    ensures bytes == Records(Cut(bytes)) <==> rest == Records(Cut(rest))
  {
    assert Cut(bytes) == [x] + Cut(rest);
    assert Records(Cut(bytes)) == ExtensionBytes(x) + Records(Cut(rest));
    if bytes == Records(Cut(bytes)) {
      assert rest == bytes[|ExtensionBytes(x)|..] == Records(Cut(rest));
    }
  }

  /** The vendor of the last vendor record: only the value one counts. */
  function LastVendor(xs: seq<Extension>): Option<Byte>
    decreases |xs|
  {
    if xs == [] then None
    else if xs[|xs| - 1].kind == 2 then (if xs[|xs| - 1].value == [1] then Some(1) else None)
    else LastVendor(xs[..|xs| - 1])
  }

  function LastCapabilities(xs: seq<Extension>): Bytes
    decreases |xs|
  {
    if xs == [] then []
    else if xs[|xs| - 1].kind == 3 then xs[|xs| - 1].value
    else LastCapabilities(xs[..|xs| - 1])
  }

  predicate VendorsSized(xs: seq<Extension>) {
    forall i :: 0 <= i < |xs| && xs[i].kind == 2 ==> |xs[i].value| == 1
  }

  lemma {:induction false} NoteSnoc(found: Found, xs: seq<Extension>, x: Extension)
    ensures NoteAll(found, xs + [x]) ==
            (match NoteAll(found, xs) case Err(error) => Err(error) case Ok(next) => Note(next, x))
    decreases |xs|
  {
    if xs == [] {
      assert xs + [x] == [x] && [x][1..] == [];
    } else {
      assert (xs + [x])[0] == xs[0] && (xs + [x])[1..] == xs[1..] + [x];
      var next := Note(found, xs[0]);
      if next.Ok? {
        NoteSnoc(next.value, xs[1..], x);
      }
    }
  }

  /** The last record of each kind wins; anything else is ignored. */
  lemma {:induction false} LastRecordWins(xs: seq<Extension>)
    ensures NoteAll((None, []), xs) ==
            if VendorsSized(xs) then Ok((LastVendor(xs), LastCapabilities(xs))) else Err(InvalidAdvertisement)
    decreases |xs|
  {
    if xs != [] {
      var front, last := xs[..|xs| - 1], xs[|xs| - 1];
      assert xs == front + [last];
      LastRecordWins(front);
      NoteSnoc((None, []), front, last);
      assert VendorsSized(xs) <==> VendorsSized(front) && (last.kind == 2 ==> |last.value| == 1);
      if |last.value| == 1 {
        assert last.value == [last.value[0]];
      }
    }
  }

  // ------------------------------------------------------------------
  // Round trips and extensibility
  // ------------------------------------------------------------------

  lemma OwnExtensions(info: Info)
    requires New(info).Ok?
    ensures AllSized(Extensions(info))
    ensures NoteAll((None, []), Extensions(info)) == Ok((info.vendor, info.capabilities))
  {
    var xs := Extensions(info);
    LastRecordWins(xs);
    if info.vendor.Some? && info.capabilities != [] {
      assert xs[..1] == [Extension(2, [info.vendor.value])] && xs[..1][..0] == [];
    }
  }

  lemma EncodedParts(info: Info)
    requires Shaped(info)
    ensures var bytes := Encoded(info);
            && |bytes| >= HEADER && bytes[0] == FirstByte(info.version, info.name.None?, info.deviceType)
            && bytes[1..3] == info.salt && bytes[3..17] == info.metadataKey
            && bytes[17..] == NameBytes(info.name) + Records(Extensions(info))
  {
    var bytes := Encoded(info);
    var tail := NameBytes(info.name) + Records(Extensions(info));
    assert bytes == Header(info) + tail;
    assert Header(info)[1..3] == info.salt && Header(info)[3..17] == info.metadataKey;
    assert bytes[1..3] == Header(info)[1..3] && bytes[3..17] == Header(info)[3..17];
  }

  lemma NameIsRead(info: Info)
    requires Shaped(info) && New(info).Ok? && (info.name.Some? ==> Utf8.Text(info.name.value))
    ensures |Encoded(info)| >= HEADER
    ensures info.name == Some([]) ==> DecodeName(Encoded(info)).Err?
    ensures info.name != Some([]) ==>
              var offset := HEADER + |NameBytes(info.name)|;
              && offset <= |Encoded(info)|
              && DecodeName(Encoded(info)) == Ok((info.name, offset))
              && Encoded(info)[offset..] == Records(Extensions(info))
  {
    EncodedParts(info);
    FirstByteReads(info.version, info.name.None?, info.deviceType);
    var bytes, records := Encoded(info), Records(Extensions(info));
    if info.name.Some? {
      var text := info.name.value;
      Blocks.ByteRoundTrip(|text|);
      NameAfterHeader(bytes, text, records);
    } else {
      assert NameBytes(info.name) + records == records;
    }
  }

  lemma NameAfterHeader(bytes: Bytes, text: Bytes, records: Bytes)
    requires |bytes| >= HEADER && |text| <= 255 && bytes[HEADER..] == NameBytes(Some(text)) + records
    ensures |bytes| == HEADER + 1 + |text| + |records|
    ensures bytes[HEADER] == |text| as Byte && bytes[HEADER + 1..HEADER + 1 + |text|] == text
    ensures bytes[HEADER + 1 + |text|..] == records
  {
    var rest := bytes[HEADER..];
    assert rest == [|text| as Byte] + text + records;
    assert bytes[HEADER] == rest[0];
    assert bytes[HEADER + 1..HEADER + 1 + |text|] == rest[1..1 + |text|];
    assert bytes[HEADER + 1 + |text|..] == rest[1 + |text|..];
  }

  /** Decoding gives back what was encoded, except that an empty name (as opposed
      to an absent one) encodes to bytes that are refused. */
  lemma DecodeEncode(info: Info)
    requires Shaped(info) && New(info).Ok? && (info.name.Some? ==> Utf8.Text(info.name.value))
    ensures Decoded(Encoded(info)) == (if info.name == Some([]) then Err(InvalidAdvertisement) else Ok(info))
  {
    EncodedParts(info);
    NameIsRead(info);
    FirstByteReads(info.version, info.name.None?, info.deviceType);
    if info.name != Some([]) {
      OwnExtensions(info);
      RecordsAreRead(Extensions(info), [], (None, []));
      assert Records(Extensions(info)) + [] == Records(Extensions(info));
    }
  }

  lemma DecodedIsSound(bytes: Bytes)
    requires Decoded(bytes).Ok?
    ensures var info := Decoded(bytes).value;
            && Shaped(info) && New(info) == Ok(info) && info.name != Some([])
            && (info.name.Some? ==> Utf8.Text(info.name.value))
  {
  }

  /** Whatever bytes a value was decoded from, encoding it gives bytes that decode
      to it again. */
  lemma DecodedSurvivesEncoding(bytes: Bytes)
    requires Decoded(bytes).Ok?
    ensures Decoded(Encoded(Decoded(bytes).value)) == Decoded(bytes)
  {
    DecodedIsSound(bytes);
    DecodeEncode(Decoded(bytes).value);
  }

  lemma UnknownIsIgnored(before: seq<Extension>, x: Extension, rest: Bytes, found: Found)
    requires AllSized(before) && Sized(x) && x.kind != 2 && x.kind != 3
    ensures DecodeExtensions(Records(before) + ExtensionBytes(x) + rest, found) == DecodeExtensions(Records(before) + rest, found)
  {
    Blocks.Associate(Records(before), ExtensionBytes(x), rest);
    RecordsAreRead(before, ExtensionBytes(x) + rest, found);
    RecordsAreRead(before, rest, found);
    var noted := NoteAll(found, before);
    if noted.Ok? {
      FirstIsRead(x, rest);
      assert Note(noted.value, x) == Ok(noted.value);
    }
  }

  /** Everything before the extensions: a header, and a name if it announces one. */
  predicate Preamble(front: Bytes) {
    |front| >= HEADER &&
    if front[0] & 0x10 != 0 then |front| == HEADER
    else |front| > HEADER && |front| == HEADER + 1 + front[HEADER] as nat
  }

  lemma PreambleDecides(front: Bytes, tail: Bytes)
    requires Preamble(front)
    ensures |front + tail| >= HEADER && (front + tail)[0] == front[0]
    ensures (front + tail)[1..3] == front[1..3] && (front + tail)[3..17] == front[3..17]
    ensures DecodeName(front + tail) == DecodeName(front)
    ensures DecodeName(front).Ok? ==> DecodeName(front).value.1 == |front| && (front + tail)[|front|..] == tail
  {
    var bytes := front + tail;
    assert bytes[1..3] == front[1..3] && bytes[3..17] == front[3..17];
    assert bytes[|front|..] == tail;
    if front[0] & 0x10 == 0 {
      assert bytes[HEADER] == front[HEADER];
      assert bytes[HEADER + 1..|front|] == front[HEADER + 1..|front|];
    }
  }

  /** Adding a record of an unknown type between records, or before the end,
      never changes what an advertisement decodes to, good or bad. */
  lemma UnknownRecordsAreInvisible(front: Bytes, before: seq<Extension>, x: Extension, rest: Bytes)
    requires Preamble(front) && AllSized(before) && Sized(x) && x.kind != 2 && x.kind != 3
    ensures Decoded(front + (Records(before) + ExtensionBytes(x) + rest)) == Decoded(front + (Records(before) + rest))
  {
    PreambleDecides(front, Records(before) + ExtensionBytes(x) + rest);
    PreambleDecides(front, Records(before) + rest);
    UnknownIsIgnored(before, x, rest, (None, []));
  }
}
