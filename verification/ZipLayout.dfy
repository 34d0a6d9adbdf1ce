/** The archive octet by octet, as the ZIP application note lays it out, and the
    limits of what is written, in numbers. */
module ZipLayout {
  import opened Base
  import Blocks
  import opened Utf8
  import opened Zip
  import opened ZipNames

  // ------------------------------------------------------------------
  // Records
  // ------------------------------------------------------------------

  /** Sixteen bits, the low octet first. */
  function Half(n: nat): Bytes {
    [(n % 256) as Byte, (n / 256 % 256) as Byte]
  }

  /** Thirty-two bits, the low octet first. */
  function Word(n: nat): Bytes {
    Half(n) + Half(n / 65536)
  }

  lemma PutHalf(n: nat, after: Bytes)
    ensures Put(2, n, after) == Half(n) + after
  {
    assert Put(1, n / 256, after) == [(n / 256 % 256) as Byte] + after;
  }

  lemma PutWord(n: nat, after: Bytes)
    ensures Put(4, n, after) == Word(n) + after
  {
    assert Put(4, n, after) == [(n % 256) as Byte] + Put(3, n / 256, after);
    assert n / 256 / 256 == n / 65536;
    assert Put(3, n / 256, after) == [(n / 256 % 256) as Byte] + Put(2, n / 65536, after);
    PutHalf(n / 65536, after);
  }

  /** The octets of a record's fields. */
  function Fields(record: Record): Bytes
    decreases record
  {
    match record
    case End => []
    case Two(n, rest) => Half(n) + Fields(rest)
    case Four(n, rest) => Word(n) + Fields(rest)
  }

  lemma {:induction false} EncodeIs(record: Record, after: Bytes)
    ensures Encode(record, after) == Fields(record) + after
    decreases record
  {
    match record {
      case End =>
      case Two(n, rest) =>
        EncodeIs(rest, after);
        PutHalf(n, Encode(rest, after));
        Blocks.Associate(Half(n), Fields(rest), after);
      case Four(n, rest) =>
        EncodeIs(rest, after);
        PutWord(n, Encode(rest, after));
        Blocks.Associate(Word(n), Fields(rest), after);
    }
  }

  lemma HalfIs(n: nat, low: Byte, high: Byte)
    requires n == low as nat + 256 * high as nat
    ensures Half(n) == [low, high]
  {
    assert n % 256 == low as nat && n / 256 == high as nat;
    Blocks.ByteIsItsValue(low);
    Blocks.ByteIsItsValue(high);
  }

  lemma Halves()
    ensures Half(0) == [0, 0] && Half(20) == [20, 0]
  {
    HalfIs(0, 0, 0);
    HalfIs(20, 20, 0);
  }

  lemma LowHalf(n: nat, low: nat, high: nat)
    requires n == low + 65536 * high && low < 65536
    ensures n % 256 == low % 256 && n / 256 % 256 == low / 256 % 256 && n / 65536 == high
  {
    assert n == low % 256 + 256 * (low / 256 + 256 * high);
    assert n / 256 == low / 256 + 256 * high;
  }

  lemma SameHalf(n: nat, m: nat)
    requires n % 256 == m % 256 && n / 256 % 256 == m / 256 % 256
    ensures Half(n) == Half(m)
  {
  }

  lemma WordIs(n: nat, low: nat, high: nat)
    requires n == low + 65536 * high && low < 65536
    ensures Word(n) == Half(low) + Half(high)
  {
    LowHalf(n, low, high);
    SameHalf(n, low);
  }

  lemma LocalSignature()
    ensures Word(LOCAL_SIGNATURE) == [0x50, 0x4b, 0x03, 0x04]
  {
    WordIs(LOCAL_SIGNATURE, 0x4b50, 0x0403);
    HalfIs(0x4b50, 0x50, 0x4b);
    HalfIs(0x0403, 0x03, 0x04);
  }

  lemma CentralSignature()
    ensures Word(CENTRAL_SIGNATURE) == [0x50, 0x4b, 0x01, 0x02]
  {
    WordIs(CENTRAL_SIGNATURE, 0x4b50, 0x0201);
    HalfIs(0x4b50, 0x50, 0x4b);
    HalfIs(0x0201, 0x01, 0x02);
  }

  lemma EndSignature()
    ensures Word(EOCD_SIGNATURE) == [0x50, 0x4b, 0x05, 0x06]
  {
    WordIs(EOCD_SIGNATURE, 0x4b50, 0x0605);
    HalfIs(0x4b50, 0x50, 0x4b);
    HalfIs(0x0605, 0x05, 0x06);
  }

  lemma NoWord()
    ensures Word(0) == [0, 0, 0, 0]
  {
    WordIs(0, 0, 0);
    Halves();
  }

  /** Associates to the left; the parts are any octets. */
  lemma Flatten(a: Bytes, b: Bytes, c: Bytes, d: Bytes)
    ensures a + (b + (c + d)) == a + b + c + d
  {
  }

  lemma PlainFields(rest: Record)
    ensures Fields(Two(0, Two(0, Two(0, rest)))) == [0, 0, 0, 0, 0, 0] + Fields(rest)
  {
    Halves();
    var after := Fields(rest);
    assert Fields(Two(0, Two(0, Two(0, rest)))) == Half(0) + (Half(0) + Fields(Two(0, rest)));
    assert [0, 0] + ([0, 0] + ([0, 0] + after)) == [0, 0, 0, 0, 0, 0] + after;
  }

  /** The checksum and the two sizes. */
  lemma SizeFields(crc: nat, size: nat, rest: Record)
    ensures Fields(Four(crc, Four(size, Four(size, rest)))) == Word(crc) + Word(size) + Word(size) + Fields(rest)
  {
    assert Fields(Four(size, Four(size, rest))) == Word(size) + (Word(size) + Fields(rest));
    Flatten(Word(crc), Word(size), Word(size), Fields(rest));
  }

  lemma LocalFields(rest: Record)
    ensures Fields(Four(LOCAL_SIGNATURE, Two(20, Two(0, Two(0, Two(0, Two(0, rest))))))) ==
            [0x50, 0x4b, 0x03, 0x04, 20, 0, 0, 0, 0, 0, 0, 0, 0, 0] + Fields(rest)
  {
    LocalSignature();
    Halves();
    PlainFields(rest);
    var plain := Two(0, Two(0, Two(0, rest)));
    var after := Fields(rest);
    assert Fields(Two(20, Two(0, plain))) == Half(20) + (Half(0) + Fields(plain));
    assert [0x50, 0x4b, 0x03, 0x04] + ([20, 0] + ([0, 0] + ([0, 0, 0, 0, 0, 0] + after))) ==
           [0x50, 0x4b, 0x03, 0x04, 20, 0, 0, 0, 0, 0, 0, 0, 0, 0] + after;
  }

  lemma CentralFields(rest: Record)
    ensures Fields(Four(CENTRAL_SIGNATURE, Two(20, Two(20, Two(0, Two(0, Two(0, Two(0, rest)))))))) ==
            [0x50, 0x4b, 0x01, 0x02, 20, 0, 20, 0, 0, 0, 0, 0, 0, 0, 0, 0] + Fields(rest)
  {
    CentralSignature();
    Halves();
    PlainFields(rest);
    var plain := Two(0, Two(0, Two(0, rest)));
    var after := Fields(rest);
    assert Fields(Two(20, Two(0, plain))) == Half(20) + (Half(0) + Fields(plain));
    assert [0x50, 0x4b, 0x01, 0x02] + ([20, 0] + ([20, 0] + ([0, 0] + ([0, 0, 0, 0, 0, 0] + after)))) ==
           [0x50, 0x4b, 0x01, 0x02, 20, 0, 20, 0, 0, 0, 0, 0, 0, 0, 0, 0] + after;
  }

  lemma CentralTail(nameLength: nat, offset: nat)
    ensures Fields(Two(nameLength, Two(0, Two(0, Two(0, Two(0, Four(0, Four(offset, End)))))))) ==
            Half(nameLength) + [0, 0, 0, 0, 0, 0, 0, 0, 0, 0, 0, 0] + Word(offset)
  {
    Halves();
    NoWord();
    var last := Four(0, Four(offset, End));
    PlainFields(Two(0, last));
    assert Fields(last) == Word(0) + (Word(offset) + Fields(End));
    var l, w := Half(nameLength), Word(offset);
    assert l + ([0, 0, 0, 0, 0, 0] + ([0, 0] + ([0, 0, 0, 0] + (w + [])))) ==
           l + [0, 0, 0, 0, 0, 0, 0, 0, 0, 0, 0, 0] + w;
  }

  lemma EndFields(count: nat, rest: Record)
    ensures Fields(Four(EOCD_SIGNATURE, Two(0, Two(0, Two(count, Two(count, rest)))))) ==
            [0x50, 0x4b, 0x05, 0x06, 0, 0, 0, 0] + Half(count) + Half(count) + Fields(rest)
  {
    EndSignature();
    Halves();
    var counts := Two(count, Two(count, rest));
    assert Fields(counts) == Half(count) + (Half(count) + Fields(rest));
    assert Fields(Two(0, Two(0, counts))) == Half(0) + (Half(0) + Fields(counts));
    var h, after := Half(count), Fields(rest);
    assert [0x50, 0x4b, 0x05, 0x06] + ([0, 0] + ([0, 0] + (h + (h + after)))) ==
           [0x50, 0x4b, 0x05, 0x06, 0, 0, 0, 0] + h + h + after;
  }

  /** A local record: signature, version 2.0, no flags, stored, no time, checksum,
      both sizes, the name's length, no extra field; then the name and the data. */
  lemma LocalRecordIs(item: Item)
    ensures LocalRecord(item) ==
            [0x50, 0x4b, 0x03, 0x04, 20, 0, 0, 0, 0, 0, 0, 0, 0, 0]
            + (Word(item.crc) + Word(|item.data|) + Word(|item.data|) + (Half(|item.name|) + [0, 0])) + (item.name + item.data)
  {
    var names := Two(|item.name|, Two(0, End));
    Halves();
    assert Fields(Two(0, End)) == Half(0) + Fields(End);
    assert Fields(names) == Half(|item.name|) + [0, 0];
    SizeFields(item.crc, |item.data|, names);
    LocalFields(Four(item.crc, Four(|item.data|, Four(|item.data|, names))));
    EncodeIs(LocalHeader(item.crc, |item.data|, |item.name|), item.name + item.data);
  }

  /** A central record: signature, both versions 2.0, no flags, stored, no time,
      checksum, both sizes, the name's length, nothing else but the local record's
      offset; then the name. */
  lemma CentralRecordIs(entry: Central)
    ensures CentralRecord(entry) ==
            [0x50, 0x4b, 0x01, 0x02, 20, 0, 20, 0, 0, 0, 0, 0, 0, 0, 0, 0]
            + (Word(entry.crc) + Word(entry.size) + Word(entry.size)
               + (Half(|entry.name|) + [0, 0, 0, 0, 0, 0, 0, 0, 0, 0, 0, 0] + Word(entry.offset))) + entry.name
  {
    var tail := Two(|entry.name|, Two(0, Two(0, Two(0, Two(0, Four(0, Four(entry.offset, End)))))));
    CentralTail(|entry.name|, entry.offset);
    SizeFields(entry.crc, entry.size, tail);
    CentralFields(Four(entry.crc, Four(entry.size, Four(entry.size, tail))));
    EncodeIs(CentralHeader(entry), entry.name);
  }

  /** The end record: signature, no disks, both counts, the directory's size and
      start, no comment. */
  lemma EndRecordIs(count: nat, size: nat, start: nat)
    ensures Encode(EndRecord(count, size, start), []) ==
            [0x50, 0x4b, 0x05, 0x06, 0, 0, 0, 0] + Half(count) + Half(count) + (Word(size) + (Word(start) + [0, 0]))
  {
    var rest := Four(size, Four(start, Two(0, End)));
    Halves();
    assert Fields(Two(0, End)) == Half(0) + Fields(End);
    assert Fields(rest) == Word(size) + (Word(start) + Fields(Two(0, End)));
    EndFields(count, rest);
    EncodeIs(EndRecord(count, size, start), []);
  }

  // ------------------------------------------------------------------
  // Names
  // ------------------------------------------------------------------

  /** A path is refused as unsafe exactly when it has a component that is not a plain
      name, and as nameless exactly when its plain components show nothing. */
  lemma {:induction false} NamesExactly(name: Bytes, path: seq<Component>)
    ensures JoinOnto(name, path) == Err(UnsafePath) <==> exists i :: 0 <= i < |path| && path[i].Special?
    ensures JoinOnto(name, path) == Err(NoFileName) <==>
            name == [] && forall i :: 0 <= i < |path| ==> path[i].Normal? && Lossy(path[i].part) == []
    ensures JoinOnto(name, path).Err? ==> JoinOnto(name, path).error in {UnsafePath, NoFileName}
    decreases |path|
  {
    if path != [] {
      assert path == [path[0]] + path[1..];
      if path[0].Normal? {
        var next := Extend(name, Lossy(path[0].part));
        NamesExactly(next, path[1..]);
        assert next == [] <==> name == [] && Lossy(path[0].part) == [];
      }
    }
  }

  // ------------------------------------------------------------------
  // Limits
  // ------------------------------------------------------------------

  /** A file is stored exactly when its first reading is below 4 GiB, its path names a
      file in at most 65535 octets and both readings have one length; what is stored
      is the second reading under the first one's checksum. */
  lemma StoredExactly(source: Source)
    ensures Stored(source).Ok? <==>
            && |Blocks.Concat(source.first)| < 0x1_0000_0000
            && ZipName(source.path).Ok? && |ZipName(source.path).value| < 0x1_0000
            && |source.second| == |Blocks.Concat(source.first)|
    ensures Stored(source).Ok? ==>
              Stored(source).value == Item(ZipName(source.path).value, CrcOf(Blocks.Concat(source.first)), source.second)
    ensures Stored(source) == Err(TooLarge) <==> |Blocks.Concat(source.first)| >= 0x1_0000_0000
  {
    NamesExactly([], source.path);
  }

  /** How many octets the local records and the directory take. */
  function Sizes(items: seq<Item>): (nat, nat)
    decreases |items|
  {
    if items == [] then (0, 0)
    else
      var (locals, directory) := Sizes(items[1..]);
      (30 + |items[0].name| + |items[0].data| + locals, 46 + |items[0].name| + directory)
  }

  lemma {:induction false} SizesAre(items: seq<Item>, offset: nat)
    ensures Sizes(items) == (|Locals(items)|, |Centrals(Directory(items, offset))|)
    decreases |items|
  {
    if items != [] {
      var item, rest := items[0], items[1..];
      assert items == [item] + rest;
      SizesAre(rest, offset + Span(item));
      LocalsCons(item, rest);
      var entry, entries := Entry(item, offset), Directory(rest, offset + Span(item));
      Blocks.JoinAppend(CentralRecord, [entry], entries);
      Blocks.JoinOne(CentralRecord, entry);
    }
  }

  /** An archive is written exactly when every file is stored, there are at most
      65535 of them and their records and directory each stay below 4 GiB. */
  lemma WritesExactly(sources: seq<Source>)
    ensures WriteZip(sources).Ok? <==>
            && AllStored(sources) && |sources| < 0x1_0000
            && Sizes(StoredItems(sources)).0 < 0x1_0000_0000 && Sizes(StoredItems(sources)).1 < 0x1_0000_0000
  {
    WriteSucceeds(sources);
    if AllStored(sources) {
      SizesAre(StoredItems(sources), 0);
    }
  }
}
