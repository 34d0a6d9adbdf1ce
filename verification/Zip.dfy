/** The store-only ZIP writer for shared folders, and an independent reader
    written from the ZIP application note: sections 4.3.7 (local file header),
    4.3.12 (central directory) and 4.3.16 (end of central directory). */
module Zip {
  import opened Base
  import Blocks
  import Crc32
  import opened ZipNames

  // ------------------------------------------------------------------
  // Little-endian fields
  // ------------------------------------------------------------------

  function Pow256(width: nat): (p: nat)
    ensures p > 0
  {
    if width == 0 then 1 else 256 * Pow256(width - 1)
  }

  /** The `width` little-endian bytes of `n`, and then `after`. */
  function Put(width: nat, n: nat, after: Bytes): (bytes: Bytes)
    ensures |bytes| == width + |after|
    decreases width, n, after
  {
    if width == 0 then after else [(n % 256) as Byte] + Put(width - 1, n / 256, after)
  }

  function Number(bytes: Bytes): nat
    decreases |bytes|
  {
    if bytes == [] then 0 else (bytes[0] as nat) + 256 * Number(bytes[1..])
  }

  lemma {:induction false} PutRoundTrip(width: nat, n: nat, after: Bytes)
    requires n < Pow256(width)
    ensures Number(Put(width, n, after)[..width]) == n && Put(width, n, after)[width..] == after
    decreases width
  {
    if width > 0 {
      var bytes, rest := Put(width, n, after), Put(width - 1, n / 256, after);
      PutRoundTrip(width - 1, n / 256, after);
      Blocks.ByteRoundTrip(n % 256);
      assert bytes[..width][1..] == rest[..width - 1];
      assert bytes[width..] == rest[width - 1..];
    }
  }

  lemma {:induction false} PutThen(width: nat, n: nat, after: Bytes, more: Bytes)
    ensures Put(width, n, after) + more == Put(width, n, after + more)
    decreases width
  {
    if width > 0 {
      PutThen(width - 1, n / 256, after, more);
      Blocks.Associate([(n % 256) as Byte], Put(width - 1, n / 256, after), more);
    }
  }

  /** A record's fixed part: 16- and 32-bit fields, one after another. */
  datatype Record = End | Two(low: nat, rest: Record) | Four(value: nat, rest: Record)

  /** The bytes of a record, and then `after`. */
  function Encode(record: Record, after: Bytes): Bytes
    decreases record, after
  {
    match record
    case End => after
    case Two(n, rest) => Put(2, n, Encode(rest, after))
    case Four(n, rest) => Put(4, n, Encode(rest, after))
  }

  /** The record shaped like `shape` at the front of `bytes`, and what follows it. */
  function Parse(shape: Record, bytes: Bytes): Option<(Record, Bytes)>
    decreases shape, bytes
  {
    match shape
    case End => Some((End, bytes))
    case Two(_, rest) =>
      if |bytes| < 2 then None
      else (match Parse(rest, bytes[2..])
            case None => None
            case Some((tail, left)) => Some((Two(Number(bytes[..2]), tail), left)))
    case Four(_, rest) =>
      if |bytes| < 4 then None
      else (match Parse(rest, bytes[4..])
            case None => None
            case Some((tail, left)) => Some((Four(Number(bytes[..4]), tail), left)))
  }

  /** Both have the same fields, and the values of `record` fit them. */
  predicate Fits(shape: Record, record: Record)
    decreases shape, record
  {
    match shape
    case End => record.End?
    case Two(_, rest) => record.Two? && record.low <= U16_MAX && Fits(rest, record.rest)
    case Four(_, rest) => record.Four? && record.value <= U32_MAX && Fits(rest, record.rest)
  }

  function Width(record: Record): nat
    decreases record
  {
    match record
    case End => 0
    case Two(_, rest) => 2 + Width(rest)
    case Four(_, rest) => 4 + Width(rest)
  }

  lemma Widths()
    ensures Pow256(2) == U16_MAX + 1 && Pow256(4) == U32_MAX + 1
  {
    assert Pow256(2) == 256 * Pow256(1);
    assert Pow256(4) == 256 * Pow256(3);
  }

  lemma {:induction false} ParseRoundTrip(shape: Record, record: Record, after: Bytes)
    requires Fits(shape, record)
    ensures Parse(shape, Encode(record, after)) == Some((record, after))
    decreases shape
  {
    Widths();
    match shape {
      case End =>
      case Two(_, rest) =>
        ParseRoundTrip(rest, record.rest, after);
        PutRoundTrip(2, record.low, Encode(record.rest, after));
      case Four(_, rest) =>
        ParseRoundTrip(rest, record.rest, after);
        PutRoundTrip(4, record.value, Encode(record.rest, after));
    }
  }

  lemma {:induction false} ParseNeeds(shape: Record, bytes: Bytes)
    ensures |bytes| < Width(shape) ==> Parse(shape, bytes).None?
    decreases shape
  {
    match shape {
      case End =>
      case Two(_, rest) =>
        if |bytes| >= 2 {
          ParseNeeds(rest, bytes[2..]);
        }
      case Four(_, rest) =>
        if |bytes| >= 4 {
          ParseNeeds(rest, bytes[4..]);
        }
    }
  }

  lemma {:induction false} EncodeLength(record: Record, after: Bytes)
    ensures |Encode(record, after)| == Width(record) + |after|
    decreases record
  {
    match record {
      case End =>
      case Two(_, rest) => EncodeLength(rest, after);
      case Four(_, rest) => EncodeLength(rest, after);
    }
  }

  lemma {:induction false} EncodeThen(record: Record, after: Bytes, more: Bytes)
    ensures Encode(record, after) + more == Encode(record, after + more)
    decreases record
  {
    match record {
      case End =>
      case Two(n, rest) =>
        EncodeThen(rest, after, more);
        PutThen(2, n, Encode(rest, after), more);
      case Four(n, rest) =>
        EncodeThen(rest, after, more);
        PutThen(4, n, Encode(rest, after), more);
    }
  }

  // ------------------------------------------------------------------
  // Records
  // ------------------------------------------------------------------

  const LOCAL_SIGNATURE: nat := 0x0403_4b50
  const CENTRAL_SIGNATURE: nat := 0x0201_4b50
  const EOCD_SIGNATURE: nat := 0x0605_4b50

  function LocalHeader(crc: nat, size: nat, nameLength: nat): Record {
    Four(LOCAL_SIGNATURE, Two(20, Two(0, Two(0, Two(0, Two(0,
    Four(crc, Four(size, Four(size, Two(nameLength, Two(0, End)))))))))))
  }

  /** What the central directory says of one file. */
  datatype Central = Central(crc: nat, name: Bytes, offset: nat, size: nat)

  function CentralHeader(entry: Central): Record {
    Four(CENTRAL_SIGNATURE, Two(20, Two(20, Two(0, Two(0, Two(0, Two(0,
    Four(entry.crc, Four(entry.size, Four(entry.size, Two(|entry.name|, Two(0, Two(0,
    Two(0, Two(0, Four(0, Four(entry.offset, End)))))))))))))))))
  }

  function EndRecord(count: nat, directorySize: nat, directoryStart: nat): Record {
    Four(EOCD_SIGNATURE, Two(0, Two(0, Two(count, Two(count,
    Four(directorySize, Four(directoryStart, Two(0, End))))))))
  }

  const LOCAL: Record := LocalHeader(0, 0, 0)
  const CENTRAL: Record := CentralHeader(Central(0, [], 0, 0))
  const EOCD: Record := EndRecord(0, 0, 0)

  lemma LocalHeaderWidth(crc: nat, size: nat, nameLength: nat)
    ensures Width(LocalHeader(crc, size, nameLength)) == 30
  {
    var r := LocalHeader(crc, size, nameLength);
    var r2 := r.rest.rest;
    var r4 := r2.rest.rest;
    var r6 := r4.rest.rest;
    var r8 := r6.rest.rest;
    var r10 := r8.rest.rest;
    assert Width(r10) == 2;
    assert Width(r8) == 8;
    assert Width(r6) == 16;
    assert Width(r4) == 20;
    assert Width(r2) == 24;
  }

  lemma LocalHeaderFits(crc: nat, size: nat, nameLength: nat)
    requires crc <= U32_MAX && size <= U32_MAX && nameLength <= U16_MAX
    ensures Fits(LOCAL, LocalHeader(crc, size, nameLength))
  {
    var r := LocalHeader(crc, size, nameLength);
    var r2 := r.rest.rest;
    var r4 := r2.rest.rest;
    var r6 := r4.rest.rest;
    var r8 := r6.rest.rest;
    var r10 := r8.rest.rest;
    var t2 := LOCAL.rest.rest;
    var t4 := t2.rest.rest;
    var t6 := t4.rest.rest;
    var t8 := t6.rest.rest;
    var t10 := t8.rest.rest;
    assert Fits(t10, r10);
    assert Fits(t8, r8);
    assert Fits(t6, r6);
    assert Fits(t4, r4);
    assert Fits(t2, r2);
  }

  lemma CentralHeaderWidth(entry: Central)
    ensures Width(CentralHeader(entry)) == 46
  {
    var r := CentralHeader(entry);
    var r2 := r.rest.rest;
    var r4 := r2.rest.rest;
    var r6 := r4.rest.rest;
    var r8 := r6.rest.rest;
    var r10 := r8.rest.rest;
    var r12 := r10.rest.rest;
    var r14 := r12.rest.rest;
    var r16 := r14.rest.rest;
    assert Width(r16) == 4;
    assert Width(r14) == 10;
    assert Width(r12) == 14;
    assert Width(r10) == 18;
    assert Width(r8) == 26;
    assert Width(r6) == 32;
    assert Width(r4) == 36;
    assert Width(r2) == 40;
  }

  lemma CentralHeaderFits(entry: Central)
    requires |entry.name| <= U16_MAX && entry.crc <= U32_MAX && entry.size <= U32_MAX && entry.offset <= U32_MAX
    ensures Fits(CENTRAL, CentralHeader(entry))
  {
    var r := CentralHeader(entry);
    var r2 := r.rest.rest;
    var r4 := r2.rest.rest;
    var r6 := r4.rest.rest;
    var r8 := r6.rest.rest;
    var r10 := r8.rest.rest;
    var r12 := r10.rest.rest;
    var r14 := r12.rest.rest;
    var r16 := r14.rest.rest;
    var t2 := CENTRAL.rest.rest;
    var t4 := t2.rest.rest;
    var t6 := t4.rest.rest;
    var t8 := t6.rest.rest;
    var t10 := t8.rest.rest;
    var t12 := t10.rest.rest;
    var t14 := t12.rest.rest;
    var t16 := t14.rest.rest;
    assert Fits(t16, r16);
    assert Fits(t14, r14);
    assert Fits(t12, r12);
    assert Fits(t10, r10);
    assert Fits(t8, r8);
    assert Fits(t6, r6);
    assert Fits(t4, r4);
    assert Fits(t2, r2);
  }

  lemma EndRecordWidth(count: nat, size: nat, start: nat)
    ensures Width(EndRecord(count, size, start)) == 22
  {
    var r := EndRecord(count, size, start);
    var r2 := r.rest.rest;
    var r4 := r2.rest.rest;
    var r6 := r4.rest.rest;
    assert Width(r6) == 6;
    assert Width(r4) == 12;
    assert Width(r2) == 16;
  }

  lemma EndRecordFits(count: nat, size: nat, start: nat)
    requires count <= U16_MAX && size <= U32_MAX && start <= U32_MAX
    ensures Fits(EOCD, EndRecord(count, size, start))
  {
    var r := EndRecord(count, size, start);
    var r2 := r.rest.rest;
    var r4 := r2.rest.rest;
    var r6 := r4.rest.rest;
    var t2 := EOCD.rest.rest;
    var t4 := t2.rest.rest;
    var t6 := t4.rest.rest;
    assert Fits(t6, r6);
    assert Fits(t4, r4);
    assert Fits(t2, r2);
  }

  /** A stored file: the name and checksum recorded for it, and its bytes. */
  datatype Item = Item(name: Bytes, crc: nat, data: Bytes)

  /** How far the offset advances past a stored file. */
  function Span(item: Item): nat {
    30 + |item.name| + |item.data|
  }

  function LocalRecord(item: Item): (bytes: Bytes)
    ensures |bytes| == Span(item)
  {
    var header := LocalHeader(item.crc, |item.data|, |item.name|);
    LocalHeaderWidth(item.crc, |item.data|, |item.name|);
    EncodeLength(header, item.name + item.data);
    Encode(header, item.name + item.data)
  }

  function CentralRecord(entry: Central): (bytes: Bytes)
    ensures |bytes| == 46 + |entry.name|
  {
    CentralHeaderWidth(entry);
    EncodeLength(CentralHeader(entry), entry.name);
    Encode(CentralHeader(entry), entry.name)
  }

  function Entry(item: Item, offset: nat): Central {
    Central(item.crc, item.name, offset, |item.data|)
  }

  function Locals(items: seq<Item>): Bytes {
    Blocks.Join(LocalRecord, items)
  }

  /** The directory of items whose local records start at `offset`. */
  function Directory(items: seq<Item>, offset: nat): (entries: seq<Central>)
    ensures |entries| == |items|
    decreases |items|
  {
    if items == [] then []
    else [Entry(items[0], offset)] + Directory(items[1..], offset + Span(items[0]))
  }

  function Centrals(entries: seq<Central>): Bytes {
    Blocks.Join(CentralRecord, entries)
  }

  function Archive(items: seq<Item>): Bytes {
    var directory := Centrals(Directory(items, 0));
    Locals(items) + directory + Encode(EndRecord(|items|, |directory|, |Locals(items)|), [])
  }

  // ------------------------------------------------------------------
  // The writer
  // ------------------------------------------------------------------

  /** A regular file: its path below the folder, the chunks the checksum pass
      reads, and the bytes the later copy reads. */
  datatype Source = Source(path: seq<Component>, first: seq<Bytes>, second: Bytes)

  function CrcOf(bytes: Bytes): (crc: nat) {
    Crc32.Value(Crc32.Checksum(bytes))
  }

  /** What one file contributes, or why it is refused. */
  function Stored(source: Source): Result<Item, Error> {
    var content := Blocks.Concat(source.first);
    if |content| > U32_MAX then Err(TooLarge)
    else
      match ZipName(source.path)
      case Err(error) => Err(error)
      case Ok(name) =>
        if |name| > U16_MAX then Err(NameTooLong)
        else if |source.second| != |content| then Err(Changed)
        else Ok(Item(name, CrcOf(content), source.second))
  }

  function Prepend(done: seq<Item>, rest: Result<seq<Item>, Error>): Result<seq<Item>, Error> {
    match rest
    case Err(error) => Err(error)
    case Ok(items) => Ok(done + items)
  }

  function Attempts(sources: seq<Source>): (attempts: seq<Result<Item, Error>>)
    ensures |attempts| == |sources|
  {
    seq(|sources|, k requires 0 <= k < |sources| => Stored(sources[k]))
  }

  /** The items of the attempts, or the first failure: a refused file, or an
      offset past 32 bits. */
  function Collect(attempts: seq<Result<Item, Error>>, offset: nat): Result<seq<Item>, Error>
    decreases |attempts|
  {
    if attempts == [] then Ok([])
    else if attempts[0].Err? then Err(attempts[0].error)
    else
      var next := offset + Span(attempts[0].value);
      if next > U32_MAX then Err(Over4GiB)
      else Prepend([attempts[0].value], Collect(attempts[1..], next))
  }

  function WriteZip(sources: seq<Source>): Result<Bytes, Error> {
    Finished(Collect(Attempts(sources), 0))
  }

  /** The directory and the end record, where the items and their count allow. */
  function Finished(collected: Result<seq<Item>, Error>): Result<Bytes, Error> {
    match collected
    case Err(error) => Err(error)
    case Ok(items) =>
      if |Centrals(Directory(items, 0))| > U32_MAX then Err(Over4GiB)
      else if |items| > U16_MAX then Err(TooManyFiles)
      else Ok(Archive(items))
  }

  // ------------------------------------------------------------------
  // The reader
  // ------------------------------------------------------------------

  function ReadLocal(archive: Bytes, entry: Central): Option<Item> {
    if entry.offset > |archive| then None
    else
      match Parse(LOCAL, archive[entry.offset..])
      case Some((Four(signature, Two(_, Two(_, Two(stored, Two(_, Two(_,
                 Four(crc, Four(packed, Four(size, Two(nameLength, Two(extra, End))))))))))), rest)) =>
        if signature != LOCAL_SIGNATURE || stored != 0 then None
        else if crc != entry.crc || packed != entry.size || size != entry.size then None
        else if |rest| < nameLength + extra + size || rest[..nameLength] != entry.name then None
        else Some(Item(entry.name, crc, rest[nameLength + extra..][..size]))
      case _ => None
  }

  /** The entry at the front of the directory, and the rest of the directory. */
  function ReadEntry(directory: Bytes): Option<(Central, Bytes)> {
    match Parse(CENTRAL, directory)
    case Some((Four(signature, Two(_, Two(_, Two(_, Two(stored, Two(_, Two(_,
               Four(crc, Four(packed, Four(size, Two(nameLength, Two(extra, Two(comment,
               Two(_, Two(_, Four(_, Four(offset, End))))))))))))))))), rest)) =>
      if signature != CENTRAL_SIGNATURE || stored != 0 || packed != size then None
      else if |rest| < nameLength + extra + comment then None
      else Some((Central(crc, rest[..nameLength], offset, size), rest[nameLength + extra + comment..]))
    case _ => None
  }

  function ReadDirectory(archive: Bytes, directory: Bytes, count: nat): Option<seq<Item>>
    decreases count
  {
    if count == 0 then (if directory == [] then Some([]) else None)
    else
      match ReadEntry(directory)
      case None => None
      case Some((entry, rest)) =>
        match ReadLocal(archive, entry)
        case None => None
        case Some(item) =>
          match ReadDirectory(archive, rest, count - 1)
          case None => None
          case Some(items) => Some([item] + items)
  }

  /** What the end record says of the directory, where it is the last thing in
      the archive but for its comment. */
  datatype Tail = Tail(at: nat, here: nat, count: nat, size: nat, start: nat)

  function ReadEnd(archive: Bytes, at: nat): (tail: Option<Tail>)
    requires at <= |archive|
    ensures tail.Some? ==> tail.value.at == at
  {
    match Parse(EOCD, archive[at..])
    case Some((Four(signature, Two(_, Two(_, Two(here, Two(count,
               Four(size, Four(start, Two(comment, End)))))))), rest)) =>
      if signature == EOCD_SIGNATURE && comment == |rest| then Some(Tail(at, here, count, size, start)) else None
    case _ => None
  }

  /** Scans back from `at`. */
  function FindEnd(archive: Bytes, at: nat): (tail: Option<Tail>)
    requires at <= |archive|
    ensures tail.Some? ==> tail.value.at <= at
    decreases at
  {
    if ReadEnd(archive, at).Some? then ReadEnd(archive, at)
    else if at == 0 then None
    else FindEnd(archive, at - 1)
  }

  function ReadZip(archive: Bytes): Option<seq<Item>> {
    match FindEnd(archive, |archive|)
    case None => None
    case Some(Tail(at, here, count, size, start)) =>
      if here != count || start + size != at then None
      else ReadDirectory(archive, archive[start..at], count)
  }

  // ------------------------------------------------------------------
  // What is written is read back
  // ------------------------------------------------------------------

  predicate ItemFits(item: Item) {
    |item.name| <= U16_MAX && item.crc <= U32_MAX && |item.data| <= U32_MAX
  }

  predicate ItemsFit(items: seq<Item>) {
    && |items| <= U16_MAX
    && (forall k :: 0 <= k < |items| ==> ItemFits(items[k]))
    && |Locals(items)| <= U32_MAX
    && |Centrals(Directory(items, 0))| <= U32_MAX
  }

  lemma LocalIsRead(before: Bytes, item: Item, after: Bytes)
    requires ItemFits(item)
    ensures ReadLocal(before + LocalRecord(item) + after, Entry(item, |before|)) == Some(item)
  {
    var archive := before + LocalRecord(item) + after;
    var header := LocalHeader(item.crc, |item.data|, |item.name|);
    var rest := item.name + item.data + after;
    LocalHeaderFits(item.crc, |item.data|, |item.name|);
    ParseRoundTrip(LOCAL, header, rest);
    EncodeThen(header, item.name + item.data, after);
    assert archive[|before|..] == LocalRecord(item) + after;
    assert rest[..|item.name|] == item.name;
    assert rest[|item.name|..][..|item.data|] == item.data;
  }

  lemma EntryIsRead(entry: Central, after: Bytes)
    requires |entry.name| <= U16_MAX && entry.crc <= U32_MAX && entry.size <= U32_MAX && entry.offset <= U32_MAX
    ensures ReadEntry(CentralRecord(entry) + after) == Some((entry, after))
  {
    var rest := entry.name + after;
    CentralHeaderFits(entry);
    ParseRoundTrip(CENTRAL, CentralHeader(entry), rest);
    EncodeThen(CentralHeader(entry), entry.name, after);
    assert rest[..|entry.name|] == entry.name && rest[|entry.name|..] == after;
  }

  lemma EntryIsFollowed(archive: Bytes, entry: Central, item: Item, directory: Bytes, items: seq<Item>)
    requires EntryFits(entry)
    requires ReadLocal(archive, entry) == Some(item)
    requires ReadDirectory(archive, directory, |items|) == Some(items)
    ensures ReadDirectory(archive, CentralRecord(entry) + directory, |items| + 1) == Some([item] + items)
  {
    EntryIsRead(entry, directory);
  }

  predicate EntryFits(entry: Central) {
    |entry.name| <= U16_MAX && entry.crc <= U32_MAX && entry.size <= U32_MAX && entry.offset <= U32_MAX
  }

  lemma {:induction false} DirectoryIsRead(archive: Bytes, entries: seq<Central>, items: seq<Item>)
    requires |entries| == |items|
    requires forall k :: 0 <= k < |items| ==> EntryFits(entries[k])
    requires forall k :: 0 <= k < |items| ==> ReadLocal(archive, entries[k]) == Some(items[k])
    ensures ReadDirectory(archive, Centrals(entries), |items|) == Some(items)
    decreases |items|
  {
    if items != [] {
      var rest := items[1..];
      DirectoryIsRead(archive, entries[1..], rest);
      EntryIsFollowed(archive, entries[0], items[0], Centrals(entries[1..]), rest);
      assert items == [items[0]] + rest;
    }
  }

  lemma EntryIsLocated(items: seq<Item>, after: Bytes, k: nat)
    requires k < |items| && ItemFits(items[k]) && |Locals(items)| <= U32_MAX
    ensures EntryFits(Directory(items, 0)[k])
    ensures ReadLocal(Locals(items) + after, Directory(items, 0)[k]) == Some(items[k])
  {
    var front, back := Locals(items[..k]), Locals(items[k + 1..]);
    OffsetIs(items, k);
    Blocks.JoinAt(LocalRecord, items, k);
    LocalIsRead(front, items[k], back + after);
    Blocks.Regroup(front, LocalRecord(items[k]), back, after);
  }

  lemma EndNeedsRoom(archive: Bytes, at: nat)
    requires |archive| - 22 < at <= |archive|
    ensures ReadEnd(archive, at).None?
  {
    ParseNeeds(EOCD, archive[at..]);
    EndRecordWidth(0, 0, 0);
  }

  lemma {:induction false} EndIsFound(archive: Bytes, start: nat, at: nat)
    requires 0 <= start <= at <= |archive| && |archive| == start + 22
    ensures FindEnd(archive, at) == FindEnd(archive, start)
    decreases at
  {
    if at > start {
      EndNeedsRoom(archive, at);
      EndIsFound(archive, start, at - 1);
    }
  }

  lemma EndIsRead(before: Bytes, count: nat, size: nat, start: nat)
    requires count <= U16_MAX && size <= U32_MAX && start <= U32_MAX
    ensures var archive := before + Encode(EndRecord(count, size, start), []);
            FindEnd(archive, |archive|) == Some(Tail(|before|, count, count, size, start))
  {
    var record := EndRecord(count, size, start);
    var archive := before + Encode(record, []);
    EndRecordFits(count, size, start);
    EndRecordWidth(count, size, start);
    EncodeLength(record, []);
    assert archive[|before|..] == Encode(record, []);
    ParseRoundTrip(EOCD, record, []);
    EndIsFound(archive, |before|, |archive|);
  }

  /** The reader recovers exactly the items, in order. */
  lemma ArchiveIsRead(items: seq<Item>)
    requires ItemsFit(items)
    ensures ReadZip(Archive(items)) == Some(items)
  {
    var locals, directory := Locals(items), Centrals(Directory(items, 0));
    var end := Encode(EndRecord(|items|, |directory|, |locals|), []);
    EndIsRead(locals + directory, |items|, |directory|, |locals|);
    assert Archive(items)[|locals|..|locals + directory|] == directory;
    assert Archive(items) == locals + (directory + end);
    forall k | 0 <= k < |items|
      ensures EntryFits(Directory(items, 0)[k])
      ensures ReadLocal(Archive(items), Directory(items, 0)[k]) == Some(items[k])
    {
      EntryIsLocated(items, directory + end, k);
    }
    DirectoryIsRead(Archive(items), Directory(items, 0), items);
  }

  // ------------------------------------------------------------------
  // The layout
  // ------------------------------------------------------------------

  lemma {:induction false} DirectoryAppend(front: seq<Item>, back: seq<Item>, offset: nat)
    ensures Directory(front + back, offset) == Directory(front, offset) + Directory(back, offset + |Locals(front)|)
    decreases |front|
  {
    if front == [] {
      assert front + back == back;
    } else {
      assert (front + back)[1..] == front[1..] + back;
      DirectoryAppend(front[1..], back, offset + Span(front[0]));
      assert |Locals(front)| == Span(front[0]) + |Locals(front[1..])|;
    }
  }

  lemma DirectoryGrows(done: seq<Item>, item: Item)
    ensures Directory(done + [item], 0) == Directory(done, 0) + [Entry(item, |Locals(done)|)]
  {
    DirectoryAppend(done, [item], 0);
    assert [item][1..] == [];
  }

  /** The recorded offsets tile the file: entry `k` points at its own record,
      each record ends where the next begins, and the last ends where the
      directory begins. */
  lemma RecordsTile(items: seq<Item>, k: nat)
    requires k < |items|
    ensures var entry := Directory(items, 0)[k];
            && entry == Entry(items[k], |Locals(items[..k])|)
            && entry.offset + |LocalRecord(items[k])| ==
               (if k + 1 < |items| then Directory(items, 0)[k + 1].offset else |Locals(items)|)
            && entry.offset <= |Locals(items)| && LocalRecord(items[k]) <= Locals(items)[entry.offset..]
  {
    OffsetIs(items, k);
    Blocks.JoinAt(LocalRecord, items, k);
    if k + 1 < |items| {
      OffsetIs(items, k + 1);
    } else {
      assert items[..k + 1] == items;
    }
  }

  lemma OffsetIs(items: seq<Item>, k: nat)
    requires k < |items|
    ensures Directory(items, 0)[k] == Entry(items[k], |Locals(items[..k])|)
  {
    assert items == items[..k] + items[k..];
    DirectoryAppend(items[..k], items[k..], 0);
  }

  // ------------------------------------------------------------------
  // When the writer succeeds, and what it then wrote
  // ------------------------------------------------------------------

  predicate AllOk(attempts: seq<Result<Item, Error>>) {
    forall k :: 0 <= k < |attempts| ==> attempts[k].Ok?
  }

  function Values(attempts: seq<Result<Item, Error>>): (items: seq<Item>)
    requires AllOk(attempts)
    ensures |items| == |attempts|
  {
    seq(|attempts|, k requires 0 <= k < |attempts| => attempts[k].value)
  }

  predicate AllStored(sources: seq<Source>) {
    AllOk(Attempts(sources))
  }

  function StoredItems(sources: seq<Source>): seq<Item>
    requires AllStored(sources)
  {
    Values(Attempts(sources))
  }

  lemma {:induction false} CollectSucceeds(attempts: seq<Result<Item, Error>>, offset: nat)
    requires offset <= U32_MAX
    ensures Collect(attempts, offset).Ok? <==> AllOk(attempts) && offset + |Locals(Values(attempts))| <= U32_MAX
    ensures Collect(attempts, offset).Ok? ==> Collect(attempts, offset).value == Values(attempts)
    decreases |attempts|
  {
    if attempts != [] && attempts[0].Ok? {
      var item, rest := attempts[0].value, attempts[1..];
      var next := offset + Span(item);
      assert attempts == [attempts[0]] + rest;
      if AllOk(rest) {
        assert Values(attempts) == [item] + Values(rest);
        LocalsCons(item, Values(rest));
      }
      if next <= U32_MAX {
        CollectSucceeds(rest, next);
      }
    }
  }

  lemma LocalsCons(item: Item, rest: seq<Item>)
    ensures |Locals([item] + rest)| == Span(item) + |Locals(rest)|
  {
    assert ([item] + rest)[1..] == rest;
  }

  lemma FinishSucceeds(attempts: seq<Result<Item, Error>>)
    ensures Finished(Collect(attempts, 0)).Ok? <==>
            && AllOk(attempts)
            && |attempts| <= U16_MAX
            && |Locals(Values(attempts))| <= U32_MAX
            && |Centrals(Directory(Values(attempts), 0))| <= U32_MAX
    ensures Finished(Collect(attempts, 0)).Ok? ==> Finished(Collect(attempts, 0)).value == Archive(Values(attempts))
  {
    CollectSucceeds(attempts, 0);
  }

  /** `write_zip` succeeds exactly when every file can be stored and the counts,
      offsets and directory size stay within their fields. */
  lemma WriteSucceeds(sources: seq<Source>)
    ensures WriteZip(sources).Ok? <==>
            && AllStored(sources)
            && |sources| <= U16_MAX
            && |Locals(StoredItems(sources))| <= U32_MAX
            && |Centrals(Directory(StoredItems(sources), 0))| <= U32_MAX
    ensures WriteZip(sources).Ok? ==> WriteZip(sources).value == Archive(StoredItems(sources))
  {
    FinishSucceeds(Attempts(sources));
  }

  lemma CrcFits(bytes: Bytes)
    ensures CrcOf(bytes) <= U32_MAX
  {
    Crc32.ValueIsBounded(Crc32.Checksum(bytes));
    Crc32.PowersOfTwo();
  }

  lemma ItemIsStored(sources: seq<Source>, k: nat)
    requires AllStored(sources) && k < |sources|
    ensures Stored(sources[k]).Ok? && StoredItems(sources)[k] == Stored(sources[k]).value
    ensures ItemFits(StoredItems(sources)[k])
  {
    assert Attempts(sources)[k].Ok?;
    CrcFits(Blocks.Concat(sources[k].first));
  }

  /** Every archive the writer finishes is read back, entry by entry, with the
      names, the first pass's checksums and the second pass's bytes. */
  lemma WrittenIsRead(sources: seq<Source>)
    requires WriteZip(sources).Ok?
    ensures AllStored(sources) && ReadZip(WriteZip(sources).value) == Some(StoredItems(sources))
  {
    WriteSucceeds(sources);
    var items := StoredItems(sources);
    forall k | 0 <= k < |items|
      ensures ItemFits(items[k])
    {
      ItemIsStored(sources, k);
    }
    ArchiveIsRead(items);
  }

  /** A reader that checks the checksum accepts a file exactly when both passes
      have the same checksum; so it always accepts an unchanged file. */
  lemma ChecksumMeansBothPasses(source: Source)
    requires Stored(source).Ok?
    ensures var item := Stored(source).value;
            CrcOf(item.data) == item.crc <==> Crc32.Checksum(source.second) == Crc32.Checksum(Blocks.Concat(source.first))
  {
    if CrcOf(source.second) == CrcOf(Blocks.Concat(source.first)) {
      Crc32.ValueIsInjective(Crc32.Checksum(source.second), Crc32.Checksum(Blocks.Concat(source.first)));
    }
  }

  /** A file that changed between the passes in four or fewer consecutive bytes,
      keeping its size, is archived, and its recorded checksum exposes it. */
  lemma TornCopyIsExposed(source: Source, before: Bytes, earlier: Bytes, later: Bytes, after: Bytes)
    requires Stored(source).Ok?
    requires |earlier| == |later| <= 4 && earlier != later
    requires Blocks.Concat(source.first) == before + earlier + after && source.second == before + later + after
    ensures CrcOf(Stored(source).value.data) != Stored(source).value.crc
  {
    Crc32.BurstsAreDetected(before, earlier, later, after);
    ChecksumMeansBothPasses(source);
  }

  // ------------------------------------------------------------------
  // The imperative writer
  // ------------------------------------------------------------------

  lemma FieldIsWritten(before: Bytes, record: Record)
    requires !record.End?
    ensures var field := if record.Two? then Put(2, record.low, []) else Put(4, record.value, []);
            before + field + Encode(record.rest, []) == before + Encode(record, [])
  {
    var rest := Encode(record.rest, []);
    assert [] + rest == rest;
    match record {
      case Two(n, _) =>
        PutThen(2, n, [], rest);
        Blocks.Associate(before, Put(2, n, []), rest);
      case Four(n, _) =>
        PutThen(4, n, [], rest);
        Blocks.Associate(before, Put(4, n, []), rest);
    }
  }

  lemma LocalBytes(before: Bytes, crc: nat, size: nat, name: Bytes, data: Bytes)
    ensures before + Encode(LocalHeader(crc, size, |name|), []) + name + data ==
            before + Encode(LocalHeader(crc, size, |name|), name + data)
  {
    EncodeThen(LocalHeader(crc, size, |name|), [], name + data);
    assert [] + (name + data) == name + data;
  }

  lemma CentralBytes(before: Bytes, entry: Central)
    ensures before + Encode(CentralHeader(entry), []) + entry.name == before + CentralRecord(entry)
  {
    EncodeThen(CentralHeader(entry), [], entry.name);
    assert [] + entry.name == entry.name;
  }

  lemma CollectFirst(attempts: seq<Result<Item, Error>>, i: nat, offset: nat)
    requires i < |attempts|
    ensures attempts[i].Err? ==> Collect(attempts[i..], offset) == Err(attempts[i].error)
    ensures attempts[i].Ok? && offset + Span(attempts[i].value) > U32_MAX ==> Collect(attempts[i..], offset) == Err(Over4GiB)
    ensures attempts[i].Ok? && offset + Span(attempts[i].value) <= U32_MAX ==>
              Collect(attempts[i..], offset) ==
              Prepend([attempts[i].value], Collect(attempts[i + 1..], offset + Span(attempts[i].value)))
  {
    var rest := attempts[i..];
    assert rest[0] == attempts[i];
    assert rest[1..] == attempts[i + 1..];
  }

  lemma PrependTwice(done: seq<Item>, item: Item, rest: Result<seq<Item>, Error>)
    ensures Prepend(done, Prepend([item], rest)) == Prepend(done + [item], rest)
  {
    if rest.Ok? {
      assert done + ([item] + rest.value) == done + [item] + rest.value;
    }
  }

  lemma CollectEnd(attempts: seq<Result<Item, Error>>, done: seq<Item>, offset: nat)
    ensures Prepend(done, Collect(attempts[|attempts|..], offset)) == Ok(done)
  {
    assert attempts[|attempts|..] == [];
    assert done + [] == done;
  }

  /** The state of the writer after `i` files. */
  predicate Written(attempts: seq<Result<Item, Error>>, i: nat, done: seq<Item>, bytes: Bytes, offset: nat, directory: seq<Central>)
    requires i <= |attempts|
  {
    && offset <= U32_MAX
    && bytes == Locals(done) && offset == |bytes| && directory == Directory(done, 0)
    && Collect(attempts, 0) == Prepend(done, Collect(attempts[i..], offset))
  }

  lemma NothingWritten(attempts: seq<Result<Item, Error>>)
    ensures Written(attempts, 0, [], [], 0, [])
  {
    assert attempts[0..] == attempts;
    if Collect(attempts, 0).Ok? {
      assert [] + Collect(attempts, 0).value == Collect(attempts, 0).value;
    }
  }

  lemma OneWritten(attempts: seq<Result<Item, Error>>, i: nat, done: seq<Item>, bytes: Bytes, offset: nat, directory: seq<Central>)
    requires i < |attempts| && Written(attempts, i, done, bytes, offset, directory)
    requires attempts[i].Ok? && offset + Span(attempts[i].value) <= U32_MAX
    ensures var item := attempts[i].value;
            Written(attempts, i + 1, done + [item], bytes + LocalRecord(item), offset + Span(item), directory + [Entry(item, offset)])
  {
    var item := attempts[i].value;
    CollectFirst(attempts, i, offset);
    PrependTwice(done, item, Collect(attempts[i + 1..], offset + Span(item)));
    Blocks.JoinSnoc(LocalRecord, done, item);
    DirectoryGrows(done, item);
  }

  lemma FailureIsFirst(attempts: seq<Result<Item, Error>>, i: nat, done: seq<Item>, bytes: Bytes, offset: nat, directory: seq<Central>)
    requires i < |attempts| && Written(attempts, i, done, bytes, offset, directory)
    ensures attempts[i].Err? ==> Collect(attempts, 0) == Err(attempts[i].error)
    ensures attempts[i].Ok? && offset + Span(attempts[i].value) > U32_MAX ==> Collect(attempts, 0) == Err(Over4GiB)
  {
    CollectFirst(attempts, i, offset);
  }

  lemma AllWritten(attempts: seq<Result<Item, Error>>, done: seq<Item>, bytes: Bytes, offset: nat, directory: seq<Central>)
    requires Written(attempts, |attempts|, done, bytes, offset, directory)
    ensures Collect(attempts, 0) == Ok(done)
  {
    CollectEnd(attempts, done, offset);
  }

  class Output {
    var bytes: Bytes

    constructor ()
      ensures bytes == []
    {
      bytes := [];
    }

    method WriteAll(more: Bytes)
      modifies this
      ensures bytes == old(bytes) + more
    {
      bytes := bytes + more;
    }

    /** The run of `write_all` calls that lays down a record's fixed part. */
    method WriteRecord(record: Record)
      modifies this
      ensures bytes == old(bytes) + Encode(record, [])
    {
      var left := record;
      while !left.End?
        invariant bytes + Encode(left, []) == old(bytes) + Encode(record, [])
        decreases left
      {
        FieldIsWritten(bytes, left);
        if left.Two? {
          WriteAll(Put(2, left.low, []));
        } else {
          WriteAll(Put(4, left.value, []));
        }
        left := left.rest;
      }
    }

    /** `append_stored_file`: the next offset and the directory entry. */
    method AppendStoredFile(source: Source, offset: nat) returns (result: Result<(nat, Central), Error>)
      requires offset <= U32_MAX
      modifies this
      ensures Stored(source).Err? ==> result == Err(Stored(source).error)
      ensures Stored(source).Ok? ==>
                var item := Stored(source).value;
                var next := offset + Span(item);
                && bytes == old(bytes) + LocalRecord(item)
                && result == if next <= U32_MAX then Ok((next, Entry(item, offset))) else Err(Over4GiB)
    {
      var summary := Crc32.ChecksumAndSize(source.first);
      if summary.Err? {
        return Err(TooLarge);
      }
      var crc, size := Crc32.Value(summary.value.0), summary.value.1;
      var encoded := EncodeName(source.path);
      if encoded.Err? {
        return Err(encoded.error);
      }
      var name := encoded.value;
      if |name| > U16_MAX {
        return Err(NameTooLong);
      }
      WriteRecord(LocalHeader(crc, size, |name|));
      WriteAll(name);
      WriteAll(source.second);
      LocalBytes(old(bytes), crc, size, name, source.second);
      if |source.second| != size {
        return Err(Changed);
      }
      if offset + 30 + |name| + size > U32_MAX {
        return Err(Over4GiB);
      }
      return Ok((offset + 30 + |name| + size, Central(crc, name, offset, size)));
    }

    method WriteCentrals(directory: seq<Central>)
      modifies this
      ensures bytes == old(bytes) + Centrals(directory)
    {
      for i := 0 to |directory|
        invariant bytes == old(bytes) + Centrals(directory[..i])
      {
        ghost var before := bytes;
        Blocks.JoinAt(CentralRecord, directory, i);
        WriteRecord(CentralHeader(directory[i]));
        WriteAll(directory[i].name);
        CentralBytes(before, directory[i]);
      }
      Blocks.JoinAll(CentralRecord, directory);
    }

    /** One turn of the loop: a file is appended, or the whole archive fails as it does. */
    method WriteEntry(source: Source, ghost attempts: seq<Result<Item, Error>>, ghost i: nat, ghost done: seq<Item>,
                      offset: nat, directory: seq<Central>)
      returns (result: Result<(nat, seq<Central>), Error>)
      requires i < |attempts| && attempts[i] == Stored(source) && Written(attempts, i, done, bytes, offset, directory)
      modifies this
      ensures result.Err? ==> Collect(attempts, 0) == Err(result.error)
      ensures result.Ok? ==>
                && attempts[i].Ok?
                && Written(attempts, i + 1, done + [attempts[i].value], bytes, result.value.0, result.value.1)
    {
      FailureIsFirst(attempts, i, done, bytes, offset, directory);
      ghost var before := bytes;
      var appended := AppendStoredFile(source, offset);
      if appended.Err? {
        return Err(appended.error);
      }
      OneWritten(attempts, i, done, before, offset, directory);
      return Ok((appended.value.0, directory + [appended.value.1]));
    }

    method WriteEntries(sources: seq<Source>) returns (result: Result<(nat, seq<Central>), Error>)
      requires bytes == []
      modifies this
      ensures var collected := Collect(Attempts(sources), 0);
              && (collected.Err? ==> result == Err(collected.error))
              && (collected.Ok? ==>
                    && bytes == Locals(collected.value)
                    && result == Ok((|bytes|, Directory(collected.value, 0))))
    {
      var directory: seq<Central> := [];
      var offset := 0;
      ghost var attempts, done: seq<Item> := Attempts(sources), [];
      NothingWritten(attempts);
      for i := 0 to |sources|
        invariant Written(attempts, i, done, bytes, offset, directory)
      {
        var entry := WriteEntry(sources[i], attempts, i, done, offset, directory);
        if entry.Err? {
          return entry;
        }
        offset, directory := entry.value.0, entry.value.1;
        done := done + [attempts[i].value];
      }
      AllWritten(attempts, done, bytes, offset, directory);
      return Ok((offset, directory));
    }

    /** `write_zip` on a fresh file. */
    method Finish(sources: seq<Source>) returns (result: Result<(), Error>)
      requires bytes == []
      modifies this
      ensures WriteZip(sources).Err? ==> result == Err(WriteZip(sources).error)
      ensures WriteZip(sources).Ok? ==> result == Ok(()) && bytes == WriteZip(sources).value
    {
      var entries := WriteEntries(sources);
      if entries.Err? {
        return Err(entries.error);
      }
      result := FinishDirectory(entries.value.1, entries.value.0);
    }

    method FinishDirectory(directory: seq<Central>, start: nat) returns (result: Result<(), Error>)
      modifies this
      ensures var size := |Centrals(directory)|;
              && (size > U32_MAX ==> result == Err(Over4GiB))
              && (size <= U32_MAX && |directory| > U16_MAX ==> result == Err(TooManyFiles))
              && (size <= U32_MAX && |directory| <= U16_MAX ==>
                    && result == Ok(())
                    && bytes == old(bytes) + Centrals(directory) + Encode(EndRecord(|directory|, size, start), []))
    {
      WriteCentrals(directory);
      var directorySize := DirectorySize(directory);
      if directorySize.None? {
        return Err(Over4GiB);
      }
      if |directory| > U16_MAX {
        return Err(TooManyFiles);
      }
      WriteRecord(EndRecord(|directory|, directorySize.value, start));
      return Ok(());
    }
  }

  /** `offset_after_directory`: exactly the number of directory bytes written. */
  method DirectorySize(directory: seq<Central>) returns (size: Option<nat>)
    ensures var written := |Centrals(directory)|; size == if written <= U32_MAX then Some(written) else None
  {
    var total := 0;
    for i := 0 to |directory|
      invariant total == |Centrals(directory[..i])| <= U32_MAX
    {
      Blocks.JoinAt(CentralRecord, directory, i);
      total := total + 46 + |directory[i].name|;
      if total > U32_MAX {
        Blocks.JoinGrows(CentralRecord, directory, i + 1);
        return None;
      }
    }
    Blocks.JoinAll(CentralRecord, directory);
    return Some(total);
  }
}
