/** Names as a reader shows them. The general purpose flags say how to read a
    name's octets: bit 11 means UTF-8, and without it they are a single-byte code
    page (ZIP application note, section 4.4.4 and appendix D). */
module ZipText {
  import opened Base
  import Blocks
  import opened Utf8
  import opened ZipNames
  import Z = Zip

  const UTF8_NAMES: nat := 2048

  /** A code page gives each octet one character, and ASCII octets their own. */
  ghost predicate CodePage(page: Byte -> nat) {
    forall b: Byte :: b < 0x80 ==> page(b) == b as nat
  }

  function Paged(page: Byte -> nat, octets: Bytes): seq<nat> {
    seq(|octets|, i requires 0 <= i < |octets| => page(octets[i]))
  }

  function NameText(flags: nat, page: Byte -> nat, octets: Bytes): Option<seq<nat>> {
    if flags / UTF8_NAMES % 2 == 0 then Some(Paged(page, octets))
    else if Text(octets) then Some(CodePoints(octets))
    else None
  }

  /** The flags of the entry at the front of the directory. */
  function EntryFlags(directory: Bytes): Option<nat> {
    match Z.Parse(Z.CENTRAL, directory)
    case Some((Four(_, Two(_, Two(_, Two(flags, _)))), _)) => Some(flags)
    case _ => None
  }

  /** The name of the entry at the front of the directory as text, and the rest. */
  function EntryText(page: Byte -> nat, directory: Bytes): Option<(Option<seq<nat>>, Bytes)> {
    match (Z.ReadEntry(directory), EntryFlags(directory))
    case (Some((entry, rest)), Some(flags)) => Some((NameText(flags, page, entry.name), rest))
    case _ => None
  }

  /** So many records, one after another. */
  function ReadRecords<T>(read: Bytes -> Option<(T, Bytes)>, bytes: Bytes, count: nat): Option<seq<T>>
    decreases count
  {
    if count == 0 then Some([])
    else
      match read(bytes)
      case None => None
      case Some((value, rest)) =>
        match ReadRecords(read, rest, count - 1)
        case None => None
        case Some(values) => Some([value] + values)
  }

  /** The names of an archive, as such a reader lists them. */
  function ListNames(page: Byte -> nat, archive: Bytes): Option<seq<Option<seq<nat>>>> {
    match Z.FindEnd(archive, |archive|)
    case None => None
    case Some(Tail(at, here, count, size, start)) =>
      if here != count || start + size != at then None
      else ReadRecords(directory => EntryText(page, directory), archive[start..at], count)
  }

  /** No written entry sets the bit. */
  lemma FlagsAreRead(entry: Z.Central, after: Bytes)
    requires Z.EntryFits(entry)
    ensures EntryFlags(Z.CentralRecord(entry) + after) == Some(0)
  {
    Z.CentralHeaderFits(entry);
    Z.ParseRoundTrip(Z.CENTRAL, Z.CentralHeader(entry), entry.name + after);
    Z.EncodeThen(Z.CentralHeader(entry), entry.name, after);
  }

  lemma EntryIsShown(page: Byte -> nat, entry: Z.Central, after: Bytes)
    requires Z.EntryFits(entry)
    ensures EntryText(page, Z.CentralRecord(entry) + after) == Some((Some(Paged(page, entry.name)), after))
  {
    Z.EntryIsRead(entry, after);
    FlagsAreRead(entry, after);
    TextIs(page, Z.CentralRecord(entry) + after, entry, after);
  }

  lemma TextIs(page: Byte -> nat, directory: Bytes, entry: Z.Central, after: Bytes)
    requires Z.ReadEntry(directory) == Some((entry, after)) && EntryFlags(directory) == Some(0)
    ensures EntryText(page, directory) == Some((Some(Paged(page, entry.name)), after))
  {
  }

  function Map<E, T>(value: E -> T, entries: seq<E>): (values: seq<T>)
    ensures |values| == |entries|
  {
    seq(|entries|, k requires 0 <= k < |entries| => value(entries[k]))
  }

  lemma {:induction false} RecordsAreRead<E, T>(read: Bytes -> Option<(T, Bytes)>, record: E -> Bytes, value: E -> T, entries: seq<E>)
    requires forall k, after :: 0 <= k < |entries| ==> read(record(entries[k]) + after) == Some((value(entries[k]), after))
    ensures ReadRecords(read, Blocks.Join(record, entries), |entries|) == Some(Map(value, entries))
    decreases |entries|
  {
    if entries == [] {
      assert Map(value, entries) == [];
    } else {
      RecordsAreRead(read, record, value, entries[1..]);
      assert read(record(entries[0]) + Blocks.Join(record, entries[1..])) == Some((value(entries[0]), Blocks.Join(record, entries[1..])));
      assert Map(value, entries) == [value(entries[0])] + Map(value, entries[1..]);
    }
  }

  function PagedNames(page: Byte -> nat, entries: seq<Z.Central>): (texts: seq<Option<seq<nat>>>)
    ensures |texts| == |entries|
  {
    Map((entry: Z.Central) => Some(Paged(page, entry.name)), entries)
  }

  lemma TextsAreRead(page: Byte -> nat, entries: seq<Z.Central>)
    requires forall k :: 0 <= k < |entries| ==> Z.EntryFits(entries[k])
    ensures ReadRecords(directory => EntryText(page, directory), Z.Centrals(entries), |entries|) == Some(PagedNames(page, entries))
  {
    forall k, after | 0 <= k < |entries|
      ensures EntryText(page, Z.CentralRecord(entries[k]) + after) == Some((Some(Paged(page, entries[k].name)), after))
    {
      EntryIsShown(page, entries[k], after);
    }
    RecordsAreRead(directory => EntryText(page, directory), Z.CentralRecord,
                   (entry: Z.Central) => Some(Paged(page, entry.name)), entries);
  }

  lemma ArchiveNamesAreListed(page: Byte -> nat, items: seq<Z.Item>)
    requires Z.ItemsFit(items)
    ensures ListNames(page, Z.Archive(items)) == Some(PagedNames(page, Z.Directory(items, 0)))
  {
    var locals, directory := Z.Locals(items), Z.Centrals(Z.Directory(items, 0));
    Z.EndIsRead(locals + directory, |items|, |directory|, |locals|);
    assert Z.Archive(items)[|locals|..|locals + directory|] == directory;
    forall k | 0 <= k < |items|
      ensures Z.EntryFits(Z.Directory(items, 0)[k])
    {
      Z.EntryIsLocated(items, [], k);
    }
    TextsAreRead(page, Z.Directory(items, 0));
  }

  /** One character per octet is the text exactly where it is ASCII. */
  lemma PagedIsTextExactly(page: Byte -> nat, octets: Bytes)
    requires CodePage(page) && Text(octets)
    ensures Paged(page, octets) == CodePoints(octets) <==> Ascii(octets)
  {
    CharactersAreFewer(octets);
    if Ascii(octets) {
      AsciiIsText(octets);
      assert Paged(page, octets) == Values(octets);
    }
  }

  /** Every archive the writer finishes lists each file, and shows the name recorded
      for it as text if and only if its whole path is ASCII. */
  lemma NamesAreTextExactly(page: Byte -> nat, sources: seq<Z.Source>, k: nat)
    requires CodePage(page) && Z.WriteZip(sources).Ok? && k < |sources|
    ensures ZipName(sources[k].path).Ok? && Text(ZipName(sources[k].path).value)
    ensures var names := ListNames(page, Z.WriteZip(sources).value);
            && names.Some? && |names.value| == |sources|
            && (names.value[k] == Some(CodePoints(ZipName(sources[k].path).value)) <==> AllAscii(sources[k].path))
  {
    Z.WriteSucceeds(sources);
    var items := Z.StoredItems(sources);
    forall i | 0 <= i < |items|
      ensures Z.ItemFits(items[i])
    {
      Z.ItemIsStored(sources, i);
    }
    ArchiveNamesAreListed(page, items);
    Z.ItemIsStored(sources, k);
    Z.OffsetIs(items, k);
    JoinedIsText([], sources[k].path);
    PagedIsTextExactly(page, items[k].name);
  }

  /** One empty file under any short name that is text but not ASCII: the archive is
      finished, and its one name is listed as something else. */
  lemma OtherNamesAreGarbled(page: Byte -> nat, part: Bytes)
    requires CodePage(page) && Text(part) && !Ascii(part) && |part| <= 255
    ensures var sources := [Z.Source([Normal(part)], [], [])];
            && Z.WriteZip(sources).Ok? && ZipName(sources[0].path) == Ok(part)
            && var names := ListNames(page, Z.WriteZip(sources).value);
               names.Some? && |names.value| == 1 && names.value[0] != Some(CodePoints(part))
  {
    var source := Z.Source([Normal(part)], [], []);
    OneNameIsKept(part);
    SmallArchiveIsWritten(source, part);
    NamesAreTextExactly(page, [source], 0);
    assert !AllAscii(source.path) by {
      assert source.path[0].part == part;
    }
  }

  lemma OneNameIsKept(part: Bytes)
    requires Text(part) && part != []
    ensures ZipName([Normal(part)]) == Ok(part)
  {
    LossyKeepsExactly(part);
    var path := [Normal(part)];
    assert path[1..] == [];
    assert JoinOnto([], path) == JoinOnto(Extend([], Lossy(part)), path[1..]);
    assert JoinOnto(part, []) == Ok(part);
  }

  /** Such a name: U+00E9, one letter in two octets. */
  lemma AccentIsSuchAName(accent: Bytes)
    requires accent == [0xC3, 0xA9]
    ensures Text(accent) && !Ascii(accent) && CodePoints(accent) == [0xE9]
  {
    assert Scan(accent) == (2, true) && accent[2..] == [] && accent[0] >= 0x80;
    assert accent[0] & 0x1F == 0x03 && accent[1] & 0x3F == 0x29;
    Blocks.ByteRoundTrip(0x03);
    Blocks.ByteRoundTrip(0x29);
    assert CodePoint(accent) == 0xE9;
  }

  /** A folder of one empty file with a short name is archived. */
  lemma SmallArchiveIsWritten(source: Z.Source, name: Bytes)
    requires source.first == [] && source.second == [] && ZipName(source.path) == Ok(name) && |name| <= 255
    ensures Z.WriteZip([source]).Ok?
  {
    var item := Z.Item(name, Z.CrcOf([]), []);
    assert Blocks.Concat([]) == [];
    assert Z.Stored(source) == Ok(item);
    assert Z.Attempts([source]) == [Ok(item)];
    assert Z.StoredItems([source]) == [item];
    Blocks.JoinOne(Z.LocalRecord, item);
    assert [item][1..] == [];
    assert Z.Directory([item], 0) == [Z.Entry(item, 0)];
    Blocks.JoinOne(Z.CentralRecord, Z.Entry(item, 0));
    Z.WriteSucceeds([source]);
  }
}
