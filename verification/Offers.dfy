/** Validating a peer's introduction, and the progress its payloads report. */
module Offers {
  import opened Base
  import S = Sharing

  datatype Kind = File | AndroidApp | Text | Url

  datatype Fault =
    | MissingFields | NegativeSize | ZeroPayloadId | UnsafeName | Misaligned | DuplicateId
    | TotalOverflow | SizeMismatch | EmptyTitle | InvalidTextSize | UnsupportedTextType

  datatype FileMetadata = FileMetadata(name: Option<string>, size: Option<int>, payloadId: Option<int>, kind: Option<int>)
  datatype TextMetadata = TextMetadata(title: Option<string>, size: Option<int>, payloadId: Option<int>, kind: Option<int>)
  datatype AppMetadata = AppMetadata(size: Option<int>, payloadIds: seq<int>, fileNames: seq<string>,
                                     fileSizes: seq<int>, packageName: Option<string>)

  datatype IncomingFile = IncomingFile(name: string, size: int, payloadId: int)

  datatype Offer = Offer(kind: Kind, files: seq<IncomingFile>, packageName: Option<string>, size: int)

  const ANDROID_APP: int := 3
  const TEXT: int := 1
  const URL: int := 2
  const MAX_TEXT_BYTES: int := 1024 * 1024

  predicate SafeName(name: string) {
    name != "" && '/' !in name && '\\' !in name && name != "." && name != ".."
  }

  function DecodeFile(file: FileMetadata): Result<Offer, Fault> {
    if file.name.None? || file.size.None? || file.payloadId.None? then Err(MissingFields)
    else if file.size.value < 0 then Err(NegativeSize)
    else if file.payloadId.value == 0 then Err(ZeroPayloadId)
    else if !SafeName(file.name.value) then Err(UnsafeName)
    else
      Ok(Offer(if file.kind == Some(ANDROID_APP) then AndroidApp else File,
               [IncomingFile(file.name.value, file.size.value, file.payloadId.value)], None, file.size.value))
  }

  function DecodeText(text: TextMetadata): Result<Offer, Fault> {
    if text.title.None? || text.size.None? || text.payloadId.None? || text.kind.None? then Err(MissingFields)
    else if text.title.value == "" then Err(EmptyTitle)
    else if !(0 <= text.size.value <= MAX_TEXT_BYTES) then Err(InvalidTextSize)
    else if text.payloadId.value == 0 then Err(ZeroPayloadId)
    else if text.kind.value != TEXT && text.kind.value != URL then Err(UnsupportedTextType)
    else
      Ok(Offer(if text.kind.value == TEXT then Text else Url,
               [IncomingFile(text.title.value, text.size.value, text.payloadId.value)], None, text.size.value))
  }

  // ------------------------------------------------------------------
  // Applications
  // ------------------------------------------------------------------

  /** One size per payload: the listed ones, or the whole size of a lone payload. */
  function PartSizes(app: AppMetadata): Result<seq<int>, Fault> {
    var count := |app.payloadIds|;
    if count == 0 || |app.fileNames| != count then Err(Misaligned)
    else if |app.fileSizes| == 0 && count == 1 then (if app.size.None? then Err(MissingFields) else Ok([app.size.value]))
    else if |app.fileSizes| == count then Ok(app.fileSizes)
    else Err(Misaligned)
  }

  /** What is wrong with one part, given the total of those before it. */
  function PartFault(app: AppMetadata, sizes: seq<int>, k: nat, total: int): Option<Fault>
    requires |sizes| == |app.payloadIds| == |app.fileNames| && k < |sizes|
  {
    if app.payloadIds[k] in app.payloadIds[..k] then Some(DuplicateId)
    else if sizes[k] < 0 then Some(NegativeSize)
    else if app.payloadIds[k] == 0 then Some(ZeroPayloadId)
    else if !SafeName(app.fileNames[k]) then Some(UnsafeName)
    else if total + sizes[k] > I64_MAX then Some(TotalOverflow)
    else None
  }

  /** The first fault from part `k` on, or the final total. */
  function Total(app: AppMetadata, sizes: seq<int>, k: nat, total: int): Result<int, Fault>
    requires |sizes| == |app.payloadIds| == |app.fileNames| && k <= |sizes|
    decreases |sizes| - k
  {
    if k == |sizes| then Ok(total)
    else
      match PartFault(app, sizes, k, total)
      case Some(fault) => Err(fault)
      case None => Total(app, sizes, k + 1, total + sizes[k])
  }

  function Files(app: AppMetadata, sizes: seq<int>): (files: seq<IncomingFile>)
    requires |sizes| == |app.payloadIds| == |app.fileNames|
    ensures |files| == |sizes|
  {
    seq(|sizes|, k requires 0 <= k < |sizes| => IncomingFile(app.fileNames[k], sizes[k], app.payloadIds[k]))
  }

  function PackageName(app: AppMetadata): Option<string> {
    if app.packageName == Some("") then None else app.packageName
  }

  function DecodeApp(app: AppMetadata): Result<Offer, Fault> {
    match PartSizes(app)
    case Err(fault) => Err(fault)
    case Ok(sizes) =>
      match Total(app, sizes, 0, 0)
      case Err(fault) => Err(fault)
      case Ok(total) =>
        if app.size.Some? && app.size.value != total then Err(SizeMismatch)
        else Ok(Offer(AndroidApp, Files(app, sizes), PackageName(app), total))
  }

  method ReadApp(app: AppMetadata) returns (result: Result<Offer, Fault>)
    ensures result == DecodeApp(app)
  {
    var count := |app.payloadIds|;
    if count == 0 || |app.fileNames| != count {
      return Err(Misaligned);
    }
    var sizes: seq<int>;
    if |app.fileSizes| == 0 && count == 1 {
      if app.size.None? {
        return Err(MissingFields);
      }
      sizes := [app.size.value];
    } else if |app.fileSizes| == count {
      sizes := app.fileSizes;
    } else {
      return Err(Misaligned);
    }
    var files: seq<IncomingFile> := [];
    var total := 0;
    for index := 0 to count
      invariant Total(app, sizes, 0, 0) == Total(app, sizes, index, total)
      invariant files == Files(app, sizes)[..index]
    {
      var payloadId := app.payloadIds[index];
      if payloadId in app.payloadIds[..index] {
        return Err(DuplicateId);
      }
      if sizes[index] < 0 {
        return Err(NegativeSize);
      }
      if payloadId == 0 {
        return Err(ZeroPayloadId);
      }
      if !SafeName(app.fileNames[index]) {
        return Err(UnsafeName);
      }
      if total + sizes[index] > I64_MAX {
        return Err(TotalOverflow);
      }
      total := total + sizes[index];
      files := files + [IncomingFile(app.fileNames[index], sizes[index], payloadId)];
    }
    if app.size.Some? && app.size.value != total {
      return Err(SizeMismatch);
    }
    assert files == Files(app, sizes);
    if app.packageName.Some? && app.packageName.value != "" {
      return Ok(Offer(AndroidApp, files, app.packageName, total));
    }
    return Ok(Offer(AndroidApp, files, None, total));
  }

  function Sum(sizes: seq<int>): int
    decreases |sizes|
  {
    if sizes == [] then 0 else sizes[0] + Sum(sizes[1..])
  }

  lemma {:induction false} SumSplits(front: seq<int>, back: seq<int>)
    ensures Sum(front + back) == Sum(front) + Sum(back)
    decreases |front|
  {
    if front == [] {
      assert front + back == back;
    } else {
      assert (front + back)[1..] == front[1..] + back;
      SumSplits(front[1..], back);
    }
  }

  lemma SumTo(sizes: seq<int>, k: nat)
    requires k < |sizes|
    ensures Sum(sizes[..k + 1]) == Sum(sizes[..k]) + sizes[k]
  {
    assert sizes[..k + 1] == sizes[..k] + [sizes[k]];
    SumSplits(sizes[..k], [sizes[k]]);
    assert [sizes[k]][1..] == [];
  }

  lemma {:induction false} SumIsNonNegative(sizes: seq<int>)
    requires forall k :: 0 <= k < |sizes| ==> sizes[k] >= 0
    ensures Sum(sizes) >= 0
    decreases |sizes|
  {
    if sizes != [] {
      SumIsNonNegative(sizes[1..]);
    }
  }

  lemma SumGrows(sizes: seq<int>, k: nat)
    requires k <= |sizes| && forall i :: 0 <= i < |sizes| ==> sizes[i] >= 0
    ensures 0 <= Sum(sizes[..k]) <= Sum(sizes)
  {
    assert sizes == sizes[..k] + sizes[k..];
    SumSplits(sizes[..k], sizes[k..]);
    SumIsNonNegative(sizes[..k]);
    SumIsNonNegative(sizes[k..]);
  }

  predicate Distinct(ids: seq<int>) {
    forall i, j :: 0 <= i < j < |ids| ==> ids[i] != ids[j]
  }

  /** Every part is sound by itself. */
  predicate PartsSound(app: AppMetadata, sizes: seq<int>)
    requires |sizes| == |app.payloadIds| == |app.fileNames|
  {
    forall k :: 0 <= k < |sizes| ==> sizes[k] >= 0 && app.payloadIds[k] != 0 && SafeName(app.fileNames[k])
  }

  predicate SoundFrom(app: AppMetadata, sizes: seq<int>, k: nat)
    requires |sizes| == |app.payloadIds| == |app.fileNames|
  {
    forall i :: k <= i < |sizes| ==>
      && app.payloadIds[i] !in app.payloadIds[..i]
      && sizes[i] >= 0 && app.payloadIds[i] != 0 && SafeName(app.fileNames[i])
  }

  lemma {:induction false} TotalIs(app: AppMetadata, sizes: seq<int>, k: nat)
    requires |sizes| == |app.payloadIds| == |app.fileNames| && k <= |sizes|
    ensures Total(app, sizes, k, Sum(sizes[..k])) == Ok(Sum(sizes)) ||
            Total(app, sizes, k, Sum(sizes[..k])).Err?
    ensures Total(app, sizes, k, Sum(sizes[..k])).Ok? <==>
            SoundFrom(app, sizes, k) && (k < |sizes| ==> Sum(sizes) <= I64_MAX)
    decreases |sizes| - k
  {
    if k == |sizes| {
      assert sizes[..k] == sizes;
    } else {
      SumTo(sizes, k);
      TotalIs(app, sizes, k + 1);
      if SoundFrom(app, sizes, k) {
        TailGrows(sizes, k + 1);
        assert SoundFrom(app, sizes, k + 1);
      }
      if k + 1 == |sizes| {
        assert sizes[..k + 1] == sizes;
      }
    }
  }

  lemma TailGrows(sizes: seq<int>, k: nat)
    requires k <= |sizes| && forall i :: k <= i < |sizes| ==> sizes[i] >= 0
    ensures Sum(sizes[..k]) <= Sum(sizes)
  {
    assert sizes == sizes[..k] + sizes[k..];
    SumSplits(sizes[..k], sizes[k..]);
    SumIsNonNegative(sizes[k..]);
  }

  lemma SoundIsDistinct(app: AppMetadata, sizes: seq<int>)
    requires |sizes| == |app.payloadIds| == |app.fileNames|
    ensures SoundFrom(app, sizes, 0) <==> PartsSound(app, sizes) && Distinct(app.payloadIds)
  {
    if SoundFrom(app, sizes, 0) {
      forall i, j | 0 <= i < j < |sizes|
        ensures app.payloadIds[i] != app.payloadIds[j]
      {
        assert app.payloadIds[j] !in app.payloadIds[..j];
        assert app.payloadIds[i] == app.payloadIds[..j][i];
      }
    }
  }

  /** An app introduction is accepted exactly when its lists align, its payload
      identifiers are distinct and nonzero, its names safe, its sizes
      non-negative, and their exact sum fits 64 bits and is the declared size;
      the offer then lists the parts in order with that sum. */
  lemma AppAccepted(app: AppMetadata)
    ensures DecodeApp(app).Ok? <==>
            && PartSizes(app).Ok?
            && var sizes := PartSizes(app).value;
               && PartsSound(app, sizes) && Distinct(app.payloadIds)
               && Sum(sizes) <= 9_223_372_036_854_775_807
               && (app.size.Some? ==> app.size.value == Sum(sizes))
    ensures DecodeApp(app).Ok? ==>
              var sizes, offer := PartSizes(app).value, DecodeApp(app).value;
              offer.size == Sum(sizes) && offer.files == Files(app, sizes)
  {
    if PartSizes(app).Ok? {
      var sizes := PartSizes(app).value;
      assert sizes[..0] == [];
      TotalIs(app, sizes, 0);
      SoundIsDistinct(app, sizes);
    }
  }

  function Sizes(files: seq<IncomingFile>): (sizes: seq<int>)
    ensures |sizes| == |files|
  {
    seq(|files|, k requires 0 <= k < |files| => files[k].size)
  }

  /** What any accepted offer keeps, whatever its kind. */
  predicate OfferSound(offer: Offer) {
    && offer.files != []
    && (forall k :: 0 <= k < |offer.files| ==> offer.files[k].size >= 0 && offer.files[k].payloadId != 0)
    && (forall i, j :: 0 <= i < j < |offer.files| ==> offer.files[i].payloadId != offer.files[j].payloadId)
    && offer.size == Sum(Sizes(offer.files))
  }

  datatype Introduction = OneFile(file: FileMetadata) | OneText(text: TextMetadata) | OneApp(app: AppMetadata)

  function Decode(introduction: Introduction): Result<Offer, Fault> {
    match introduction
    case OneFile(file) => DecodeFile(file)
    case OneText(text) => DecodeText(text)
    case OneApp(app) => DecodeApp(app)
  }

  /** The protobuf field types bound every size. */
  predicate Wire(introduction: Introduction) {
    match introduction
    case OneFile(file) => file.size.Some? ==> file.size.value <= I64_MAX
    case OneText(text) => text.size.Some? ==> text.size.value <= I64_MAX
    case OneApp(_) => true
  }

  lemma SumOfOne(size: int)
    ensures Sum([size]) == size
  {
    assert [size][1..] == [];
  }

  lemma AcceptedOffersAreSound(introduction: Introduction)
    requires Decode(introduction).Ok? && Wire(introduction)
    ensures OfferSound(Decode(introduction).value) && Decode(introduction).value.size <= I64_MAX
  {
    var offer := Decode(introduction).value;
    match introduction {
      case OneApp(app) =>
        AppAccepted(app);
        assert Sizes(offer.files) == PartSizes(app).value;
      case _ =>
        assert Sizes(offer.files) == [offer.size];
        SumOfOne(offer.size);
    }
  }

  // ------------------------------------------------------------------
  // Receiving the payloads
  // ------------------------------------------------------------------

  function SaturatingAddU64(a: nat, b: nat): nat {
    if a + b <= U64_MAX then a + b else U64_MAX
  }

  /** The progress each part reports while it arrives: it never goes back and
      never passes the part's size. */
  predicate ReportsSound(size: int, reports: seq<nat>) {
    && (forall i :: 0 <= i < |reports| ==> reports[i] <= size)
    && (forall i, j :: 0 <= i < j < |reports| ==> reports[i] <= reports[j])
  }

  predicate Ascending(values: seq<nat>) {
    forall i, j :: 0 <= i < j < |values| ==> values[i] <= values[j]
  }

  /** The file branch of `receive_payload`: the overall progress emitted while
      each part arrives, and the count finally reported. */
  method ReceiveFiles(offer: Offer, staged: nat, reports: seq<seq<nat>>) returns (emitted: seq<nat>, received: Option<nat>)
    requires |reports| == |offer.files|
    requires OfferSound(offer) && offer.size <= I64_MAX
    requires forall k :: 0 <= k < |reports| ==> ReportsSound(offer.files[k].size, reports[k])
    ensures staged != |offer.files| ==> received.None? && emitted == []
    ensures staged == |offer.files| ==> received == Some(offer.size) && emitted == Emissions(offer, reports)
  {
    emitted := [];
    if staged != |offer.files| {
      return [], None;
    }
    var total := 0;
    ghost var sizes := Sizes(offer.files);
    for index := 0 to staged
      invariant total == Sum(sizes[..index])
      invariant emitted == EmissionsTo(offer, reports, index)
    {
      var prior := total;
      SumTo(sizes, index);
      SumGrows(sizes, index);
      SumGrows(sizes, index + 1);
      var part: seq<nat> := [];
      for i := 0 to |reports[index]|
        invariant part == Shifted(prior, reports[index])[..i]
      {
        part := part + [SaturatingAddU64(prior, reports[index][i])];
      }
      assert Shifted(prior, reports[index])[..|reports[index]|] == Shifted(prior, reports[index]);
      emitted := emitted + part;
      total := SaturatingAddU64(prior, offer.files[index].size);
    }
    assert sizes[..staged] == sizes;
    received := Some(total);
  }

  /** Exact sums: nothing saturates. */
  function Shifted(prior: nat, reports: seq<nat>): (shifted: seq<nat>)
    ensures |shifted| == |reports|
  {
    seq(|reports|, i requires 0 <= i < |reports| => prior + reports[i])
  }

  /** Progress during the first `k` parts, counted exactly from their sizes. */
  function EmissionsTo(offer: Offer, reports: seq<seq<nat>>, k: nat): seq<nat>
    requires |reports| == |offer.files| && k <= |reports| && OfferSound(offer)
    decreases k
  {
    if k == 0 then []
    else
      SumGrows(Sizes(offer.files), k - 1);
      EmissionsTo(offer, reports, k - 1) + Shifted(Sum(Sizes(offer.files)[..k - 1]), reports[k - 1])
  }

  function Emissions(offer: Offer, reports: seq<seq<nat>>): seq<nat>
    requires |reports| == |offer.files| && OfferSound(offer)
  {
    EmissionsTo(offer, reports, |reports|)
  }

  lemma {:induction false} EmissionsAscend(offer: Offer, reports: seq<seq<nat>>, k: nat)
    requires |reports| == |offer.files| && k <= |reports| && OfferSound(offer)
    requires forall i :: 0 <= i < |reports| ==> ReportsSound(offer.files[i].size, reports[i])
    ensures var emitted := EmissionsTo(offer, reports, k);
            Ascending(emitted) && forall i :: 0 <= i < |emitted| ==> emitted[i] <= Sum(Sizes(offer.files)[..k])
    decreases k
  {
    if k > 0 {
      var sizes := Sizes(offer.files);
      SumGrows(sizes, k - 1);
      SumTo(sizes, k - 1);
      EmissionsAscend(offer, reports, k - 1);
      var front, back := EmissionsTo(offer, reports, k - 1), Shifted(Sum(sizes[..k - 1]), reports[k - 1]);
      assert ReportsSound(sizes[k - 1], reports[k - 1]);
      AscendingJoin(front, back, Sum(sizes[..k - 1]));
    }
  }

  lemma AscendingJoin(front: seq<nat>, back: seq<nat>, between: int)
    requires Ascending(front) && Ascending(back)
    requires forall i :: 0 <= i < |front| ==> front[i] <= between
    requires forall i :: 0 <= i < |back| ==> between <= back[i]
    ensures Ascending(front + back)
  {
  }

  /** Over every accepted file or app offer, overall progress never goes back,
      never exceeds the offered size, and the reported count is that size. */
  lemma ProgressIsExact(introduction: Introduction, reports: seq<seq<nat>>)
    requires Decode(introduction).Ok? && Wire(introduction)
    requires var offer := Decode(introduction).value;
             |reports| == |offer.files| && forall k :: 0 <= k < |reports| ==> ReportsSound(offer.files[k].size, reports[k])
    ensures OfferSound(Decode(introduction).value)
    ensures var offer := Decode(introduction).value;
            && Ascending(Emissions(offer, reports))
            && forall i :: 0 <= i < |Emissions(offer, reports)| ==> Emissions(offer, reports)[i] <= offer.size
  {
    AcceptedOffersAreSound(introduction);
    var offer := Decode(introduction).value;
    EmissionsAscend(offer, reports, |reports|);
    assert Sizes(offer.files)[..|reports|] == Sizes(offer.files);
  }

  // ------------------------------------------------------------------
  // The share that shows it
  // ------------------------------------------------------------------

  function ProgressOps(id: nat, values: seq<nat>): (ops: seq<S.Op>)
    ensures |ops| == |values|
  {
    seq(|values|, i requires 0 <= i < |values| => S.RecordProgress(id, values[i]))
  }

  predicate Receiving(c: S.Coord, id: nat, total: nat) {
    c.Is(id) && c.active.value.phase.Transferring? && c.active.value.total == total
  }

  lemma {:induction false} ProgressIsRecorded(c: S.Coord, id: nat, total: nat, values: seq<nat>)
    requires Receiving(c, id, total) && c.active.value.transferred <= total && Ascending(values)
    requires forall i :: 0 <= i < |values| ==> c.active.value.transferred <= values[i] <= total
    ensures var c' := S.Run(c, ProgressOps(id, values));
            && Receiving(c', id, total)
            && c'.active.value.transferred == (if values == [] then c.active.value.transferred else values[|values| - 1])
    decreases |values|
  {
    if values != [] {
      var ops := ProgressOps(id, values);
      var c1 := S.Apply(c, ops[0]);
      assert ops[1..] == ProgressOps(id, values[1..]);
      assert c1.active.value.transferred == values[0];
      ProgressIsRecorded(c1, id, total, values[1..]);
    }
  }

  lemma {:induction false} RunJoins(c: S.Coord, front: seq<S.Op>, back: seq<S.Op>)
    ensures S.Run(c, front + back) == S.Run(S.Run(c, front), back)
    decreases |front|
  {
    if front == [] {
      assert front + back == back;
    } else {
      assert (front + back)[0] == front[0] && (front + back)[1..] == front[1..] + back;
      RunJoins(S.Apply(c, front[0]), front[1..], back);
    }
  }

  lemma LastStep(c: S.Coord, id: nat, total: nat)
    requires Receiving(c, id, total) && c.active.value.transferred <= total
    ensures var c' := S.Run(c, [S.RecordProgress(id, total), S.Complete(id)]);
            c'.Is(id) && c'.active.value.phase.Completed? && c'.active.value.transferred == total
  {
    var ops := [S.RecordProgress(id, total), S.Complete(id)];
    var c1 := S.Apply(c, ops[0]);
    assert c1.active.value.transferred == total && Receiving(c1, id, total);
    assert ops[1..] == [S.Complete(id)] && ops[1..][1..] == [];
    assert S.Run(c, ops) == S.Run(c1, ops[1..]) == S.Apply(c1, S.Complete(id));
  }

  /** A transferring file share fed the progress of an accepted offer, then its
      final count, completes with every byte counted. */
  lemma ReceivedShareCompletes(c: S.Coord, id: nat, introduction: Introduction, reports: seq<seq<nat>>)
    requires Decode(introduction).Ok? && Wire(introduction)
    requires var offer := Decode(introduction).value;
             && |reports| == |offer.files|
             && (forall k :: 0 <= k < |reports| ==> ReportsSound(offer.files[k].size, reports[k]))
             && offer.size >= 0 && Receiving(c, id, offer.size) && c.active.value.transferred == 0
    ensures OfferSound(Decode(introduction).value)
    ensures var offer := Decode(introduction).value;
            var c' := S.Run(c, ProgressOps(id, Emissions(offer, reports)) + [S.RecordProgress(id, offer.size), S.Complete(id)]);
            c'.Is(id) && c'.active.value.phase.Completed? && c'.active.value.transferred == c'.active.value.total
  {
    var offer := Decode(introduction).value;
    ProgressIsExact(introduction, reports);
    var emitted := Emissions(offer, reports);
    ProgressIsRecorded(c, id, offer.size, emitted);
    RunJoins(c, ProgressOps(id, emitted), [S.RecordProgress(id, offer.size), S.Complete(id)]);
    var c1 := S.Run(c, ProgressOps(id, emitted));
    LastStep(c1, id, offer.size);
    TotalIsKept(c1, id, offer.size);
  }

  lemma TotalIsKept(c: S.Coord, id: nat, total: nat)
    requires Receiving(c, id, total) && c.active.value.transferred <= total
    ensures S.Run(c, [S.RecordProgress(id, total), S.Complete(id)]).active.Some?
    ensures S.Run(c, [S.RecordProgress(id, total), S.Complete(id)]).active.value.total == total
  {
    var ops := [S.RecordProgress(id, total), S.Complete(id)];
    var c1 := S.Apply(c, ops[0]);
    assert ops[1..] == [S.Complete(id)] && ops[1..][1..] == [];
    assert S.Run(c, ops) == S.Run(c1, ops[1..]) == S.Apply(c1, S.Complete(id));
  }

  /** Received text replaces the announced attachment: the share then completes
      exactly when it had not already counted more bytes than arrived. */
  lemma ReceivedTextCompletes(c: S.Coord, id: nat, text: S.Attachment)
    requires c.Is(id) && c.active.value.phase.Transferring?
    ensures var c1 := S.Apply(c, S.ReplaceAttachment(id, text));
            var c2 := S.Apply(c1, S.RecordProgress(id, text.ByteLength()));
            var c3 := S.Apply(c2, S.Complete(id));
            c3.active.Some? && (c3.active.value.phase.Completed? <==> c.active.value.transferred <= text.ByteLength())
  {
  }
}
