/** Exactly which file and text introductions become offers, and which offers. */
module OfferLaws {
  import opened Base
  import opened Offers

  /** A name that stays below the receive directory. */
  predicate OneComponent(name: string) {
    && |name| > 0 && (forall i :: 0 <= i < |name| ==> name[i] != '/' && name[i] != '\\')
    && !(|name| == 1 && name[0] == '.') && !(|name| == 2 && name[0] == '.' && name[1] == '.')
  }

  lemma SafeNameIs(name: string)
    ensures SafeName(name) <==> OneComponent(name)
  {
  }

  lemma FileAccepted(file: FileMetadata)
    ensures DecodeFile(file).Ok? <==>
            && file.name.Some? && file.size.Some? && file.payloadId.Some?
            && file.size.value >= 0 && file.payloadId.value != 0 && OneComponent(file.name.value)
    ensures DecodeFile(file).Ok? ==>
              && DecodeFile(file).value.kind == (if file.kind == Some(3) then AndroidApp else File)
              && DecodeFile(file).value.files == [IncomingFile(file.name.value, file.size.value, file.payloadId.value)]
              && DecodeFile(file).value.size == file.size.value && DecodeFile(file).value.packageName == None
  {
    if file.name.Some? {
      SafeNameIs(file.name.value);
    }
  }

  /** A text is a title, at most a mebibyte and one of two types. */
  lemma TextAccepted(text: TextMetadata)
    ensures DecodeText(text).Ok? <==>
            && text.title.Some? && text.title.value != "" && text.payloadId.Some? && text.payloadId.value != 0
            && text.size.Some? && 0 <= text.size.value <= 1_048_576 && text.kind in {Some(1), Some(2)}
    ensures DecodeText(text).Ok? ==>
              && DecodeText(text).value.kind == (if text.kind == Some(1) then Text else Url)
              && DecodeText(text).value.files == [IncomingFile(text.title.value, text.size.value, text.payloadId.value)]
              && DecodeText(text).value.size == text.size.value && DecodeText(text).value.packageName == None
  {
  }

  /** There is one size for each part exactly when each part has a name and either a
      listed size or, if it is the only one and none is listed, the whole size. */
  lemma PartsAlign(app: AppMetadata)
    ensures PartSizes(app).Ok? <==>
            && |app.fileNames| == |app.payloadIds| > 0
            && (|app.fileSizes| == |app.payloadIds| || (app.fileSizes == [] && |app.payloadIds| == 1 && app.size.Some?))
    ensures PartSizes(app).Ok? ==>
              PartSizes(app).value == (if app.fileSizes != [] then app.fileSizes else [app.size.value])
  {
  }

  /** The parts of an accepted application are the listed ones in order, and an empty
      package name is none. */
  lemma AppOfferIs(app: AppMetadata)
    requires DecodeApp(app).Ok?
    ensures var offer := DecodeApp(app).value;
            && offer.kind == AndroidApp && |offer.files| == |app.payloadIds| == |app.fileNames| > 0
            && (forall k :: 0 <= k < |offer.files| ==>
                  && offer.files[k].payloadId == app.payloadIds[k] && offer.files[k].name == app.fileNames[k]
                  && OneComponent(offer.files[k].name)
                  && (app.fileSizes != [] ==> k < |app.fileSizes| && offer.files[k].size == app.fileSizes[k]))
            && offer.packageName == (if app.packageName.Some? && app.packageName.value != "" then app.packageName else None)
            && 0 <= offer.size < 0x8000_0000_0000_0000
  {
    AppAccepted(app);
    var sizes := PartSizes(app).value;
    SumIsNonNegative(sizes);
    forall k | 0 <= k < |sizes|
      ensures OneComponent(app.fileNames[k])
    {
      SafeNameIs(app.fileNames[k]);
    }
  }
}
