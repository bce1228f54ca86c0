/** AppService: the pipeline. Each run loads the ledger, lists the archives
    in the bucket, processes every archive the ledger does not name yet
    (manifest, then each listed document copied under by-po/<PO>/), and
    saves the grown ledger once at the end. An exception that escapes any
    step aborts the run before the save; the model carries it as a Fault.

    The functions below are the specification of the methods of the class
    AppService further down; the lemmas are about the functions. */
module AppService {
  import opened Common
  import opened Metadata
  import opened CsvMap
  import opened AwsS3BlobStorage
  import opened Configs
  import opened ProcessingMetadataManager
  import PS = ProcessingStatus

  /** One entry of an opened archive; `content` is None when opening or
      reading the entry's stream fails. */
  datatype ZipEntry = ZipEntry(fullName: string, content: Option<Bytes>)

  /** The archive and CSV libraries, as opaque functions.
      `openZip`: ZipArchive in read mode, None when the bytes are not an
      archive. `readCsvRecords`: a CsvReader with delimiter '~', trimmed
      fields, a header record and blank lines skipped, handing over each
      record as a header-to-field map; None when the reader throws. */
  datatype ArchiveFormats = ArchiveFormats(
    openZip: Bytes -> Option<seq<ZipEntry>>,
    readCsvRecords: Bytes -> Option<seq<CsvRow>>)

  /** The folder every document is copied under. */
  const PdfFolderRoot: string := "by-po/"

  /** The listing filter of the driver. */
  const ZipSearchPattern: string := "*.zip"

  const CsvExtension: string := ".csv"

  // ---------------------------------------------------------------------
  // The manifest: ParseCsv and GetCsvItems

  /** CsvReader.GetRecords with the class map: None as soon as one record
      lacks a mapped column. */
  function MapRecords(rows: seq<CsvRow>): Option<seq<CsvItem>>
  {
    MapAll(rows, MapRow)
  }

  /** ParseCsv: None when the reader or the class map throws. */
  function ParseCsv(formats: ArchiveFormats, csv: Bytes): (items: Option<seq<CsvItem>>)
    ensures var rows := formats.readCsvRecords(csv);
      items.Some? <==> rows.Some? && forall i :: 0 <= i < |rows.value| ==> MapRow(rows.value[i]).Some?
    ensures items.Some? ==>
      var rows := formats.readCsvRecords(csv).value;
      |items.value| == |rows| && forall i :: 0 <= i < |rows| ==> MapRow(rows[i]) == Some(items.value[i])
  {
    var rows := formats.readCsvRecords(csv);
    if rows.None? then None else MapRecords(rows.value)
  }

  /** The manifest test: the entry's full name ends with ".csv". The
      source's culture-sensitive EndsWith is taken here as an exact,
      case-sensitive comparison of the last four characters. */
  predicate IsCsvEntry(e: ZipEntry)
    ensures IsCsvEntry(e) <==> exists stem: string :: e.fullName == stem + CsvExtension
  {
    var n := e.fullName;
    assert EndsWith(n, CsvExtension) ==> n == n[..|n| - |CsvExtension|] + CsvExtension;
    EndsWith(n, CsvExtension)
  }

  /** The manifest is the first entry that passes the test. */
  predicate IsFirstCsvEntry(entries: seq<ZipEntry>, k: int)
  {
    0 <= k < |entries| && IsCsvEntry(entries[k]) && forall i :: 0 <= i < k ==> !IsCsvEntry(entries[i])
  }

  /** GetCsvItems: Ok(None) when the archive has no manifest; an unreadable
      manifest or a parse failure escapes. */
  function GetCsvItems(formats: ArchiveFormats, entries: seq<ZipEntry>)
    : (r: Result<Option<seq<CsvItem>>, Fault>)
    ensures r.Err? ==> r.error == UnreadableEntry || r.error == CsvParseFault
    ensures r == Ok(None) <==> forall i :: 0 <= i < |entries| ==> !IsCsvEntry(entries[i])
    ensures r == Err(UnreadableEntry) <==> exists k :: IsFirstCsvEntry(entries, k) && entries[k].content.None?
    ensures r == Err(CsvParseFault) <==>
      exists k :: IsFirstCsvEntry(entries, k) && entries[k].content.Some? && ParseCsv(formats, entries[k].content.value).None?
    ensures r.Ok? && r.value.Some? ==>
      exists k :: IsFirstCsvEntry(entries, k) && entries[k].content.Some? && ParseCsv(formats, entries[k].content.value) == r.value
  {
    var k := FindFirst(entries, IsCsvEntry);
    if k.None? then Ok(None)
    else
      assert IsFirstCsvEntry(entries, k.value);
      var csvStream := entries[k.value].content;
      if csvStream.None? then Err(UnreadableEntry)
      else
        var csvItems := ParseCsv(formats, csvStream.value);
        if csvItems.None? then Err(CsvParseFault) else Ok(csvItems)
  }

  // ---------------------------------------------------------------------
  // One document: ProcessPdf

  /** The archive entry of a document: the first whose full name equals the
      manifest's file name, ignoring case. */
  function PdfEntryIndex(entries: seq<ZipEntry>, pdfFilename: string): (k: Option<nat>)
    ensures k.None? <==> forall i :: 0 <= i < |entries| ==> !EqualsIgnoreCase(entries[i].fullName, pdfFilename)
    ensures k.Some? ==> k.value < |entries| && EqualsIgnoreCase(entries[k.value].fullName, pdfFilename)
    ensures k.Some? ==> forall i :: 0 <= i < k.value ==> !EqualsIgnoreCase(entries[i].fullName, pdfFilename)
  {
    FindFirst(entries, (e: ZipEntry) => EqualsIgnoreCase(e.fullName, pdfFilename))
  }

  /** The PO folder: the configured unknown-PO folder when the PO number is
      blank. */
  function ResolvePONumber(config: AppConfig, poNumber: string): (folder: string)
    ensures IsNullOrWhiteSpace(poNumber) ==> folder == config.unknownPOFolderName
    ensures !IsNullOrWhiteSpace(poNumber) ==> folder == poNumber
    ensures !IsNullOrWhiteSpace(folder) || folder == config.unknownPOFolderName
  {
    if IsNullOrWhiteSpace(poNumber) then config.unknownPOFolderName else poNumber
  }

  /** by-po/<folder>/<file name> in the bucket. */
  function PdfDestination(config: AppConfig, pdfFilename: string, folder: string): ObjectId
  {
    ObjectId(config.container, CreateKey(pdfFilename, PdfFolderRoot + folder + "/"))
  }

  /** How the handling of one document ends. */
  datatype PdfPlan =
    | NotFound                                        // no entry of that name
    | Unreadable                                      // the entry's stream fails
    | StoreFailed                                     // the upload raises
    | Placed(dest: ObjectId, blob: Bytes, folder: string)

  /** The branches of ProcessPdf, in source order: lookup first, PO
      resolution only for a found entry, then the guarded copy. */
  function PlanPdf(config: AppConfig, faults: set<ObjectId>, entries: seq<ZipEntry>,
                   pdfFilename: string, poNumber: string): (plan: PdfPlan)
    ensures plan.NotFound? <==> PdfEntryIndex(entries, pdfFilename).None?
    ensures plan.Unreadable? <==>
      PdfEntryIndex(entries, pdfFilename).Some? && entries[PdfEntryIndex(entries, pdfFilename).value].content.None?
    ensures plan.StoreFailed? ==>
      PdfDestination(config, pdfFilename, ResolvePONumber(config, poNumber)) in faults
    ensures plan.Placed? ==>
      && plan.folder == ResolvePONumber(config, poNumber)
      && plan.dest == PdfDestination(config, pdfFilename, plan.folder)
      && plan.dest !in faults
      && entries[PdfEntryIndex(entries, pdfFilename).value].content == Some(plan.blob)
  {
    var k := PdfEntryIndex(entries, pdfFilename);
    if k.None? then NotFound
    else
      var folder := ResolvePONumber(config, poNumber);
      var content := entries[k.value].content;
      if content.None? then Unreadable
      else
        var dest := PdfDestination(config, pdfFilename, folder);
        if dest in faults then StoreFailed else Placed(dest, content.value, folder)
  }

  /** The status ProcessPdf records for a plan. */
  function PdfStatus(config: AppConfig, plan: PdfPlan): string
  {
    match plan
    case NotFound => PS.PdfNotFoundError
    case Unreadable => PS.Error
    case StoreFailed => PS.Error
    case Placed(_, _, folder) => if folder != config.unknownPOFolderName then PS.Success else PS.UnknownPONumber
  }

  /** The ledger record of one document. */
  function PdfRecord(config: AppConfig, faults: set<ObjectId>, entries: seq<ZipEntry>,
                     pdfFilename: string, poNumber: string): (pdf: ProcessedPdf)
    ensures pdf.pdfFilename == pdfFilename
  {
    ProcessedPdf(pdfFilename, PdfStatus(config, PlanPdf(config, faults, entries, pdfFilename, poNumber)))
  }

  /** The store after one document: a placed copy is uploaded without
      overwriting, nothing else is written. */
  function PdfWrite(objects: map<ObjectId, Bytes>, plan: PdfPlan): map<ObjectId, Bytes>
  {
    if plan.Placed? then Put(objects, plan.dest, plan.blob, false) else objects
  }

  /** What the recorded status of a document means. */
  lemma PdfStatusMeaning(config: AppConfig, faults: set<ObjectId>, entries: seq<ZipEntry>,
                         pdfFilename: string, poNumber: string)
    ensures var plan := PlanPdf(config, faults, entries, pdfFilename, poNumber);
      var status := PdfStatus(config, plan);
      && status in {PS.Success, PS.UnknownPONumber, PS.PdfNotFoundError, PS.Error}
      && (status == PS.PdfNotFoundError <==>
            forall i :: 0 <= i < |entries| ==> !EqualsIgnoreCase(entries[i].fullName, pdfFilename))
      && (status == PS.Success || status == PS.UnknownPONumber <==> plan.Placed?)
      && (status == PS.Success <==> plan.Placed? && ResolvePONumber(config, poNumber) != config.unknownPOFolderName)
      && (IsNullOrWhiteSpace(poNumber) ==> status != PS.Success)
  {
    PS.CodesDistinctAndNonEmpty();
    assert PS.AllCodes()[3] != PS.AllCodes()[0];
  }

  /** A document reported as copied is in the store at its destination
      afterwards, with the archive's bytes unless an object was already
      there; a document not copied leaves the store as it was. */
  lemma PdfWriteMeaning(objects: map<ObjectId, Bytes>, config: AppConfig, faults: set<ObjectId>,
                        entries: seq<ZipEntry>, pdfFilename: string, poNumber: string)
    ensures var plan := PlanPdf(config, faults, entries, pdfFilename, poNumber);
      var after := PdfWrite(objects, plan);
      && (plan.Placed? ==> plan.dest in after && after[plan.dest] == if plan.dest in objects then objects[plan.dest] else plan.blob)
      && (!plan.Placed? ==> after == objects)
  {
  }

  // ---------------------------------------------------------------------
  // One archive: ProcessZip

  /** The records of one CSV item's attachments, in attachment order. */
  function AttachmentRecords(config: AppConfig, faults: set<ObjectId>, entries: seq<ZipEntry>,
                             poNumber: string, attachments: seq<CsvItemAttachment>): (pdfs: seq<ProcessedPdf>)
    ensures |pdfs| == |attachments|
    ensures forall i :: 0 <= i < |pdfs| ==>
      pdfs[i] == PdfRecord(config, faults, entries, attachments[i].filename, poNumber)
  {
    seq(|attachments|, i requires 0 <= i < |attachments| =>
      PdfRecord(config, faults, entries, attachments[i].filename, poNumber))
  }

  /** The file names a manifest lists, item by item and attachment by
      attachment. */
  function ManifestFilenames(items: seq<CsvItem>): seq<string>
  {
    if items == [] then []
    else
      var last := items[|items| - 1];
      ManifestFilenames(items[..|items| - 1])
        + seq(|last.attachments|, i requires 0 <= i < |last.attachments| => last.attachments[i].filename)
  }

  /** The PO number of the item each listed file name belongs to, position
      by position with ManifestFilenames. */
  function ManifestPONumbers(items: seq<CsvItem>): (pos: seq<string>)
    ensures |pos| == |ManifestFilenames(items)|
  {
    if items == [] then []
    else
      var last := items[|items| - 1];
      ManifestPONumbers(items[..|items| - 1])
        + seq(|last.attachments|, i requires 0 <= i < |last.attachments| => last.poNumber)
  }

  /** The records of a whole manifest: one per listed attachment, in
      manifest order, each the record of that file under its own item's PO
      number. */
  function ItemsRecords(config: AppConfig, faults: set<ObjectId>, entries: seq<ZipEntry>, items: seq<CsvItem>)
    : (pdfs: seq<ProcessedPdf>)
    ensures |pdfs| == |ManifestFilenames(items)|
    ensures forall i :: 0 <= i < |pdfs| ==> pdfs[i].pdfFilename == ManifestFilenames(items)[i]
  {
    if items == [] then []
    else
      var last := items[|items| - 1];
      ItemsRecords(config, faults, entries, items[..|items| - 1])
        + AttachmentRecords(config, faults, entries, last.poNumber, last.attachments)
  }

  /** Record i of a manifest is the record of its i-th listed file under
      the PO number of the item that lists it. */
  lemma {:induction false} ItemsRecordsMeaning(config: AppConfig, faults: set<ObjectId>, entries: seq<ZipEntry>,
                                               items: seq<CsvItem>)
    ensures forall i :: 0 <= i < |ItemsRecords(config, faults, entries, items)| ==>
      ItemsRecords(config, faults, entries, items)[i]
        == PdfRecord(config, faults, entries, ManifestFilenames(items)[i], ManifestPONumbers(items)[i])
  {
    if items != [] {
      var init := items[..|items| - 1];
      var last := items[|items| - 1];
      ItemsRecordsMeaning(config, faults, entries, init);
      var pdfs := ItemsRecords(config, faults, entries, items);
      var n0 := |ManifestFilenames(init)|;
      forall i | 0 <= i < |pdfs|
        ensures pdfs[i] == PdfRecord(config, faults, entries, ManifestFilenames(items)[i], ManifestPONumbers(items)[i])
      {
        if i < n0 {
          assert pdfs[i] == ItemsRecords(config, faults, entries, init)[i];
          assert ManifestFilenames(items)[i] == ManifestFilenames(init)[i];
          assert ManifestPONumbers(items)[i] == ManifestPONumbers(init)[i];
        } else {
          var j := i - n0;
          assert pdfs[i] == AttachmentRecords(config, faults, entries, last.poNumber, last.attachments)[j];
          assert ManifestFilenames(items)[i] == last.attachments[j].filename;
          assert ManifestPONumbers(items)[i] == last.poNumber;
        }
      }
    }
  }

  /** The store after one CSV item's attachments. */
  function AttachmentWrites(objects: map<ObjectId, Bytes>, config: AppConfig, faults: set<ObjectId>,
                            entries: seq<ZipEntry>, poNumber: string, attachments: seq<CsvItemAttachment>)
    : map<ObjectId, Bytes>
  {
    if attachments == [] then objects
    else
      PdfWrite(AttachmentWrites(objects, config, faults, entries, poNumber, attachments[..|attachments| - 1]),
               PlanPdf(config, faults, entries, attachments[|attachments| - 1].filename, poNumber))
  }

  /** The store after a whole manifest. */
  function ItemsWrites(objects: map<ObjectId, Bytes>, config: AppConfig, faults: set<ObjectId>,
                       entries: seq<ZipEntry>, items: seq<CsvItem>): map<ObjectId, Bytes>
  {
    if items == [] then objects
    else
      var last := items[|items| - 1];
      AttachmentWrites(ItemsWrites(objects, config, faults, entries, items[..|items| - 1]),
                       config, faults, entries, last.poNumber, last.attachments)
  }

  /** The number of records with status Success. */
  function CountSuccess(pdfs: seq<ProcessedPdf>): (n: nat)
    ensures n <= |pdfs|
  {
    if pdfs == [] then 0
    else
      CountSuccess(pdfs[..|pdfs| - 1]) + if pdfs[|pdfs| - 1].status == PS.Success then 1 else 0
  }

  /** No successes exactly when no record succeeded; all successes exactly
      when every record did. */
  lemma {:induction false} CountSuccessMeaning(pdfs: seq<ProcessedPdf>)
    ensures CountSuccess(pdfs) == 0 <==> forall i :: 0 <= i < |pdfs| ==> pdfs[i].status != PS.Success
    ensures CountSuccess(pdfs) == |pdfs| <==> forall i :: 0 <= i < |pdfs| ==> pdfs[i].status == PS.Success
  {
    if pdfs != [] {
      var init := pdfs[..|pdfs| - 1];
      CountSuccessMeaning(init);
      assert forall i :: 0 <= i < |init| ==> init[i] == pdfs[i];
    }
  }

  /** The archive status: the switch over the success count. Its "" arm is
      unreachable. */
  function AggregateStatus(pdfs: seq<ProcessedPdf>): (status: string)
    ensures status != ""
    ensures status == PS.Error <==> forall i :: 0 <= i < |pdfs| ==> pdfs[i].status != PS.Success
    ensures status == PS.Success <==> |pdfs| > 0 && forall i :: 0 <= i < |pdfs| ==> pdfs[i].status == PS.Success
    ensures status == PS.Partial <==>
      (exists i :: 0 <= i < |pdfs| && pdfs[i].status == PS.Success)
      && (exists i :: 0 <= i < |pdfs| && pdfs[i].status != PS.Success)
  {
    CountSuccessMeaning(pdfs);
    var pdfCount := |pdfs|;
    var pdfSuccessCount := CountSuccess(pdfs);
    if pdfSuccessCount == 0 then PS.Error
    else if pdfSuccessCount < pdfCount then PS.Partial
    else if pdfSuccessCount == pdfCount then PS.Success
    else ""
  }

  /** What processing one archive yields, and the store after it. */
  datatype ZipStep = ZipStep(outcome: Result<ProcessedZip, Fault>, objects: map<ObjectId, Bytes>)

  /** The archive object of a listed key. */
  function ZipFileId(config: AppConfig, zipFilename: string): ObjectId
  {
    ObjectId(config.container, CreateKey(zipFilename, ""))
  }

  /** ProcessZip. The guard meant to record UnableToReadZip tests the name,
      which is never null; a vanished archive reaches the ZipArchive
      constructor with a null stream, which throws. */
  function ZipStepOf(objects: map<ObjectId, Bytes>, faults: set<ObjectId>, config: AppConfig,
                     formats: ArchiveFormats, zipFilename: string): (step: ZipStep)
    ensures step.outcome.Ok? ==> step.outcome.value.zipFilename == zipFilename
    ensures step.outcome.Ok? ==> step.outcome.value.status != PS.UnableToReadZipError
    ensures step.outcome.Err? ==> step.objects == objects
    ensures ZipFileId(config, zipFilename) in faults ==> step.outcome == Err(StorageFault)
    ensures ZipFileId(config, zipFilename) !in faults && ZipFileId(config, zipFilename) !in objects ==>
              step.outcome == Err(NullArchiveStream)
  {
    var zipFileStream := Fetch(objects, faults, ZipFileId(config, zipFilename));
    if zipFileStream.Err? then ZipStep(Err(zipFileStream.error), objects)
    else if zipFileStream.value.None? then ZipStep(Err(NullArchiveStream), objects)
    else
      var archive := formats.openZip(zipFileStream.value.value);
      if archive.None? then ZipStep(Err(InvalidArchive), objects)
      else
        var csvItems := GetCsvItems(formats, archive.value);
        if csvItems.Err? then ZipStep(Err(csvItems.error), objects)
        else if csvItems.value.None? then ZipStep(Ok(ProcessedZip(zipFilename, PS.CsvNotFoundError, [])), objects)
        else
          var pdfs := ItemsRecords(config, faults, archive.value, csvItems.value.value);
          ZipStep(Ok(ProcessedZip(zipFilename, AggregateStatus(pdfs), pdfs)),
                  ItemsWrites(objects, config, faults, archive.value, csvItems.value.value))
  }

  /** The archive-level cases of ProcessZip: an unopenable archive escapes,
      an archive without a manifest is recorded as CsvNotFound with no
      documents and no writes, a manifest that cannot be read or parsed
      escapes with no writes, and otherwise the record holds one document
      record per manifest attachment under the aggregate status. */
  lemma ZipStepCases(objects: map<ObjectId, Bytes>, faults: set<ObjectId>, config: AppConfig,
                     formats: ArchiveFormats, zipFilename: string)
    requires ZipFileId(config, zipFilename) !in faults && ZipFileId(config, zipFilename) in objects
    ensures var step := ZipStepOf(objects, faults, config, formats, zipFilename);
      var archive := formats.openZip(objects[ZipFileId(config, zipFilename)]);
      && (archive.None? ==> step.outcome == Err(InvalidArchive))
      && (archive.Some? && (forall i :: 0 <= i < |archive.value| ==> !IsCsvEntry(archive.value[i])) ==>
            step == ZipStep(Ok(ProcessedZip(zipFilename, PS.CsvNotFoundError, [])), objects))
      && (archive.Some? && GetCsvItems(formats, archive.value).Err? ==>
            step == ZipStep(Err(GetCsvItems(formats, archive.value).error), objects))
      && (archive.Some? && GetCsvItems(formats, archive.value).Ok? && GetCsvItems(formats, archive.value).value.Some? ==>
            var items := GetCsvItems(formats, archive.value).value.value;
            && step.outcome.Ok?
            && step.outcome.value.pdfFiles == ItemsRecords(config, faults, archive.value, items)
            && |step.outcome.value.pdfFiles| == |ManifestFilenames(items)|
            && step.outcome.value.status == AggregateStatus(step.outcome.value.pdfFiles)
            && step.objects == ItemsWrites(objects, config, faults, archive.value, items))
  {
  }

  // ---------------------------------------------------------------------
  // One run: ProcessNewFilesAsync

  /** The driver's state: the store, the ledger in memory, and the fault
      that aborted the run, if one did. */
  datatype RunState = RunState(objects: map<ObjectId, Bytes>, ledger: ProcessingMetadata, fault: Option<Fault>)

  /** The foreach over the listed keys: names in `seen` (the ledger's names
      when the run started) are skipped, the others processed and their
      records appended; the first fault stops everything. */
  function ProcessListed(faults: set<ObjectId>, config: AppConfig, formats: ArchiveFormats,
                         seen: set<string>, start: RunState, names: seq<string>): (st: RunState)
    ensures st.fault.None? ==> start.fault.None?
  {
    if names == [] then start
    else
      var before := ProcessListed(faults, config, formats, seen, start, names[..|names| - 1]);
      var zipFilename := names[|names| - 1];
      if before.fault.Some? || zipFilename in seen then before
      else
        var step := ZipStepOf(before.objects, faults, config, formats, zipFilename);
        if step.outcome.Err? then RunState(step.objects, before.ledger, Some(step.outcome.error))
        else RunState(step.objects, before.ledger + [step.outcome.value], None)
  }

  /** One more listed name: the foreach state after names[..i + 1] from the
      state after names[..i]. */
  lemma ProcessListedStep(faults: set<ObjectId>, config: AppConfig, formats: ArchiveFormats,
                          seen: set<string>, start: RunState, names: seq<string>, i: nat)
    requires i < |names|
    ensures var before := ProcessListed(faults, config, formats, seen, start, names[..i]);
      ProcessListed(faults, config, formats, seen, start, names[..i + 1]) ==
        if before.fault.Some? || names[i] in seen then before
        else
          var step := ZipStepOf(before.objects, faults, config, formats, names[i]);
          if step.outcome.Err? then RunState(step.objects, before.ledger, Some(step.outcome.error))
          else RunState(step.objects, before.ledger + [step.outcome.value], None)
  {
    assert names[..i + 1][..i] == names[..i];
  }

  /** A whole run over a given listing: load, process, save. */
  function RunOf(objects: map<ObjectId, Bytes>, faults: set<ObjectId>, config: AppConfig,
                 formats: ArchiveFormats, codec: LedgerCodec, ledgerFilename: string,
                 listed: seq<string>): (st: RunState)
    ensures var loaded := LoadLedger(objects, faults, codec, LedgerId(config.container, ledgerFilename));
      loaded.Err? ==> st.fault == Some(loaded.error) && st.objects == objects
    ensures st.fault.None? ==>
      var id := LedgerId(config.container, ledgerFilename);
      id !in faults && id in st.objects
  {
    var id := LedgerId(config.container, ledgerFilename);
    var loaded := LoadLedger(objects, faults, codec, id);
    if loaded.Err? then RunState(objects, [], Some(loaded.error))
    else
      var st := ProcessListed(faults, config, formats, ZipNames(loaded.value),
                              RunState(objects, loaded.value, None), listed);
      if st.fault.Some? then st
      else
        RunState(SavedLedger(st.objects, faults, codec, id, st.ledger), st.ledger,
                 if id in faults then Some(StorageFault) else None)
  }

  /** The keys ListAsync(container, searchPattern: "*.zip") may return. */
  ghost predicate IsZipListing(objects: map<ObjectId, Bytes>, container: string, listed: seq<string>)
  {
    exists page :: IsListingPage(objects, container, "", page) && listed == FilterFilesByPattern(page, ZipSearchPattern)
  }

  // ---------------------------------------------------------------------
  // The service

  class AppService {
    const store: BlobStore
    const config: AppConfig
    const manager: MetadataManager
    const formats: ArchiveFormats

    /** The service and its ledger manager share one store and one bucket. */
    ghost predicate Valid()
    {
      manager.store == store && manager.container == config.container
    }

    constructor (store: BlobStore, config: AppConfig, manager: MetadataManager, formats: ArchiveFormats)
      requires manager.store == store && manager.container == config.container
      ensures Valid()
      ensures this.store == store && this.config == config && this.manager == manager && this.formats == formats
    {
      this.store := store;
      this.config := config;
      this.manager := manager;
      this.formats := formats;
    }

    /** ProcessPdf: look the document up, resolve its PO folder, copy it
        without overwriting, and record how that went. */
    method ProcessPdf(entries: seq<ZipEntry>, pdfFilename: string, poNumber: string)
      returns (processedPdf: ProcessedPdf)
      modifies store
      ensures processedPdf == PdfRecord(config, store.faults, entries, pdfFilename, poNumber)
      ensures store.objects == PdfWrite(old(store.objects), PlanPdf(config, store.faults, entries, pdfFilename, poNumber))
    {
      var pdfFile := PdfEntryIndex(entries, pdfFilename);
      if pdfFile.None? {
        return ProcessedPdf(pdfFilename, PS.PdfNotFoundError);
      }
      var folder := poNumber;
      if IsNullOrWhiteSpace(folder) {
        folder := config.unknownPOFolderName;
      }
      var pdfStream := entries[pdfFile.value].content;
      if pdfStream.None? {
        return ProcessedPdf(pdfFilename, PS.Error);
      }
      var saved := store.Save(config.container, pdfFilename, pdfStream.value, PdfFolderRoot + folder + "/", false);
      if saved.Fail? {
        return ProcessedPdf(pdfFilename, PS.Error);
      }
      processedPdf := ProcessedPdf(pdfFilename,
        if folder != config.unknownPOFolderName then PS.Success else PS.UnknownPONumber);
    }

    /** The body run for each CSV item: its attachments one after another. */
    method ProcessCsvItem(entries: seq<ZipEntry>, csvItem: CsvItem) returns (pdfs: seq<ProcessedPdf>)
      modifies store
      ensures pdfs == AttachmentRecords(config, store.faults, entries, csvItem.poNumber, csvItem.attachments)
      ensures store.objects
        == AttachmentWrites(old(store.objects), config, store.faults, entries, csvItem.poNumber, csvItem.attachments)
    {
      pdfs := [];
      var j := 0;
      while j < |csvItem.attachments|
        invariant 0 <= j <= |csvItem.attachments|
        invariant pdfs == AttachmentRecords(config, store.faults, entries, csvItem.poNumber, csvItem.attachments[..j])
        invariant store.objects
          == AttachmentWrites(old(store.objects), config, store.faults, entries, csvItem.poNumber, csvItem.attachments[..j])
      {
        var processedPdf := ProcessPdf(entries, csvItem.attachments[j].filename, csvItem.poNumber);
        assert csvItem.attachments[..j + 1][..j] == csvItem.attachments[..j];
        pdfs := pdfs + [processedPdf];
        j := j + 1;
      }
      assert csvItem.attachments[..j] == csvItem.attachments;
    }

    /** ProcessZip: fetch and open the archive, read its manifest, process
        every attachment of every item, and aggregate. */
    method ProcessZip(zipFilename: string) returns (r: Result<ProcessedZip, Fault>)
      modifies store
      ensures var step := ZipStepOf(old(store.objects), store.faults, config, formats, zipFilename);
        r == step.outcome && store.objects == step.objects
    {
      var zipFileStream := store.GetOrNull(config.container, zipFilename, "");
      if zipFileStream.Err? {
        return Err(zipFileStream.error);
      }
      // The guard on the name never fires; the null stream then throws.
      if zipFileStream.value.None? {
        return Err(NullArchiveStream);
      }
      var archive := formats.openZip(zipFileStream.value.value);
      if archive.None? {
        return Err(InvalidArchive);
      }
      var entries := archive.value;
      var csvItems := GetCsvItems(formats, entries);
      if csvItems.Err? {
        return Err(csvItems.error);
      }
      if csvItems.value.None? {
        return Ok(ProcessedZip(zipFilename, PS.CsvNotFoundError, []));
      }
      var processedPdfs := ProcessCsvItems(entries, csvItems.value.value);
      var status := AggregateStatus(processedPdfs);
      r := Ok(ProcessedZip(zipFilename, status, processedPdfs));
    }

    /** The loop over the manifest's items, gathering every item's document
        records. */
    method ProcessCsvItems(entries: seq<ZipEntry>, items: seq<CsvItem>) returns (processedPdfs: seq<ProcessedPdf>)
      modifies store
      ensures processedPdfs == ItemsRecords(config, store.faults, entries, items)
      ensures store.objects == ItemsWrites(old(store.objects), config, store.faults, entries, items)
    {
      processedPdfs := [];
      var i := 0;
      while i < |items|
        invariant 0 <= i <= |items|
        invariant processedPdfs == ItemsRecords(config, store.faults, entries, items[..i])
        invariant store.objects == ItemsWrites(old(store.objects), config, store.faults, entries, items[..i])
      {
        var pdfs := ProcessCsvItem(entries, items[i]);
        processedPdfs := processedPdfs + pdfs;
        assert items[..i + 1][..i] == items[..i];
        i := i + 1;
      }
      assert items[..i] == items;
    }

    /** The foreach of ProcessNewFilesAsync: every listed name the ledger
        did not hold when the run started is processed and its record
        appended; the first escaping fault ends the loop. */
    method ProcessArchives(zipFiles: seq<string>, processedZips: set<string>, ledger: ProcessingMetadata)
      returns (r: Result<ProcessingMetadata, Fault>)
      modifies store
      ensures var st := ProcessListed(store.faults, config, formats, processedZips,
                                      RunState(old(store.objects), ledger, None), zipFiles);
        && store.objects == st.objects
        && (r.Ok? <==> st.fault.None?)
        && (r.Ok? ==> r.value == st.ledger)
        && (r.Err? ==> r.error == st.fault.value)
    {
      ghost var start := RunState(store.objects, ledger, None);
      var processingMetadata := ledger;
      var i := 0;
      while i < |zipFiles|
        invariant 0 <= i <= |zipFiles|
        invariant ProcessListed(store.faults, config, formats, processedZips, start, zipFiles[..i])
                  == RunState(store.objects, processingMetadata, None)
      {
        var zipFilename := zipFiles[i];
        ProcessListedStep(store.faults, config, formats, processedZips, start, zipFiles, i);
        if zipFilename !in processedZips {
          var processedZip := ProcessZip(zipFilename);
          if processedZip.Err? {
            AbortIsFinal(store.faults, config, formats, processedZips, start, zipFiles, i + 1);
            return Err(processedZip.error);
          }
          processingMetadata := processingMetadata + [processedZip.value];
        }
        i := i + 1;
      }
      assert zipFiles[..i] == zipFiles;
      r := Ok(processingMetadata);
    }

    /** ProcessNewFilesAsync: one run. `listed` is the listing the run saw. */
    method ProcessNewFiles() returns (r: Outcome<Fault>, ghost listed: seq<string>)
      requires Valid()
      modifies store
      ensures IsZipListing(old(store.objects), config.container, listed)
      ensures var st := RunOf(old(store.objects), store.faults, config, formats,
                              manager.codec, manager.ledgerFilename, listed);
        && store.objects == st.objects
        && (r.Fail? <==> st.fault.Some?)
        && (r.Fail? ==> r.error == st.fault.value)
    {
      listed := [];
      assert IsListingPage(store.objects, config.container, "", []);
      assert FilterFilesByPattern([], ZipSearchPattern) == [];
      var loaded := manager.Load();
      if loaded.Err? {
        return Fail(loaded.error), listed;
      }
      var processingMetadata := loaded.value;
      var processedZips := ZipNames(processingMetadata);
      assert !IsNullOrWhiteSpace(ZipSearchPattern) by {
        assert !IsWhiteSpace(ZipSearchPattern[0]);
      }
      var zipFiles := store.List(config.container, "", ZipSearchPattern);
      listed := zipFiles;
      var processed := ProcessArchives(zipFiles, processedZips, processingMetadata);
      if processed.Err? {
        return Fail(processed.error), listed;
      }
      r := manager.Save(processed.value);
    }
  }

  // ---------------------------------------------------------------------
  // Properties of a run

  /** Once a fault has stopped the foreach, the remaining names change
      nothing. */
  lemma {:induction false} AbortIsFinal(faults: set<ObjectId>, config: AppConfig, formats: ArchiveFormats,
                                        seen: set<string>, start: RunState, names: seq<string>, n: nat)
    requires n <= |names|
    requires ProcessListed(faults, config, formats, seen, start, names[..n]).fault.Some?
    ensures ProcessListed(faults, config, formats, seen, start, names)
         == ProcessListed(faults, config, formats, seen, start, names[..n])
    decreases |names| - n
  {
    if n < |names| {
      assert names[..n + 1][..n] == names[..n];
      AbortIsFinal(faults, config, formats, seen, start, names, n + 1);
    } else {
      assert names[..n] == names;
    }
  }

  // ---------------------------------------------------------------------
  // What a run writes

  /** `after` keeps every object of `before` unchanged, and every object it
      adds is a document copy: in the bucket, under by-po/. */
  predicate OnlyAddsCopies(before: map<ObjectId, Bytes>, after: map<ObjectId, Bytes>, container: string)
  {
    && (forall id :: id in before ==> id in after && after[id] == before[id])
    && (forall id :: id in after && id !in before ==> id.container == container && StartsWith(id.key, PdfFolderRoot))
  }

  lemma OnlyAddsCopiesTransitive(a: map<ObjectId, Bytes>, b: map<ObjectId, Bytes>, c: map<ObjectId, Bytes>,
                                 container: string)
    requires OnlyAddsCopies(a, b, container) && OnlyAddsCopies(b, c, container)
    ensures OnlyAddsCopies(a, c, container)
  {
  }

  /** Every document destination lies under by-po/, whatever the PO number
      and the file name hold. */
  lemma PdfDestinationUnderRoot(config: AppConfig, pdfFilename: string, folder: string)
    ensures PdfDestination(config, pdfFilename, folder).container == config.container
    ensures StartsWith(PdfDestination(config, pdfFilename, folder).key, PdfFolderRoot)
  {
    var path := PdfFolderRoot + folder + "/";
    assert path + pdfFilename == PdfFolderRoot + (folder + "/" + pdfFilename);
    ReplaceBackslashesOfConcat(PdfFolderRoot, folder + "/" + pdfFilename);
    assert ReplaceBackslashes(PdfFolderRoot) == PdfFolderRoot;
  }

  lemma PdfWriteOnlyAddsCopies(objects: map<ObjectId, Bytes>, config: AppConfig, faults: set<ObjectId>,
                               entries: seq<ZipEntry>, pdfFilename: string, poNumber: string)
    ensures OnlyAddsCopies(objects, PdfWrite(objects, PlanPdf(config, faults, entries, pdfFilename, poNumber)),
                           config.container)
  {
    PdfDestinationUnderRoot(config, pdfFilename, ResolvePONumber(config, poNumber));
  }

  lemma {:induction false} AttachmentWritesOnlyAddCopies(objects: map<ObjectId, Bytes>, config: AppConfig,
      faults: set<ObjectId>, entries: seq<ZipEntry>, poNumber: string, attachments: seq<CsvItemAttachment>)
    ensures OnlyAddsCopies(objects, AttachmentWrites(objects, config, faults, entries, poNumber, attachments),
                           config.container)
  {
    if attachments != [] {
      var init := attachments[..|attachments| - 1];
      var mid := AttachmentWrites(objects, config, faults, entries, poNumber, init);
      AttachmentWritesOnlyAddCopies(objects, config, faults, entries, poNumber, init);
      PdfWriteOnlyAddsCopies(mid, config, faults, entries, attachments[|attachments| - 1].filename, poNumber);
      OnlyAddsCopiesTransitive(objects, mid,
        AttachmentWrites(objects, config, faults, entries, poNumber, attachments), config.container);
    }
  }

  lemma {:induction false} ItemsWritesOnlyAddCopies(objects: map<ObjectId, Bytes>, config: AppConfig,
      faults: set<ObjectId>, entries: seq<ZipEntry>, items: seq<CsvItem>)
    ensures OnlyAddsCopies(objects, ItemsWrites(objects, config, faults, entries, items), config.container)
  {
    if items != [] {
      var init := items[..|items| - 1];
      var last := items[|items| - 1];
      var mid := ItemsWrites(objects, config, faults, entries, init);
      ItemsWritesOnlyAddCopies(objects, config, faults, entries, init);
      AttachmentWritesOnlyAddCopies(mid, config, faults, entries, last.poNumber, last.attachments);
      OnlyAddsCopiesTransitive(objects, mid, ItemsWrites(objects, config, faults, entries, items), config.container);
    }
  }

  /** Processing an archive never changes or removes an existing object
      (the archive itself included); it only adds document copies. */
  lemma ZipStepOnlyAddsCopies(objects: map<ObjectId, Bytes>, faults: set<ObjectId>, config: AppConfig,
                              formats: ArchiveFormats, zipFilename: string)
    ensures OnlyAddsCopies(objects, ZipStepOf(objects, faults, config, formats, zipFilename).objects, config.container)
  {
    var id := ZipFileId(config, zipFilename);
    if id !in faults && id in objects {
      var archive := formats.openZip(objects[id]);
      if archive.Some? {
        var csvItems := GetCsvItems(formats, archive.value);
        if csvItems.Ok? && csvItems.value.Some? {
          ItemsWritesOnlyAddCopies(objects, config, faults, archive.value, csvItems.value.value);
        }
      }
    }
  }

  /** The same holds for the whole foreach. */
  lemma {:induction false} ProcessListedOnlyAddsCopies(faults: set<ObjectId>, config: AppConfig,
      formats: ArchiveFormats, seen: set<string>, start: RunState, names: seq<string>)
    ensures OnlyAddsCopies(start.objects, ProcessListed(faults, config, formats, seen, start, names).objects,
                           config.container)
  {
    if names != [] {
      var init := names[..|names| - 1];
      var before := ProcessListed(faults, config, formats, seen, start, init);
      ProcessListedOnlyAddsCopies(faults, config, formats, seen, start, init);
      ZipStepOnlyAddsCopies(before.objects, faults, config, formats, names[|names| - 1]);
      OnlyAddsCopiesTransitive(start.objects, before.objects,
        ProcessListed(faults, config, formats, seen, start, names).objects, config.container);
    }
  }

  /** A document recorded as copied is in the store at its destination once
      its whole manifest has been processed, even if a later attachment
      names the same destination. */
  lemma {:induction false} PlacedDocumentStays(objects: map<ObjectId, Bytes>, config: AppConfig,
      faults: set<ObjectId>, entries: seq<ZipEntry>, items: seq<CsvItem>, k: nat, j: nat)
    requires k < |items| && j < |items[k].attachments|
    requires PlanPdf(config, faults, entries, items[k].attachments[j].filename, items[k].poNumber).Placed?
    ensures PlanPdf(config, faults, entries, items[k].attachments[j].filename, items[k].poNumber).dest
            in ItemsWrites(objects, config, faults, entries, items)
  {
    var init := items[..|items| - 1];
    var last := items[|items| - 1];
    var mid := ItemsWrites(objects, config, faults, entries, init);
    if k < |items| - 1 {
      assert init[k] == items[k];
      PlacedDocumentStays(objects, config, faults, entries, init, k, j);
      AttachmentWritesOnlyAddCopies(mid, config, faults, entries, last.poNumber, last.attachments);
    } else {
      PlacedAttachmentStays(mid, config, faults, entries, last.poNumber, last.attachments, j);
    }
  }

  lemma {:induction false} PlacedAttachmentStays(objects: map<ObjectId, Bytes>, config: AppConfig,
      faults: set<ObjectId>, entries: seq<ZipEntry>, poNumber: string, attachments: seq<CsvItemAttachment>, j: nat)
    requires j < |attachments|
    requires PlanPdf(config, faults, entries, attachments[j].filename, poNumber).Placed?
    ensures PlanPdf(config, faults, entries, attachments[j].filename, poNumber).dest
            in AttachmentWrites(objects, config, faults, entries, poNumber, attachments)
  {
    var init := attachments[..|attachments| - 1];
    var mid := AttachmentWrites(objects, config, faults, entries, poNumber, init);
    if j < |attachments| - 1 {
      assert init[j] == attachments[j];
      PlacedAttachmentStays(objects, config, faults, entries, poNumber, init, j);
      PdfWriteOnlyAddsCopies(mid, config, faults, entries, attachments[|attachments| - 1].filename, poNumber);
    }
  }

  /** A document the ledger records as copied (Success or UnknownPONumber)
      is in the store at by-po/<resolved PO>/<file name> once its whole
      manifest has been processed. */
  lemma {:induction false} RecordedCopyIsStored(objects: map<ObjectId, Bytes>, config: AppConfig,
      faults: set<ObjectId>, entries: seq<ZipEntry>, items: seq<CsvItem>, i: nat)
    requires i < |ManifestFilenames(items)|
    requires ItemsRecords(config, faults, entries, items)[i].status in {PS.Success, PS.UnknownPONumber}
    ensures PdfDestination(config, ManifestFilenames(items)[i], ResolvePONumber(config, ManifestPONumbers(items)[i]))
            in ItemsWrites(objects, config, faults, entries, items)
  {
    var init := items[..|items| - 1];
    var last := items[|items| - 1];
    var mid := ItemsWrites(objects, config, faults, entries, init);
    var n0 := |ManifestFilenames(init)|;
    if i < n0 {
      assert ItemsRecords(config, faults, entries, init)[i] == ItemsRecords(config, faults, entries, items)[i];
      assert ManifestFilenames(init)[i] == ManifestFilenames(items)[i];
      assert ManifestPONumbers(init)[i] == ManifestPONumbers(items)[i];
      RecordedCopyIsStored(objects, config, faults, entries, init, i);
      AttachmentWritesOnlyAddCopies(mid, config, faults, entries, last.poNumber, last.attachments);
    } else {
      var j := i - n0;
      var name := last.attachments[j].filename;
      assert ManifestFilenames(items)[i] == name;
      assert ManifestPONumbers(items)[i] == last.poNumber;
      assert ItemsRecords(config, faults, entries, items)[i]
          == AttachmentRecords(config, faults, entries, last.poNumber, last.attachments)[j];
      PdfStatusMeaning(config, faults, entries, name, last.poNumber);
      PlacedAttachmentStays(mid, config, faults, entries, last.poNumber, last.attachments, j);
    }
  }

  // ---------------------------------------------------------------------
  // Which archives a run processes

  /** The listed names the driver does not skip, in listing order. */
  function Unseen(names: seq<string>, seen: set<string>): (unseen: seq<string>)
    ensures forall n :: n in unseen <==> n in names && n !in seen
  {
    if names == [] then []
    else
      var init := Unseen(names[..|names| - 1], seen);
      var last := names[|names| - 1];
      assert names == names[..|names| - 1] + [last];
      if last in seen then init else init + [last]
  }

  /** The unseen names keep the listing's order and every unseen name as
      often as the listing holds it. */
  lemma {:induction false} UnseenKeepsOrder(names: seq<string>, seen: set<string>)
    ensures IsSubsequence(Unseen(names, seen), names)
    ensures forall n :: n !in seen ==> multiset(Unseen(names, seen))[n] == multiset(names)[n]
  {
    if names != [] {
      var init := names[..|names| - 1];
      var last := names[|names| - 1];
      assert names == init + [last];
      UnseenKeepsOrder(init, seen);
      SubsequenceSnoc(Unseen(init, seen), init, last);
    }
  }

  /** Skipping is all the seen set does: the foreach over the listing is the
      foreach over its unseen names. */
  lemma {:induction false} SeenArchivesAreSkipped(faults: set<ObjectId>, config: AppConfig, formats: ArchiveFormats,
                                                  seen: set<string>, start: RunState, names: seq<string>)
    ensures ProcessListed(faults, config, formats, seen, start, names)
         == ProcessListed(faults, config, formats, seen, start, Unseen(names, seen))
  {
    if names != [] {
      var init := names[..|names| - 1];
      var last := names[|names| - 1];
      SeenArchivesAreSkipped(faults, config, formats, seen, start, init);
      if last !in seen {
        var u := Unseen(names, seen);
        assert u[..|u| - 1] == Unseen(init, seen);
      }
    }
  }

  /** A listing whose names the ledger already holds leaves the state as it
      was: nothing is fetched, written or appended. */
  lemma AllSeenChangesNothing(faults: set<ObjectId>, config: AppConfig, formats: ArchiveFormats,
                              seen: set<string>, start: RunState, names: seq<string>)
    requires forall n :: n in names ==> n in seen
    ensures ProcessListed(faults, config, formats, seen, start, names) == start
  {
    SeenArchivesAreSkipped(faults, config, formats, seen, start, names);
  }

  lemma ZipNameListSnoc(ledger: ProcessingMetadata, z: ProcessedZip)
    ensures ZipNameList(ledger + [z]) == ZipNameList(ledger) + [z.zipFilename]
  {
  }

  /** The ledger only grows: the loaded records stay in place; the appended
      records name the unseen listed archives in listing order, and none of
      them carries UnableToReadZip. */
  lemma {:induction false} LedgerGrowsInListingOrder(faults: set<ObjectId>, config: AppConfig,
      formats: ArchiveFormats, seen: set<string>, start: RunState, names: seq<string>)
    requires start.fault.None?
    ensures var st := ProcessListed(faults, config, formats, seen, start, names);
      && |start.ledger| <= |st.ledger| && st.ledger[..|start.ledger|] == start.ledger
      && (st.fault.None? ==> ZipNameList(st.ledger[|start.ledger|..]) == Unseen(names, seen))
      && (forall i :: |start.ledger| <= i < |st.ledger| ==> st.ledger[i].status != PS.UnableToReadZipError)
  {
    if names != [] {
      var init := names[..|names| - 1];
      var last := names[|names| - 1];
      var before := ProcessListed(faults, config, formats, seen, start, init);
      LedgerGrowsInListingOrder(faults, config, formats, seen, start, init);
      if before.fault.None? && last !in seen {
        var step := ZipStepOf(before.objects, faults, config, formats, last);
        if step.outcome.Ok? {
          LedgerSnoc(before.ledger, |start.ledger|, step.outcome.value, Unseen(init, seen));
        }
      }
    }
  }

  /** Appending one archive record to the ledger: the first n0 records
      stay, and the names and statuses after them grow by that record. */
  lemma LedgerSnoc(ledger: ProcessingMetadata, n0: nat, z: ProcessedZip, unseen: seq<string>)
    requires n0 <= |ledger|
    requires ZipNameList(ledger[n0..]) == unseen
    requires forall i :: n0 <= i < |ledger| ==> ledger[i].status != PS.UnableToReadZipError
    requires z.status != PS.UnableToReadZipError
    ensures var grown := ledger + [z];
      && grown[..n0] == ledger[..n0]
      && ZipNameList(grown[n0..]) == unseen + [z.zipFilename]
      && forall i :: n0 <= i < |grown| ==> grown[i].status != PS.UnableToReadZipError
  {
    var grown := ledger + [z];
    assert grown[n0..] == ledger[n0..] + [z];
    ZipNameListSnoc(ledger[n0..], z);
  }

  // ---------------------------------------------------------------------
  // The archive status

  lemma {:induction false} CountSuccessConcat(a: seq<ProcessedPdf>, b: seq<ProcessedPdf>)
    ensures CountSuccess(a + b) == CountSuccess(a) + CountSuccess(b)
    decreases |b|
  {
    if b == [] {
      assert a + b == a;
    } else {
      var init := b[..|b| - 1];
      assert (a + b)[..|a + b| - 1] == a + init;
      CountSuccessConcat(a, init);
    }
  }

  /** Taking one record out of a sequence leaves the multiset without it. */
  lemma RemoveOneMultiset(b: seq<ProcessedPdf>, j: nat)
    requires j < |b|
    ensures b == b[..j] + [b[j]] + b[j + 1..]
    ensures multiset(b[..j] + b[j + 1..]) == multiset(b) - multiset{b[j]}
  {
    var left, right := b[..j], b[j + 1..];
    assert b == left + ([b[j]] + right);
  }

  /** Taking one record out of a sequence leaves the success count without
      it. */
  lemma RemoveOneCount(left: seq<ProcessedPdf>, x: ProcessedPdf, right: seq<ProcessedPdf>)
    ensures CountSuccess(left + [x] + right) == CountSuccess(left + right) + if x.status == PS.Success then 1 else 0
  {
    CountSuccessConcat(left + [x], right);
    CountSuccessConcat(left, [x]);
    CountSuccessConcat(left, right);
  }

  /** The success count depends only on which records there are. */
  lemma {:induction false} CountSuccessIgnoresOrder(a: seq<ProcessedPdf>, b: seq<ProcessedPdf>)
    requires multiset(a) == multiset(b)
    ensures CountSuccess(a) == CountSuccess(b)
    decreases |a|
  {
    if a == [] {
      assert |b| == |multiset(b)| == 0;
    } else {
      var x := a[|a| - 1];
      var init := a[..|a| - 1];
      assert a == init + [x];
      assert multiset(init) == multiset(a) - multiset{x};
      assert x in multiset(b) by {
        assert x in multiset(a);
      }
      var j :| 0 <= j < |b| && b[j] == x;
      var rest := b[..j] + b[j + 1..];
      RemoveOneMultiset(b, j);
      RemoveOneCount(b[..j], x, b[j + 1..]);
      assert multiset(rest) == multiset(b) - multiset{x};
      assert multiset(init) == multiset(rest);
      CountSuccessIgnoresOrder(init, rest);
      var bump := if x.status == PS.Success then 1 else 0;
      assert CountSuccess(a) == CountSuccess(init) + bump;
      assert CountSuccess(b) == CountSuccess(rest) + bump;
    }
  }

  /** The archive status depends only on which records there are, not on
      the order the concurrent bag hands them over in. */
  lemma AggregateIgnoresOrder(a: seq<ProcessedPdf>, b: seq<ProcessedPdf>)
    requires multiset(a) == multiset(b)
    ensures AggregateStatus(a) == AggregateStatus(b)
  {
    CountSuccessIgnoresOrder(a, b);
    assert |a| == |multiset(a)| == |multiset(b)| == |b|;
  }

  // ---------------------------------------------------------------------
  // Whole runs

  /** A completed run stores the grown ledger under the ledger id and adds
      only document copies otherwise. */
  lemma CompletedRunStoresLedger(objects: map<ObjectId, Bytes>, faults: set<ObjectId>, config: AppConfig,
                                 formats: ArchiveFormats, codec: LedgerCodec, ledgerFilename: string,
                                 listed: seq<string>)
    ensures var st := RunOf(objects, faults, config, formats, codec, ledgerFilename, listed);
      var id := LedgerId(config.container, ledgerFilename);
      st.fault.None? ==>
        && id in st.objects && st.objects[id] == codec.serialize(st.ledger)
        && OnlyAddsCopies(objects - {id}, st.objects - {id}, config.container)
  {
    var id := LedgerId(config.container, ledgerFilename);
    var loaded := LoadLedger(objects, faults, codec, id);
    if loaded.Ok? {
      var start := RunState(objects, loaded.value, None);
      var st := ProcessListed(faults, config, formats, ZipNames(loaded.value), start, listed);
      ProcessListedOnlyAddsCopies(faults, config, formats, ZipNames(loaded.value), start, listed);
      if st.fault.None? && id !in faults {
        var after := SavedLedger(st.objects, faults, codec, id, st.ledger);
        assert after == st.objects[id := codec.serialize(st.ledger)];
        assert OnlyAddsCopies(objects - {id}, after - {id}, config.container);
      }
    }
  }

  /** The ledger a completed run stores is the loaded one followed by one
      record per unseen listed archive, in listing order. */
  lemma CompletedRunLedger(objects: map<ObjectId, Bytes>, faults: set<ObjectId>, config: AppConfig,
                           formats: ArchiveFormats, codec: LedgerCodec, ledgerFilename: string,
                           listed: seq<string>)
    ensures var st := RunOf(objects, faults, config, formats, codec, ledgerFilename, listed);
      var loaded := LoadLedger(objects, faults, codec, LedgerId(config.container, ledgerFilename));
      st.fault.None? ==>
        && loaded.Ok?
        && |loaded.value| <= |st.ledger|
        && st.ledger[..|loaded.value|] == loaded.value
        && ZipNameList(st.ledger[|loaded.value|..]) == Unseen(listed, ZipNames(loaded.value))
  {
    var loaded := LoadLedger(objects, faults, codec, LedgerId(config.container, ledgerFilename));
    if loaded.Ok? {
      LedgerGrowsInListingOrder(faults, config, formats, ZipNames(loaded.value),
                                RunState(objects, loaded.value, None), listed);
    }
  }

  /** An aborted run leaves the stored ledger as it was (absent stays
      absent), provided the ledger is not itself kept under by-po/. */
  lemma AbortedRunKeepsStoredLedger(objects: map<ObjectId, Bytes>, faults: set<ObjectId>, config: AppConfig,
                                    formats: ArchiveFormats, codec: LedgerCodec, ledgerFilename: string,
                                    listed: seq<string>)
    requires !StartsWith(CreateKey(ledgerFilename, ""), PdfFolderRoot)
    ensures var st := RunOf(objects, faults, config, formats, codec, ledgerFilename, listed);
      var id := LedgerId(config.container, ledgerFilename);
      st.fault.Some? ==>
        && (id in st.objects <==> id in objects)
        && (id in objects ==> st.objects[id] == objects[id])
  {
    var id := LedgerId(config.container, ledgerFilename);
    var loaded := LoadLedger(objects, faults, codec, id);
    if loaded.Ok? {
      ProcessListedOnlyAddsCopies(faults, config, formats, ZipNames(loaded.value),
                                  RunState(objects, loaded.value, None), listed);
    }
  }

  /** The copies are written into the bucket that is listed: a placed
      document whose key matches "*.zip" may be on the next run's listing,
      under the name that fetches it back. */
  lemma CopyCanBeRelisted(objects: map<ObjectId, Bytes>, config: AppConfig, faults: set<ObjectId>,
                          entries: seq<ZipEntry>, pdfFilename: string, poNumber: string)
    requires PlanPdf(config, faults, entries, pdfFilename, poNumber).Placed?
    requires GlobMatch(ZipSearchPattern, PlanPdf(config, faults, entries, pdfFilename, poNumber).dest.key)
    ensures var plan := PlanPdf(config, faults, entries, pdfFilename, poNumber);
      && IsZipListing(PdfWrite(objects, plan), config.container, [plan.dest.key])
      && ZipFileId(config, plan.dest.key) == plan.dest
  {
    var plan := PlanPdf(config, faults, entries, pdfFilename, poNumber);
    var key := plan.dest.key;
    var after := PdfWrite(objects, plan);
    assert IsListingPage(after, config.container, "", [key]);
    RegexMatchIsGlobMatch(ZipSearchPattern, key);
    assert FilterFilesByPattern([key], ZipSearchPattern) == [key];
    assert ReplaceBackslashes(key) == key;
  }

  /** An unseen listed name whose archive step escapes (a storage fault, a
      vanished or unopenable archive, an unreadable or unparsable manifest)
      aborts the run with that fault before the ledger is saved, leaving the
      store as it was. */
  lemma EscapingArchiveAbortsRun(objects: map<ObjectId, Bytes>, faults: set<ObjectId>, config: AppConfig,
                                 formats: ArchiveFormats, codec: LedgerCodec, ledgerFilename: string, key: string)
    requires LoadLedger(objects, faults, codec, LedgerId(config.container, ledgerFilename)).Ok?
    requires key !in ZipNames(LoadLedger(objects, faults, codec, LedgerId(config.container, ledgerFilename)).value)
    requires ZipStepOf(objects, faults, config, formats, key).outcome.Err?
    ensures var st := RunOf(objects, faults, config, formats, codec, ledgerFilename, [key]);
      && st.fault == Some(ZipStepOf(objects, faults, config, formats, key).outcome.error)
      && st.objects == objects
  {
    var id := LedgerId(config.container, ledgerFilename);
    var loaded := LoadLedger(objects, faults, codec, id).value;
    var start := RunState(objects, loaded, None);
    assert [key][..0] == [];
    assert ProcessListed(faults, config, formats, ZipNames(loaded), start, []) == start;
    var step := ZipStepOf(objects, faults, config, formats, key);
    assert ProcessListed(faults, config, formats, ZipNames(loaded), start, [key])
        == RunState(objects, loaded, Some(step.outcome.error));
  }

  /** An unseen listed name whose bytes are not an archive aborts the run
      before the ledger is saved, leaving the store as it was. Together
      with CopyCanBeRelisted: a copied document named like an archive makes
      the next run stop with InvalidArchive. */
  lemma CopiedArchiveAbortsRun(objects: map<ObjectId, Bytes>, faults: set<ObjectId>, config: AppConfig,
                               formats: ArchiveFormats, codec: LedgerCodec, ledgerFilename: string, key: string)
    requires LoadLedger(objects, faults, codec, LedgerId(config.container, ledgerFilename)).Ok?
    requires key !in ZipNames(LoadLedger(objects, faults, codec, LedgerId(config.container, ledgerFilename)).value)
    requires ZipFileId(config, key) in objects && ZipFileId(config, key) !in faults
    requires formats.openZip(objects[ZipFileId(config, key)]).None?
    ensures var st := RunOf(objects, faults, config, formats, codec, ledgerFilename, [key]);
      st.fault == Some(InvalidArchive) && st.objects == objects
  {
    ZipStepCases(objects, faults, config, formats, key);
    EscapingArchiveAbortsRun(objects, faults, config, formats, codec, ledgerFilename, key);
  }

  /** A listed archive whose manifest cannot be read or parsed is not
      recorded: the run aborts with that fault and nothing is written. */
  lemma BadManifestAbortsRun(objects: map<ObjectId, Bytes>, faults: set<ObjectId>, config: AppConfig,
                             formats: ArchiveFormats, codec: LedgerCodec, ledgerFilename: string, key: string)
    requires LoadLedger(objects, faults, codec, LedgerId(config.container, ledgerFilename)).Ok?
    requires key !in ZipNames(LoadLedger(objects, faults, codec, LedgerId(config.container, ledgerFilename)).value)
    requires ZipFileId(config, key) in objects && ZipFileId(config, key) !in faults
    requires formats.openZip(objects[ZipFileId(config, key)]).Some?
    requires GetCsvItems(formats, formats.openZip(objects[ZipFileId(config, key)]).value).Err?
    ensures var st := RunOf(objects, faults, config, formats, codec, ledgerFilename, [key]);
      && st.fault == Some(GetCsvItems(formats, formats.openZip(objects[ZipFileId(config, key)]).value).error)
      && st.fault in {Some(UnreadableEntry), Some(CsvParseFault)}
      && st.objects == objects
  {
    ZipStepCases(objects, faults, config, formats, key);
    EscapingArchiveAbortsRun(objects, faults, config, formats, codec, ledgerFilename, key);
  }

  /** Re-running over the same listing (or part of it) after a completed
      run changes nothing: every listed archive is now in the ledger, no
      archive is processed again, and the ledger written back is the same
      bytes, provided the codec reads back what it wrote. */
  lemma RerunChangesNothing(objects: map<ObjectId, Bytes>, faults: set<ObjectId>, config: AppConfig,
                            formats: ArchiveFormats, codec: LedgerCodec, ledgerFilename: string,
                            listed: seq<string>, relisted: seq<string>)
    requires RunOf(objects, faults, config, formats, codec, ledgerFilename, listed).fault.None?
    requires var ledger := RunOf(objects, faults, config, formats, codec, ledgerFilename, listed).ledger;
      codec.deserialize(codec.serialize(ledger)) == Some(ledger)
    requires forall n :: n in relisted ==> n in listed
    ensures var first := RunOf(objects, faults, config, formats, codec, ledgerFilename, listed);
      RunOf(first.objects, faults, config, formats, codec, ledgerFilename, relisted) == first
  {
    var id := LedgerId(config.container, ledgerFilename);
    var first := RunOf(objects, faults, config, formats, codec, ledgerFilename, listed);
    var loaded := LoadLedger(objects, faults, codec, id).value;
    var start := RunState(objects, loaded, None);
    var st := ProcessListed(faults, config, formats, ZipNames(loaded), start, listed);
    LedgerGrowsInListingOrder(faults, config, formats, ZipNames(loaded), start, listed);
    assert first.ledger == st.ledger;
    LoadAfterSave(st.objects, faults, codec, id, st.ledger);
    assert LoadLedger(first.objects, faults, codec, id) == Ok(first.ledger);
    forall n | n in relisted
      ensures n in ZipNames(first.ledger)
    {
      var tail := st.ledger[|loaded|..];
      if n in ZipNames(loaded) {
        var i :| 0 <= i < |loaded| && loaded[i].zipFilename == n;
        assert st.ledger[i] == loaded[i];
      } else {
        assert n in Unseen(listed, ZipNames(loaded));
        var names := ZipNameList(tail);
        var i :| 0 <= i < |names| && names[i] == n;
        assert st.ledger[|loaded| + i] == tail[i];
      }
    }
    var restart := RunState(first.objects, first.ledger, None);
    AllSeenChangesNothing(faults, config, formats, ZipNames(first.ledger), restart, relisted);
    assert first.objects[id := codec.serialize(first.ledger)] == first.objects;
  }
}
