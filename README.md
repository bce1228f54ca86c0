# stat-task processing pipeline, modelled in Dafny

This project models the core of the stat-task batch job. The job scans one S3 bucket for `*.zip` archives. For each archive its processing ledger does not yet name, it does four things:

- reads the archive's CSV manifest (`~`-delimited, with the columns "PO Number" and "Attachment List");
- copies every listed PDF to `by-po/<PO number>/<file name>`, without overwriting;
- records one status per document and one aggregate status per archive;
- at the end of the run, writes the grown ledger back as a JSON document.

The model follows the C# code file by file:

- `common.dfy` (module `Common`): option and result wrappers, bytes, and the faults that escape as exceptions. It also holds the .NET string helpers the code relies on: `IsNullOrWhiteSpace`, `EndsWith`, `FirstOrDefault`, and comparison that ignores case.
- `status.dfy` (module `ProcessingStatus`): the seven status codes, with the compound codes built from the base codes.
- `metadata.dfy` (module `Metadata`): the ledger records `ProcessedZip` and `ProcessedPdf`, and the ledger itself.
- `csv_map.dfy` (module `CsvMap`): the CSV class map. This covers `String.Split` with `RemoveEmptyEntries` and the Unix rules of `Path.GetDirectoryName` and `Path.GetFileName`.
- `blob_storage.dfy` (module `AwsS3BlobStorage`):
  - key building;
  - the wildcard filter, together with a proof that the regular expression it builds matches exactly the names the wildcard pattern means (for names without a line feed; see "Left out");
  - a `BlobStore` class over a map from object ids to bytes. Its get/put/list methods carry the 404-means-null and the 412-is-swallowed rules.
- `app_config.dfy` (module `Configs`): the two settings.
- `metadata_manager.dfy` (module `ProcessingMetadataManager`): the ledger load and save, as a class over the store.
- `app_service.dfy` (module `AppService`): the pipeline.
  - Pure functions specify one document (`PlanPdf`), one archive (`ZipStepOf`) and one run (`RunOf`).
  - The class `AppService` has methods `ProcessPdf`, `ProcessCsvItem`, `ProcessCsvItems`, `ProcessZip`, `ProcessArchives` and `ProcessNewFiles`. Each has the loops of the source and is proved equal to those functions.
  - Lemmas state what a run guarantees: seen archives are skipped, the ledger only grows and in listing order, existing objects are never modified, a rerun over names the first run already listed changes nothing, a copied document named like an archive aborts the next run, and the archive status does not depend on record order.

An exception that is not caught where it arises ends the whole run before the ledger is saved. The model carries it as a `Fault` in a `Result` or `Outcome`.

Where the intended design and the code differ, the model follows the code:

- The guard meant to record `Error:UnableToReadZip` tests the archive name, not the stream (`AppService.cs:171`). A listed name is never null. So an archive that disappears between listing and fetch reaches the `ZipArchive` constructor with a null stream, and that aborts the run. `ZipStepOf` proves the code is never recorded, and returns `Err(NullArchiveStream)` instead.
- A manifest that cannot be read or parsed is not recorded as a failed archive. The exception escapes `GetCsvItems` and aborts the run (`Err(UnreadableEntry)` / `Err(CsvParseFault)`; `BadManifestAbortsRun`).
- The document lookup happens before the PO number is resolved. A missing document is `Error:PdfNotFound` whatever its PO number is.
- The ledger is written on every run, even when nothing new was processed. `RerunChangesNothing` shows that this write leaves the store as it was, for a rerun that lists no name the first run did not.
- The copies go into the same bucket the run lists, so a rerun is not always harmless. A copied document whose key matches `*.zip` is on the next listing and not in the ledger. When its bytes are not an archive, the next run aborts with `InvalidArchive` before saving, and every later run does the same (`CopyCanBeRelisted`, `CopiedArchiveAbortsRun`).

## Model

| member | source | states |
|---|---|---|
| ProcessingStatus.CompoundCodesExtendTheirBase | src/Stat.App/Consts/ProcessingStatusConsts.cs:5-15 | the base codes are "Error", "Partial", "Success"; each compound code belongs to the family (the text before ':') of the base it is built from |
| ProcessingStatus.CodesDistinctAndNonEmpty | src/Stat.App/Consts/ProcessingStatusConsts.cs:5-15 | the seven codes are non-empty (never the "" a fresh record carries) and pairwise distinct |
| ProcessingStatus.BaseCode | src/Stat.App/Consts/ProcessingStatusConsts.cs:7-13 | the family of a code is its longest colon-free prefix, followed in the code by ':' when shorter |
| Metadata.ZipNames | src/Stat.App/Services/AppService.cs:41 | the set of archive names in the ledger holds exactly the names of its records |
| Metadata.ZipNameList | src/Stat.App/Models/Metadata/ProcessedZip.cs:6-10 | the archive names of the ledger records, position by position |
| CsvMap.Split | src/Stat.App/Mappers/CsvMap.cs:24 | at least one piece; no piece contains the separator; the first piece is empty exactly when the text is empty or starts with the separator |
| CsvMap.JoinSplit | src/Stat.App/Mappers/CsvMap.cs:24 | splitting loses nothing: joining the pieces with the separator gives the text back |
| CsvMap.RemoveEmpty | src/Stat.App/Mappers/CsvMap.cs:24 | RemoveEmptyEntries keeps exactly the non-empty pieces, in order and with their multiplicity (duplicates stay), white-space pieces included |
| CsvMap.NonEmptySegmentsCount | src/Stat.App/Mappers/CsvMap.cs:23-24 | the number of kept segments equals an independent count of the places where a run of non-comma characters ends |
| CsvMap.ParseAttachmentsToList | src/Stat.App/Mappers/CsvMap.cs:21-31 | a null cell gives no attachments; otherwise one attachment per non-empty comma segment, in cell order, with its directory part (or "") and file name |
| CsvMap.MapRow | src/Stat.App/Mappers/CsvMap.cs:8-18 | a record maps to an item exactly when it has both mapped columns; the PO number is the "PO Number" field and the attachments are the parsed "Attachment List" field |
| CsvMap.GetFileName | src/Stat.App/Mappers/CsvMap.cs:28 | Path.GetFileName is a suffix of the path; FileNameIsLastComponent says which one |
| CsvMap.GetDirectoryName | src/Stat.App/Mappers/CsvMap.cs:27 | Path.GetDirectoryName is null exactly for "" and for the root "/", and "" for a non-empty path without a separator |
| CsvMap.FileNameIsLastComponent | src/Stat.App/Mappers/CsvMap.cs:28 | the file name holds no '/' and is the tail of the segment after its last '/' |
| CsvMap.BareFileName | src/Stat.App/Mappers/CsvMap.cs:27-28 | a segment without '/' is a file name with an empty path |
| CsvMap.DirectoryAndFileName | src/Stat.App/Mappers/CsvMap.cs:27-28 | "dir/name" with a single-level directory gives path "dir" and file name "name"; nested directories are not covered, and the pipeline never reads the path |
| CsvMap.WhitespaceSegmentIsKept | src/Stat.App/Mappers/CsvMap.cs:24-29 | a non-empty segment between two commas, whether blank or not, yields its own attachment |
| CsvMap.TrimSeparatorsBefore | src/Stat.App/Mappers/CsvMap.cs:27 | the trailing-separator trim of GetDirectoryName stops at the root or at a non-separator |
| AwsS3BlobStorage.PathJoin | src/Stat.Core.BlobStorage.Aws/AwsS3BlobStorage.cs:45 | Path.Join starts with the path and ends with the file name, with at most one separator added between them |
| AwsS3BlobStorage.CreateKey | src/Stat.Core.BlobStorage.Aws/AwsS3BlobStorage.cs:43-46 | the key has no backslash, and is the backslash-replaced file name, path+name, or path+"/"+name, depending on how Path.Join joins them |
| AwsS3BlobStorage.KeyUnderFolder | src/Stat.Core.BlobStorage.Aws/AwsS3BlobStorage.cs:43-46 | a key built under a folder that ends in '/' and holds no backslash starts with that folder |
| AwsS3BlobStorage.LiteralPatternMatch | src/Stat.Core.BlobStorage.Aws/AwsS3BlobStorage.cs:48-55 | a pattern without wildcards matches exactly the names equal to it, ignoring case |
| AwsS3BlobStorage.StarThenLiteralMatch | src/Stat.Core.BlobStorage.Aws/AwsS3BlobStorage.cs:48-55 | '*' followed by a literal matches exactly the names ending in that literal, ignoring case |
| AwsS3BlobStorage.ZipPatternMatch | src/Stat.App/Services/AppService.cs:46 | "*.zip" selects exactly the names whose last four characters are ".zip", ignoring case |
| AwsS3BlobStorage.Escape | src/Stat.Core.BlobStorage.Aws/AwsS3BlobStorage.cs:50 | Regex.Escape keeps or prefixes each character, so the escaped text is between one and two times as long; EscapeIsLiteral gives its meaning |
| AwsS3BlobStorage.EscapeIsLiteral | src/Stat.Core.BlobStorage.Aws/AwsS3BlobStorage.cs:50 | the escaped text parses back into one literal token per input character, metacharacters and control characters included |
| AwsS3BlobStorage.ReplaceStars | src/Stat.Core.BlobStorage.Aws/AwsS3BlobStorage.cs:50 | the first Replace turns each escaped '*' into ".*" and leaves every other escape intact |
| AwsS3BlobStorage.ReplaceQuestionMarks | src/Stat.Core.BlobStorage.Aws/AwsS3BlobStorage.cs:50 | the second Replace turns each escaped '?' into "." and leaves everything else intact |
| AwsS3BlobStorage.RegexPattern | src/Stat.Core.BlobStorage.Aws/AwsS3BlobStorage.cs:50 | the pattern text is anchored: it starts with '^' and ends with '$'; RegexPatternTokens gives what lies between |
| AwsS3BlobStorage.RegexPatternTokens | src/Stat.Core.BlobStorage.Aws/AwsS3BlobStorage.cs:50 | the built regular expression is "^…$" around one token per pattern character: ".*" for '*', "." for '?', a literal otherwise |
| AwsS3BlobStorage.TokensMatchGlob | src/Stat.Core.BlobStorage.Aws/AwsS3BlobStorage.cs:52-54 | matching those tokens against a whole name, ignoring case, is wildcard matching of the pattern |
| AwsS3BlobStorage.RegexMatchIsGlobMatch | src/Stat.Core.BlobStorage.Aws/AwsS3BlobStorage.cs:48-55 | a name matches the built regular expression exactly when it matches the wildcard pattern |
| AwsS3BlobStorage.FilterFilesByPattern | src/Stat.Core.BlobStorage.Aws/AwsS3BlobStorage.cs:48-55 | the kept files are an order-preserving subsequence of the input; a file is kept exactly when the pattern matches it, and then as many times as it occurs in the input |
| AwsS3BlobStorage.Put | src/Stat.Core.BlobStorage.Aws/AwsS3BlobStorage.cs:57-81 | the id is present afterwards; it holds the new blob unless overwriting was refused and an object was already there; no other object changes |
| AwsS3BlobStorage.Fetch | src/Stat.Core.BlobStorage.Aws/AwsS3BlobStorage.cs:105-126 | a failing request is an error; otherwise null exactly when the key is absent, else the stored bytes |
| AwsS3BlobStorage.BlobStore.GetOrNull | src/Stat.Core.BlobStorage.Aws/AwsS3BlobStorage.cs:105-126 | returns what Fetch specifies for the key CreateKey(fileName, path), changing nothing |
| AwsS3BlobStorage.BlobStore.Save | src/Stat.Core.BlobStorage.Aws/AwsS3BlobStorage.cs:57-81 | fails exactly on a storage fault and then changes nothing; otherwise the store becomes Put(old store, key, blob, overrideExisting), with no error when an existing object was kept |
| AwsS3BlobStorage.BlobStore.List | src/Stat.Core.BlobStorage.Aws/AwsS3BlobStorage.cs:83-103 | the result is one listing page (at most 1000 distinct present keys under the prefix), filtered by the pattern unless the pattern is null or white space |
| AwsS3BlobStorage.FirstWriterWins | src/Stat.Core.BlobStorage.Aws/AwsS3BlobStorage.cs:68-80 | of two saves without overwriting, the first one's bytes stay; with overwriting, the second one's do |
| AwsS3BlobStorage.ListedKeysAreListingKeys | src/Stat.Core.BlobStorage.Aws/AwsS3BlobStorage.cs:83-103 | listed keys are distinct, name present objects of the bucket under the prefix, and match the pattern when one is given |
| ProcessingMetadataManager.LoadLedger | src/Stat.App/Managers/ProcessingMetadataManager.cs:27-35 | a storage fault escapes; an absent ledger is the empty list; undecodable bytes are a fault and never an empty ledger; a loaded ledger is what the stored bytes decode to |
| ProcessingMetadataManager.MetadataManager.Load | src/Stat.App/Managers/ProcessingMetadataManager.cs:27-35 | returns LoadLedger of the current store for ProcessingMetadata.Filename at the bucket root, changing nothing |
| ProcessingMetadataManager.MetadataManager.Save | src/Stat.App/Managers/ProcessingMetadataManager.cs:37-51 | fails exactly on a storage fault; otherwise the serialized ledger replaces whatever was stored under the ledger id |
| ProcessingMetadataManager.LoadAfterSave | src/Stat.App/Managers/ProcessingMetadataManager.cs:27-51 | after a successful save the ledger id holds exactly the serialized ledger, and a load returns the ledger when the codec round-trips it |
| ProcessingMetadataManager.SaveTouchesOnlyTheLedger | src/Stat.App/Managers/ProcessingMetadataManager.cs:37-51 | saving adds or replaces only the ledger object; a failed save changes nothing |
| Common.FindFirst | src/Stat.App/Services/AppService.cs:96 | FirstOrDefault: None exactly when no element satisfies the predicate; otherwise the first one that does |
| Common.MapAll | src/Stat.App/Services/AppService.cs:91 | all records map, in order, or the result is None exactly when one of them does not |
| AppService.ParseCsv | src/Stat.App/Services/AppService.cs:73-92 | the manifest parses exactly when the reader yields records and every record has both mapped columns; the items are those records mapped one to one, in order |
| AppService.IsCsvEntry | src/Stat.App/Services/AppService.cs:96 | an entry is the manifest candidate exactly when its full name is some stem followed by ".csv" |
| AppService.GetCsvItems | src/Stat.App/Services/AppService.cs:94-108 | the only faults are UnreadableEntry and CsvParseFault; no entry ending in ".csv" gives Ok(None); otherwise the first such entry is parsed; an unreadable entry and a parse failure each escape as their own fault, and exactly in those cases |
| AppService.PdfEntryIndex | src/Stat.App/Services/AppService.cs:116 | FirstOrDefault: the document entry is the first entry whose full name equals the file name ignoring case, and there is none exactly when no entry qualifies |
| AppService.ResolvePONumber | src/Stat.App/Services/AppService.cs:125-128 | a blank or white-space PO number gives the configured unknown-PO folder, and any other PO number is kept as it is |
| AppService.PlanPdf | src/Stat.App/Services/AppService.cs:110-156 | not found exactly when no entry matches; unreadable exactly when the matching entry cannot be read; a placed copy goes to by-po/<resolved PO>/ at a fault-free destination with the entry's bytes |
| AppService.PdfStatus | src/Stat.App/Services/AppService.cs:121-150 | the status ProcessPdf assigns on each of its paths; its properties are stated by PdfStatusMeaning |
| AppService.PdfRecord | src/Stat.App/Services/AppService.cs:110-156 | the record of a document carries the manifest's file name; its status is the one PdfStatusMeaning characterises for the document's plan |
| AppService.PdfStatusMeaning | src/Stat.App/Services/AppService.cs:110-156 | a document status is one of four codes; PdfNotFound exactly when no entry matches; Success or UnknownPONumber exactly when it was copied; Success exactly when copied under a real PO; a blank PO is never Success |
| AppService.PdfWriteMeaning | src/Stat.App/Services/AppService.cs:132-145 | a copied document is in the store at its destination afterwards (the earlier object if one was there); a document not copied writes nothing |
| AppService.ItemsRecords | src/Stat.App/Services/AppService.cs:197-220 | one record per attachment of the manifest, named after the attachment's file name, in manifest order |
| AppService.ItemsRecordsMeaning | src/Stat.App/Services/AppService.cs:197-220 | record i is the ProcessPdf record of the i-th listed file under its own item's PO number, so PdfStatusMeaning applies to every ledger record |
| AppService.AttachmentRecords | src/Stat.App/Services/AppService.cs:207-218 | one record per attachment, record i being the ProcessPdf record of attachment i under the item's PO number |
| AppService.CountSuccess | src/Stat.App/Services/AppService.cs:225 | the success count is at most the record count |
| AppService.CountSuccessMeaning | src/Stat.App/Services/AppService.cs:224-225 | the count is 0 exactly when no record succeeded, and equals the record count exactly when every record did |
| AppService.AggregateStatus | src/Stat.App/Services/AppService.cs:224-233 | the "" case is unreachable; Error exactly when no document succeeded (an empty manifest included); Success exactly when there are documents and all succeeded; Partial exactly when some did and some did not |
| AppService.AggregateIgnoresOrder | src/Stat.App/Services/AppService.cs:193-233 | records with the same multiset get the same archive status, in whatever order the concurrent bag yields them |
| AppService.CountSuccessIgnoresOrder | src/Stat.App/Services/AppService.cs:225 | the success count depends only on the multiset of records |
| AppService.ZipStepOf | src/Stat.App/Services/AppService.cs:158-240 | a recorded archive carries its own name and never UnableToReadZip; on a fault nothing is written; a fetch fault escapes; a vanished archive escapes as a null-stream fault |
| AppService.ZipStepCases | src/Stat.App/Services/AppService.cs:178-235 | an unopenable archive escapes; a manifest that cannot be read or parsed escapes with GetCsvItems' fault and no writes; no manifest gives a CsvNotFound record with no documents and no writes; otherwise one record per manifest attachment under the aggregate status, with the writes of the manifest's documents |
| AppService.ProcessListed | src/Stat.App/Services/AppService.cs:50-57 | the foreach over listed names; a run that ends without a fault started without one; SeenArchivesAreSkipped, LedgerGrowsInListingOrder and AbortIsFinal give its meaning |
| AppService.RunOf | src/Stat.App/Services/AppService.cs:33-71 | a ledger load fault aborts the run with nothing written; a run that ends without a fault has a fault-free ledger id present in the store; CompletedRunStoresLedger and CompletedRunLedger give the rest |
| AppService.AppService.ProcessPdf | src/Stat.App/Services/AppService.cs:110-156 | returns PdfRecord and leaves the store as PdfWrite of the plan for this document |
| AppService.AppService.ProcessCsvItem | src/Stat.App/Services/AppService.cs:205-219 | returns AttachmentRecords of the item and leaves the store as AttachmentWrites |
| AppService.AppService.ProcessCsvItems | src/Stat.App/Services/AppService.cs:193-220 | returns ItemsRecords of the manifest and leaves the store as ItemsWrites: every item's records in manifest order, and that item's copies written |
| AppService.AppService.ProcessZip | src/Stat.App/Services/AppService.cs:158-240 | returns the outcome of ZipStepOf for the store as it was and leaves the store as ZipStepOf specifies |
| AppService.AppService.ProcessArchives | src/Stat.App/Services/AppService.cs:50-57 | the foreach ends in the state ProcessListed specifies: the grown ledger, or the first fault |
| AppService.AppService.ProcessNewFiles | src/Stat.App/Services/AppService.cs:33-71 | the run saw a "*.zip" listing of the store, and the store and outcome afterwards are those of RunOf over that listing |
| AppService.AbortIsFinal | src/Stat.App/Services/AppService.cs:50-59 | after the first escaping fault nothing more happens |
| AppService.PdfDestinationUnderRoot | src/Stat.App/Services/AppService.cs:134-141 | every document destination is in the bucket under by-po/, whatever the PO number and file name hold |
| AppService.ZipStepOnlyAddsCopies | src/Stat.App/Services/AppService.cs:158-240 | processing an archive never changes or removes an existing object; it only adds objects under by-po/ |
| AppService.ProcessListedOnlyAddsCopies | src/Stat.App/Services/AppService.cs:50-57 | the same holds for the whole foreach |
| AppService.ItemsWritesOnlyAddCopies | src/Stat.App/Services/AppService.cs:197-220 | the same holds for the documents of one manifest |
| AppService.AttachmentWritesOnlyAddCopies | src/Stat.App/Services/AppService.cs:207-218 | the same holds for the documents of one CSV item |
| AppService.PdfWriteOnlyAddsCopies | src/Stat.App/Services/AppService.cs:132-145 | the same holds for one document |
| AppService.PlacedDocumentStays | src/Stat.App/Services/AppService.cs:197-220 | a document whose plan is a placed copy is present at its destination once the whole manifest is processed |
| AppService.RecordedCopyIsStored | src/Stat.App/Services/AppService.cs:193-220 | a document the ledger records as Success or UnknownPONumber is in the store at by-po/<resolved PO>/<file name> once its manifest is processed |
| AppService.PlacedAttachmentStays | src/Stat.App/Services/AppService.cs:207-218 | the same, over one item's attachments |
| AppService.Unseen | src/Stat.App/Services/AppService.cs:50-52 | the names the driver processes are exactly the listed names not yet in the ledger |
| AppService.UnseenKeepsOrder | src/Stat.App/Services/AppService.cs:50-52 | those names are an order-preserving subsequence of the listing, and each keeps its multiplicity there |
| AppService.SeenArchivesAreSkipped | src/Stat.App/Services/AppService.cs:50-57 | the foreach over the listing equals the foreach over its unseen names |
| AppService.AllSeenChangesNothing | src/Stat.App/Services/AppService.cs:50-57 | a listing the ledger already covers fetches, writes and appends nothing |
| AppService.LedgerGrowsInListingOrder | src/Stat.App/Services/AppService.cs:50-57 | loaded records stay in place; appended records name the unseen listed archives in listing order; none is UnableToReadZip |
| AppService.CompletedRunStoresLedger | src/Stat.App/Services/AppService.cs:33-71 | a completed run stores the serialized final ledger under the ledger id, and otherwise only adds document copies |
| AppService.CompletedRunLedger | src/Stat.App/Services/AppService.cs:39-59 | the stored ledger is the loaded ledger followed by one record per unseen listed archive, in listing order |
| AppService.AbortedRunKeepsStoredLedger | src/Stat.App/Services/AppService.cs:33-71 | when the ledger key is not under by-po/, an aborted run leaves the stored ledger object as it was (an absent one stays absent) |
| AppService.RerunChangesNothing | src/Stat.App/Services/AppService.cs:33-71 | after a completed run, a rerun whose listing holds only names the first run listed (no new archive, and no copy whose key matches *.zip) leaves the store and the ledger unchanged, given a codec that round-trips the ledger |
| AppService.CopyCanBeRelisted | src/Stat.App/Services/AppService.cs:43-48 | a placed copy whose key matches "*.zip" can be on the next run's "*.zip" listing, under a name that fetches it back |
| AppService.EscapingArchiveAbortsRun | src/Stat.App/Services/AppService.cs:50-59 | an unseen listed archive whose processing escapes aborts the run with that same fault, before the save and with the store unchanged |
| AppService.BadManifestAbortsRun | src/Stat.App/Services/AppService.cs:94-108 | an unseen listed archive whose manifest cannot be read or parsed aborts the run with UnreadableEntry or CsvParseFault, and nothing is written |
| AppService.CopiedArchiveAbortsRun | src/Stat.App/Services/AppService.cs:33-71 | an unseen listed name whose bytes are not an archive aborts the run with InvalidArchive before the save, and the store stays as it was |

## Left out

- Logging, the stopwatch and elapsed-time report, and cancellation tokens: no effect on state.
- Concurrency: `Parallel.ForEachAsync` with its cap of 10 runs the items one after another here, and the concurrent bag becomes manifest order. `AggregateIgnoresOrder` shows that the status does not depend on that order.
- AppService.AppService.ProcessZip: the record list is in manifest order, not the arrival order of the concurrent bag.
- AppService.AppService.ProcessZip: when two concurrent attachments share a destination, the model keeps the first in manifest order, not whichever upload finishes first.
- Shared reads of one `ZipArchive` from several workers are not modelled.
- `ProcessedPdf.ExtractedOn` (a `DateTime.Now` timestamp) is not modelled.
- AppService.RerunChangesNothing: the ledger is byte-identical only because the model drops the timestamp. Each load re-creates the timestamp, since the property is get-only, so in the source a rerun's ledger can differ in those values.
- The ZIP format, the CsvHelper reader and System.Text.Json are opaque functions (`ArchiveFormats`, `LedgerCodec`). Their parsing, trimming and header matching are not modelled; only their success or failure and their results are.
- The value of `ProcessingMetadata.Filename` is not part of the source files here. It is a parameter (`ledgerFilename`).
- Listing pagination: ListAsync reads only the first page of ListObjectsV2, up to 1000 keys, and the model admits any such page. The order S3 returns keys in is not modelled.
- Network and service failures become the set `faults` of object ids whose requests fail. Listing itself never fails in the model.
- AppService.RunOf: a read and a write of one id fail or succeed together, so a ledger that loaded always saves. The source's save can still throw at the end of a run after the copies were written, and the next run then processes those archives again; the model does not capture that path.
- Windows paths: `Path` follows its Unix rules, where '/' is the only separator.
- Case-insensitive matching folds ASCII letters only. Culture-specific and Unicode case folding are not modelled.
- The regular expression is modelled only for the patterns `FilterFilesByPattern` builds. `$` matching before a final newline is not modelled.
- AwsS3BlobStorage.RegexMatchIsGlobMatch: in the model, `.` and `.*` also match a line feed. .NET's `.` does not, so for a key holding `\n` (such as "a\nb.zip") the source rejects a name the model accepts.
- AwsS3BlobStorage.RegexMatchIsGlobMatch: a Dafny `char` is a Unicode scalar value, but a .NET string is a sequence of UTF-16 code units. The source's `.` (from `?`) matches one code unit, so the source rejects "😀.zip" against "?.zip" while the model accepts it. The same holds for every string the model handles: lengths and indices count scalar values, not code units. `*.zip`, the only pattern the core uses, is not affected.
- AppService.IsCsvEntry: `string.EndsWith(string)` compares with the current culture. The model compares the last characters exactly.
- `IDisposable`, client construction and the S3 options are not modelled.
- The streams are byte sequences. `CopyToMemoryStreamAsync` copies them unchanged, so it is not modelled separately.
