/** The ledger records (ProcessedPdf, ProcessedZip) and the ledger itself,
    the list that ProcessingMetadata is. The extraction timestamp of a
    ProcessedPdf is not modelled. */
module Metadata {

  /** One document of an archive and what became of it. */
  datatype ProcessedPdf = ProcessedPdf(pdfFilename: string, status: string)

  /** One archive, its aggregate status and its documents. */
  datatype ProcessedZip = ProcessedZip(zipFilename: string, status: string, pdfFiles: seq<ProcessedPdf>)

  /** The processing ledger: one record per archive, in the order they were
      appended. */
  type ProcessingMetadata = seq<ProcessedZip>

  /** The archive names the ledger already holds (the HashSet of the driver). */
  function ZipNames(ledger: ProcessingMetadata): (names: set<string>)
    ensures forall i :: 0 <= i < |ledger| ==> ledger[i].zipFilename in names
    ensures forall n :: n in names ==> exists i :: 0 <= i < |ledger| && ledger[i].zipFilename == n
  {
    set i | 0 <= i < |ledger| :: ledger[i].zipFilename
  }

  /** The archive names of a ledger, in ledger order. */
  function ZipNameList(ledger: ProcessingMetadata): (names: seq<string>)
    ensures |names| == |ledger|
    ensures forall i :: 0 <= i < |ledger| ==> names[i] == ledger[i].zipFilename
  {
    seq(|ledger|, i requires 0 <= i < |ledger| => ledger[i].zipFilename)
  }
}
