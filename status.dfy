/** The status codes that the pipeline writes into the ledger
    (ProcessingStatusConsts). The compound codes are built from the base
    codes exactly as the constants are interpolated in the source. */
module ProcessingStatus {

  const Error: string := "Error"

  const UnableToReadZipError: string := Error + ":UnableToReadZip"
  const CsvNotFoundError: string := Error + ":CsvNotFound"
  const PdfNotFoundError: string := Error + ":PdfNotFound"

  const Partial: string := "Partial"

  const UnknownPONumber: string := Partial + ":UnknownPONumber"

  const Success: string := "Success"

  /** All seven codes, in declaration order. */
  function AllCodes(): seq<string>
  {
    [Error, UnableToReadZipError, CsvNotFoundError, PdfNotFoundError, Partial, UnknownPONumber, Success]
  }

  /** The status family of a code: the part before its first ':' (the whole
      code when it has none). */
  function BaseCode(code: string): (r: string)
    ensures |r| <= |code| && r == code[..|r|]
    ensures ':' !in r
    ensures |r| < |code| ==> code[|r|] == ':'
  {
    if code == [] then []
    else if code[0] == ':' then []
    else [code[0]] + BaseCode(code[1..])
  }

  /** The three base codes are exactly "Error", "Partial" and "Success", and
      every compound code belongs to the family of the base code it is built
      from. */
  lemma {:induction false} CompoundCodesExtendTheirBase()
    ensures BaseCode(Error) == "Error" && BaseCode(Partial) == "Partial" && BaseCode(Success) == "Success"
    ensures BaseCode(UnableToReadZipError) == Error
    ensures BaseCode(CsvNotFoundError) == Error
    ensures BaseCode(PdfNotFoundError) == Error
    ensures BaseCode(UnknownPONumber) == Partial
  {
    BaseOfCompound(Error, ":UnableToReadZip");
    BaseOfCompound(Error, ":CsvNotFound");
    BaseOfCompound(Error, ":PdfNotFound");
    BaseOfCompound(Partial, ":UnknownPONumber");
    BaseOfCompound(Success, ":");
  }

  /** Appending a ':'-led suffix to a colon-free base leaves its family
      unchanged. */
  lemma {:induction false} BaseOfCompound(base: string, suffix: string)
    requires ':' !in base
    requires |suffix| > 0 && suffix[0] == ':'
    ensures BaseCode(base + suffix) == base
    ensures BaseCode(base) == base
  {
    if base != [] {
      assert (base + suffix)[1..] == base[1..] + suffix;
      BaseOfCompound(base[1..], suffix);
    }
  }

  /** The seven codes are non-empty (so none is the "" that a fresh record
      carries) and pairwise distinct; in particular the partial-success code
      for a missing PO number is not Success. */
  lemma CodesDistinctAndNonEmpty()
    ensures forall i :: 0 <= i < |AllCodes()| ==> AllCodes()[i] != ""
    ensures forall i, j :: 0 <= i < j < |AllCodes()| ==> AllCodes()[i] != AllCodes()[j]
    ensures UnknownPONumber != Success
  {
    assert CsvNotFoundError[6] != PdfNotFoundError[6];
  }
}
