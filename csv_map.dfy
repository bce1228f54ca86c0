/** The CSV class map (CsvMap): which columns of a manifest record feed a
    CsvItem, and how the attachment-list cell is split into attachments.
    Paths follow the Unix rules of System.IO.Path, where '/' is the only
    directory separator. */
module CsvMap {
  import opened Common

  const PONumberColumnName: string := "PO Number"
  const AttachmentListColumnName: string := "Attachment List"

  const AttachmentSeparator: char := ','
  const DirectorySeparator: char := '/'

  datatype CsvItemAttachment = CsvItemAttachment(path: string, filename: string)

  datatype CsvItem = CsvItem(poNumber: string, attachments: seq<CsvItemAttachment>)

  /** One manifest record as the CSV reader hands it over: header name to
      (already trimmed) field value. */
  type CsvRow = map<string, string>

  // ---------------------------------------------------------------------
  // String.Split and StringSplitOptions.RemoveEmptyEntries

  /** String.Split(sep) with no options: the maximal separator-free pieces,
      including empty ones. */
  function Split(s: string, sep: char): (parts: seq<string>)
    ensures |parts| >= 1
    ensures forall i :: 0 <= i < |parts| ==> sep !in parts[i]
    ensures parts[0] == [] <==> (s == [] || s[0] == sep)
    decreases |s|
  {
    if s == [] then [[]]
    else
      var rest := Split(s[1..], sep);
      if s[0] == sep then [[]] + rest
      else [[s[0]] + rest[0]] + rest[1..]
  }

  /** string.Join(sep, parts). */
  function Join(parts: seq<string>, sep: char): string
    requires |parts| >= 1
  {
    if |parts| == 1 then parts[0] else parts[0] + [sep] + Join(parts[1..], sep)
  }

  /** A separator-free piece followed by the separator comes off whole. */
  lemma {:induction false} SplitAfterPiece(piece: string, sep: char, rest: string)
    requires sep !in piece
    ensures Split(piece + [sep] + rest, sep) == [piece] + Split(rest, sep)
    ensures Split(piece, sep) == [piece]
    decreases |piece|
  {
    if piece != [] {
      assert (piece + [sep] + rest)[1..] == piece[1..] + [sep] + rest;
      SplitAfterPiece(piece[1..], sep, rest);
      assert piece == [piece[0]] + piece[1..];
    }
  }

  /** Splitting loses nothing: joining the pieces gives the field back. */
  lemma {:induction false} JoinSplit(s: string, sep: char)
    ensures Join(Split(s, sep), sep) == s
    decreases |s|
  {
    if s != [] {
      var rest := Split(s[1..], sep);
      JoinSplit(s[1..], sep);
      if s[0] == sep {
        assert Split(s, sep) == [[]] + rest;
        assert s == [] + [sep] + s[1..];
      } else {
        var parts := Split(s, sep);
        assert parts == [[s[0]] + rest[0]] + rest[1..];
        if |rest| == 1 {
          assert s == [s[0]] + rest[0];
        } else {
          assert Join(rest, sep) == rest[0] + [sep] + Join(rest[1..], sep);
          assert parts[1..] == rest[1..];
          assert s == [s[0]] + s[1..];
        }
      }
    }
  }

  /** StringSplitOptions.RemoveEmptyEntries: drop the empty pieces only
      (pieces made of white space stay). */
  function RemoveEmpty(parts: seq<string>): (kept: seq<string>)
    ensures forall i :: 0 <= i < |kept| ==> kept[i] != []
    ensures forall p :: p in kept <==> p in parts && p != []
    ensures IsSubsequence(kept, parts)
    ensures forall p :: p != [] ==> multiset(kept)[p] == multiset(parts)[p]
  {
    if parts == [] then []
    else
      assert parts == [parts[0]] + parts[1..];
      if parts[0] == [] then RemoveEmpty(parts[1..])
      else [parts[0]] + RemoveEmpty(parts[1..])
  }

  /** The attachment paths a cell holds, in cell order. */
  function NonEmptySegments(values: string): seq<string>
  {
    RemoveEmpty(Split(values, AttachmentSeparator))
  }

  /** An independent count of the non-empty comma-separated segments: the
      number of positions where a run of non-comma characters ends. */
  function SegmentEnds(s: string): nat
  {
    if s == [] then 0
    else
      (if s[0] != AttachmentSeparator && (|s| == 1 || s[1] == AttachmentSeparator) then 1 else 0)
      + SegmentEnds(s[1..])
  }

  lemma {:induction false} NonEmptySegmentsCount(s: string)
    ensures |NonEmptySegments(s)| == SegmentEnds(s)
    decreases |s|
  {
    if s != [] {
      NonEmptySegmentsCount(s[1..]);
      var rest := Split(s[1..], AttachmentSeparator);
      if s[0] != AttachmentSeparator {
        var parts := Split(s, AttachmentSeparator);
        assert parts[1..] == rest[1..];
        assert RemoveEmpty(rest) == (if rest[0] == [] then RemoveEmpty(rest[1..]) else [rest[0]] + RemoveEmpty(rest[1..]));
      }
    }
  }

  // ---------------------------------------------------------------------
  // System.IO.Path on Unix

  /** Index of the last directory separator, or -1. */
  function LastSeparator(p: string): (k: int)
    ensures -1 <= k < |p|
    ensures k >= 0 ==> p[k] == DirectorySeparator
    ensures forall i :: k < i < |p| ==> p[i] != DirectorySeparator
  {
    if p == [] then -1
    else if p[|p| - 1] == DirectorySeparator then |p| - 1
    else LastSeparator(p[..|p| - 1])
  }

  /** Path.GetFileName: everything after the last separator. */
  function GetFileName(p: string): (name: string)
    ensures |name| <= |p| && name == p[|p| - |name|..]
  {
    p[LastSeparator(p) + 1..]
  }

  /** Step back over trailing separators, but never into the root. */
  function TrimSeparatorsBefore(p: string, end: nat, root: nat): (e: nat)
    requires root <= end <= |p|
    ensures root <= e <= end
    ensures forall i :: e <= i < end ==> p[i] == DirectorySeparator
    ensures e == root || p[e - 1] != DirectorySeparator
    decreases end
  {
    if end > root && p[end - 1] == DirectorySeparator then TrimSeparatorsBefore(p, end - 1, root) else end
  }

  /** PathInternal.NormalizeDirectorySeparators: every run of separators
      becomes one. */
  function CollapseSeparators(s: string): string
  {
    if |s| >= 2 && s[0] == DirectorySeparator && s[1] == DirectorySeparator then CollapseSeparators(s[1..])
    else if s == [] then []
    else [s[0]] + CollapseSeparators(s[1..])
  }

  /** Path.GetDirectoryName: null for "" and for the bare root "/"; otherwise
      the path up to its last separator, trailing separators removed (the
      root kept) and separator runs collapsed; "" when there is no
      separator. */
  function GetDirectoryName(p: string): (directory: Option<string>)
    ensures directory.None? <==> p == [] || p == [DirectorySeparator]
    ensures DirectorySeparator !in p && p != [] ==> directory == Some([])
  {
    if p == [] then None
    else
      var root := if p[0] == DirectorySeparator then 1 else 0;
      if |p| <= root then None
      else
        var k := LastSeparator(p);
        var end := if k < root then root else k;
        Some(CollapseSeparators(p[..TrimSeparatorsBefore(p, end, root)]))
  }

  /** One attachment from one non-empty segment. */
  function ToAttachment(segment: string): CsvItemAttachment
  {
    var directory := GetDirectoryName(segment);
    CsvItemAttachment(if directory.Some? then directory.value else "", GetFileName(segment))
  }

  /** ParseAttachmentsToList: a null cell gives no attachments; otherwise one
      attachment per non-empty comma-separated segment, in cell order. */
  function ParseAttachmentsToList(values: Option<string>): (attachments: seq<CsvItemAttachment>)
    ensures values.None? ==> attachments == []
    ensures values.Some? ==> |attachments| == |NonEmptySegments(values.value)| == SegmentEnds(values.value)
    ensures values.Some? ==>
      forall i :: 0 <= i < |attachments| ==> attachments[i] == ToAttachment(NonEmptySegments(values.value)[i])
  {
    match values
    case None => []
    case Some(v) =>
      var segments := NonEmptySegments(v);
      NonEmptySegmentsCount(v);
      seq(|segments|, i requires 0 <= i < |segments| => ToAttachment(segments[i]))
  }

  /** The class map: "PO Number" feeds the PO number and "Attachment List"
      the attachments; a record missing either column is rejected, as the
      reader's header validation does. */
  function MapRow(row: CsvRow): (item: Option<CsvItem>)
    ensures item.Some? <==> PONumberColumnName in row && AttachmentListColumnName in row
    ensures item.Some? ==> item.value.poNumber == row["PO Number"]
    ensures item.Some? ==> item.value.attachments == ParseAttachmentsToList(Some(row["Attachment List"]))
  {
    if PONumberColumnName in row && AttachmentListColumnName in row then
      Some(CsvItem(row[PONumberColumnName], ParseAttachmentsToList(Some(row[AttachmentListColumnName]))))
    else None
  }

  // ---------------------------------------------------------------------
  // Properties of the attachment split

  /** The filename is the segment's last component: it holds no separator,
      and the segment is some prefix that is empty or ends in a separator,
      followed by the filename. */
  lemma FileNameIsLastComponent(segment: string)
    ensures DirectorySeparator !in ToAttachment(segment).filename
    ensures var f := ToAttachment(segment).filename;
            |f| <= |segment| && segment == segment[..|segment| - |f|] + f
            && (|segment| == |f| || segment[|segment| - |f| - 1] == DirectorySeparator)
  {
    assert ToAttachment(segment).filename == GetFileName(segment);
    LastComponent(segment);
  }

  lemma LastComponent(p: string)
    ensures DirectorySeparator !in GetFileName(p)
    ensures var f := GetFileName(p);
            |f| <= |p| && p == p[..|p| - |f|] + f && (|p| == |f| || p[|p| - |f| - 1] == DirectorySeparator)
  {
    var k := LastSeparator(p);
    var f := p[k + 1..];
    assert f == GetFileName(p);
    assert |p| - |f| == k + 1;
    assert p == p[..k + 1] + f;
    forall j | 0 <= j < |f|
      ensures f[j] != DirectorySeparator
    {
      assert f[j] == p[k + 1 + j];
    }
  }

  /** A segment with no separator is a bare filename with an empty path. */
  lemma BareFileName(segment: string)
    requires segment != [] && DirectorySeparator !in segment
    ensures ToAttachment(segment) == CsvItemAttachment("", segment)
  {
    assert LastSeparator(segment) == -1;
    assert CollapseSeparators([]) == [];
  }

  /** A collapse leaves a path without separator runs as it is. */
  lemma {:induction false} CollapseWithoutSeparators(s: string)
    requires DirectorySeparator !in s
    ensures CollapseSeparators(s) == s
  {
    if s != [] {
      CollapseWithoutSeparators(s[1..]);
    }
  }

  /** "dir/name" splits into Path "dir" and Filename "name" when neither
      part holds a separator. */
  lemma DirectoryAndFileName(dir: string, name: string)
    requires dir != [] && DirectorySeparator !in dir && DirectorySeparator !in name
    ensures ToAttachment(dir + [DirectorySeparator] + name) == CsvItemAttachment(dir, name)
  {
    var p := dir + [DirectorySeparator] + name;
    assert p[0] == dir[0];
    assert LastSeparator(p) == |dir| by {
      assert p[|dir|] == DirectorySeparator;
      assert forall i :: |dir| < i < |p| ==> p[i] == name[i - |dir| - 1];
      LastSeparatorIsLast(p, |dir|);
    }
    assert p[..|dir|] == dir;
    assert TrimSeparatorsBefore(p, |dir|, 0) == |dir| by {
      assert p[|dir| - 1] == dir[|dir| - 1];
    }
    CollapseWithoutSeparators(dir);
    assert p[|dir| + 1..] == name;
  }

  lemma {:induction false} LastSeparatorIsLast(p: string, k: nat)
    requires k < |p| && p[k] == DirectorySeparator
    requires forall i :: k < i < |p| ==> p[i] != DirectorySeparator
    ensures LastSeparator(p) == k
  {
    if k < |p| - 1 {
      LastSeparatorIsLast(p[..|p| - 1], k);
    }
  }

  /** Splitting at one separator splits the two sides independently. */
  lemma {:induction false} SplitConcat(x: string, sep: char, y: string)
    ensures Split(x + [sep] + y, sep) == Split(x, sep) + Split(y, sep)
    decreases |x|
  {
    if x == [] {
      assert x + [sep] + y == [sep] + y;
    } else {
      assert (x + [sep] + y)[1..] == x[1..] + [sep] + y;
      SplitConcat(x[1..], sep, y);
    }
  }

  /** Only empty segments are dropped: any non-empty segment between two
      commas, white space only or not, yields its own attachment. */
  lemma WhitespaceSegmentIsKept(before: string, segment: string, after: string)
    requires segment != [] && AttachmentSeparator !in segment
    ensures ToAttachment(segment) in
      ParseAttachmentsToList(Some(before + [AttachmentSeparator] + segment + [AttachmentSeparator] + after))
  {
    var v := before + [AttachmentSeparator] + segment + [AttachmentSeparator] + after;
    assert v == before + [AttachmentSeparator] + (segment + [AttachmentSeparator] + after);
    SplitConcat(before, AttachmentSeparator, segment + [AttachmentSeparator] + after);
    SplitAfterPiece(segment, AttachmentSeparator, after);
    assert segment in Split(v, AttachmentSeparator);
    var segments := NonEmptySegments(v);
    assert segment in segments;
    var i :| 0 <= i < |segments| && segments[i] == segment;
    assert ParseAttachmentsToList(Some(v))[i] == ToAttachment(segment);
  }
}
