/** Shared vocabulary of the model: failure-carrying wrappers, bytes, the
    faults that the pipeline lets escape as exceptions, and the character
    predicates of the .NET base library that the core relies on. */
module Common {

  datatype Option<+T> = None | Some(value: T)

  datatype Result<+T, +E> = Ok(value: T) | Err(error: E)

  datatype Outcome<+E> = Pass | Fail(error: E)

  newtype byte = x: int | 0 <= x < 256

  type Bytes = seq<byte>

  /** The exceptions that are not caught where they arise and therefore
      leave the operation that raised them. */
  datatype Fault =
    | StorageFault            // any storage error other than "not found" / "precondition failed"
    | NullArchiveStream       // ZipArchive constructed over a null stream
    | InvalidArchive          // the bytes are not a readable zip archive
    | UnreadableEntry         // an archive entry whose stream cannot be opened or read
    | CsvParseFault           // the CSV reader or the class map rejected the manifest
    | LedgerDeserializeFault  // the stored ledger is not a JSON array of archive records

  /** Invariant-culture lower-casing; only ASCII letters are folded. */
  function ToLower(c: char): char
  {
    if 'A' <= c <= 'Z' then (c as int + 32) as char else c
  }

  /** Case-insensitive character equality, as used by RegexOptions.IgnoreCase
      and StringComparison.InvariantCultureIgnoreCase. */
  predicate SameCharIgnoringCase(a: char, b: char)
  {
    ToLower(a) == ToLower(b)
  }

  predicate EqualsIgnoreCase(a: string, b: string)
  {
    |a| == |b| && forall i :: 0 <= i < |a| ==> SameCharIgnoringCase(a[i], b[i])
  }

  /** char.IsWhiteSpace: the Unicode space separators, the line and
      paragraph separators, and U+0009..U+000D, U+0085, U+00A0. */
  predicate IsWhiteSpace(c: char)
  {
    ('\t' <= c <= '\r') || c == ' ' || c == '\U{0085}' || c == '\U{00A0}'
    || c == '\U{1680}' || ('\U{2000}' <= c <= '\U{200A}')
    || c == '\U{2028}' || c == '\U{2029}' || c == '\U{202F}' || c == '\U{205F}'
    || c == '\U{3000}'
  }

  /** string.IsNullOrWhiteSpace on a non-null string. */
  predicate IsNullOrWhiteSpace(s: string)
  {
    forall i :: 0 <= i < |s| ==> IsWhiteSpace(s[i])
  }

  predicate EndsWith(s: string, suffix: string)
  {
    |suffix| <= |s| && s[|s| - |suffix|..] == suffix
  }

  predicate StartsWith(s: string, prefix: string)
  {
    |prefix| <= |s| && s[..|prefix|] == prefix
  }

  /** The elements of a sequence are pairwise distinct. */
  predicate Distinct<T(==)>(s: seq<T>)
  {
    forall i, j :: 0 <= i < j < |s| ==> s[i] != s[j]
  }

  /** `sub` is an order-preserving subsequence of `s`. */
  predicate IsSubsequence<T(==)>(sub: seq<T>, s: seq<T>)
    decreases |s|
  {
    if sub == [] then true
    else if s == [] then false
    else if sub[0] == s[0] then IsSubsequence(sub[1..], s[1..])
    else IsSubsequence(sub, s[1..])
  }

  /** Appending one element to a sequence keeps a subsequence of it a
      subsequence, with or without that element appended too. */
  lemma {:induction false} SubsequenceSnoc<T>(sub: seq<T>, s: seq<T>, x: T)
    requires IsSubsequence(sub, s)
    ensures IsSubsequence(sub + [x], s + [x])
    ensures IsSubsequence(sub, s + [x])
    decreases |s|
  {
    if s == [] {
      assert sub == [];
      assert ([x] + [])[1..] == [];
    } else if sub == [] {
      SubsequenceSnoc(sub, s[1..], x);
      assert (s + [x])[1..] == s[1..] + [x];
    } else if sub[0] == s[0] {
      SubsequenceSnoc(sub[1..], s[1..], x);
      assert (sub + [x])[1..] == sub[1..] + [x];
      assert (s + [x])[1..] == s[1..] + [x];
    } else {
      SubsequenceSnoc(sub, s[1..], x);
      assert (s + [x])[1..] == s[1..] + [x];
    }
  }

  /** Enumerable.FirstOrDefault with a predicate, as an index: the first
      element satisfying `p`, if any. */
  function FindFirst<T>(s: seq<T>, p: T -> bool): (k: Option<nat>)
    ensures k.None? ==> forall i :: 0 <= i < |s| ==> !p(s[i])
    ensures k.Some? ==> k.value < |s| && p(s[k.value]) && forall i :: 0 <= i < k.value ==> !p(s[i])
  {
    if s == [] then None
    else if p(s[0]) then Some(0)
    else
      var rest := FindFirst(s[1..], p);
      if rest.Some? then Some(rest.value + 1) else None
  }

  /** Map every element through a partial function; None as soon as one
      element has no image. */
  function MapAll<A, B>(xs: seq<A>, f: A -> Option<B>): (ys: Option<seq<B>>)
    ensures ys.Some? <==> forall i :: 0 <= i < |xs| ==> f(xs[i]).Some?
    ensures ys.Some? ==> |ys.value| == |xs| && forall i :: 0 <= i < |xs| ==> f(xs[i]) == Some(ys.value[i])
  {
    if xs == [] then Some([])
    else
      var init := MapAll(xs[..|xs| - 1], f);
      var last := f(xs[|xs| - 1]);
      if init.Some? && last.Some? then Some(init.value + [last.value]) else None
  }
}
