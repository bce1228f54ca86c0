/** The S3 blob storage adapter (AwsS3BlobStorage) over an abstract object
    store: key building, glob filtering of listed keys, and the get / put /
    list operations with their "absent" and "no overwrite" semantics.
    System.IO.Path follows its Unix rules, where '/' is the only directory
    separator; case-insensitive comparison folds ASCII letters only. */
module AwsS3BlobStorage {
  import opened Common

  // ---------------------------------------------------------------------
  // Keys

  /** Where an object lives: a bucket and a key. */
  datatype ObjectId = ObjectId(container: string, key: string)

  /** string.Replace("\\", "/"). */
  function ReplaceBackslashes(s: string): string
  {
    seq(|s|, i requires 0 <= i < |s| => if s[i] == '\\' then '/' else s[i])
  }

  lemma ReplaceBackslashesOfConcat(a: string, b: string)
    ensures ReplaceBackslashes(a + b) == ReplaceBackslashes(a) + ReplaceBackslashes(b)
  {
  }

  /** Path.Join(path, fileName): either side alone when the other is empty;
      otherwise one separator between them unless one is already there. */
  function PathJoin(path: string, fileName: string): (joined: string)
    ensures StartsWith(joined, path) && EndsWith(joined, fileName)
    ensures |path| + |fileName| <= |joined| <= |path| + |fileName| + 1
  {
    if path == [] then fileName
    else if fileName == [] then path
    else if path[|path| - 1] == '/' || fileName[0] == '/' then path + fileName
    else path + "/" + fileName
  }

  /** CreateKey: the object key of a file under a folder path. */
  function CreateKey(fileName: string, path: string): (key: string)
    ensures '\\' !in key
    ensures path == [] ==> key == ReplaceBackslashes(fileName)
    ensures |path| > 0 && path[|path| - 1] == '/' ==> key == ReplaceBackslashes(path + fileName)
    ensures path != [] && fileName != [] && path[|path| - 1] != '/' && fileName[0] != '/' ==>
      key == ReplaceBackslashes(path + "/" + fileName)
  {
    var joined := PathJoin(path, fileName);
    var key := ReplaceBackslashes(joined);
    assert forall i :: 0 <= i < |key| ==> key[i] != '\\';
    key
  }

  /** A key built under a folder path that ends in '/' and has no
      backslash starts with that path. */
  lemma KeyUnderFolder(fileName: string, path: string)
    requires |path| > 0 && path[|path| - 1] == '/' && '\\' !in path
    ensures StartsWith(CreateKey(fileName, path), path)
  {
    ReplaceBackslashesOfConcat(path, fileName);
    assert ReplaceBackslashes(path) == path;
  }

  // ---------------------------------------------------------------------
  // Wildcard patterns: the reference meaning

  /** What a search pattern means: '*' matches any run of characters, '?'
      exactly one, every other character itself ignoring case; the whole
      name must be matched. */
  predicate GlobMatch(pattern: string, name: string)
    decreases |pattern|, |name|
  {
    if pattern == [] then name == []
    else if pattern[0] == '*' then
      GlobMatch(pattern[1..], name) || (name != [] && GlobMatch(pattern, name[1..]))
    else if pattern[0] == '?' then
      name != [] && GlobMatch(pattern[1..], name[1..])
    else
      name != [] && SameCharIgnoringCase(pattern[0], name[0]) && GlobMatch(pattern[1..], name[1..])
  }

  predicate IsWildcardFree(pattern: string)
  {
    '*' !in pattern && '?' !in pattern
  }

  /** A pattern without wildcards matches exactly the names equal to it
      ignoring case (in particular only names of its own length). */
  lemma {:induction false} LiteralPatternMatch(pattern: string, name: string)
    requires IsWildcardFree(pattern)
    ensures GlobMatch(pattern, name) <==> EqualsIgnoreCase(pattern, name)
    decreases |pattern|
  {
    if pattern != [] && name != [] {
      LiteralPatternMatch(pattern[1..], name[1..]);
      if EqualsIgnoreCase(pattern[1..], name[1..]) && SameCharIgnoringCase(pattern[0], name[0]) {
        assert forall i :: 1 <= i < |pattern| ==> pattern[i] == pattern[1..][i - 1];
      }
    }
  }

  /** '*' followed by a literal matches exactly the names ending in that
      literal ignoring case; "*.zip" selects the names ending in ".zip". */
  lemma {:induction false} StarThenLiteralMatch(literal: string, name: string)
    requires IsWildcardFree(literal)
    ensures GlobMatch(['*'] + literal, name) <==>
      |literal| <= |name| && EqualsIgnoreCase(literal, name[|name| - |literal|..])
    decreases |name|
  {
    var pattern := ['*'] + literal;
    assert pattern[1..] == literal;
    LiteralPatternMatch(literal, name);
    if name != [] {
      StarThenLiteralMatch(literal, name[1..]);
      if |literal| <= |name| - 1 {
        assert name[1..][|name| - 1 - |literal|..] == name[|name| - |literal|..];
      }
    }
  }

  lemma ZipPatternMatch(name: string)
    ensures GlobMatch("*.zip", name) <==> |name| >= 4 && EqualsIgnoreCase(".zip", name[|name| - 4..])
  {
    assert "*.zip" == ['*'] + ".zip";
    StarThenLiteralMatch(".zip", name);
  }

  // ---------------------------------------------------------------------
  // Wildcard patterns: the regular expression the source builds

  /** The regular-expression metacharacters Regex.Escape protects. */
  predicate IsRegexMetachar(c: char)
  {
    c in {'\t', '\n', '\r', '\U{000C}', ' ', '#', '$', '(', ')', '*', '+', '.', '?', '[', '\\', '^', '{', '|'}
  }

  /** The characters that are regular-expression syntax outside a character
      class when no pattern-whitespace option is set; white space and '#'
      are then ordinary characters. */
  predicate IsRegexSyntaxChar(c: char)
  {
    c in {'$', '(', ')', '*', '+', '.', '?', '[', '\\', '^', '{', '|'}
  }

  /** Regex.Escape of one character. */
  function EscapeChar(c: char): string
  {
    if c == '\t' then "\\t"
    else if c == '\n' then "\\n"
    else if c == '\r' then "\\r"
    else if c == '\U{000C}' then "\\f"
    else if IsRegexMetachar(c) then ['\\', c]
    else [c]
  }

  /** Regex.Escape. */
  function Escape(s: string): (escaped: string)
    ensures |s| <= |escaped| <= 2 * |s|
  {
    if s == [] then [] else EscapeChar(s[0]) + Escape(s[1..])
  }

  /** string.Replace(from, to): every occurrence, left to right, without
      overlap. */
  function ReplaceAll(s: string, from: string, to: string): string
    requires from != []
    decreases |s|
  {
    if s == [] then []
    else if StartsWith(s, from) then to + ReplaceAll(s[|from|..], from, to)
    else [s[0]] + ReplaceAll(s[1..], from, to)
  }

  /** The pattern text FilterFilesByPattern hands to the Regex constructor. */
  function RegexPattern(searchPattern: string): (regex: string)
    ensures |regex| >= 2 && regex[0] == '^' && regex[|regex| - 1] == '$'
  {
    "^" + ReplaceAll(ReplaceAll(Escape(searchPattern), "\\*", ".*"), "\\?", ".") + "$"
  }

  /** The atoms of the regular expressions this adapter builds. */
  datatype RegexToken = AnyRun | AnyChar | Literal(c: char)

  /** The character a backslash escape stands for, when it is one the
      parser below supports. */
  function Unescape(c: char): Option<char>
  {
    if c == 't' then Some('\t')
    else if c == 'n' then Some('\n')
    else if c == 'r' then Some('\r')
    else if c == 'f' then Some('\U{000C}')
    else if IsRegexMetachar(c) then Some(c)
    else None
  }

  function Prepend(t: RegexToken, rest: Option<seq<RegexToken>>): Option<seq<RegexToken>>
  {
    if rest.Some? then Some([t] + rest.value) else None
  }

  /** .NET regular-expression syntax restricted to escapes, '.', ".*" and
      plain characters; anything else is reported as unsupported. */
  function ParseRegexBody(r: string): Option<seq<RegexToken>>
    decreases |r|
  {
    if r == [] then Some([])
    else if r[0] == '\\' then
      if |r| >= 2 && Unescape(r[1]).Some? then Prepend(Literal(Unescape(r[1]).value), ParseRegexBody(r[2..]))
      else None
    else if r[0] == '.' then
      if |r| >= 2 && r[1] == '*' then Prepend(AnyRun, ParseRegexBody(r[2..]))
      else Prepend(AnyChar, ParseRegexBody(r[1..]))
    else if IsRegexSyntaxChar(r[0]) then None
    else Prepend(Literal(r[0]), ParseRegexBody(r[1..]))
  }

  /** "^body$". */
  function ParseAnchoredRegex(r: string): Option<seq<RegexToken>>
  {
    if |r| >= 2 && r[0] == '^' && r[|r| - 1] == '$' then ParseRegexBody(r[1..|r| - 1]) else None
  }

  /** Whole-input matching of a token sequence, ignoring case: ".*" matches
      some run of characters, "." one character (a line feed included), a
      literal itself. */
  predicate TokensMatch(tokens: seq<RegexToken>, s: string)
    decreases |tokens|
  {
    if tokens == [] then s == []
    else match tokens[0]
      case AnyRun => exists k :: 0 <= k <= |s| && TokensMatch(tokens[1..], s[k..])
      case AnyChar => s != [] && TokensMatch(tokens[1..], s[1..])
      case Literal(c) => s != [] && SameCharIgnoringCase(c, s[0]) && TokensMatch(tokens[1..], s[1..])
  }

  /** Regex.IsMatch with RegexOptions.IgnoreCase, except that here "." and
      ".*" also match '\n', which .NET's "." does not. */
  predicate RegexIsMatch(regex: string, s: string)
  {
    var tokens := ParseAnchoredRegex(regex);
    tokens.Some? && TokensMatch(tokens.value, s)
  }

  /** The token each pattern character stands for. */
  function GlobToken(c: char): RegexToken
  {
    if c == '*' then AnyRun else if c == '?' then AnyChar else Literal(c)
  }

  function GlobTokens(pattern: string): (tokens: seq<RegexToken>)
    ensures |tokens| == |pattern|
    ensures forall i :: 0 <= i < |pattern| ==> tokens[i] == GlobToken(pattern[i])
  {
    if pattern == [] then [] else [GlobToken(pattern[0])] + GlobTokens(pattern[1..])
  }

  /** The literal token of each character. */
  function Literals(s: string): (tokens: seq<RegexToken>)
    ensures |tokens| == |s|
    ensures forall i :: 0 <= i < |s| ==> tokens[i] == Literal(s[i])
  {
    if s == [] then [] else [Literal(s[0])] + Literals(s[1..])
  }

  /** Regex.Escape makes every character literal: the escaped text parses
      back into one literal token per input character. */
  lemma {:induction false} EscapeIsLiteral(s: string)
    ensures ParseRegexBody(Escape(s)) == Some(Literals(s))
  {
    if s != [] {
      EscapeIsLiteral(s[1..]);
      ParseEscapedChar(s[0], Escape(s[1..]));
    }
  }

  /** The escaped pattern after "\*" became ".*". */
  function StarStageChar(c: char): string
  {
    if c == '*' then ".*" else EscapeChar(c)
  }

  function StarStage(s: string): string
  {
    if s == [] then [] else StarStageChar(s[0]) + StarStage(s[1..])
  }

  /** ... and after "\?" became ".". */
  function WildcardStageChar(c: char): string
  {
    if c == '*' then ".*" else if c == '?' then "." else EscapeChar(c)
  }

  function WildcardStage(s: string): string
  {
    if s == [] then [] else WildcardStageChar(s[0]) + WildcardStage(s[1..])
  }

  lemma {:induction false} EscapeStartsSafely(s: string)
    ensures Escape(s) == [] || (Escape(s)[0] != '*' && Escape(s)[0] != '?')
    ensures StarStage(s) == [] || (StarStage(s)[0] != '*' && StarStage(s)[0] != '?')
    ensures WildcardStage(s) == [] || WildcardStage(s)[0] != '*'
  {
  }

  /** Replace on a string whose first character cannot start an occurrence
      keeps that character. */
  lemma ReplaceAllKeepsHead(c: char, rest: string, from: string, to: string)
    requires |from| == 2
    requires c != from[0] || rest == [] || rest[0] != from[1]
    ensures ReplaceAll([c] + rest, from, to) == [c] + ReplaceAll(rest, from, to)
  {
    assert ([c] + rest)[1..] == rest;
  }

  /** Replace on a two-character head that cannot combine with what
      follows into a second occurrence. */
  lemma ReplaceAllPairHead(e: string, rest: string, from: string, to: string)
    requires |e| == 2 && |from| == 2 && e != from
    requires e[1] != from[0] || rest == [] || rest[0] != from[1]
    ensures ReplaceAll(e + rest, from, to) == e + ReplaceAll(rest, from, to)
  {
    assert e + rest == [e[0]] + ([e[1]] + rest);
    ReplaceAllKeepsHead(e[0], [e[1]] + rest, from, to);
    ReplaceAllKeepsHead(e[1], rest, from, to);
  }

  /** The first Replace on one escaped character. */
  lemma ReplaceStarsChar(c: char, rest: string)
    requires rest == [] || rest[0] != '*'
    ensures ReplaceAll(EscapeChar(c) + rest, "\\*", ".*") == StarStageChar(c) + ReplaceAll(rest, "\\*", ".*")
  {
    var e := EscapeChar(c);
    if |e| == 1 {
      ReplaceAllKeepsHead(e[0], rest, "\\*", ".*");
    } else if c == '*' {
      assert (e + rest)[2..] == rest;
    } else {
      ReplaceAllPairHead(e, rest, "\\*", ".*");
    }
  }

  /** The first Replace turns the escaped '*' back into ".*" and leaves every
      other escape sequence alone. */
  lemma {:induction false} ReplaceStars(s: string)
    ensures ReplaceAll(Escape(s), "\\*", ".*") == StarStage(s)
  {
    if s != [] {
      ReplaceStars(s[1..]);
      EscapeStartsSafely(s[1..]);
      ReplaceStarsChar(s[0], Escape(s[1..]));
    }
  }

  /** The second Replace on one character of the first stage. */
  lemma ReplaceQuestionMarkChar(c: char, rest: string)
    requires rest == [] || rest[0] != '?'
    ensures ReplaceAll(StarStageChar(c) + rest, "\\?", ".") == WildcardStageChar(c) + ReplaceAll(rest, "\\?", ".")
  {
    var e := StarStageChar(c);
    if |e| == 1 {
      ReplaceAllKeepsHead(e[0], rest, "\\?", ".");
    } else if c == '?' {
      assert (e + rest)[2..] == rest;
    } else {
      ReplaceAllPairHead(e, rest, "\\?", ".");
    }
  }

  /** The second Replace turns the escaped '?' into "." and leaves everything
      else alone. */
  lemma {:induction false} ReplaceQuestionMarks(s: string)
    ensures ReplaceAll(StarStage(s), "\\?", ".") == WildcardStage(s)
  {
    if s != [] {
      ReplaceQuestionMarks(s[1..]);
      EscapeStartsSafely(s[1..]);
      ReplaceQuestionMarkChar(s[0], StarStage(s[1..]));
    }
  }

  /** One rewritten pattern character parses into its token, provided what
      follows does not start with '*'. */
  lemma ParseStageChar(c: char, rest: string)
    requires rest == [] || rest[0] != '*'
    ensures ParseRegexBody(WildcardStageChar(c) + rest) == Prepend(GlobToken(c), ParseRegexBody(rest))
  {
    if c == '*' {
      assert (".*" + rest)[2..] == rest;
    } else if c == '?' {
      assert ("." + rest)[1..] == rest;
    } else {
      ParseEscapedChar(c, rest);
    }
  }

  /** An escaped character parses back into a literal of itself. */
  lemma ParseEscapedChar(c: char, rest: string)
    ensures ParseRegexBody(EscapeChar(c) + rest) == Prepend(Literal(c), ParseRegexBody(rest))
  {
    var e := EscapeChar(c);
    var r := e + rest;
    if |e| == 2 {
      assert r[2..] == rest;
      assert r[0] == '\\' && r[1] == e[1];
    } else {
      assert r[1..] == rest;
      assert r[0] == c;
    }
  }

  lemma {:induction false} ParseWildcardStage(s: string)
    ensures ParseRegexBody(WildcardStage(s)) == Some(GlobTokens(s))
  {
    if s != [] {
      ParseWildcardStage(s[1..]);
      EscapeStartsSafely(s[1..]);
      ParseStageChar(s[0], WildcardStage(s[1..]));
    }
  }

  /** The regular expression FilterFilesByPattern builds is the pattern's
      token sequence, anchored at both ends. */
  lemma RegexPatternTokens(searchPattern: string)
    ensures ParseAnchoredRegex(RegexPattern(searchPattern)) == Some(GlobTokens(searchPattern))
  {
    ReplaceStars(searchPattern);
    ReplaceQuestionMarks(searchPattern);
    ParseWildcardStage(searchPattern);
    var body := WildcardStage(searchPattern);
    var r := "^" + body + "$";
    assert r[1..|r| - 1] == body;
  }

  /** Regular-expression matching of the token sequence coincides with the
      wildcard meaning of the pattern. */
  lemma {:induction false} TokensMatchGlob(pattern: string, name: string)
    ensures TokensMatch(GlobTokens(pattern), name) <==> GlobMatch(pattern, name)
    decreases |pattern|, |name|
  {
    if pattern != [] {
      var tokens := GlobTokens(pattern);
      var rest := pattern[1..];
      assert tokens[1..] == GlobTokens(rest);
      if pattern[0] == '*' {
        forall k | 0 <= k <= |name|
          ensures TokensMatch(GlobTokens(rest), name[k..]) <==> GlobMatch(rest, name[k..])
        {
          TokensMatchGlob(rest, name[k..]);
        }
        if name != [] {
          TokensMatchGlob(pattern, name[1..]);
          assert forall k :: 1 <= k <= |name| ==> name[1..][k - 1..] == name[k..];
          if TokensMatch(tokens, name[1..]) {
            var k :| 0 <= k <= |name[1..]| && TokensMatch(GlobTokens(rest), name[1..][k..]);
            assert name[1..][k..] == name[k + 1..];
          }
          if TokensMatch(tokens, name) {
            var k :| 0 <= k <= |name| && TokensMatch(GlobTokens(rest), name[k..]);
            if k > 0 {
              assert name[1..][k - 1..] == name[k..];
            }
          }
        }
        assert name[0..] == name;
      } else if name != [] {
        TokensMatchGlob(rest, name[1..]);
      }
    }
  }

  /** A name matches the built regular expression exactly when it matches
      the pattern as a wildcard pattern. */
  lemma RegexMatchIsGlobMatch(searchPattern: string, name: string)
    ensures RegexIsMatch(RegexPattern(searchPattern), name) <==> GlobMatch(searchPattern, name)
  {
    RegexPatternTokens(searchPattern);
    TokensMatchGlob(searchPattern, name);
  }

  /** FilterFilesByPattern: the files the pattern's regular expression
      matches, in their original order. */
  function FilterFilesByPattern(files: seq<string>, searchPattern: string): (kept: seq<string>)
    ensures IsSubsequence(kept, files)
    ensures forall f :: f in kept <==> f in files && GlobMatch(searchPattern, f)
    ensures forall f :: multiset(kept)[f] == if GlobMatch(searchPattern, f) then multiset(files)[f] else 0
  {
    if files == [] then []
    else
      assert files == [files[0]] + files[1..];
      var rest := FilterFilesByPattern(files[1..], searchPattern);
      RegexMatchIsGlobMatch(searchPattern, files[0]);
      if RegexIsMatch(RegexPattern(searchPattern), files[0]) then [files[0]] + rest else rest
  }

  // ---------------------------------------------------------------------
  // The object store

  /** The most keys one ListObjectsV2 response carries. */
  const MaxKeysPerPage: nat := 1000

  /** PutObject, with IfNoneMatch = "*" when overwriting is not allowed: the
      existing object then stays and the 412 answer is swallowed. */
  function Put(objects: map<ObjectId, Bytes>, id: ObjectId, blob: Bytes, overrideExisting: bool)
    : (after: map<ObjectId, Bytes>)
    ensures after.Keys == objects.Keys + {id}
    ensures after[id] == if !overrideExisting && id in objects then objects[id] else blob
    ensures forall other :: other in objects && other != id ==> after[other] == objects[other]
  {
    if !overrideExisting && id in objects then objects else objects[id := blob]
  }

  /** GetObject, with a 404 answer turned into null; any other failure is a
      storage fault. */
  function Fetch(objects: map<ObjectId, Bytes>, faults: set<ObjectId>, id: ObjectId)
    : (r: Result<Option<Bytes>, Fault>)
    ensures r.Err? <==> id in faults
    ensures r.Ok? ==> (r.value.None? <==> id !in objects)
    ensures r.Ok? && r.value.Some? ==> r.value.value == objects[id]
  {
    if id in faults then Err(StorageFault)
    else if id in objects then Ok(Some(objects[id]))
    else Ok(None)
  }

  /** What one ListObjectsV2 response may hold: distinct keys of present
      objects of the bucket that start with the prefix, at most one page of
      them. */
  predicate IsListingPage(objects: map<ObjectId, Bytes>, containerName: string, prefix: string, page: seq<string>)
  {
    && |page| <= MaxKeysPerPage
    && Distinct(page)
    && forall i :: 0 <= i < |page| ==> ObjectId(containerName, page[i]) in objects && StartsWith(page[i], prefix)
  }

  /** The storage backend: a map from object ids to contents, and the ids
      whose requests fail for reasons other than "not found" and
      "precondition failed". */
  class BlobStore {
    var objects: map<ObjectId, Bytes>
    const faults: set<ObjectId>

    constructor (objects: map<ObjectId, Bytes>, faults: set<ObjectId>)
      ensures this.objects == objects && this.faults == faults
    {
      this.objects := objects;
      this.faults := faults;
    }

    /** GetOrNullAsync: the object's bytes, null when the key is absent. */
    method GetOrNull(containerName: string, fileName: string, path: string) returns (r: Result<Option<Bytes>, Fault>)
      ensures r == Fetch(objects, faults, ObjectId(containerName, CreateKey(fileName, path)))
    {
      var id := ObjectId(containerName, CreateKey(fileName, path));
      if id in faults {
        r := Err(StorageFault);
      } else if id in objects {
        r := Ok(Some(objects[id]));
      } else {
        r := Ok(None);
      }
    }

    /** SaveAsync: store the blob under CreateKey(fileName, path); without
        overrideExisting an existing object stays and no error is raised. */
    method Save(containerName: string, fileName: string, blob: Bytes, path: string, overrideExisting: bool)
      returns (r: Outcome<Fault>)
      modifies this
      ensures var id := ObjectId(containerName, CreateKey(fileName, path));
        && (r.Fail? <==> id in faults)
        && objects == if id in faults then old(objects) else Put(old(objects), id, blob, overrideExisting)
    {
      var id := ObjectId(containerName, CreateKey(fileName, path));
      if id in faults {
        r := Fail(StorageFault);
      } else {
        objects := Put(objects, id, blob, overrideExisting);
        r := Pass;
      }
    }

    /** ListAsync: the keys of the first response page under the prefix,
        filtered by the search pattern unless it is null or white space. */
    method List(containerName: string, path: string, searchPattern: string) returns (keys: seq<string>)
      ensures exists page :: (IsListingPage(objects, containerName, path, page)
        && keys == if IsNullOrWhiteSpace(searchPattern) then page else FilterFilesByPattern(page, searchPattern))
    {
      assert IsListingPage(objects, containerName, path, []);
      var page :| IsListingPage(objects, containerName, path, page);
      if IsNullOrWhiteSpace(searchPattern) {
        keys := page;
      } else {
        keys := FilterFilesByPattern(page, searchPattern);
      }
    }
  }

  /** Two saves of the same object: without overwriting the first one wins;
      with overwriting the second one does. */
  lemma FirstWriterWins(objects: map<ObjectId, Bytes>, id: ObjectId, first: Bytes, second: Bytes)
    ensures Put(Put(objects, id, first, false), id, second, false) == Put(objects, id, first, false)
    ensures Put(Put(objects, id, first, true), id, second, true) == objects[id := second]
  {
  }

  /** A key produced by the listing, filtered or not, comes from one page. */
  lemma ListedKeysAreListingKeys(objects: map<ObjectId, Bytes>, containerName: string, path: string,
                                 searchPattern: string, page: seq<string>, keys: seq<string>)
    requires IsListingPage(objects, containerName, path, page)
    requires keys == if IsNullOrWhiteSpace(searchPattern) then page else FilterFilesByPattern(page, searchPattern)
    ensures Distinct(keys)
    ensures forall k :: k in keys ==> ObjectId(containerName, k) in objects && StartsWith(k, path)
    ensures !IsNullOrWhiteSpace(searchPattern) ==> forall k :: k in keys ==> GlobMatch(searchPattern, k)
  {
    if !IsNullOrWhiteSpace(searchPattern) {
      SubsequenceOfDistinct(keys, page);
    }
  }

  lemma {:induction false} SubsequenceOfDistinct<T>(sub: seq<T>, s: seq<T>)
    requires IsSubsequence(sub, s) && Distinct(s)
    ensures Distinct(sub)
    decreases |s|
  {
    if sub != [] && s != [] {
      assert Distinct(s[1..]);
      if sub[0] == s[0] {
        SubsequenceOfDistinct(sub[1..], s[1..]);
        SubsequenceElements(sub[1..], s[1..]);
        forall j | 0 < j < |sub| ensures sub[0] != sub[j] {
          assert sub[j] == sub[1..][j - 1];
          assert sub[j] in s[1..];
          var k :| 0 <= k < |s[1..]| && s[1..][k] == sub[j];
          assert s[k + 1] == sub[j];
        }
      } else {
        SubsequenceOfDistinct(sub, s[1..]);
      }
    }
  }

  lemma {:induction false} SubsequenceElements<T>(sub: seq<T>, s: seq<T>)
    requires IsSubsequence(sub, s)
    ensures forall x :: x in sub ==> x in s
    decreases |s|
  {
    if sub != [] && s != [] {
      if sub[0] == s[0] {
        SubsequenceElements(sub[1..], s[1..]);
        assert forall x :: x in sub ==> x == sub[0] || x in sub[1..];
      } else {
        SubsequenceElements(sub, s[1..]);
      }
    }
  }
}
