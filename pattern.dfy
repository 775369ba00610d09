/** The name pattern matcher of the search feature (`SearchType`), its
    decoding from the front end's numeric kind, the kind filter
    (`SearchFilter`) and the two option records. */
module Pattern {
  import opened Prim
  import opened Files

  // ---------------------------------------------------------------------
  // Byte-wise tests

  /** The ASCII case fold the matcher applies to each byte: only bytes strictly
      between 96 and 123 (`a`..`z`) move, by 32. */
  function Fold(b: Byte): Byte
  {
    if b > 96 && b < 123 then b - 32 else b
  }

  predicate IsLower(b: Byte)
  {
    97 <= b <= 122
  }

  /** Two bytes fold alike exactly when they are equal or are the lower- and
      upper-case forms of one ASCII letter; every other byte compares literally. */
  lemma FoldEqIff(u: Byte, v: Byte)
    ensures Fold(u) == Fold(v) <==> u == v || (IsLower(u) && v == u - 32) || (IsLower(v) && u == v - 32)
    ensures !IsLower(u) ==> Fold(u) == u
    ensures Fold(Fold(u)) == Fold(u) && !IsLower(Fold(u))
  {
  }

  /** Both strings folded byte by byte. */
  function FoldAll(s: seq<Byte>): (r: seq<Byte>)
    ensures |r| == |s|
    ensures forall i :: 0 <= i < |s| ==> r[i] == Fold(s[i])
  {
    seq(|s|, i requires 0 <= i < |s| => Fold(s[i]))
  }

  /** `str::starts_with`, byte-wise. */
  predicate StartsWith(key: seq<Byte>, input: seq<Byte>)
  {
    |key| <= |input| && input[..|key|] == key
  }

  /** `str::ends_with`, byte-wise. */
  predicate EndsWith(key: seq<Byte>, input: seq<Byte>)
  {
    |key| <= |input| && input[|input| - |key|..] == key
  }

  /** The window of `input` starting at `b` is exactly `key`. */
  predicate WindowIs(key: seq<Byte>, input: seq<Byte>, b: nat)
  {
    b + |key| <= |input| && input[b..b + |key|] == key
  }

  /** `str::contains`, byte-wise: some window of `input` equals `key`. */
  predicate Contains(key: seq<Byte>, input: seq<Byte>)
  {
    exists b: nat :: b <= |input| && WindowIs(key, input, b)
  }

  /** `key.as_bytes()[key.len() - i - 1]`: the i-th byte from the end. */
  function FromEnd(s: seq<Byte>, i: nat): Byte
    requires i < |s|
  {
    s[|s| - i - 1]
  }

  /** `SearchType::starts_with_ignore_case`. */
  predicate StartsWithIgnoreCase(key: seq<Byte>, input: seq<Byte>)
  {
    if |input| < |key| then false
    else forall i :: 0 <= i < |key| ==> Fold(key[i]) == Fold(input[i])
  }

  /** `SearchType::ends_with_ignore_case`. */
  predicate EndsWithIgnoreCase(key: seq<Byte>, input: seq<Byte>)
  {
    if |input| < |key| then false
    else forall i :: 0 <= i < |key| ==> Fold(FromEnd(key, i)) == Fold(FromEnd(input, i))
  }

  /** The window of `input` starting at `b` matches `key` up to case. */
  predicate WindowMatches(key: seq<Byte>, input: seq<Byte>, b: nat)
    requires b + |key| <= |input|
  {
    forall i :: 0 <= i < |key| ==> Fold(key[i]) == Fold(input[b + i])
  }

  /** `SearchType::contains_ignore_case`: the naive scan over every start offset. */
  predicate ContainsIgnoreCase(key: seq<Byte>, input: seq<Byte>)
  {
    if |input| < |key| then false
    else exists b: nat :: b <= |input| - |key| && WindowMatches(key, input, b)
  }

  // ---------------------------------------------------------------------
  // The ignore-case tests are the case-sensitive tests on folded strings

  lemma StartsWithIgnoreCaseIsFolded(key: seq<Byte>, input: seq<Byte>)
    ensures StartsWithIgnoreCase(key, input) <==> StartsWith(FoldAll(key), FoldAll(input))
  {
    if StartsWithIgnoreCase(key, input) {
      assert FoldAll(input)[..|key|] == FoldAll(key);
    }
    if StartsWith(FoldAll(key), FoldAll(input)) {
      forall i | 0 <= i < |key| ensures Fold(key[i]) == Fold(input[i]) {
        assert FoldAll(input)[..|key|][i] == FoldAll(input)[i];
      }
    }
  }

  lemma EndsWithIgnoreCaseIsFolded(key: seq<Byte>, input: seq<Byte>)
    ensures EndsWithIgnoreCase(key, input) <==> EndsWith(FoldAll(key), FoldAll(input))
  {
    var fk, fi := FoldAll(key), FoldAll(input);
    if EndsWithIgnoreCase(key, input) {
      forall j | 0 <= j < |key| ensures fi[|input| - |key|..][j] == fk[j] {
        var i := |key| - j - 1;
        assert Fold(FromEnd(key, i)) == Fold(FromEnd(input, i));
      }
      assert fi[|input| - |key|..] == fk;
    }
    if EndsWith(fk, fi) {
      forall i | 0 <= i < |key| ensures Fold(FromEnd(key, i)) == Fold(FromEnd(input, i)) {
        assert fi[|input| - |key|..][|key| - i - 1] == fi[|input| - i - 1];
      }
    }
  }

  lemma ContainsIgnoreCaseIsFolded(key: seq<Byte>, input: seq<Byte>)
    ensures ContainsIgnoreCase(key, input) <==> Contains(FoldAll(key), FoldAll(input))
  {
    var fk, fi := FoldAll(key), FoldAll(input);
    if ContainsIgnoreCase(key, input) {
      var b: nat :| b <= |input| - |key| && WindowMatches(key, input, b);
      assert WindowIs(fk, fi, b) by {
        forall i | 0 <= i < |key| ensures fi[b..b + |key|][i] == fk[i] {
          assert Fold(key[i]) == Fold(input[b + i]);
        }
      }
    }
    if Contains(fk, fi) {
      var b: nat :| b <= |fi| && WindowIs(fk, fi, b);
      assert WindowMatches(key, input, b) by {
        forall i | 0 <= i < |key| ensures Fold(key[i]) == Fold(input[b + i]) {
          assert fi[b..b + |fk|][i] == fk[i];
        }
      }
    }
  }

  /** Each ignore-case test fails when the key is longer than the input and
      succeeds when the key is empty. */
  lemma IgnoreCaseBoundaries(key: seq<Byte>, input: seq<Byte>)
    ensures |input| < |key| ==>
      !StartsWithIgnoreCase(key, input) && !EndsWithIgnoreCase(key, input) && !ContainsIgnoreCase(key, input)
    ensures key == [] ==>
      StartsWithIgnoreCase(key, input) && EndsWithIgnoreCase(key, input) && ContainsIgnoreCase(key, input)
  {
    if key == [] {
      assert WindowMatches(key, input, 0);
    }
  }

  /** A case-sensitive hit is also a hit when case is ignored. */
  lemma SensitiveHitsFoldedHits(key: seq<Byte>, input: seq<Byte>)
    ensures StartsWith(key, input) ==> StartsWithIgnoreCase(key, input)
    ensures EndsWith(key, input) ==> EndsWithIgnoreCase(key, input)
    ensures Contains(key, input) ==> ContainsIgnoreCase(key, input)
  {
    if StartsWith(key, input) {
      forall i | 0 <= i < |key| ensures key[i] == input[i] {
        assert input[..|key|][i] == input[i];
      }
    }
    if EndsWith(key, input) {
      forall i | 0 <= i < |key| ensures FromEnd(key, i) == FromEnd(input, i) {
        assert input[|input| - |key|..][|key| - i - 1] == input[|input| - i - 1];
      }
    }
    if Contains(key, input) {
      var b: nat :| b <= |input| && WindowIs(key, input, b);
      assert WindowMatches(key, input, b) by {
        forall i | 0 <= i < |key| ensures key[i] == input[b + i] {
          assert input[b..b + |key|][i] == input[b + i];
        }
      }
    }
  }

  /** The code point of the i-th character from the end. */
  function CodeFromEnd(s: string, i: nat): int
    requires i < |s|
  {
    s[|s| - i - 1] as int
  }

  /** Ends-with ignoring case on ASCII strings compares their folded code
      points from the back. */
  lemma EndsWithIgnoreCaseAscii(k: string, n: string)
    requires IsAscii(k) && IsAscii(n) && |k| <= |n|
    requires forall i :: 0 <= i < |k| ==> Fold(CodeFromEnd(k, i)) == Fold(CodeFromEnd(n, i))
    ensures EndsWithIgnoreCase(Utf8(k), Utf8(n))
  {
    Utf8OfAscii(k);
    Utf8OfAscii(n);
    var key, input := Utf8(k), Utf8(n);
    assert |key| <= |input|;
    forall i | 0 <= i < |key| ensures Fold(FromEnd(key, i)) == Fold(FromEnd(input, i)) {
      AsciiFromEnd(k, i);
      AsciiFromEnd(n, i);
    }
  }

  lemma AsciiFromEnd(s: string, i: nat)
    requires IsAscii(s) && i < |s|
    ensures FromEnd(Utf8(s), i) == CodeFromEnd(s, i)
  {
    Utf8OfAscii(s);
    var j := |s| - i - 1;
    assert Utf8(s)[j] == s[j] as int;
  }

  /** The unit test `test_ignore_case_functions`. */
  lemma EndsWithIgnoreCaseExample()
    ensures EndsWithIgnoreCase(Utf8("CvbnM<>?"), Utf8("zXcVbNm<>?"))
  {
    var k, n := "CvbnM<>?", "zXcVbNm<>?";
    forall i | 0 <= i < |k| ensures Fold(CodeFromEnd(k, i)) == Fold(CodeFromEnd(n, i)) {
      assert i in {0, 1, 2, 3, 4, 5, 6, 7};
    }
    EndsWithIgnoreCaseAscii(k, n);
  }

  // ---------------------------------------------------------------------
  // SearchType

  /** A compiled `regex::Regex`, kept only as its `is_match` predicate. */
  datatype Regex = Regex(isMatch: string -> bool)

  datatype SearchType =
    | RegexMatch(pattern: Regex)
    | MatchBegining(key: string)
    | MatchMiddle(key: string)
    | MatchEnding(key: string)

  /** `SearchType::matches`: the literal variants compare the UTF-8 bytes of
      the name, ignoring case unless `sensitive`; the regex variant asks the
      compiled pattern and does not look at `sensitive`. */
  predicate Matches(t: SearchType, input: string, sensitive: bool)
  {
    match t
    case RegexMatch(pattern) => pattern.isMatch(input)
    case MatchBegining(key) =>
      if sensitive then StartsWith(Utf8(key), Utf8(input)) else StartsWithIgnoreCase(Utf8(key), Utf8(input))
    case MatchMiddle(key) =>
      if sensitive then Contains(Utf8(key), Utf8(input)) else ContainsIgnoreCase(Utf8(key), Utf8(input))
    case MatchEnding(key) =>
      if sensitive then EndsWith(Utf8(key), Utf8(input)) else EndsWithIgnoreCase(Utf8(key), Utf8(input))
  }

  /** Case-insensitive matching of a literal key is case-sensitive matching of
      the folded bytes; a case-sensitive match is also a case-insensitive one;
      a regex answers the same whatever `sensitive` says. */
  lemma MatchesCaseModes(t: SearchType, input: string)
    ensures Matches(t, input, true) ==> Matches(t, input, false)
    ensures t.RegexMatch? ==> (Matches(t, input, true) <==> Matches(t, input, false))
    ensures t.MatchBegining? ==> (Matches(t, input, false) <==> StartsWith(FoldAll(Utf8(t.key)), FoldAll(Utf8(input))))
    ensures t.MatchMiddle? ==> (Matches(t, input, false) <==> Contains(FoldAll(Utf8(t.key)), FoldAll(Utf8(input))))
    ensures t.MatchEnding? ==> (Matches(t, input, false) <==> EndsWith(FoldAll(Utf8(t.key)), FoldAll(Utf8(input))))
  {
    if !t.RegexMatch? {
      var k, i := Utf8(t.key), Utf8(input);
      SensitiveHitsFoldedHits(k, i);
      StartsWithIgnoreCaseIsFolded(k, i);
      ContainsIgnoreCaseIsFolded(k, i);
      EndsWithIgnoreCaseIsFolded(k, i);
    }
  }

  /** `SearchType::parse_regex`: kinds 0, 1 and 2 are the literal variants;
      any other kind compiles the key as a regular expression, giving `None`
      when it does not compile. `compile` stands for `regex::Regex::new`. */
  function ParseRegex(searchKind: U8, searchKey: string, compile: string -> Option<Regex>): Option<SearchType>
  {
    match searchKind
    case 0 => Some(MatchBegining(searchKey))
    case 1 => Some(MatchEnding(searchKey))
    case 2 => Some(MatchMiddle(searchKey))
    case _ =>
      match compile(searchKey)
      case Some(r) => Some(RegexMatch(r))
      case None => None
  }

  /** The numeric kind the front end sends for each literal variant. */
  function SearchKind(t: SearchType): U8
  {
    match t
    case MatchBegining(_) => 0
    case MatchEnding(_) => 1
    case MatchMiddle(_) => 2
    case RegexMatch(_) => 3
  }

  /** Decoding inverts `SearchKind` on the literal variants, fails exactly
      when a regex kind does not compile, and otherwise yields the compiled
      regex. */
  lemma ParseRegexDecodes(t: SearchType, kind: U8, key: string, compile: string -> Option<Regex>)
    ensures !t.RegexMatch? ==> ParseRegex(SearchKind(t), t.key, compile) == Some(t)
    ensures ParseRegex(kind, key, compile).None? <==> kind > 2 && compile(key).None?
    ensures kind <= 2 ==>
      && ParseRegex(kind, key, compile).Some?
      && !ParseRegex(kind, key, compile).value.RegexMatch?
      && ParseRegex(kind, key, compile).value.key == key
      && SearchKind(ParseRegex(kind, key, compile).value) == kind
    ensures kind > 2 && compile(key).Some? ==> ParseRegex(kind, key, compile) == Some(RegexMatch(compile(key).value))
  {
  }

  // ---------------------------------------------------------------------
  // SearchFilter

  datatype SearchFilter = SearchFilter(files: bool, links: bool, dirs: bool)

  /** `SearchFilter::new`: files and directories, no links. */
  function NewFilter(): SearchFilter
  {
    SearchFilter(true, false, true)
  }

  /** `SearchFilter::include_all`. */
  function IncludeAllFilter(): SearchFilter
  {
    SearchFilter(true, true, true)
  }

  /** `SearchFilter::all_filtered`. */
  predicate AllFiltered(f: SearchFilter)
  {
    !f.dirs && !f.files && !f.links
  }

  /** Whether the filter lets an entry of kind `k` through. */
  predicate KindEnabled(f: SearchFilter, k: PitouFileKind)
  {
    match k
    case File => f.files
    case Directory => f.dirs
    case Link => f.links
  }

  /** `all_filtered` holds exactly when no kind is enabled; neither standard
      filter is all-filtered. */
  lemma AllFilteredIffNoKind(f: SearchFilter)
    ensures AllFiltered(f) <==> forall k :: !KindEnabled(f, k)
    ensures !AllFiltered(NewFilter()) && !AllFiltered(IncludeAllFilter())
    ensures forall k :: KindEnabled(IncludeAllFilter(), k)
    ensures forall k :: KindEnabled(NewFilter(), k) <==> k != Link
  {
    if !AllFiltered(f) {
      if f.files { assert KindEnabled(f, File); }
      else if f.dirs { assert KindEnabled(f, Directory); }
      else { assert KindEnabled(f, Link); }
    }
  }

  // ---------------------------------------------------------------------
  // Option records

  datatype SimplifiedSearchOptions = SimplifiedSearchOptions(
    searchDir: PitouFilePath,
    input: string,
    searchKind: U8,
    depth: U8,
    caseSensitive: bool,
    hardwareAccelerate: bool,
    skipErrors: bool,
    filter: SearchFilter,
    maxFinds: Usize)

  datatype SearchOptions = SearchOptions(
    searchDir: PitouFilePath,
    hardwareAccelerate: bool,
    filter: SearchFilter,
    caseSensitive: bool,
    depth: U8,
    searchType: SearchType,
    skipErrors: bool,
    maxFinds: Usize)

  /** `SimplifiedSearchOptions::default`. */
  function DefaultSimplified(currentDir: PitouFilePath): SimplifiedSearchOptions
  {
    SimplifiedSearchOptions(currentDir, "", 1, 6, true, false, true, IncludeAllFilter(), 250)
  }

  /** `SimplifiedSearchOptions::try_into`: decodes the kind and otherwise
      copies every field. */
  function TryInto(o: SimplifiedSearchOptions, compile: string -> Option<Regex>): (r: Option<SearchOptions>)
    ensures r.None? <==> ParseRegex(o.searchKind, o.input, compile).None?
    ensures r.Some? ==>
      && Some(r.value.searchType) == ParseRegex(o.searchKind, o.input, compile)
      && r.value.searchDir == o.searchDir && r.value.filter == o.filter
      && r.value.caseSensitive == o.caseSensitive && r.value.hardwareAccelerate == o.hardwareAccelerate
      && r.value.skipErrors == o.skipErrors && r.value.depth == o.depth && r.value.maxFinds == o.maxFinds
  {
    match ParseRegex(o.searchKind, o.input, compile)
    case Some(searchType) =>
      Some(SearchOptions(o.searchDir, o.hardwareAccelerate, o.filter, o.caseSensitive,
                         o.depth, searchType, o.skipErrors, o.maxFinds))
    case None => None
  }

  /** `SearchOptions::new`. */
  function NewSearchOptions(searchDir: PitouFilePath, key: string): SearchOptions
  {
    SearchOptions(searchDir, false, NewFilter(), true, 6, MatchMiddle(key), true, UsizeMax)
  }

  /** The default front-end options decode, without the regex engine, to a
      case-sensitive suffix search for the empty key that matches every name
      and has every kind enabled. */
  lemma DefaultsDecode(dir: PitouFilePath, name: string, compile: string -> Option<Regex>)
    ensures TryInto(DefaultSimplified(dir), compile).Some?
    ensures TryInto(DefaultSimplified(dir), compile).value.searchType == MatchEnding("")
    ensures Matches(TryInto(DefaultSimplified(dir), compile).value.searchType, name, true)
    ensures forall k :: KindEnabled(TryInto(DefaultSimplified(dir), compile).value.filter, k)
  {
    var input := Utf8(name);
    assert input[|input| - 0..] == [];
    AllFilteredIffNoKind(IncludeAllFilter());
  }

  /** `SearchOptions::new` searches files and directories, not links, by
      substring, case-sensitively, with no cap on finds. */
  lemma NewSearchOptionsShape(dir: PitouFilePath, key: string)
    ensures NewSearchOptions(dir, key).searchType == MatchMiddle(key)
    ensures forall k :: KindEnabled(NewSearchOptions(dir, key).filter, k) <==> k != Link
    ensures NewSearchOptions(dir, key).caseSensitive && NewSearchOptions(dir, key).maxFinds == UsizeMax
  {
    AllFilteredIffNoKind(NewFilter());
  }
}
