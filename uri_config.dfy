/**
 * UriRelatedConfiguration of ppgwt 1.0: include and exclude lists of Ant
 * path patterns, read from whitespace-separated text, each pattern made to
 * start with `/`, lists set more than once appended to the ones already
 * held, and a request URI matching when some include pattern matches it and
 * no exclude pattern does. The path matcher is a parameter.
 */
module UriConfiguration {
  import opened Wrappers
  import opened JavaText

  /** AntPathMatcher.match(pattern, path), left abstract. */
  type PathMatcher = (string, string) -> bool

  predicate StartsWithSlash(p: string) {
    |p| > 0 && p[0] == '/'
  }

  /** One pattern after validatePathPatterns. */
  function WithLeadingSlash(p: string): (r: string)
    ensures StartsWithSlash(r)
    ensures StartsWithSlash(p) ==> r == p
    ensures !StartsWithSlash(p) ==> r == "/" + p
  {
    if StartsWithSlash(p) then p else "/" + p
  }

  /** The patterns after validatePathPatterns, element by element. */
  function Validated(ps: seq<string>): (r: seq<string>)
    ensures |r| == |ps|
  {
    seq(|ps|, i requires 0 <= i < |ps| => WithLeadingSlash(ps[i]))
  }

  /**
   * Every validated pattern starts with `/`; a pattern that already did is
   * unchanged, any other gains exactly one `/` in front.
   */
  lemma {:induction false} ValidatedPatterns(ps: seq<string>, i: nat)
    requires i < |ps|
    ensures StartsWithSlash(Validated(ps)[i])
    ensures StartsWithSlash(ps[i]) ==> Validated(ps)[i] == ps[i]
    ensures !StartsWithSlash(ps[i]) ==> Validated(ps)[i] == "/" + ps[i]
  {
  }

  /** Validating twice is validating once. */
  lemma {:induction false} ValidatedIdempotent(ps: seq<string>)
    ensures Validated(Validated(ps)) == Validated(ps)
  {
    var v := Validated(ps);
    forall i | 0 <= i < |ps|
      ensures Validated(v)[i] == v[i]
    {
      ValidatedPatterns(ps, i);
      ValidatedPatterns(v, i);
    }
  }

  /** Validating two lists and joining them is validating the joined list. */
  lemma {:induction false} ValidatedAppend(a: seq<string>, b: seq<string>)
    ensures Validated(a + b) == Validated(a) + Validated(b)
  {
    var l, r := Validated(a + b), Validated(a) + Validated(b);
    forall i | 0 <= i < |a + b|
      ensures l[i] == r[i]
    {
      if i < |a| {
        assert (a + b)[i] == a[i];
      } else {
        assert (a + b)[i] == b[i - |a|];
      }
    }
  }

  /** The elements of an array that may be null: null holds none. */
  function Elements(a: array?<string>): seq<string>
    reads a
  {
    if a == null then [] else a[..]
  }

  /** includes(): no list includes every URI; a list includes the URIs one of its patterns matches. */
  predicate IncludedBy(patterns: Option<seq<string>>, uri: string, matches: PathMatcher) {
    patterns.None? || exists i :: 0 <= i < |patterns.value| && matches(patterns.value[i], uri)
  }

  /** excludes(): no list excludes nothing; a list excludes the URIs one of its patterns matches. */
  predicate ExcludedBy(patterns: Option<seq<string>>, uri: string, matches: PathMatcher) {
    patterns.Some? && exists i :: 0 <= i < |patterns.value| && matches(patterns.value[i], uri)
  }

  /**
   * A list set after another widens what the configuration includes and
   * excludes: the joined list matches a URI exactly when one of the two does.
   */
  lemma {:induction false} JoinedListMatches(a: seq<string>, b: seq<string>, uri: string, matches: PathMatcher)
    ensures IncludedBy(Some(a + b), uri, matches) <==> IncludedBy(Some(a), uri, matches) || IncludedBy(Some(b), uri, matches)
    ensures ExcludedBy(Some(a + b), uri, matches) <==> ExcludedBy(Some(a), uri, matches) || ExcludedBy(Some(b), uri, matches)
  {
    if IncludedBy(Some(a + b), uri, matches) {
      var i :| 0 <= i < |a + b| && matches((a + b)[i], uri);
      if i >= |a| {
        assert b[i - |a|] == (a + b)[i];
      }
    }
    if IncludedBy(Some(a), uri, matches) {
      var i :| 0 <= i < |a| && matches(a[i], uri);
      assert (a + b)[i] == a[i];
    }
    if IncludedBy(Some(b), uri, matches) {
      var i :| 0 <= i < |b| && matches(b[i], uri);
      assert (a + b)[|a| + i] == b[i];
    }
  }

  /** A list that is set but empty includes no URI, and excludes none. */
  lemma {:induction false} EmptyListMatchesNothing(uri: string, matches: PathMatcher)
    ensures !IncludedBy(Some([]), uri, matches) && !ExcludedBy(Some([]), uri, matches)
    ensures IncludedBy(None, uri, matches) && !ExcludedBy(None, uri, matches)
  {
  }

  /** split(patterns): the StringTokenizer tokens, in order, in an array of their count. */
  method Split(patterns: string) returns (result: array<string>)
    ensures fresh(result)
    ensures result[..] == Tokenize(patterns, TokenizerDelimiters)
  {
    var tokens := Tokenize(patterns, TokenizerDelimiters);
    result := new string[|tokens|];
    var counter := 0;
    while counter < |tokens|
      invariant 0 <= counter <= |tokens|
      invariant result[..counter] == tokens[..counter]
    {
      result[counter] := tokens[counter];
      counter := counter + 1;
    }
  }

  /** validatePathPatterns(paths): in place, every pattern not starting with `/` gains one. */
  method ValidatePathPatterns(paths: array<string>)
    modifies paths
    ensures paths[..] == Validated(old(paths[..]))
  {
    for i := 0 to paths.Length
      invariant paths[..i] == Validated(old(paths[..]))[..i]
      invariant paths[i..] == old(paths[i..])
    {
      assert paths[i] == old(paths[i]);
      if !StartsWithSlash(paths[i]) {
        paths[i] := "/" + paths[i];
      }
    }
  }

  /** mergeArrays(array1, array2): a new array of both lengths, the first then the second; null is empty. */
  method MergeArrays(first: array?<string>, second: array?<string>) returns (result: array<string>)
    ensures fresh(result)
    ensures result.Length == |Elements(first)| + |Elements(second)|
    ensures result[..] == Elements(first) + Elements(second)
  {
    var size1 := if first == null then 0 else first.Length;
    var size2 := if second == null then 0 else second.Length;
    result := new string[size1 + size2];
    if size1 > 0 {
      forall i | 0 <= i < size1 {
        result[i] := first[i];
      }
    }
    if size2 > 0 {
      forall i | 0 <= i < size2 {
        result[size1 + i] := second[i];
      }
    }
    assert result[..size1] == Elements(first);
    assert result[size1..] == Elements(second);
    assert result[..] == result[..size1] + result[size1..];
  }

  class UriRelatedConfiguration {
    var includes: array?<string>
    var excludes: array?<string>

    /** The include list, none when it was never set. */
    function IncludeList(): Option<seq<string>>
      reads this, includes
    {
      if includes == null then None else Some(includes[..])
    }

    /** The exclude list, none when it was never set. */
    function ExcludeList(): Option<seq<string>>
      reads this, excludes
    {
      if excludes == null then None else Some(excludes[..])
    }

    constructor()
      ensures includes == null && excludes == null
    {
      includes := null;
      excludes := null;
    }

    /**
     * UriRelatedConfiguration(variables, variableBaseName): the lists read from
     * `<base>.includes` and `<base>.excludes`, each defaulting to the empty text.
     */
    constructor FromVariables(resolveValue: (string, string) -> string, variableBaseName: string)
      ensures includes != null && excludes != null
      ensures includes[..] == Validated(Tokenize(resolveValue(variableBaseName + ".includes", ""), TokenizerDelimiters))
      ensures excludes[..] == Validated(Tokenize(resolveValue(variableBaseName + ".excludes", ""), TokenizerDelimiters))
    {
      includes := null;
      excludes := null;
      new;
      SetIncludes(resolveValue(variableBaseName + ".includes", ""));
      SetExcludes(resolveValue(variableBaseName + ".excludes", ""));
    }

    /**
     * setIncludeList(includes): the patterns validated in place; the first list
     * is kept as it is (the same array), a later one is appended to a new
     * array holding the earlier patterns.
     */
    method SetIncludeList(paths: array<string>)
      modifies this, paths
      ensures paths[..] == Validated(old(paths[..]))
      ensures old(includes) == null ==> includes == paths
      ensures old(includes) != null ==> fresh(includes)
      ensures old(includes) != null ==>
                includes[..] == (if old(includes) == paths then paths[..] else old(includes[..])) + paths[..]
      ensures excludes == old(excludes)
    {
      ValidatePathPatterns(paths);
      if includes == null {
        includes := paths;
      } else {
        includes := MergeArrays(includes, paths);
      }
    }

    /** setIncludes(text): the whitespace-separated patterns of `text`, as setIncludeList. */
    method SetIncludes(patterns: string)
      modifies this
      ensures excludes == old(excludes) && includes != null
      ensures old(includes) == null ==> fresh(includes) && includes[..] == Validated(Tokenize(patterns, TokenizerDelimiters))
      ensures old(includes) != null ==> fresh(includes)
      ensures old(includes) != null ==> includes[..] == old(includes[..]) + Validated(Tokenize(patterns, TokenizerDelimiters))
    {
      var list := Split(patterns);
      SetIncludeList(list);
    }

    /** setExcludeList(excludes): as setIncludeList, for the exclude list. */
    method SetExcludeList(paths: array<string>)
      modifies this, paths
      ensures paths[..] == Validated(old(paths[..]))
      ensures old(excludes) == null ==> excludes == paths
      ensures old(excludes) != null ==> fresh(excludes)
      ensures old(excludes) != null ==>
                excludes[..] == (if old(excludes) == paths then paths[..] else old(excludes[..])) + paths[..]
      ensures includes == old(includes)
    {
      ValidatePathPatterns(paths);
      if excludes == null {
        excludes := paths;
      } else {
        excludes := MergeArrays(excludes, paths);
      }
    }

    /** setExcludes(text): as setIncludes, for the exclude list. */
    method SetExcludes(patterns: string)
      modifies this
      ensures includes == old(includes) && excludes != null
      ensures old(excludes) == null ==> fresh(excludes) && excludes[..] == Validated(Tokenize(patterns, TokenizerDelimiters))
      ensures old(excludes) != null ==> fresh(excludes)
      ensures old(excludes) != null ==> excludes[..] == old(excludes[..]) + Validated(Tokenize(patterns, TokenizerDelimiters))
    {
      var list := Split(patterns);
      SetExcludeList(list);
    }

    /** What matchesUri answers: some include pattern matches and no exclude pattern does. */
    predicate Accepts(requestUri: string, matches: PathMatcher)
      reads this, includes, excludes
    {
      IncludedBy(IncludeList(), requestUri, matches) && !ExcludedBy(ExcludeList(), requestUri, matches)
    }

    /** matchesUri(requestUri): includes, then (only when included) excludes. */
    method MatchesUri(requestUri: string, matches: PathMatcher) returns (b: bool)
      ensures b == Accepts(requestUri, matches)
    {
      b := Includes(requestUri, matches);
      if b {
        var excluded := Excludes(requestUri, matches);
        b := !excluded;
      }
    }

    /** includes(requestUri): true without a list, else whether some include pattern matches. */
    method Includes(requestUri: string, matches: PathMatcher) returns (b: bool)
      ensures b == IncludedBy(IncludeList(), requestUri, matches)
    {
      if includes == null {
        return true;
      }
      for i := 0 to includes.Length
        invariant forall k :: 0 <= k < i ==> !matches(includes[k], requestUri)
      {
        if matches(includes[i], requestUri) {
          assert includes[..][i] == includes[i];
          return true;
        }
      }
      return false;
    }

    /** excludes(requestUri): false without a list, else whether some exclude pattern matches. */
    method Excludes(requestUri: string, matches: PathMatcher) returns (b: bool)
      ensures b == ExcludedBy(ExcludeList(), requestUri, matches)
    {
      if excludes != null {
        for i := 0 to excludes.Length
          invariant forall k :: 0 <= k < i ==> !matches(excludes[k], requestUri)
        {
          if matches(excludes[i], requestUri) {
            assert excludes[..][i] == excludes[i];
            return true;
          }
        }
      }
      return false;
    }
  }

  /**
   * Setting two include texts one after the other holds the same patterns as
   * setting their concatenation (with a blank between) once.
   */
  lemma {:induction false} TwoIncludeTexts(first: string, second: string)
    ensures Validated(Tokenize(first, TokenizerDelimiters)) + Validated(Tokenize(second, TokenizerDelimiters))
            == Validated(Tokenize(first + [' '] + second, TokenizerDelimiters))
  {
    TokenizeSplits(first, ' ', second, TokenizerDelimiters);
    ValidatedAppend(Tokenize(first, TokenizerDelimiters), Tokenize(second, TokenizerDelimiters));
  }
}
