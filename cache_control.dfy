/**
 * CacheControlFilter of servlet-utils 1.1. Each init parameter names one or
 * more path patterns and holds a block of `Name: value` header lines; a
 * request gets the headers of the first registered pattern that matches its
 * context-relative path, with `{name}` and `{name:params}` placeholders in the
 * values expanded by the registered evaluators; the filter chain is always
 * invoked. The path matcher and the evaluators are parameters.
 */
module CacheControl {
  import opened Wrappers
  import opened JavaText
  import opened Builders
  import opened LinkedMaps

  /** AntPathMatcher.match(pattern, path), left abstract. */
  type PathMatcher = (string, string) -> bool

  /** A PlaceholderEvaluator: the params (null when absent) to a value; none when it returns null or throws. */
  type Evaluator = Option<string> -> Option<string>

  type Headers = map<string, string>

  // ---------------------------------------------------------------- headers

  /** One line of a header block: none when blank or without a `:`, else the trimmed name and value around the first `:`. */
  function HeaderLine(line: string): seq<(string, string)> {
    var t := Trim(line);
    if t == [] then []
    else
      var index := IndexOf(t, ':', 0);
      if index == -1 then [] else [(Trim(t[..index]), Trim(t[index + 1..]))]
  }

  /** The header entries of the lines, in order. */
  function HeaderEntries(lines: seq<string>): seq<(string, string)>
    decreases |lines|
  {
    if lines == [] then [] else HeaderEntries(lines[..|lines| - 1]) + HeaderLine(lines[|lines| - 1])
  }

  /** The lines of a header block: StringUtils.split(raw, '\n'), which drops empty lines. */
  function Lines(raw: string): seq<string> {
    Tokenize(raw, {'\n'})
  }

  /** parseHeaders(raw): the entries `put` one after the other into a map. */
  function HeaderMap(raw: string): Headers {
    PutAll(Empty(), HeaderEntries(Lines(raw))).values
  }

  lemma {:induction false} HeaderEntriesStep(lines: seq<string>, i: nat)
    requires i < |lines|
    ensures HeaderEntries(lines[..i + 1]) == HeaderEntries(lines[..i]) + HeaderLine(lines[i])
  {
    assert lines[..i + 1][..i] == lines[..i];
  }

  /** A line with a `:` gives its name and value, trimmed, split at the first `:`. */
  lemma {:induction false} HeaderLineSplit(line: string, name: string, value: string)
    requires Trim(line) == name + ":" + value && ':' !in name
    ensures HeaderLine(line) == [(Trim(name), Trim(value))]
  {
    ColonAt(Trim(line), name, value);
  }

  lemma {:induction false} ColonAt(t: string, name: string, value: string)
    requires t == name + ":" + value && ':' !in name
    ensures IndexOf(t, ':', 0) == |name| && t[..|name|] == name && t[|name| + 1..] == value
  {
    assert t[|name|] == ':';
    assert forall k :: 0 <= k < |name| ==> t[k] == name[k];
    IndexOfSpec(t, ':', 0);
  }

  /** A line without a `:` gives no header. */
  lemma {:induction false} HeaderLineWithoutColon(line: string)
    requires ':' !in line
    ensures HeaderLine(line) == []
  {
    NoColonInTrim(line, Trim(line));
  }

  lemma {:induction false} NoColonInTrim(line: string, t: string)
    requires ':' !in line && t == Trim(line)
    ensures IndexOf(t, ':', 0) == -1
  {
    TrimSpec(line);
    var i, j :| 0 <= i <= j <= |line| && t == line[i..j];
    forall k | 0 <= k < |t|
      ensures t[k] != ':'
    {
      assert t[k] == line[i + k];
    }
  }

  /**
   * The parsed block has a header exactly when some line names it, and its
   * value is the one of the LAST line naming it: a later duplicate overwrites.
   */
  lemma {:induction false} HeaderMapLastWins(raw: string, i: nat)
    requires i < |HeaderEntries(Lines(raw))|
    requires var es := HeaderEntries(Lines(raw)); forall j :: i < j < |es| ==> es[j].0 != es[i].0
    ensures var es := HeaderEntries(Lines(raw));
            es[i].0 in HeaderMap(raw) && HeaderMap(raw)[es[i].0] == es[i].1
  {
    PutAllLastWins(Empty(), HeaderEntries(Lines(raw)), i);
  }

  /** A name is in the parsed block exactly when some line gives it. */
  lemma {:induction false} HeaderMapNames(raw: string, name: string)
    ensures name in HeaderMap(raw) <==> HasKey(HeaderEntries(Lines(raw)), name)
  {
    var es := HeaderEntries(Lines(raw));
    PutAllValid(Empty(), es);
    PutAllKeys(Empty(), es, name);
  }

  /** One more line puts its header, if it gives one, into the map built from the lines before it. */
  /** A line that is not blank after trimming: its entry, if any, is split at the first `:`. */
  lemma {:induction false} HeaderLineAt(line: string, t: string, index: int)
    requires t == Trim(line) && t != [] && index == IndexOf(t, ':', 0)
    ensures index == -1 ==> HeaderLine(line) == []
    ensures index != -1 ==> 0 <= index < |t| && HeaderLine(line) == [(Trim(t[..index]), Trim(t[index + 1..]))]
  {
  }

  lemma {:induction false} HeaderStep(lines: seq<string>, i: nat)
    requires i < |lines|
    ensures var done := PutAll(Empty(), HeaderEntries(lines[..i])).values;
            var h := HeaderLine(lines[i]);
            PutAll(Empty(), HeaderEntries(lines[..i + 1])).values
            == if h == [] then done else done[h[0].0 := h[0].1]
  {
    var done := PutAll(Empty(), HeaderEntries(lines[..i]));
    var h := HeaderLine(lines[i]);
    assert PutAll(Empty(), HeaderEntries(lines[..i + 1])) == PutAll(done, h) by {
      HeaderEntriesStep(lines, i);
      PutAllAppend(Empty(), HeaderEntries(lines[..i]), h);
    }
    if h != [] {
      assert h == [(h[0].0, h[0].1)];
      PutAllOne(done, h[0].0, h[0].1);
    }
  }

  /** parseHeaders(raw) */
  method ParseHeaders(raw: string) returns (result: Headers)
    ensures result == HeaderMap(raw)
  {
    var lines := Lines(raw);
    result := map[];
    for i := 0 to |lines|
      invariant result == PutAll(Empty(), HeaderEntries(lines[..i])).values
    {
      HeaderStep(lines, i);
      var line := Trim(lines[i]);
      if line == [] {
        continue;
      }
      var index := IndexOf(line, ':', 0);
      HeaderLineAt(lines[i], line, index);
      if index == -1 {
        continue;
      }
      var headerName := Trim(line[..index]);
      var headerValue := Trim(line[index + 1..]);
      result := result[headerName := headerValue];
    }
    assert lines[..|lines|] == lines;
  }

  // ---------------------------------------------------------------- patterns

  /** The pattern separators of an init-parameter name: StringUtils.split(patterns, " \n\t"). */
  const PatternSeparators: set<char> := {' ', '\n', '\t'}

  /** One pattern: trimmed and, when not empty, made to start with `/`; none when empty. */
  function NormalizedPattern(token: string): Option<string> {
    var p := Trim(token);
    if p == [] then None else if p[0] != '/' then Some("/" + p) else Some(p)
  }

  /** The patterns of the tokens, in order, each with the parameter's headers. */
  function PatternEntries(tokens: seq<string>, headers: Headers): seq<(string, Headers)>
    decreases |tokens|
  {
    if tokens == [] then []
    else
      var last := NormalizedPattern(tokens[|tokens| - 1]);
      PatternEntries(tokens[..|tokens| - 1], headers) + if last.Some? then [(last.value, headers)] else []
  }

  /** The patterns of one init parameter (its name and its value), each with the headers its value holds. */
  function ParameterEntries(parameter: (string, string)): seq<(string, Headers)> {
    PatternEntries(Tokenize(parameter.0, PatternSeparators), HeaderMap(parameter.1))
  }

  /** The entries of all init parameters, in enumeration order. */
  function InitEntries(parameters: seq<(string, string)>): seq<(string, Headers)>
    decreases |parameters|
  {
    if parameters == [] then []
    else InitEntries(parameters[..|parameters| - 1]) + ParameterEntries(parameters[|parameters| - 1])
  }

  /** Every registered pattern starts with `/`, and all patterns of one parameter share its headers. */
  lemma {:induction false} PatternEntriesShape(tokens: seq<string>, headers: Headers)
    ensures forall e :: e in PatternEntries(tokens, headers) ==> |e.0| > 0 && e.0[0] == '/' && e.1 == headers
    decreases |tokens|
  {
    if tokens != [] {
      var init := tokens[..|tokens| - 1];
      var last := NormalizedPattern(tokens[|tokens| - 1]);
      PatternEntriesShape(init, headers);
      NormalizedPatternAbsolute(tokens[|tokens| - 1]);
      assert PatternEntries(tokens, headers) == PatternEntries(init, headers) + if last.Some? then [(last.value, headers)] else [];
    }
  }

  /** A normalized pattern is never empty and always starts with `/`. */
  lemma {:induction false} NormalizedPatternAbsolute(token: string)
    ensures var p := NormalizedPattern(token);
            p.Some? ==> |p.value| > 0 && p.value[0] == '/'
  {
  }

  /** A pattern token that is already absolute is registered as it is; any other gains one `/`. */
  lemma {:induction false} NormalizedPatternSpec(token: string)
    requires token != [] && !IsTrimmable(token[0]) && !IsTrimmable(token[|token| - 1])
    ensures token[0] == '/' ==> NormalizedPattern(token) == Some(token)
    ensures token[0] != '/' ==> NormalizedPattern(token) == Some("/" + token)
  {
    TrimUntouched(token);
  }

  lemma {:induction false} PatternEntriesStep(tokens: seq<string>, j: nat, headers: Headers)
    requires j < |tokens|
    ensures var p := NormalizedPattern(tokens[j]);
            PatternEntries(tokens[..j + 1], headers) == PatternEntries(tokens[..j], headers) + if p.Some? then [(p.value, headers)] else []
  {
    assert tokens[..j + 1][..j] == tokens[..j];
  }

  lemma {:induction false} InitEntriesStep(parameters: seq<(string, string)>, i: nat)
    requires i < |parameters|
    ensures InitEntries(parameters[..i + 1]) == InitEntries(parameters[..i]) + ParameterEntries(parameters[i])
  {
    assert parameters[..i + 1][..i] == parameters[..i];
  }

  // ---------------------------------------------------------------- placeholders

  /** `\w` of java.util.regex: an ASCII letter, digit or underscore. */
  predicate IsWordChar(c: char) {
    ('a' <= c <= 'z') || ('A' <= c <= 'Z') || ('0' <= c <= '9') || c == '_'
  }

  /** End of the run of word characters from `from`. */
  function WordEnd(v: string, from: nat): (r: nat)
    requires from <= |v|
    ensures from <= r <= |v|
    decreases |v| - from
  {
    if from < |v| && IsWordChar(v[from]) then WordEnd(v, from + 1) else from
  }

  /** WordEnd ends the maximal run: word characters before it, none at it. */
  lemma {:induction false} WordEndSpec(v: string, from: nat)
    requires from <= |v|
    ensures forall k :: from <= k < WordEnd(v, from) ==> IsWordChar(v[k])
    ensures WordEnd(v, from) < |v| ==> !IsWordChar(v[WordEnd(v, from)])
    decreases |v| - from
  {
    if from < |v| && IsWordChar(v[from]) {
      WordEndSpec(v, from + 1);
    }
  }

  /** A match of `\{(\w+)(?::([^\}]*))?}`: its extent, group 1, and group 2 (null when absent). */
  datatype Placeholder = Placeholder(start: nat, end: nat, name: string, params: Option<string>)

  /** The placeholder written `{name}` or `{name:params}`. */
  function Spelling(p: Placeholder): string {
    "{" + p.name + (if p.params.Some? then ":" + p.params.value else "") + "}"
  }

  /**
   * The match of the placeholder pattern at `i`, if any: `{`, a non-empty run
   * of word characters, then either `}` or `:` and everything up to the next `}`.
   */
  function PlaceholderAt(v: string, i: nat): (r: Option<Placeholder>)
    requires i <= |v|
    ensures r.Some? ==> r.value.start == i && i < r.value.end <= |v|
  {
    if i < |v| && v[i] == '{' then
      var j := WordEnd(v, i + 1);
      if j == i + 1 || j == |v| then None
      else if v[j] == '}' then Some(Placeholder(i, j + 1, v[i + 1..j], None))
      else if v[j] == ':' then
        var k := IndexOf(v, '}', j + 1);
        if k == -1 then None else Some(Placeholder(i, k + 1, v[i + 1..j], Some(v[j + 1..k])))
      else None
    else None
  }

  /**
   * A match spells its placeholder: `{`, a non-empty name of word
   * characters, `:` and params holding no `}` when present, then `}`.
   */
  lemma {:induction false} PlaceholderSpelling(v: string, i: nat)
    requires i <= |v| && PlaceholderAt(v, i).Some?
    ensures var p := PlaceholderAt(v, i).value;
            v[p.start..p.end] == Spelling(p)
            && p.name != [] && (forall k :: 0 <= k < |p.name| ==> IsWordChar(p.name[k]))
            && (p.params.Some? ==> '}' !in p.params.value)
  {
    PlaceholderName(v, i);
    PlaceholderText(v, i);
  }

  /** The name of a match is a non-empty run of word characters. */
  lemma {:induction false} PlaceholderName(v: string, i: nat)
    requires i <= |v| && PlaceholderAt(v, i).Some?
    ensures var p := PlaceholderAt(v, i).value;
            p.name != [] && (forall k :: 0 <= k < |p.name| ==> IsWordChar(p.name[k]))
  {
    var j := WordEnd(v, i + 1);
    WordEndSpec(v, i + 1);
    assert PlaceholderAt(v, i).value.name == v[i + 1..j];
  }

  /** The text of a match is its spelling, and its params hold no `}`. */
  lemma {:induction false} PlaceholderText(v: string, i: nat)
    requires i <= |v| && PlaceholderAt(v, i).Some?
    ensures var p := PlaceholderAt(v, i).value;
            v[p.start..p.end] == Spelling(p) && (p.params.Some? ==> '}' !in p.params.value)
  {
    var j := WordEnd(v, i + 1);
    var p := PlaceholderAt(v, i).value;
    if v[j] == '}' {
      assert p == Placeholder(i, j + 1, v[i + 1..j], None);
      BareSpelling(v, i, j, p);
    } else {
      var k := IndexOf(v, '}', j + 1);
      IndexOfSpec(v, '}', j + 1);
      assert p == Placeholder(i, k + 1, v[i + 1..j], Some(v[j + 1..k]));
      ParamsSpelling(v, i, j, k, p);
    }
  }

  /** `{name}` with no params. */
  lemma {:induction false} BareSpelling(v: string, i: nat, j: nat, p: Placeholder)
    requires i < j < |v| && v[i] == '{' && v[j] == '}'
    requires p == Placeholder(i, j + 1, v[i + 1..j], None)
    ensures v[p.start..p.end] == Spelling(p)
  {
    SpellingSlices(v, i, j, j, j + 1);
    assert Spelling(p) == "{" + v[i + 1..j] + "}";
  }

  /** `{name:params}`, the params running up to the first `}`. */
  lemma {:induction false} ParamsSpelling(v: string, i: nat, j: nat, k: nat, p: Placeholder)
    requires i < j < k < |v| && v[i] == '{' && v[j] == ':' && v[k] == '}'
    requires forall m :: j + 1 <= m < k ==> v[m] != '}'
    requires p == Placeholder(i, k + 1, v[i + 1..j], Some(v[j + 1..k]))
    ensures v[p.start..p.end] == Spelling(p) && '}' !in p.params.value
  {
    SpellingSlices(v, i, j, k, k + 1);
    assert Spelling(p) == "{" + v[i + 1..j] + (":" + v[j + 1..k]) + "}";
  }

  /** `{`, the name, an optional `:params`, and `}` laid end to end in `v`. */
  lemma {:induction false} SpellingSlices(v: string, i: nat, j: nat, k: nat, e: nat)
    requires i < j <= k < e == k + 1 <= |v| && v[i] == '{' && v[k] == '}'
    requires j < k ==> v[j] == ':'
    ensures j == k ==> v[i..e] == "{" + v[i + 1..j] + "}"
    ensures j < k ==> v[i..e] == "{" + v[i + 1..j] + (":" + v[j + 1..k]) + "}"
  {
    assert v[i..e] == [v[i]] + v[i + 1..k] + [v[k]] by {
      assert v[i..e] == [v[i]] + v[i + 1..e];
      assert v[i + 1..e] == v[i + 1..k] + [v[k]];
    }
    if j < k {
      assert v[i + 1..k] == v[i + 1..j] + (":" + v[j + 1..k]) by {
        assert v[i + 1..k] == v[i + 1..j] + v[j..k];
        assert v[j..k] == [v[j]] + v[j + 1..k];
      }
    } else {
      assert v[i + 1..k] == v[i + 1..j];
    }
  }

  /** Matcher.find() from `from`: the placeholder at the first position where one starts. */
  function FindPlaceholder(v: string, from: nat): (r: Option<Placeholder>)
    requires from <= |v|
    ensures r.Some? ==> from <= r.value.start < r.value.end <= |v| && PlaceholderAt(v, r.value.start) == r
    ensures r.Some? ==> forall k :: from <= k < r.value.start ==> PlaceholderAt(v, k).None?
    ensures r.None? ==> forall k :: from <= k <= |v| ==> PlaceholderAt(v, k).None?
    decreases |v| - from
  {
    if PlaceholderAt(v, from).Some? then PlaceholderAt(v, from)
    else if from == |v| then None
    else FindPlaceholder(v, from + 1)
  }

  /** What a placeholder evaluates to: none when its name has no evaluator or the evaluator fails. */
  function Evaluate(evaluators: map<string, Evaluator>, p: Placeholder): Option<string> {
    if p.name in evaluators then evaluators[p.name](p.params) else None
  }

  /** explandPlaceholders from `from`: each placeholder replaced by its value; null when one cannot be evaluated. */
  function Expanded(evaluators: map<string, Evaluator>, v: string, from: nat): Option<string>
    requires from <= |v|
    decreases |v| - from
  {
    match FindPlaceholder(v, from)
    case None => Some(v[from..])
    case Some(p) =>
      var replacement := Evaluate(evaluators, p);
      if replacement.None? then None
      else
        var rest := Expanded(evaluators, v, p.end);
        if rest.None? then None else Some(v[from..p.start] + replacement.value + rest.value)
  }

  /** The placeholders the scan from `from` meets, in order. */
  function Placeholders(v: string, from: nat): seq<Placeholder>
    requires from <= |v|
    decreases |v| - from
  {
    match FindPlaceholder(v, from)
    case None => []
    case Some(p) => [p] + Placeholders(v, p.end)
  }

  /** A value without a placeholder is returned unchanged. */
  lemma {:induction false} NoPlaceholderUnchanged(evaluators: map<string, Evaluator>, v: string)
    requires forall k :: 0 <= k <= |v| ==> PlaceholderAt(v, k).None?
    ensures Expanded(evaluators, v, 0) == Some(v)
  {
    assert v[0..] == v;
  }

  /** The value is null exactly when one of its placeholders has no evaluator or its evaluator fails. */
  lemma {:induction false} ExpandedNullIff(evaluators: map<string, Evaluator>, v: string, from: nat)
    requires from <= |v|
    ensures Expanded(evaluators, v, from).None? <==>
            exists i :: 0 <= i < |Placeholders(v, from)| && Evaluate(evaluators, Placeholders(v, from)[i]).None?
    decreases |v| - from
  {
    var ps := Placeholders(v, from);
    if FindPlaceholder(v, from).Some? {
      var p := FindPlaceholder(v, from).value;
      var rest := Placeholders(v, p.end);
      ExpandedStep(evaluators, v, from);
      ExpandedNullIff(evaluators, v, p.end);
      if Evaluate(evaluators, p).None? {
        assert Evaluate(evaluators, ps[0]).None?;
      } else if Expanded(evaluators, v, p.end).None? {
        var j :| 0 <= j < |rest| && Evaluate(evaluators, rest[j]).None?;
        assert ps[j + 1] == rest[j];
      } else {
        forall i | 0 <= i < |ps|
          ensures Evaluate(evaluators, ps[i]).Some?
        {
          if i > 0 {
            assert ps[i] == rest[i - 1];
          } else {
            assert ps[i] == p;
          }
        }
      }
    }
  }

  /** One step of the scan: the first placeholder, then the rest of the value after it. */
  lemma {:induction false} ExpandedStep(evaluators: map<string, Evaluator>, v: string, from: nat)
    requires from <= |v| && FindPlaceholder(v, from).Some?
    ensures var p := FindPlaceholder(v, from).value;
            && Placeholders(v, from) == [p] + Placeholders(v, p.end)
            && (Expanded(evaluators, v, from).None? <==> Evaluate(evaluators, p).None? || Expanded(evaluators, v, p.end).None?)
  {
  }

  /** Evaluators that give every placeholder its own spelling give back the value unchanged. */
  lemma {:induction false} ExpandedBySpelling(evaluators: map<string, Evaluator>, v: string, from: nat)
    requires from <= |v|
    requires forall p :: p in Placeholders(v, from) ==> Evaluate(evaluators, p) == Some(Spelling(p))
    ensures Expanded(evaluators, v, from) == Some(v[from..])
    decreases |v| - from
  {
    match FindPlaceholder(v, from)
    case None =>
    case Some(p) =>
      var rest := Placeholders(v, p.end);
      assert Placeholders(v, from) == [p] + rest;
      assert p in Placeholders(v, from);
      forall q | q in rest
        ensures Evaluate(evaluators, q) == Some(Spelling(q))
      {
        assert q in Placeholders(v, from);
      }
      ExpandedBySpelling(evaluators, v, p.end);
      SpellingAt(v, from, p);
  }

  lemma {:induction false} SpellingAt(v: string, from: nat, p: Placeholder)
    requires from <= |v| && FindPlaceholder(v, from) == Some(p)
    ensures v[from..] == v[from..p.start] + Spelling(p) + v[p.end..]
  {
    PlaceholderSpelling(v, p.start);
    SliceJoin(v, from, p.start, p.end);
  }

  lemma {:induction false} SliceJoin(v: string, a: nat, b: nat, c: nat)
    requires a <= b <= c <= |v|
    ensures v[a..] == v[a..b] + v[b..c] + v[c..]
  {
  }

  /** The first pattern, in registration order, that matches the path. */
  function FirstMatch(patterns: seq<string>, path: string, matches: PathMatcher): (r: Option<nat>)
    ensures r.Some? ==> r.value < |patterns| && matches(patterns[r.value], path)
    ensures r.Some? ==> forall k :: 0 <= k < r.value ==> !matches(patterns[k], path)
    ensures r.None? ==> forall k :: 0 <= k < |patterns| ==> !matches(patterns[k], path)
    decreases |patterns|
  {
    if patterns == [] then None
    else if matches(patterns[0], path) then Some(0)
    else
      var rest := FirstMatch(patterns[1..], path, matches);
      if rest.Some? then Some(rest.value + 1) else None
  }

  /** The headers applyHeadersToResponse sets from `ks`: those whose expanded value is not null. */
  function Applied(evaluators: map<string, Evaluator>, headers: Headers, ks: set<string>): Headers {
    map k | k in ks && k in headers && Expanded(evaluators, headers[k], 0).Some? :: Expanded(evaluators, headers[k], 0).value
  }

  /** One more header name: its expanded value is added when it is not null. */
  lemma {:induction false} AppliedStep(evaluators: map<string, Evaluator>, headers: Headers, done: set<string>, k: string)
    requires k in headers && k !in done
    ensures var e := Expanded(evaluators, headers[k], 0);
            Applied(evaluators, headers, done + {k})
            == if e.Some? then Applied(evaluators, headers, done)[k := e.value] else Applied(evaluators, headers, done)
  {
  }

  /** Expanding from a placeholder that evaluates: the text before it and its value, then the rest expanded. */
  lemma {:induction false} ExpandedUnfold(evaluators: map<string, Evaluator>, v: string, from: nat)
    requires from <= |v| && FindPlaceholder(v, from).Some?
    requires Evaluate(evaluators, FindPlaceholder(v, from).value).Some?
    ensures var p := FindPlaceholder(v, from).value;
            Expanded(evaluators, v, from)
            == PrependText(v[from..p.start] + Evaluate(evaluators, p).value, Expanded(evaluators, v, p.end))
  {
  }

  // ---------------------------------------------------------------- servlet objects

  /** The response, reduced to its headers. */
  class HttpResponse {
    var headers: Headers

    constructor()
      ensures headers == map[]
    {
      headers := map[];
    }

    /** setHeader(name, value): replaces any earlier value. */
    method SetHeader(name: string, value: string)
      modifies this
      ensures headers == old(headers)[name := value]
    {
      headers := headers[name := value];
    }
  }

  /** The rest of the filter chain, reduced to how often it was invoked. */
  class FilterChain {
    var invocations: nat

    constructor()
      ensures invocations == 0
    {
      invocations := 0;
    }

    method DoFilter()
      modifies this
      ensures invocations == old(invocations) + 1
    {
      invocations := invocations + 1;
    }
  }

  class CacheControlFilter {
    var patternToHeaders: LinkedMap<string, Headers>
    var evaluators: map<string, Evaluator>

    ghost predicate Valid()
      reads this
    {
      patternToHeaders.Valid()
    }

    constructor()
      ensures Valid() && patternToHeaders == Empty() && evaluators == map[]
    {
      patternToHeaders := Empty();
      evaluators := map[];
    }

    /**
     * init(config): the init parameters (name, value) in enumeration order;
     * each name's patterns registered with the headers of its value, then the
     * `dateTimeOffset` evaluator registered.
     */
    method Init(parameters: seq<(string, string)>, dateTimeOffset: Evaluator)
      requires Valid()
      modifies this
      ensures Valid()
      ensures patternToHeaders == PutAll(old(patternToHeaders), InitEntries(parameters))
      ensures evaluators == old(evaluators)["dateTimeOffset" := dateTimeOffset]
    {
      for i := 0 to |parameters|
        invariant Valid() && evaluators == old(evaluators)
        invariant patternToHeaders == PutAll(old(patternToHeaders), InitEntries(parameters[..i]))
      {
        InitEntriesStep(parameters, i);
        PutAllAppend(old(patternToHeaders), InitEntries(parameters[..i]), ParameterEntries(parameters[i]));
        RegisterParameter(parameters[i]);
      }
      assert parameters[..|parameters|] == parameters;
      evaluators := evaluators["dateTimeOffset" := dateTimeOffset];
    }

    /** The body of init's loop for one parameter. */
    method RegisterParameter(parameter: (string, string))
      requires Valid()
      modifies this
      ensures Valid()
      ensures patternToHeaders == PutAll(old(patternToHeaders), ParameterEntries(parameter))
      ensures evaluators == old(evaluators)
    {
      var headers := ParseHeaders(parameter.1);
      var tokens := Tokenize(parameter.0, PatternSeparators);
      for j := 0 to |tokens|
        invariant Valid() && evaluators == old(evaluators)
        invariant patternToHeaders == PutAll(old(patternToHeaders), PatternEntries(tokens[..j], headers))
      {
        PatternEntriesStep(tokens, j, headers);
        PutAllAppend(old(patternToHeaders), PatternEntries(tokens[..j], headers), if NormalizedPattern(tokens[j]).Some? then [(NormalizedPattern(tokens[j]).value, headers)] else []);
        RegisterPattern(tokens[j], headers);
      }
      assert tokens[..|tokens|] == tokens;
    }

    /** One token of a pattern list: trimmed, skipped when blank, given a leading `/`, then put. */
    method RegisterPattern(token: string, headers: Headers)
      requires Valid()
      modifies this
      ensures Valid() && evaluators == old(evaluators)
      ensures patternToHeaders
              == PutAll(old(patternToHeaders), if NormalizedPattern(token).Some? then [(NormalizedPattern(token).value, headers)] else [])
    {
      var pattern := Trim(token);
      if pattern == [] {
        return;
      }
      if pattern[0] != '/' {
        pattern := "/" + pattern;
      }
      PutAllOne(patternToHeaders, pattern, headers);
      patternToHeaders := patternToHeaders.Put(pattern, headers);
    }

    /**
     * doFilter: the headers of the first registered pattern matching the
     * context-relative path are applied; the chain is invoked in any case.
     */
    method DoFilter(requestUri: string, contextPath: string, matches: PathMatcher, res: HttpResponse, chain: FilterChain)
      requires Valid() && |contextPath| <= |requestUri|
      modifies res, chain
      ensures chain.invocations == old(chain.invocations) + 1
      ensures var first := FirstMatch(patternToHeaders.keys, requestUri[|contextPath|..], matches);
              res.headers == old(res.headers) +
                if first.Some? then
                  var headers := patternToHeaders.values[patternToHeaders.keys[first.value]];
                  Applied(evaluators, headers, headers.Keys)
                else map[]
    {
      var requestPath := requestUri[|contextPath|..];
      var patterns := patternToHeaders.keys;
      ghost var first := FirstMatch(patterns, requestPath, matches);
      var i := 0;
      while i < |patterns|
        invariant 0 <= i <= |patterns| && res.headers == old(res.headers)
        invariant forall k :: 0 <= k < i ==> !matches(patterns[k], requestPath)
      {
        if matches(patterns[i], requestPath) {
          assert first == Some(i);
          ApplyHeadersToResponse(patternToHeaders.values[patterns[i]], res);
          break;
        }
        i := i + 1;
      }
      if i == |patterns| {
        assert first.None?;
        assert old(res.headers) + map[] == old(res.headers);
      }
      chain.DoFilter();
    }

    /** applyHeadersToResponse: each header whose expanded value is not null is set. */
    method ApplyHeadersToResponse(headers: Headers, res: HttpResponse)
      modifies res
      ensures res.headers == old(res.headers) + Applied(evaluators, headers, headers.Keys)
    {
      var remaining := headers.Keys;
      while remaining != {}
        invariant remaining <= headers.Keys
        invariant res.headers == old(res.headers) + Applied(evaluators, headers, headers.Keys - remaining)
        decreases |remaining|
      {
        var headerName :| headerName in remaining;
        var headerValue := ExplandPlaceholders(headers[headerName]);
        AppliedNext(evaluators, headers, remaining, headerName, old(res.headers), res.headers);
        if headerValue != None {
          res.SetHeader(headerName, headerValue.value);
        }
        remaining := remaining - {headerName};
      }
      assert headers.Keys - remaining == headers.Keys;
    }

    /** explandPlaceholders(value): the do/while over the placeholder matches. */
    method ExplandPlaceholders(value: string) returns (r: Option<string>)
      ensures r == Expanded(evaluators, value, 0)
    {
      var m := FindPlaceholder(value, 0);
      if m.None? {
        assert value[0..] == value;
        return Some(value);
      }
      var sb := new TextBuilder();
      var appendPos := 0;
      PrependEmpty(Expanded(evaluators, value, 0));
      while true
        invariant appendPos <= |value| && m == FindPlaceholder(value, appendPos) && m.Some?
        invariant Expanded(evaluators, value, 0) == PrependText(sb.text, Expanded(evaluators, value, appendPos))
        decreases |value| - appendPos
      {
        var p := m.value;
        var evaluator := if p.name in evaluators then Some(evaluators[p.name]) else None;
        if evaluator == None {
          return None;
        }
        var replacement := evaluator.value(p.params);
        if replacement == None {
          return None;
        }
        ExpandedUnfold(evaluators, value, appendPos);
        PrependTwice(sb.text, value[appendPos..p.start] + replacement.value, Expanded(evaluators, value, p.end));
        sb.Append(value[appendPos..p.start] + replacement.value);
        appendPos := p.end;
        m := FindPlaceholder(value, appendPos);
        if m.None? {
          break;
        }
      }
      assert Expanded(evaluators, value, appendPos) == Some(value[appendPos..]);
      sb.Append(value[appendPos..]);
      return Some(sb.text);
    }
  }

  /** Setting one more header on top of a union is setting it in the second map. */
  /** One loop step of applyHeadersToResponse: the headers set so far grow by the next name's value, if any. */
  lemma {:induction false} AppliedNext(evaluators: map<string, Evaluator>, headers: Headers, remaining: set<string>, k: string, base: Headers, current: Headers)
    requires k in remaining && remaining <= headers.Keys
    requires current == base + Applied(evaluators, headers, headers.Keys - remaining)
    ensures var e := Expanded(evaluators, headers[k], 0);
            (if e.Some? then current[k := e.value] else current)
            == base + Applied(evaluators, headers, headers.Keys - (remaining - {k}))
  {
    var done := headers.Keys - remaining;
    assert headers.Keys - (remaining - {k}) == done + {k};
    AppliedStep(evaluators, headers, done, k);
    var e := Expanded(evaluators, headers[k], 0);
    if e.Some? {
      UpdateUnion(base, Applied(evaluators, headers, done), k, e.value);
    }
  }

  lemma {:induction false} UpdateUnion(a: Headers, b: Headers, k: string, v: string)
    ensures (a + b)[k := v] == a + b[k := v]
  {
  }

  /** `prefix` in front of a value that may be null. */
  function PrependText(prefix: string, rest: Option<string>): Option<string> {
    if rest.None? then None else Some(prefix + rest.value)
  }

  /** No prefix leaves a value that may be null as it is. */
  lemma {:induction false} PrependEmpty(rest: Option<string>)
    ensures PrependText([], rest) == rest
  {
    if rest.Some? {
      assert [] + rest.value == rest.value;
    }
  }

  /** Two prefixes in front of a value that may be null are their concatenation. */
  lemma {:induction false} PrependTwice(a: string, b: string, rest: Option<string>)
    ensures PrependText(a, PrependText(b, rest)) == PrependText(a + b, rest)
  {
    if rest.Some? {
      assert a + (b + rest.value) == (a + b) + rest.value;
    }
  }
}
