/**
 * The resolver of config-injection 1.2. The references are the matches of
 * the reference pattern: `$$`, `$name` and `${name}`, with no nesting and no
 * default. `$$` stands for `$`; any other name is resolved with the cycle
 * trace. A `${name}` that resolves to nothing is a missing property; a bare
 * `$name` that resolves to nothing stays in the text as it was written.
 *
 * ResolvedText, ResolvedFrom, TracedValue and ValueOf state the semantics;
 * the class VariableResolver is the Matcher loop of the source, proved equal
 * to them.
 */
module ResolverV12 {
  import opened Wrappers
  import opened JavaText
  import opened Builders
  import opened ReferencePattern
  import opened VariableSources
  import opened BulkResolution

  /** The name of a match found in `text` is cut from `text`, and the match lies inside it. */
  lemma {:induction false} MatchWithin(text: string, pos: nat, m: PatternMatch)
    requires FindMatch(text, pos) == Some(m)
    ensures pos <= m.start && m.start + m.length <= |text| && m.length >= 2
    ensures Substrings(m.name) <= Substrings(text)
  {
    FindMatchSpec(text, pos);
    PatternAtSpelling(text, m.start);
    if m.braced {
      SubstringsOfSlice(text, m.start + 2, m.start + m.length - 1);
    } else {
      SubstringsOfSlice(text, m.start + 1, m.start + m.length);
    }
  }

  /** getRawValue(name, default): the first source's answer, or the default when no source has one. */
  function RawValueOr(sources: seq<VariableSource>, name: string, default: Option<string>)
    : Result<Option<string>, ResolveError>
  {
    var raw :- RawValue(sources, name);
    Ok(if raw.Some? then raw else default)
  }

  /** What getRawValue returns is a source's value or the default, so it lies in the pool or the default. */
  lemma {:induction false} RawValueOrWithin(sources: seq<VariableSource>, name: string, default: Option<string>)
    requires RawValueOr(sources, name, default).Ok?
    ensures OptionTexts(RawValueOr(sources, name, default).value) <= Pool(sources) + OptionTexts(default)
  {
    var raw := RawValue(sources, name);
    if raw.value.Some? {
      RawValueInPool(sources, name);
    }
  }

  /** resolveStringValue on a non-null string: every match from the start replaced. */
  function ResolvedText(sources: seq<VariableSource>, text: string, trace: seq<string>): Result<string, ResolveError>
    decreases Unvisited(sources, Substrings(text), trace), 2, 0
  {
    ResolvedFrom(sources, text, 0, trace)
  }

  /** resolveStringValue: null stays null. */
  function ResolvedNullable(sources: seq<VariableSource>, text: Option<string>, trace: seq<string>)
    : Result<Option<string>, ResolveError>
    decreases Unvisited(sources, OptionTexts(text), trace), 2, 1
  {
    if text.None? then Ok(None)
    else
      var v :- ResolvedText(sources, text.value, trace);
      Ok(Some(v))
  }

  /**
   * The rest of the text from `pos`, match by match: the text before the
   * match, then the value of its name, or the match as written when a bare
   * name has no value; a braced name without a value, or any error, ends
   * everything.
   */
  function ResolvedFrom(sources: seq<VariableSource>, text: string, pos: nat, trace: seq<string>)
    : Result<string, ResolveError>
    requires pos <= |text|
    decreases Unvisited(sources, Substrings(text), trace), 1, |text| - pos
  {
    match FindMatch(text, pos)
    case None => Ok(text[pos..])
    case Some(m) =>
      MatchWithin(text, pos, m);
      var value :- if m.name == "$" then Ok(Some("$")) else TracedValue(sources, m.name, trace);
      if value.None? && m.braced then Err(Missing(m.name))
      else
        var rest :- ResolvedFrom(sources, text, m.start + m.length, trace);
        Ok(text[pos..m.start] + (if value.Some? then value.value else text[m.start..m.start + m.length]) + rest)
  }

  /** resolveValueWithTracing: a cycle when the name is on the trace, else resolveValue with it pushed. */
  function TracedValue(sources: seq<VariableSource>, name: string, trace: seq<string>)
    : Result<Option<string>, ResolveError>
    decreases Unvisited(sources, Substrings(name), trace), 0, 0
  {
    if name in trace then Err(Circular(CircularMessage(trace, name)))
    else
      SelfSubstring(name);
      PushShrinks(sources, ReferenceTexts(name, None), Substrings(name), trace, name);
      ValueOf(sources, name, None, trace + [name])
  }

  /** resolveValue(name, default): resolveStringValue(getRawValue(resolveStringValue(name), default)). */
  function ValueOf(sources: seq<VariableSource>, name: string, default: Option<string>, trace: seq<string>)
    : Result<Option<string>, ResolveError>
    decreases Unvisited(sources, ReferenceTexts(name, default), trace), 3, 0
  {
    var resolvedName :- ResolvedText(sources, name, trace);
    var chosen :- RawValueOr(sources, resolvedName, default);
    RawValueOrWithin(sources, resolvedName, default);
    ResolvedNullable(sources, chosen, trace)
  }

  /** A text without `$` holds no match and comes back unchanged. */
  lemma {:induction false} NoDollarUnchanged(sources: seq<VariableSource>, text: string, trace: seq<string>)
    requires '$' !in text
    ensures ResolvedText(sources, text, trace) == Ok(text)
  {
    assert NoMatchBetween(text, 0, |text|);
    FindMatchNone(text, 0);
    assert text[0..] == text;
  }

  /** `prefix` put in front of a successful result. */
  function Prepend(prefix: string, r: Result<string, ResolveError>): Result<string, ResolveError> {
    if r.Ok? then Ok(prefix + r.value) else r
  }

  /** The value a match stands for: `$` for `$$`, else its traced resolution. */
  function MatchValue(sources: seq<VariableSource>, m: PatternMatch, trace: seq<string>)
    : Result<Option<string>, ResolveError>
  {
    if m.name == "$" then Ok(Some("$")) else TracedValue(sources, m.name, trace)
  }

  /** One step of ResolvedFrom: the text before the match, its replacement, then the rest. */
  lemma {:induction false} ResolvedFromStep(sources: seq<VariableSource>, text: string, pos: nat, m: PatternMatch, trace: seq<string>)
    requires pos <= |text| && FindMatch(text, pos) == Some(m)
    ensures pos <= m.start && m.start + m.length <= |text|
    ensures var value := MatchValue(sources, m, trace);
            && (value.Err? ==> ResolvedFrom(sources, text, pos, trace) == Err(value.error))
            && (value == Ok(None) && m.braced ==> ResolvedFrom(sources, text, pos, trace) == Err(Missing(m.name)))
            && (value.Ok? && value.value.Some? ==>
                  ResolvedFrom(sources, text, pos, trace)
                  == Prepend(text[pos..m.start] + value.value.value, ResolvedFrom(sources, text, m.start + m.length, trace)))
            && (value == Ok(None) && !m.braced ==>
                  ResolvedFrom(sources, text, pos, trace)
                  == Prepend(text[pos..m.start + m.length], ResolvedFrom(sources, text, m.start + m.length, trace)))
  {
    MatchWithin(text, pos, m);
    assert text[pos..m.start] + text[m.start..m.start + m.length] == text[pos..m.start + m.length];
  }

  /** Past the last match the rest of the text is copied as it is. */
  lemma {:induction false} ResolvedFromTail(sources: seq<VariableSource>, text: string, pos: nat, trace: seq<string>)
    requires pos <= |text| && FindMatch(text, pos).None?
    ensures ResolvedFrom(sources, text, pos, trace) == Ok(text[pos..])
  {
  }

  /** Text moved from the pending part behind the prefix into the prefix. */
  lemma {:induction false} PrependShift(prefix: string, text: string, from: nat, pos: nat, to: nat, piece: string,
                     rest: Result<string, ResolveError>)
    requires from <= pos <= to <= |text|
    ensures Prepend(prefix + text[from..pos], Prepend(text[pos..to] + piece, rest))
            == Prepend(prefix + text[from..to] + piece, rest)
  {
    if rest.Ok? {
      assert text[from..pos] + text[pos..to] == text[from..to];
      assert prefix + text[from..pos] + (text[pos..to] + piece + rest.value)
          == prefix + text[from..to] + piece + rest.value;
    }
  }

  /** ResolvedFromStep for a match with a value, behind `prefix` and the text not yet appended from `from`. */
  lemma {:induction false} AdvanceByValue(sources: seq<VariableSource>, text: string, from: nat, pos: nat, m: PatternMatch,
                       trace: seq<string>, prefix: string, v: string, after: string, next: nat, pending: string)
    requires from <= pos <= |text| && FindMatch(text, pos) == Some(m)
    requires MatchValue(sources, m, trace) == Ok(Some(v))
    requires pos <= m.start && next == m.start + m.length <= |text|
    requires after == prefix + text[from..m.start] + v && pending == []
    ensures Prepend(prefix + text[from..pos], ResolvedFrom(sources, text, pos, trace))
            == Prepend(after + pending, ResolvedFrom(sources, text, next, trace))
  {
    ResolvedFromStep(sources, text, pos, m, trace);
    PrependShift(prefix, text, from, pos, m.start, v, ResolvedFrom(sources, text, next, trace));
    assert after + pending == after;
  }

  /** The two ways a step of ResolvedFrom ends the resolution with an error. */
  lemma {:induction false} ResolvedFromStops(sources: seq<VariableSource>, text: string, pos: nat, m: PatternMatch, trace: seq<string>)
    requires pos <= |text| && FindMatch(text, pos) == Some(m)
    ensures var value := MatchValue(sources, m, trace);
            && (value.Err? ==> ResolvedFrom(sources, text, pos, trace) == Err(value.error))
            && (value == Ok(None) && m.braced ==> ResolvedFrom(sources, text, pos, trace) == Err(Missing(m.name)))
  {
    ResolvedFromStep(sources, text, pos, m, trace);
  }

  /** ResolvedFromStep for a bare match without a value: the match stays in the text not yet appended. */
  lemma {:induction false} AdvanceByLiteral(sources: seq<VariableSource>, text: string, from: nat, pos: nat, m: PatternMatch,
                         trace: seq<string>, prefix: string)
    requires from <= pos <= |text| && FindMatch(text, pos) == Some(m)
    requires MatchValue(sources, m, trace) == Ok(None) && !m.braced
    ensures pos <= m.start && m.start + m.length <= |text|
    ensures Prepend(prefix + text[from..pos], ResolvedFrom(sources, text, pos, trace))
            == Prepend(prefix + text[from..m.start + m.length], ResolvedFrom(sources, text, m.start + m.length, trace))
  {
    ResolvedFromStep(sources, text, pos, m, trace);
    PrependShift(prefix, text, from, pos, m.start + m.length, [], ResolvedFrom(sources, text, m.start + m.length, trace));
    assert text[pos..m.start + m.length] + [] == text[pos..m.start + m.length];
    assert prefix + text[from..m.start + m.length] + [] == prefix + text[from..m.start + m.length];
  }

  /** resolveStringValue on a non-null string, called from outside any resolution (empty trace). */
  function TopLevel(sources: seq<VariableSource>): Resolution {
    text => ResolvedText(sources, text, [])
  }

  /**
   * The resolver: a fixed chain of sources. The cycle trace, a thread-local
   * list pushed and popped around resolveValue, is passed along as a value.
   */
  class VariableResolver {
    const sources: seq<VariableSource>

    constructor(sources: seq<VariableSource>)
      ensures this.sources == sources
    {
      this.sources := sources;
    }

    /** getRawValue(name, default): the sources in order, the first non-null answer wins, else the default. */
    method GetRawValue(name: string, default: Option<string>) returns (r: Result<Option<string>, ResolveError>)
      ensures r == RawValueOr(sources, name, default)
    {
      var i := 0;
      while i < |sources|
        invariant 0 <= i <= |sources|
        invariant RawValue(sources, name) == RawValue(sources[i..], name)
      {
        assert sources[i..][1..] == sources[i + 1..];
        match sources[i]
        case FailingSource(message) =>
          return Err(SourceFailure(message));
        case MapSource(values) =>
          if name in values {
            return Ok(Some(values[name]));
          }
        i := i + 1;
      }
      return Ok(default);
    }

    ghost function OptionUnvisited(text: Option<string>, trace: seq<string>): set<string> {
      Unvisited(sources, OptionTexts(text), trace)
    }

    /**
     * resolveStringValue: null stays null, a text without `$` is returned
     * as it is, and any other goes through the Matcher loop.
     */
    method ResolveStringValue(text: Option<string>, trace: seq<string>) returns (r: Result<Option<string>, ResolveError>)
      ensures r == ResolvedNullable(sources, text, trace)
      decreases OptionUnvisited(text, trace), 2, 1
    {
      if text.None? {
        return Ok(None);
      }
      var s := text.value;
      IndexOfSpec(s, '$', 0);
      if IndexOf(s, '$', 0) == -1 {
        NoDollarUnchanged(sources, s, trace);
        return Ok(Some(s));
      }
      var sb := new TextBuilder();
      var m := new Matcher(s);
      var resolved := ReplaceMatches(m, sb, trace);
      ghost var whole := ResolvedFrom(sources, s, 0, trace);
      assert [] + s[0..0] == [];
      assert whole.Ok? ==> [] + whole.value == whole.value;
      assert resolved == whole;
      r := if resolved.Ok? then Ok(Some(resolved.value)) else Err(resolved.error);
    }

    /**
     * The `while (m.find())` loop and appendTail: the builder ends holding
     * what it held, the text the matcher has not appended yet, and
     * ResolvedFrom from where the matcher's search stood.
     */
    method ReplaceMatches(m: Matcher, sb: TextBuilder, trace: seq<string>) returns (r: Result<string, ResolveError>)
      requires m.Valid()
      modifies m`searchFrom, m`appendPos, m`current, sb
      ensures r == Prepend(old(sb.text) + m.text[old(m.appendPos)..old(m.searchFrom)],
                           ResolvedFrom(sources, m.text, old(m.searchFrom), trace))
      ensures r.Ok? ==> sb.text == r.value
      decreases Unvisited(sources, Substrings(m.text), trace), 1, 0
    {
      var s := m.text;
      ghost var goal := Prepend(sb.text + s[m.appendPos..m.searchFrom], ResolvedFrom(sources, s, m.searchFrom, trace));
      while true
        invariant m.Valid()
        invariant goal == Prepend(sb.text + s[m.appendPos..m.searchFrom], ResolvedFrom(sources, s, m.searchFrom, trace))
        decreases |s| - m.searchFrom
      {
        ghost var pos := m.searchFrom;
        var found := m.Find();
        if !found {
          break;
        }
        var failure := ReplaceOne(m, sb, pos, trace);
        if failure.Some? {
          return Err(failure.value);
        }
      }
      FindMatchNone(s, m.searchFrom);
      ResolvedFromTail(sources, s, m.searchFrom, trace);
      ghost var before := sb.text;
      m.AppendTail(sb);
      assert sb.text == before + s[m.appendPos..m.searchFrom] + s[m.searchFrom..];
      return Ok(sb.text);
    }

    /**
     * One turn of the loop, on the match just found from `pos`: the name
     * from group 1 or group 2, its value, then appendReplacement with the
     * value escaped; a bare name without a value is left for the next append.
     */
    method ReplaceOne(m: Matcher, sb: TextBuilder, ghost pos: nat, trace: seq<string>)
      returns (failure: Option<ResolveError>)
      requires m.Valid() && m.current.Some? && m.appendPos <= pos
      requires IsFirstMatch(m.text, pos, m.current.value)
      requires m.searchFrom == m.current.value.start + m.current.value.length
      modifies m`appendPos, sb
      ensures failure.Some? ==> ResolvedFrom(sources, m.text, pos, trace) == Err(failure.value)
      ensures failure.None? ==>
                m.Valid()
                && Prepend(old(sb.text) + m.text[old(m.appendPos)..pos], ResolvedFrom(sources, m.text, pos, trace))
                   == Prepend(sb.text + m.text[m.appendPos..m.searchFrom], ResolvedFrom(sources, m.text, m.searchFrom, trace))
      decreases Unvisited(sources, Substrings(m.text), trace), 0, 2
    {
      var s := m.text;
      var found := m.current.value;
      FindMatchFirst(s, pos, found);
      MatchWithin(s, pos, found);
      ResolvedFromStops(sources, s, pos, found, trace);
      var hasCurlyBrackets := m.Group1().None?;
      var name := if hasCurlyBrackets then m.Group2().value else m.Group1().value;
      var value: Result<Option<string>, ResolveError>;
      if name == "$" {
        value := Ok(Some("$"));
      } else {
        value := ResolveValueWithTracing(name, trace);
      }
      assert value == MatchValue(sources, found, trace);
      if value.Err? {
        return Some(value.error);
      }
      ghost var before := sb.text;
      ghost var from := m.appendPos;
      if value.value.None? {
        if hasCurlyBrackets {
          return Some(Missing(name));
        }
        AdvanceByLiteral(sources, s, from, pos, found, trace, before);
        return None;
      }
      EscapeRoundTrip(value.value.value);
      m.AppendReplacement(sb, Escape(value.value.value));
      AdvanceByValue(sources, m.text, old(m.appendPos), pos, found, trace, old(sb.text), value.value.value,
                     sb.text, m.searchFrom, m.text[m.appendPos..m.searchFrom]);
      return None;
    }

    /** resolveValueWithTracing: the circular error, or resolveValue with the name pushed on the trace. */
    method ResolveValueWithTracing(name: string, trace: seq<string>) returns (r: Result<Option<string>, ResolveError>)
      ensures r == TracedValue(sources, name, trace)
      decreases Unvisited(sources, Substrings(name), trace), 0, 0
    {
      if name in trace {
        var e := CircularSubstitutionError(trace, name);
        return Err(e);
      }
      SelfSubstring(name);
      PushShrinks(sources, ReferenceTexts(name, None), Substrings(name), trace, name);
      r := ResolveValue(name, None, trace + [name]);
    }

    /** resolveValue(name, default). */
    method ResolveValue(name: string, default: Option<string>, trace: seq<string>)
      returns (r: Result<Option<string>, ResolveError>)
      ensures r == ValueOf(sources, name, default, trace)
      decreases Unvisited(sources, ReferenceTexts(name, default), trace), 3, 0
    {
      var resolvedName := ResolveStringValue(Some(name), trace);
      if resolvedName.Err? {
        return Err(resolvedName.error);
      }
      var chosen := GetRawValue(resolvedName.value.value, default);
      if chosen.Err? {
        return Err(chosen.error);
      }
      RawValueOrWithin(sources, resolvedName.value.value, default);
      r := ResolveStringValue(chosen.value, trace);
    }

    /** resolveStringValue on a non-null string from outside any resolution. */
    method ResolveTopLevel(text: string) returns (r: Result<string, ResolveError>)
      ensures r == TopLevel(sources)(text)
    {
      var v := ResolveStringValue(Some(text), []);
      r := if v.Ok? then Ok(v.value.value) else Err(v.error);
    }

    /**
     * resolveValues: a new map with the same keys and every value resolved;
     * the first entry that fails, in the map's unspecified iteration order,
     * ends it with its error.
     */
    method ResolveValues(values: map<string, string>) returns (r: Result<map<string, string>, ResolveError>)
      ensures r.Ok? <==> AllValuesResolve(TopLevel(sources), values)
      ensures r.Ok? ==> r.value == ResolvedValues(TopLevel(sources), values)
      ensures r.Err? ==> exists k :: k in values && TopLevel(sources)(values[k]) == Err(r.error)
    {
      var result := map[];
      var todo := values.Keys;
      while todo != {}
        invariant todo <= values.Keys
        invariant result.Keys == values.Keys - todo
        invariant forall k :: k in result ==> TopLevel(sources)(values[k]) == Ok(result[k])
        decreases todo
      {
        var k :| k in todo;
        var v := ResolveTopLevel(values[k]);
        if v.Err? {
          return Err(v.error);
        }
        result := result[k := v.value];
        todo := todo - {k};
      }
      return Ok(result);
    }

    /**
     * resolveAndReplaceValues: every value of the map replaced by its
     * resolution. A failure leaves the entries visited before it replaced
     * and the others as they were.
     */
    method ResolveAndReplaceValues(target: StringMap) returns (failure: Option<ResolveError>)
      modifies target
      ensures target.entries.Keys == old(target.entries).Keys
      ensures failure.None? <==> AllValuesResolve(TopLevel(sources), old(target.entries))
      ensures failure.None? ==> target.entries == ResolvedValues(TopLevel(sources), old(target.entries))
      ensures failure.Some? ==>
                (exists k :: k in old(target.entries) && TopLevel(sources)(old(target.entries)[k]) == Err(failure.value))
                && forall k :: k in target.entries ==>
                     target.entries[k] == old(target.entries)[k]
                     || TopLevel(sources)(old(target.entries)[k]) == Ok(target.entries[k])
    {
      ghost var original := target.entries;
      var todo := target.entries.Keys;
      while todo != {}
        invariant todo <= original.Keys && target.entries.Keys == original.Keys
        invariant forall k :: k in todo ==> target.entries[k] == original[k]
        invariant forall k :: k in original && k !in todo ==> TopLevel(sources)(original[k]) == Ok(target.entries[k])
        decreases todo
      {
        var k :| k in todo;
        var v := ResolveTopLevel(target.entries[k]);
        if v.Err? {
          return Some(v.error);
        }
        target.entries := target.entries[k := v.value];
        todo := todo - {k};
      }
      return None;
    }

    /** resolveItems: a new list, item i resolved, or the first failure. */
    method ResolveItems(items: seq<string>) returns (r: Result<seq<string>, ResolveError>)
      ensures r == ResolvedItems(TopLevel(sources), items)
    {
      var result := [];
      var i := 0;
      assert items[0..] == items;
      ghost var all := ResolvedItems(TopLevel(sources), items);
      assert all.Ok? ==> [] + all.value == all.value;
      while i < |items|
        invariant 0 <= i <= |items|
        invariant ResolvedItems(TopLevel(sources), items) == PrependItems(result, ResolvedItems(TopLevel(sources), items[i..]))
      {
        ResolvedItemsStep(TopLevel(sources), items, i);
        var v := ResolveTopLevel(items[i]);
        if v.Err? {
          return Err(v.error);
        }
        PrependItemsAppend(result, v.value, ResolvedItems(TopLevel(sources), items[i + 1..]));
        result := result + [v.value];
        i := i + 1;
      }
      assert items[i..] == [];
      assert result + [] == result;
      return Ok(result);
    }

    /**
     * resolveAndReplaceItems: the items are all resolved into a separate list
     * first, so the collection is replaced only when every item resolved and
     * is left as it was otherwise.
     */
    method ResolveAndReplaceItems(target: StringList) returns (failure: Option<ResolveError>)
      modifies target
      ensures var all := ResolvedItems(TopLevel(sources), old(target.items));
              (all.Ok? ==> failure.None? && target.items == all.value)
              && (all.Err? ==> failure == Some(all.error) && target.items == old(target.items))
    {
      var aux := ResolveItems(target.items);
      if aux.Err? {
        return Some(aux.error);
      }
      target.items := aux.value;
      return None;
    }
  }
}

/** What resolveStringValue and resolveValue of 1.2 promise, stated on the functions. */
module ResolverV12Properties {
  import opened Wrappers
  import opened ReferencePattern
  import opened VariableSources
  import opened ResolverV12
  import V14 = ResolverV14
  import V14Properties = ResolverV14Properties
  import VariableParsing

  /** With no match starting in [from, to), find from `from` is find from `to`. */
  lemma {:induction false} FindMatchSkip(s: string, from: nat, to: nat)
    requires from <= to <= |s| && NoMatchBetween(s, from, to)
    ensures FindMatch(s, from) == FindMatch(s, to)
    decreases |s| - from
  {
    if from < to {
      assert !StartsMatch(s, from);
      FindMatchSkip(s, from + 1, to);
    }
  }

  /** Find skips `$`-free text up to a `$` the pattern matches at. */
  lemma {:induction false} FindSkipsLiteral(s: string, from: nat, m: PatternMatch)
    requires from <= m.start < |s| && s[m.start] == '$' && PatternAt(s, m.start) == Some(m)
    requires forall k :: from <= k < m.start ==> s[k] != '$'
    ensures FindMatch(s, from) == Some(m)
  {
    FindMatchFirst(s, from, m);
  }

  /** `$name`, for a non-empty run of name characters, is one bare match spanning the text. */
  lemma {:induction false} BareMatch(name: string)
    requires name != [] && forall k :: 0 <= k < |name| ==> IsPatternNameCharacter(name[k])
    ensures FindMatch("$" + name, 0) == Some(PatternMatch(0, |name| + 1, name, false))
  {
    var s := "$" + name;
    assert forall k :: 1 <= k < |s| ==> s[k] == name[k - 1];
    assert RunEnd(s, 1) == |s|;
    assert s[1] != '$' by {
      assert !IsPatternNameCharacter('$');
    }
    assert s[1..|s|] == name;
    FindSkipsLiteral(s, 0, PatternMatch(0, |name| + 1, name, false));
  }

  /** `${name}`, for a non-empty run of name characters, is one braced match spanning the text. */
  lemma {:induction false} BracedMatch(name: string)
    requires name != [] && forall k :: 0 <= k < |name| ==> IsPatternNameCharacter(name[k])
    ensures FindMatch("${" + name + "}", 0) == Some(PatternMatch(0, |name| + 3, name, true))
  {
    var s := "${" + name + "}";
    assert forall k :: 2 <= k < |s| - 1 ==> s[k] == name[k - 2];
    assert s[|s| - 1] == '}' && !IsPatternNameCharacter('}');
    assert RunEnd(s, 2) == |s| - 1 by {
      RunEndSpec(s, 2);
    }
    assert !IsPatternNameCharacter('{');
    assert s[2..|s| - 1] == name;
    FindSkipsLiteral(s, 0, PatternMatch(0, |name| + 3, name, true));
  }

  /** A bare `$name` whose name resolves to a value is that value. */
  lemma {:induction false} BareReferenceResolves(sources: seq<VariableSource>, name: string, trace: seq<string>, v: string)
    requires name != [] && forall k :: 0 <= k < |name| ==> IsPatternNameCharacter(name[k])
    requires TracedValue(sources, name, trace) == Ok(Some(v))
    ensures ResolvedText(sources, "$" + name, trace) == Ok(v)
  {
    var s := "$" + name;
    BareMatch(name);
    assert name != "$" by {
      assert !IsPatternNameCharacter('$');
    }
    ResolvedFromStep(sources, s, 0, PatternMatch(0, |s|, name, false), trace);
    FindMatchNone(s, |s|);
    assert s[0..0] + v + s[|s|..] == v;
  }

  /** A bare `$name` whose name resolves to nothing stays in the text as written. */
  lemma {:induction false} BareUnresolvedStaysLiteral(sources: seq<VariableSource>, name: string, trace: seq<string>)
    requires name != [] && forall k :: 0 <= k < |name| ==> IsPatternNameCharacter(name[k])
    requires TracedValue(sources, name, trace) == Ok(None)
    ensures ResolvedText(sources, "$" + name, trace) == Ok("$" + name)
  {
    var s := "$" + name;
    BareMatch(name);
    assert name != "$" by {
      assert !IsPatternNameCharacter('$');
    }
    ResolvedFromStep(sources, s, 0, PatternMatch(0, |s|, name, false), trace);
    FindMatchNone(s, |s|);
    assert s[0..|s|] + s[|s|..] == s;
  }

  /** A `${name}` whose name resolves to nothing is a missing property. */
  lemma {:induction false} BracedUnresolvedIsMissing(sources: seq<VariableSource>, name: string, trace: seq<string>)
    requires name != [] && forall k :: 0 <= k < |name| ==> IsPatternNameCharacter(name[k])
    requires TracedValue(sources, name, trace) == Ok(None)
    ensures ResolvedText(sources, "${" + name + "}", trace) == Err(Missing(name))
  {
    BracedMatch(name);
    assert name != "$" by {
      assert !IsPatternNameCharacter('$');
    }
    ResolvedFromStep(sources, "${" + name + "}", 0, PatternMatch(0, |name| + 3, name, true), trace);
  }

  /**
   * resolveValue on a `$`-free name: the name is looked up as it is, and the
   * raw value, or else the default, is resolved with the same trace; with
   * neither the result is None.
   */
  lemma {:induction false} PlainNameLookup(sources: seq<VariableSource>, name: string, default: Option<string>, trace: seq<string>)
    requires '$' !in name
    ensures var c := RawValueOr(sources, name, default);
            ValueOf(sources, name, default, trace)
            == if c.Err? then Err(c.error) else ResolvedNullable(sources, c.value, trace)
  {
    NoDollarUnchanged(sources, name, trace);
  }

  /** A name on the trace is a cycle; a `$`-free name off the trace is looked up with itself pushed. */
  lemma {:induction false} TracedLookup(sources: seq<VariableSource>, name: string, trace: seq<string>)
    requires '$' !in name
    ensures name in trace ==> TracedValue(sources, name, trace) == Err(Circular(CircularMessage(trace, name)))
    ensures name !in trace ==>
              var c := RawValue(sources, name);
              TracedValue(sources, name, trace)
              == if c.Err? then Err(c.error) else ResolvedNullable(sources, c.value, trace + [name])
  {
    if name !in trace {
      PlainNameLookup(sources, name, None, trace + [name]);
    }
  }

  /** `$a` where `a` is defined as `$a`: the second visit of `a` is the cycle. */
  lemma {:induction false} SelfReferenceIsCircular(sources: seq<VariableSource>, s: string)
    requires sources == [MapSource(map["a" := "$a"])] && s == "$a"
    ensures ResolvedText(sources, s, []) == Err(Circular("Circular substitution a* <- a"))
  {
    assert s == "$" + "a";
    assert IsPatternNameCharacter('a');
    var message := "Circular substitution a* <- a";
    assert TracePath(["a"], "a") == "a* <- " by {
      assert ["a"][1..] == [];
    }
    assert CircularMessage(["a"], "a") == message;
    TracedLookup(sources, "a", ["a"]);
    assert TracedValue(sources, "a", ["a"]) == Err(Circular(message));
    BareMatch("a");
    ResolvedFromStep(sources, s, 0, PatternMatch(0, 2, "a", false), ["a"]);
    assert ResolvedText(sources, s, ["a"]) == Err(Circular(message));
    assert RawValue(sources, "a") == Ok(Some("$a"));
    TracedLookup(sources, "a", []);
    assert [] + ["a"] == ["a"];
    assert TracedValue(sources, "a", []) == Err(Circular(message));
    ResolvedFromStep(sources, s, 0, PatternMatch(0, 2, "a", false), []);
  }

  /** With no source at all, `${a}` is a missing property and `$a` stays as it is. */
  lemma {:induction false} MissingPropertyExample(braced: string, bare: string)
    requires braced == "${a}" && bare == "$a"
    ensures ResolvedText([], braced, []) == Err(Missing("a"))
    ensures ResolvedText([], bare, []) == Ok(bare)
  {
    assert IsPatternNameCharacter('a');
    TracedLookup([], "a", []);
    assert TracedValue([], "a", []) == Ok(None);
    assert braced == "${" + "a" + "}" && bare == "$" + "a";
    BracedUnresolvedIsMissing([], "a", []);
    BareUnresolvedStaysLiteral([], "a", []);
  }

  /**
   * `${$}` is no reference and stays, `$$` stands for `$`, `$var` is looked
   * up, and a `$` at the end of the text stays as it is.
   */
  lemma {:induction false} DollarExample(sources: seq<VariableSource>, s: string)
    requires sources == [MapSource(map["var" := "val"])] && s == "${$}var $$var $var $"
    ensures ResolvedText(sources, s, []) == Ok("${$}var $var val $")
  {
    DollarAt18(sources, s);
    DollarAt10(sources, s);
    DollarAt0(sources, s);
    DollarPieces();
  }

  lemma {:induction false} DollarPieces()
    ensures "${$}var $" + ("var val" + " $") == "${$}var $var val $"
  {
  }

  lemma {:induction false} DollarAt0(sources: seq<VariableSource>, s: string)
    requires s == "${$}var $$var $var $"
    ensures ResolvedText(sources, s, []) == Prepend("${$}var $", ResolvedFrom(sources, s, 10, []))
  {
    var m := PatternMatch(8, 2, "$", false);
    DollarFound(s, m);
    DollarStep(sources, s, 0, m, [], 10);
    assert s[0..8] == ['$', '{', '$', '}', 'v', 'a', 'r', ' '];
    assert ['$', '{', '$', '}', 'v', 'a', 'r', ' '] + "$" == "${$}var $";
  }

  /** The first match in the example is the `$$` at 8: `${$}` is no match. */
  lemma {:induction false} DollarFound(s: string, m: PatternMatch)
    requires s == "${$}var $$var $var $" && m == PatternMatch(8, 2, "$", false)
    ensures FindMatch(s, 0) == Some(m)
  {
    assert |s| == 20;
    BracedDollarIsLiteral(s, 0);
    assert NoMatchBetween(s, 0, 4) by {
      assert !StartsMatch(s, 0) && !StartsMatch(s, 1) && !StartsMatch(s, 2) && !StartsMatch(s, 3);
    }
    FindMatchSkip(s, 0, 4);
    assert s[8] == '$' && s[9] == '$';
    assert PatternAt(s, 8) == Some(m);
    assert forall k :: 4 <= k < 8 ==> s[k] != '$' by {
      assert s[4] == 'v' && s[5] == 'a' && s[6] == 'r' && s[7] == ' ';
    }
    FindSkipsLiteral(s, 4, m);
  }

  /** ResolvedFromStep for a `$$` match, which always stands for `$`. */
  lemma {:induction false} DollarStep(sources: seq<VariableSource>, text: string, pos: nat, m: PatternMatch,
                                      trace: seq<string>, next: nat)
    requires pos <= |text| && FindMatch(text, pos) == Some(m) && m.name == "$" && next == m.start + m.length
    ensures pos <= m.start && next <= |text|
    ensures ResolvedFrom(sources, text, pos, trace) == Prepend(text[pos..m.start] + "$", ResolvedFrom(sources, text, next, trace))
  {
    MatchWithin(text, pos, m);
    var rest := ResolvedFrom(sources, text, next, trace);
    if rest.Ok? {
      assert ResolvedFrom(sources, text, pos, trace) == Ok(text[pos..m.start] + "$" + rest.value);
    } else {
      assert ResolvedFrom(sources, text, pos, trace) == rest;
    }
  }

  lemma {:induction false} DollarAt10(sources: seq<VariableSource>, s: string)
    requires sources == [MapSource(map["var" := "val"])] && s == "${$}var $$var $var $"
    ensures ResolvedFrom(sources, s, 10, []) == Prepend("var val", ResolvedFrom(sources, s, 18, []))
  {
    assert |s| == 20;
    var m := PatternMatch(14, 4, "var", false);
    assert RunEnd(s, 15) == 18 by {
      assert IsPatternNameCharacter(s[15]) && IsPatternNameCharacter(s[16]) && IsPatternNameCharacter(s[17]);
      assert !IsPatternNameCharacter(s[18]);
      RunEndSpec(s, 15);
    }
    assert s[15..18] == "var";
    assert PatternAt(s, 14) == Some(m);
    FindSkipsLiteral(s, 10, m);
    assert RawValue(sources, "var") == Ok(Some("val"));
    TracedLookup(sources, "var", []);
    NoDollarUnchanged(sources, "val", [] + ["var"]);
    assert TracedValue(sources, "var", []) == Ok(Some("val"));
    ResolvedFromStep(sources, s, 10, m, []);
    assert s[10..14] == ['v', 'a', 'r', ' '];
    assert ['v', 'a', 'r', ' '] + "val" == "var val";
  }

  lemma {:induction false} DollarAt18(sources: seq<VariableSource>, s: string)
    requires s == "${$}var $$var $var $"
    ensures ResolvedFrom(sources, s, 18, []) == Ok(" $")
  {
    assert |s| == 20;
    assert PatternAt(s, 19).None?;
    assert NoMatchBetween(s, 18, 20) by {
      assert !StartsMatch(s, 18) && !StartsMatch(s, 19);
    }
    FindMatchNone(s, 18);
    ResolvedFromTail(sources, s, 18, []);
    assert s[18..] == " $";
  }

  /**
   * The one behaviour that changed from 1.2 to 1.4: an unresolvable bare
   * `$a` stays in the text in 1.2 and is a missing property in 1.4.
   */
  lemma {:induction false} BareMissingAcrossVersions(s: string)
    requires s == "$a"
    ensures ResolvedText([], s, []) == Ok(s)
    ensures V14.ResolvedText([], s, []) == Err(Missing("a"))
  {
    MissingPropertyExample("${a}", s);
    assert s == "$" + "a";
    assert VariableParsing.IsValidNameCharacter('a');
    V14Properties.BareReferenceResolves([], "a", []);
    V14Properties.PlainNameUsesDefault([], "a", None, []);
  }
}
