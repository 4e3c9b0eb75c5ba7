/**
 * The resolver of config-injection 1.4. Every reference the scanner finds is
 * replaced: `$$` and `${$}` by a literal `$`, any other by the resolution of
 * its name. Resolving a name resolves the raw name itself, looks the result
 * up in the source chain, and resolves the raw value found, or else the
 * default. A raw name already on the trace is a cycle.
 *
 * ResolvedText, ResolvedFrom and ResolvedValue state the semantics; the class
 * VariableResolver is the builder loop of the source, proved equal to them.
 */
module ResolverV14 {
  import opened Wrappers
  import opened Builders
  import opened VariableParsing
  import opened VariableSources
  import opened BulkResolution

  /** The name and default of a reference found in `text` are cut from `text`. */
  lemma {:induction false} ReferenceWithin(text: string, pos: nat, r: Reference)
    requires Scan(text, pos) == Some(r)
    ensures ReferenceTexts(r.name, r.default) <= Substrings(text)
  {
    ScanSpec(text, pos);
    MatchAtSlices(text, r.start);
    var a, b :| 0 <= a <= b <= |text| && r.name == text[a..b];
    SubstringsOfSlice(text, a, b);
    if r.default.Some? {
      var c, d :| 0 <= c <= d <= |text| && r.default.value == text[c..d];
      SubstringsOfSlice(text, c, d);
    }
  }

  /** resolveStringValue on a non-null string: unchanged when the scanner finds nothing. */
  function ResolvedText(sources: seq<VariableSource>, text: string, trace: seq<string>): Result<string, ResolveError>
    decreases Unvisited(sources, Substrings(text), trace), 2, 0
  {
    if Scan(text, 0).None? then Ok(text) else ResolvedFrom(sources, text, 0, trace)
  }

  /**
   * The rest of the text from `pos` with every reference replaced, left to
   * right; the first reference that fails ends everything with its error.
   */
  function ResolvedFrom(sources: seq<VariableSource>, text: string, pos: nat, trace: seq<string>)
    : Result<string, ResolveError>
    requires pos <= |text|
    decreases Unvisited(sources, Substrings(text), trace), 1, |text| - pos
  {
    match Scan(text, pos)
    case None => Ok(text[pos..])
    case Some(r) =>
      ReferenceWithin(text, pos, r);
      var value :- if r.name == "$" then Ok(Some("$")) else ResolvedValue(sources, r.name, r.default, trace);
      if value.None? then Err(Missing(r.name))
      else
        var rest :- ResolvedFrom(sources, text, r.start + r.length, trace);
        Ok(text[pos..r.start] + value.value + rest)
  }

  /**
   * resolveValue(name, default): a cycle when the raw name is on the trace;
   * otherwise, with the name pushed, the resolved raw value of the resolved
   * name, or the resolved default, or None when there is neither.
   */
  function ResolvedValue(sources: seq<VariableSource>, name: string, default: Option<string>, trace: seq<string>)
    : Result<Option<string>, ResolveError>
    decreases Unvisited(sources, ReferenceTexts(name, default), trace), 0, 0
  {
    if name in trace then Err(Circular(CircularMessage(trace, name)))
    else
      var inner := trace + [name];
      SelfSubstring(name);
      PushShrinks(sources, Substrings(name), ReferenceTexts(name, default), trace, name);
      var resolvedName :- ResolvedText(sources, name, inner);
      var raw :- RawValue(sources, resolvedName);
      if raw.Some? then
        RawValueInPool(sources, resolvedName);
        PushShrinks(sources, Substrings(raw.value), ReferenceTexts(name, default), trace, name);
        var v :- ResolvedText(sources, raw.value, inner);
        Ok(Some(v))
      else if default.Some? then
        PushShrinks(sources, Substrings(default.value), ReferenceTexts(name, default), trace, name);
        var v :- ResolvedText(sources, default.value, inner);
        Ok(Some(v))
      else Ok(None)
  }

  /** `prefix` put in front of a successful result. */
  function Prepend(prefix: string, r: Result<string, ResolveError>): Result<string, ResolveError> {
    if r.Ok? then Ok(prefix + r.value) else r
  }

  /** `prefix` then `more` in front of a result is `prefix + more` in front of it. */
  lemma {:induction false} PrependTwice(prefix: string, more: string, r: Result<string, ResolveError>)
    ensures Prepend(prefix, Prepend(more, r)) == Prepend(prefix + more, r)
  {
    if r.Ok? {
      assert prefix + (more + r.value) == prefix + more + r.value;
    }
  }

  /** One step of ResolvedFrom: the text before the reference, its value, then the rest. */
  lemma {:induction false} ResolvedFromStep(sources: seq<VariableSource>, text: string, pos: nat, r: Reference,
                         trace: seq<string>, value: Result<Option<string>, ResolveError>)
    requires pos <= |text| && Scan(text, pos) == Some(r)
    requires value == if r.name == "$" then Ok(Some("$")) else ResolvedValue(sources, r.name, r.default, trace)
    ensures r.start + r.length <= |text|
    ensures value.Err? ==> ResolvedFrom(sources, text, pos, trace) == Err(value.error)
    ensures value == Ok(None) ==> ResolvedFrom(sources, text, pos, trace) == Err(Missing(r.name))
    ensures value.Ok? && value.value.Some? ==>
              ResolvedFrom(sources, text, pos, trace)
              == Prepend(text[pos..r.start] + value.value.value, ResolvedFrom(sources, text, r.start + r.length, trace))
  {
    if r.name == "$" {
      StepDollar(sources, text, pos, r, trace, "$", r.start + r.length);
    } else if value.Ok? && value.value.Some? {
      StepNamedValue(sources, text, pos, r, trace, value.value.value, r.start + r.length);
    } else {
      StepNamedFailure(sources, text, pos, r, trace);
    }
  }

  /** ResolvedFromStep for `$$` and `${$}`, which stand for `$`. */
  lemma {:induction false} StepDollar(sources: seq<VariableSource>, text: string, pos: nat, r: Reference, trace: seq<string>,
                                      v: string, next: nat)
    requires pos <= |text| && Scan(text, pos) == Some(r) && r.name == "$" && v == "$"
    requires pos <= r.start && next == r.start + r.length <= |text|
    ensures ResolvedFrom(sources, text, pos, trace)
            == Prepend(text[pos..r.start] + v, ResolvedFrom(sources, text, next, trace))
  {
  }

  /** ResolvedFromStep for a named reference with a value. */
  lemma {:induction false} StepNamedValue(sources: seq<VariableSource>, text: string, pos: nat, r: Reference,
                                          trace: seq<string>, v: string, next: nat)
    requires pos <= |text| && Scan(text, pos) == Some(r) && r.name != "$"
    requires Ok(Some(v)) == ResolvedValue(sources, r.name, r.default, trace)
    requires pos <= r.start && next == r.start + r.length <= |text|
    ensures ResolvedFrom(sources, text, pos, trace)
            == Prepend(text[pos..r.start] + v, ResolvedFrom(sources, text, next, trace))
  {
    var rest := ResolvedFrom(sources, text, next, trace);
    if rest.Ok? {
      assert ResolvedFrom(sources, text, pos, trace) == Ok(text[pos..r.start] + v + rest.value);
    } else {
      assert ResolvedFrom(sources, text, pos, trace) == rest;
    }
  }

  /** ResolvedFromStep for a named reference whose value is an error or missing. */
  lemma {:induction false} StepNamedFailure(sources: seq<VariableSource>, text: string, pos: nat, r: Reference,
                                            trace: seq<string>)
    requires pos <= |text| && Scan(text, pos) == Some(r) && r.name != "$"
    ensures var value := ResolvedValue(sources, r.name, r.default, trace);
            (value.Err? ==> ResolvedFrom(sources, text, pos, trace) == Err(value.error))
            && (value == Ok(None) ==> ResolvedFrom(sources, text, pos, trace) == Err(Missing(r.name)))
  {
  }

  /** Past the last reference the rest of the text is copied as it is. */
  lemma {:induction false} ResolvedFromTail(sources: seq<VariableSource>, text: string, pos: nat, trace: seq<string>)
    requires pos <= |text| && Scan(text, pos).None?
    ensures ResolvedFrom(sources, text, pos, trace) == Ok(text[pos..])
  {
  }

  /** A text with a reference resolves as ResolvedFrom from its start; any text as ResolvedNullable says. */
  lemma {:induction false} ResolvedTextUnfold(sources: seq<VariableSource>, text: string, trace: seq<string>)
    ensures Scan(text, 0).Some? ==> ResolvedText(sources, text, trace) == ResolvedFrom(sources, text, 0, trace)
    ensures Scan(text, 0).None? ==> ResolvedText(sources, text, trace) == Ok(text)
    ensures var t := ResolvedText(sources, text, trace);
            ResolvedNullable(sources, Some(text), trace) == if t.Ok? then Ok(Some(t.value)) else Err(t.error)
  {
  }

  /** ResolvedFromStep for a resolved reference, behind a prefix already built. */
  lemma {:induction false} ResolvedFromAdvance(sources: seq<VariableSource>, text: string, pos: nat, r: Reference,
                            trace: seq<string>, value: Result<Option<string>, ResolveError>,
                            prefix: string, after: string, next: nat)
    requires pos <= |text| && Scan(text, pos) == Some(r)
    requires value == if r.name == "$" then Ok(Some("$")) else ResolvedValue(sources, r.name, r.default, trace)
    requires value.Ok? && value.value.Some?
    requires pos <= r.start && next == r.start + r.length <= |text|
    requires after == prefix + text[pos..r.start] + value.value.value
    ensures Prepend(prefix, ResolvedFrom(sources, text, pos, trace)) == Prepend(after, ResolvedFrom(sources, text, next, trace))
  {
    StepValue(sources, text, pos, r, trace, value, next);
    PrependAdvance(prefix, text[pos..r.start], value.value.value, after,
                   ResolvedFrom(sources, text, pos, trace), ResolvedFrom(sources, text, next, trace));
  }

  /** ResolvedFromStep for a reference with a value, the rest starting at `next`. */
  lemma {:induction false} StepValue(sources: seq<VariableSource>, text: string, pos: nat, r: Reference,
                                     trace: seq<string>, value: Result<Option<string>, ResolveError>, next: nat)
    requires pos <= |text| && Scan(text, pos) == Some(r)
    requires value == if r.name == "$" then Ok(Some("$")) else ResolvedValue(sources, r.name, r.default, trace)
    requires value.Ok? && value.value.Some?
    requires pos <= r.start && next == r.start + r.length <= |text|
    ensures ResolvedFrom(sources, text, pos, trace)
            == Prepend(text[pos..r.start] + value.value.value, ResolvedFrom(sources, text, next, trace))
  {
    if r.name == "$" {
      StepDollar(sources, text, pos, r, trace, value.value.value, next);
    } else {
      StepNamedValue(sources, text, pos, r, trace, value.value.value, next);
    }
  }

  /** A result built as `piece + v` in front of `rest`, behind `prefix`, is `after` in front of `rest`. */
  lemma {:induction false} PrependAdvance(prefix: string, piece: string, v: string, after: string,
                                          whole: Result<string, ResolveError>, rest: Result<string, ResolveError>)
    requires whole == Prepend(piece + v, rest)
    requires after == prefix + piece + v
    ensures Prepend(prefix, whole) == Prepend(after, rest)
  {
    PrependTwice(prefix, piece + v, rest);
    assert prefix + (piece + v) == after;
  }

  /** resolveStringValue on a non-null string, called from outside any resolution (empty trace). */
  function TopLevel(sources: seq<VariableSource>): Resolution {
    text => ResolvedText(sources, text, [])
  }

  /** resolveStringValue's null check around ResolvedText. */
  function ResolvedNullable(sources: seq<VariableSource>, text: Option<string>, trace: seq<string>)
    : Result<Option<string>, ResolveError>
  {
    if text.None? then Ok(None)
    else
      var v :- ResolvedText(sources, text.value, trace);
      Ok(Some(v))
  }

  /**
   * The resolver: a fixed chain of sources. The cycle trace, a thread-local
   * list pushed and popped around every lookup in the source, is passed
   * along as a value.
   */
  class VariableResolver {
    const sources: seq<VariableSource>

    constructor(sources: seq<VariableSource>)
      ensures this.sources == sources
    {
      this.sources := sources;
    }

    /** getRawValue: the sources in order, the first non-null answer wins. */
    method GetRawValue(name: string) returns (r: Result<Option<string>, ResolveError>)
      ensures r == RawValue(sources, name)
    {
      var i := 0;
      while i < |sources|
        invariant 0 <= i <= |sources|
        invariant RawValue(sources, name) == RawValue(sources[i..], name)
      {
        assert sources[i..][1..] == sources[i + 1..];
        match sources[i]
        case FailingSource(message) =>
          return Err(SourceFailure(message));
        case MapSource(values) =>
          if name in values {
            return Ok(Some(values[name]));
          }
        i := i + 1;
      }
      return Ok(None);
    }

    /** resolveStringValue: null stays null; otherwise the parser's do/while over the references. */
    method ResolveStringValue(text: Option<string>, trace: seq<string>) returns (r: Result<Option<string>, ResolveError>)
      ensures r == ResolvedNullable(sources, text, trace)
      decreases OptionUnvisited(text, trace), 2, 0
    {
      if text.None? {
        return Ok(None);
      }
      var s := text.value;
      var m := new VariableParser(s);
      ResolvedTextUnfold(sources, s, trace);
      var found := m.Find();
      if !found {
        ScanFindsNothing(s, 0);
        return Ok(Some(s));
      }
      var sb := new TextBuilder();
      assert Scan(s, 0).Some? by {
        ScanFindsFirst(s, 0, Reference(m.startIndex, m.substitutionLength, m.variableName.value, m.defaultValue));
      }
      var resolved := ReplaceReferences(m, sb, trace);
      ghost var whole := ResolvedFrom(sources, s, 0, trace);
      assert whole.Ok? ==> [] + whole.value == whole.value;
      assert resolved == whole;
      r := if resolved.Ok? then Ok(Some(resolved.value)) else Err(resolved.error);
    }

    /**
     * The do/while of resolveStringValue, entered with the parser on a
     * reference found from its end index: every reference is replaced by its
     * value, through the parser's appendReplacement, and appendTail copies
     * the rest. The builder ends holding what it held before, then
     * ResolvedFrom from the parser's starting end index.
     */
    method ReplaceReferences(m: VariableParser, sb: TextBuilder, trace: seq<string>)
      returns (r: Result<string, ResolveError>)
      requires m.Valid() && m.variableName.Some? && 0 <= m.endIndex <= m.startIndex
      requires IsFirstReference(m.value, m.endIndex,
                                Reference(m.startIndex, m.substitutionLength, m.variableName.value, m.defaultValue))
      modifies m`startIndex, m`endIndex, m`substitutionLength, m`variableName, m`defaultValue, sb
      ensures r == Prepend(old(sb.text), ResolvedFrom(sources, m.value, old(m.endIndex), trace))
      ensures r.Ok? ==> sb.text == r.value
      decreases Unvisited(sources, Substrings(m.value), trace), 1, 0
    {
      var s := m.value;
      ghost var goal := Prepend(sb.text, ResolvedFrom(sources, s, m.endIndex, trace));
      var found := true;
      while true
        invariant m.Valid() && m.variableName.Some?
        invariant 0 <= m.endIndex <= m.startIndex
        invariant IsFirstReference(s, m.endIndex,
                                   Reference(m.startIndex, m.substitutionLength, m.variableName.value, m.defaultValue))
        invariant goal == Prepend(sb.text, ResolvedFrom(sources, s, m.endIndex, trace))
        decreases |s| - m.endIndex
      {
        var failure := ReplaceOne(m, sb, trace);
        if failure.Some? {
          return Err(failure.value);
        }
        found := m.Find();
        if !found {
          break;
        }
      }
      ScanFindsNothing(s, m.endIndex);
      ResolvedFromTail(sources, s, m.endIndex, trace);
      m.AppendTail(sb);
      assert goal == Ok(sb.text);
      return Ok(sb.text);
    }

    /**
     * One turn of the do/while: the value of the reference the parser is on,
     * then appendReplacement; or the error that ends the resolution.
     */
    method ReplaceOne(m: VariableParser, sb: TextBuilder, trace: seq<string>) returns (failure: Option<ResolveError>)
      requires m.Valid() && m.variableName.Some? && 0 <= m.endIndex <= m.startIndex
      requires IsFirstReference(m.value, m.endIndex,
                                Reference(m.startIndex, m.substitutionLength, m.variableName.value, m.defaultValue))
      modifies m`endIndex, sb
      ensures failure.Some? ==> ResolvedFrom(sources, m.value, old(m.endIndex), trace) == Err(failure.value)
      ensures failure.None? ==> m.Valid()
      ensures failure.None? ==> old(m.endIndex) < m.endIndex == m.startIndex + m.substitutionLength
      ensures failure.None? ==>
                Prepend(old(sb.text), ResolvedFrom(sources, m.value, old(m.endIndex), trace))
                == Prepend(sb.text, ResolvedFrom(sources, m.value, m.endIndex, trace))
      decreases Unvisited(sources, Substrings(m.value), trace), 0, 2
    {
      var s := m.value;
      var ref := Reference(m.startIndex, m.substitutionLength, m.variableName.value, m.defaultValue);
      ScanFindsFirst(s, m.endIndex, ref);
      var value := ReferenceValue(s, m.endIndex, ref, trace);
      if value.Err? || value.value.None? {
        ResolvedFromStep(sources, s, m.endIndex, ref, trace, value);
        return Some(if value.Err? then value.error else Missing(ref.name));
      }
      m.AppendReplacement(sb, value.value.value);
      ResolvedFromAdvance(sources, m.value, old(m.endIndex), ref, trace, value, old(sb.text), sb.text, m.endIndex);
      return None;
    }

    /** The value a found reference stands for: `$` for `$$` and `${$}`, else its resolution. */
    method ReferenceValue(s: string, pos: nat, ref: Reference, trace: seq<string>)
      returns (value: Result<Option<string>, ResolveError>)
      requires pos <= |s| && Scan(s, pos) == Some(ref)
      ensures value == if ref.name == "$" then Ok(Some("$")) else ResolvedValue(sources, ref.name, ref.default, trace)
      decreases Unvisited(sources, Substrings(s), trace), 0, 1
    {
      if ref.name == "$" {
        value := Ok(Some("$"));
      } else {
        ReferenceWithin(s, pos, ref);
        value := ResolveValue(ref.name, ref.default, trace);
      }
    }

    ghost function OptionUnvisited(text: Option<string>, trace: seq<string>): set<string> {
      Unvisited(sources, OptionTexts(text), trace)
    }

    /** resolveValue(name, default), with the trace pushed around the lookup. */
    method ResolveValue(name: string, default: Option<string>, trace: seq<string>)
      returns (r: Result<Option<string>, ResolveError>)
      ensures r == ResolvedValue(sources, name, default, trace)
      decreases Unvisited(sources, ReferenceTexts(name, default), trace), 0, 0
    {
      if name in trace {
        var e := CircularSubstitutionError(trace, name);
        return Err(e);
      }
      var inner := trace + [name];
      SelfSubstring(name);
      PushShrinks(sources, Substrings(name), ReferenceTexts(name, default), trace, name);
      var resolvedName := ResolveStringValue(Some(name), inner);
      if resolvedName.Err? {
        return Err(resolvedName.error);
      }
      var raw := GetRawValue(resolvedName.value.value);
      if raw.Err? {
        return Err(raw.error);
      }
      if raw.value.Some? {
        RawValueInPool(sources, resolvedName.value.value);
        PushShrinks(sources, Substrings(raw.value.value), ReferenceTexts(name, default), trace, name);
        r := ResolveStringValue(raw.value, inner);
      } else {
        if default.Some? {
          PushShrinks(sources, Substrings(default.value), ReferenceTexts(name, default), trace, name);
        }
        r := ResolveStringValue(default, inner);
      }
    }

    /** resolveStringValue on a non-null string from outside any resolution. */
    method ResolveTopLevel(text: string) returns (r: Result<string, ResolveError>)
      ensures r == TopLevel(sources)(text)
    {
      ResolvedTextUnfold(sources, text, []);
      var v := ResolveStringValue(Some(text), []);
      r := if v.Ok? then Ok(v.value.value) else Err(v.error);
    }

    /**
     * resolveValues: a new map with the same keys and every value resolved;
     * the first entry that fails, in the map's unspecified iteration order,
     * ends it with its error.
     */
    method ResolveValues(values: map<string, string>) returns (r: Result<map<string, string>, ResolveError>)
      ensures r.Ok? <==> AllValuesResolve(TopLevel(sources), values)
      ensures r.Ok? ==> r.value == ResolvedValues(TopLevel(sources), values)
      ensures r.Err? ==> exists k :: k in values && TopLevel(sources)(values[k]) == Err(r.error)
    {
      var result := map[];
      var todo := values.Keys;
      while todo != {}
        invariant todo <= values.Keys
        invariant result.Keys == values.Keys - todo
        invariant forall k :: k in result ==> TopLevel(sources)(values[k]) == Ok(result[k])
        decreases todo
      {
        var k :| k in todo;
        var v := ResolveTopLevel(values[k]);
        if v.Err? {
          return Err(v.error);
        }
        result := result[k := v.value];
        todo := todo - {k};
      }
      return Ok(result);
    }

    /**
     * resolveAndReplaceValues: every value of the map replaced by its
     * resolution. A failure leaves the entries visited before it replaced
     * and the others as they were.
     */
    method ResolveAndReplaceValues(target: StringMap) returns (failure: Option<ResolveError>)
      modifies target
      ensures target.entries.Keys == old(target.entries).Keys
      ensures failure.None? <==> AllValuesResolve(TopLevel(sources), old(target.entries))
      ensures failure.None? ==> target.entries == ResolvedValues(TopLevel(sources), old(target.entries))
      ensures failure.Some? ==>
                (exists k :: k in old(target.entries) && TopLevel(sources)(old(target.entries)[k]) == Err(failure.value))
                && forall k :: k in target.entries ==>
                     target.entries[k] == old(target.entries)[k]
                     || TopLevel(sources)(old(target.entries)[k]) == Ok(target.entries[k])
    {
      ghost var original := target.entries;
      var todo := target.entries.Keys;
      while todo != {}
        invariant todo <= original.Keys && target.entries.Keys == original.Keys
        invariant forall k :: k in todo ==> target.entries[k] == original[k]
        invariant forall k :: k in original && k !in todo ==> TopLevel(sources)(original[k]) == Ok(target.entries[k])
        decreases todo
      {
        var k :| k in todo;
        var v := ResolveTopLevel(target.entries[k]);
        if v.Err? {
          return Some(v.error);
        }
        target.entries := target.entries[k := v.value];
        todo := todo - {k};
      }
      return None;
    }

    /** resolveItems: a new list, item i resolved, or the first failure. */
    method ResolveItems(items: seq<string>) returns (r: Result<seq<string>, ResolveError>)
      ensures r == ResolvedItems(TopLevel(sources), items)
    {
      var result := [];
      var i := 0;
      assert items[0..] == items;
      ghost var all := ResolvedItems(TopLevel(sources), items);
      assert all.Ok? ==> [] + all.value == all.value;
      while i < |items|
        invariant 0 <= i <= |items|
        invariant ResolvedItems(TopLevel(sources), items) == PrependItems(result, ResolvedItems(TopLevel(sources), items[i..]))
      {
        ResolvedItemsStep(TopLevel(sources), items, i);
        var v := ResolveTopLevel(items[i]);
        if v.Err? {
          return Err(v.error);
        }
        PrependItemsAppend(result, v.value, ResolvedItems(TopLevel(sources), items[i + 1..]));
        result := result + [v.value];
        i := i + 1;
      }
      assert items[i..] == [];
      assert result + [] == result;
      return Ok(result);
    }

    /**
     * resolveAndReplaceItems: the items are all resolved into a separate list
     * first, so the collection is replaced only when every item resolved and
     * is left as it was otherwise.
     */
    method ResolveAndReplaceItems(target: StringList) returns (failure: Option<ResolveError>)
      modifies target
      ensures var all := ResolvedItems(TopLevel(sources), old(target.items));
              (all.Ok? ==> failure.None? && target.items == all.value)
              && (all.Err? ==> failure == Some(all.error) && target.items == old(target.items))
    {
      var aux := ResolveItems(target.items);
      if aux.Err? {
        return Some(aux.error);
      }
      target.items := aux.value;
      return None;
    }
  }
}

/** What resolveStringValue and resolveValue promise, stated on the functions. */
module ResolverV14Properties {
  import opened Wrappers
  import opened VariableParsing
  import opened VariableSources
  import opened ResolverV14

  /** A text without `$` holds no reference: nothing is looked up and it comes back unchanged. */
  lemma {:induction false} NoDollarUnchanged(sources: seq<VariableSource>, text: string, trace: seq<string>)
    requires '$' !in text
    ensures ResolvedText(sources, text, trace) == Ok(text)
  {
    assert NoReferenceBetween(text, 0, |text|);
    ScanFindsNothing(text, 0);
  }

  /** `$name`, with a non-empty run of name characters, is one bare reference spanning the text. */
  lemma {:induction false} BareReference(name: string)
    requires name != [] && forall k :: 0 <= k < |name| ==> IsValidNameCharacter(name[k])
    ensures Scan("$" + name, 0) == Some(Reference(0, |name| + 1, name, None))
  {
    var s := "$" + name;
    assert s[1] == name[0];
    assert NameEnd(s, 1) == |s| by {
      assert forall k :: 1 <= k < |s| ==> s[k] == name[k - 1];
      NameEndSpec(s, 1);
    }
    assert s[1] != '{' && s[1] != '$';
    MatchAtBare(s, 0);
    assert s[1..|s|] == name;
    ScanFindsFirst(s, 0, Reference(0, |name| + 1, name, None));
  }

  /** `$name` alone resolves to what its name resolves to; with no value and no default it is missing. */
  lemma {:induction false} BareReferenceResolves(sources: seq<VariableSource>, name: string, trace: seq<string>)
    requires name != [] && forall k :: 0 <= k < |name| ==> IsValidNameCharacter(name[k])
    ensures var v := ResolvedValue(sources, name, None, trace);
            ResolvedText(sources, "$" + name, trace)
            == if v.Err? then Err(v.error) else if v.value.None? then Err(Missing(name)) else Ok(v.value.value)
  {
    var s := "$" + name;
    BareReference(name);
    assert name != "$" by {
      assert !IsValidNameCharacter('$');
    }
    var v := ResolvedValue(sources, name, None, trace);
    ResolvedFromStep(sources, s, 0, Reference(0, |name| + 1, name, None), trace, v);
    assert NoReferenceBetween(s, |s|, |s|);
    ScanFindsNothing(s, |s|);
    ResolvedFromTail(sources, s, |s|, trace);
    if v.Ok? && v.value.Some? {
      assert s[0..0] + v.value.value + s[|s|..] == v.value.value;
    }
  }

  /**
   * A name without references that is not on the trace is looked up as it is:
   * its raw value, resolved with the name pushed on the trace.
   */
  lemma {:induction false} PlainNameUsesRawValue(sources: seq<VariableSource>, name: string, default: Option<string>,
                              trace: seq<string>, raw: string)
    requires '$' !in name && name !in trace
    requires RawValue(sources, name) == Ok(Some(raw))
    ensures var t := ResolvedText(sources, raw, trace + [name]);
            ResolvedValue(sources, name, default, trace) == if t.Ok? then Ok(Some(t.value)) else Err(t.error)
  {
    NoDollarUnchanged(sources, name, trace + [name]);
  }

  /** With no raw value the default is resolved instead, and without a default the result is None. */
  lemma {:induction false} PlainNameUsesDefault(sources: seq<VariableSource>, name: string, default: Option<string>, trace: seq<string>)
    requires '$' !in name && name !in trace
    requires RawValue(sources, name) == Ok(None)
    ensures default.None? ==> ResolvedValue(sources, name, default, trace) == Ok(None)
    ensures default.Some? ==>
              var t := ResolvedText(sources, default.value, trace + [name]);
              ResolvedValue(sources, name, default, trace) == if t.Ok? then Ok(Some(t.value)) else Err(t.error)
  {
    NoDollarUnchanged(sources, name, trace + [name]);
  }

  /** A source that throws during the lookup ends the resolution with its own exception. */
  lemma {:induction false} SourceFailurePropagates(sources: seq<VariableSource>, name: string, default: Option<string>,
                                trace: seq<string>, message: string)
    requires '$' !in name && name !in trace
    requires RawValue(sources, name) == Err(SourceFailure(message))
    ensures ResolvedValue(sources, name, default, trace) == Err(SourceFailure(message))
  {
    NoDollarUnchanged(sources, name, trace + [name]);
  }

  /** `$a` where `a` is defined as `$a`: the second visit of `a` is the cycle. */
  lemma {:induction false} SelfReferenceIsCircular()
    ensures ResolvedText([MapSource(map["a" := "$a"])], "$a", []) == Err(Circular("Circular substitution a* <- a"))
  {
    var sources := [MapSource(map["a" := "$a"])];
    assert "$a" == "$" + "a";
    assert IsValidNameCharacter('a');
    BareReferenceResolves(sources, "a", []);
    BareReferenceResolves(sources, "a", ["a"]);
    PlainNameUsesRawValue(sources, "a", None, [], "$a");
    assert RawValue(sources, "a") == Ok(Some("$a"));
    assert ResolvedValue(sources, "a", None, ["a"]) == Err(Circular(CircularMessage(["a"], "a")));
    assert TracePath(["a"], "a") == "a* <- " by {
      assert ["a"][1..] == [];
    }
    var message := "Circular substitution a* <- a";
    assert CircularMessage(["a"], "a") == message;
    assert ResolvedText(sources, "$a", ["a"]) == Err(Circular(message));
    assert [] + ["a"] == ["a"];
    assert ResolvedValue(sources, "a", None, []) == Err(Circular(message));
  }

  /**
   * A text whose first reference names a plain name, not on the trace, with
   * a raw value that fails to resolve, fails with that same error.
   */
  lemma {:induction false} FailingRawValue(sources: seq<VariableSource>, text: string, r: Reference, trace: seq<string>,
                                           raw: string, e: ResolveError)
    requires Scan(text, 0) == Some(r) && r.default == None && '$' !in r.name && r.name !in trace
    requires RawValue(sources, r.name) == Ok(Some(raw))
    requires ResolvedText(sources, raw, trace + [r.name]) == Err(e)
    ensures ResolvedText(sources, text, trace) == Err(e)
  {
    assert r.name != "$";
    PlainNameUsesRawValue(sources, r.name, None, trace, raw);
    StepNamedFailure(sources, text, 0, r, trace);
  }

  /** The chain of the circular-substitution test: a -> b -> c -> d -> e -> b. */
  predicate IsChain(sources: seq<VariableSource>) {
    sources == [MapSource(map["a" := "a$b", "b" := "b${c}b", "c" := "$d", "d" := "${e}d", "e" := "$b"])]
  }

  /**
   * Resolving `$a` over the chain a = `a$b`, b = `b${c}b`, c = `$d`,
   * d = `${e}d`, e = `$b` reaches `b` a second time and fails with the
   * message that lists the trace and stars the repeated name.
   */
  lemma {:induction false} CircularChainExample(sources: seq<VariableSource>)
    requires IsChain(sources)
    ensures ResolvedText(sources, "$a", []) == Err(Circular("Circular substitution a <- b* <- c <- d <- e <- b"))
  {
    var e := Circular("Circular substitution a <- b* <- c <- d <- e <- b");
    ChainAtE(sources, e);
    ChainAtD(sources, e);
    ChainAtC(sources, e);
    ChainAtB(sources, e);
    ChainAtAB(sources, e);
    ChainAtA(sources, e);
  }

  /** `$b` under the trace a, b, c, d, e: the cycle. */
  lemma {:induction false} ChainAtE(sources: seq<VariableSource>, e: ResolveError)
    requires IsChain(sources) && e == Circular("Circular substitution a <- b* <- c <- d <- e <- b")
    ensures ResolvedText(sources, "$b", ["a", "b", "c", "d", "e"]) == Err(e)
  {
    var trace := ["a", "b", "c", "d", "e"];
    assert "$b" == "$" + "b" && IsValidNameCharacter('b');
    BareReferenceResolves(sources, "b", trace);
    assert "b" in trace;
    CircularExample();
  }

  /** `${e}d` under the trace a, b, c, d: e's raw value `$b` fails. */
  lemma {:induction false} ChainAtD(sources: seq<VariableSource>, e: ResolveError)
    requires IsChain(sources) && ResolvedText(sources, "$b", ["a", "b", "c", "d", "e"]) == Err(e)
    ensures ResolvedText(sources, "${e}d", ["a", "b", "c", "d"]) == Err(e)
  {
    var s := "${e}d";
    MatchAtBracedLetter(s, 0);
    ScanSkipsLiteral(s, 0, Reference(0, 4, "e", None));
    assert RawValue(sources, "e") == Ok(Some("$b"));
    assert ["a", "b", "c", "d"] + ["e"] == ["a", "b", "c", "d", "e"];
    FailingRawValue(sources, s, Reference(0, 4, "e", None), ["a", "b", "c", "d"], "$b", e);
  }

  /** `$d` under the trace a, b, c: d's raw value `${e}d` fails. */
  lemma {:induction false} ChainAtC(sources: seq<VariableSource>, e: ResolveError)
    requires IsChain(sources) && ResolvedText(sources, "${e}d", ["a", "b", "c", "d"]) == Err(e)
    ensures ResolvedText(sources, "$d", ["a", "b", "c"]) == Err(e)
  {
    assert "$d" == "$" + "d" && IsValidNameCharacter('d');
    BareReference("d");
    assert RawValue(sources, "d") == Ok(Some("${e}d"));
    assert ["a", "b", "c"] + ["d"] == ["a", "b", "c", "d"];
    FailingRawValue(sources, "$d", Reference(0, 2, "d", None), ["a", "b", "c"], "${e}d", e);
  }

  /** `b${c}b` under the trace a, b: c's raw value `$d` fails. */
  lemma {:induction false} ChainAtB(sources: seq<VariableSource>, e: ResolveError)
    requires IsChain(sources) && ResolvedText(sources, "$d", ["a", "b", "c"]) == Err(e)
    ensures ResolvedText(sources, "b${c}b", ["a", "b"]) == Err(e)
  {
    var s := "b${c}b";
    MatchAtBracedLetter(s, 1);
    ScanSkipsLiteral(s, 0, Reference(1, 4, "c", None));
    assert RawValue(sources, "c") == Ok(Some("$d"));
    assert ["a", "b"] + ["c"] == ["a", "b", "c"];
    FailingRawValue(sources, s, Reference(1, 4, "c", None), ["a", "b"], "$d", e);
  }

  /** `a$b` under the trace a: b's raw value `b${c}b` fails. */
  lemma {:induction false} ChainAtAB(sources: seq<VariableSource>, e: ResolveError)
    requires IsChain(sources) && ResolvedText(sources, "b${c}b", ["a", "b"]) == Err(e)
    ensures ResolvedText(sources, "a$b", ["a"]) == Err(e)
  {
    var s := "a$b";
    assert s[0] == 'a' && s[1] == '$' && s[2] == 'b' && IsValidNameCharacter('b');
    assert NameEnd(s, 2) == 3;
    MatchAtBare(s, 1);
    assert s[2..3] == "b";
    ScanSkipsLiteral(s, 0, Reference(1, 2, "b", None));
    assert RawValue(sources, "b") == Ok(Some("b${c}b"));
    assert ["a"] + ["b"] == ["a", "b"];
    FailingRawValue(sources, s, Reference(1, 2, "b", None), ["a"], "b${c}b", e);
  }

  /** `$a` from the top: a's raw value `a$b` fails. */
  lemma {:induction false} ChainAtA(sources: seq<VariableSource>, e: ResolveError)
    requires IsChain(sources) && ResolvedText(sources, "a$b", ["a"]) == Err(e)
    ensures ResolvedText(sources, "$a", []) == Err(e)
  {
    assert "$a" == "$" + "a" && IsValidNameCharacter('a');
    BareReference("a");
    assert RawValue(sources, "a") == Ok(Some("a$b"));
    assert [] + ["a"] == ["a"];
    FailingRawValue(sources, "$a", Reference(0, 2, "a", None), [], "a$b", e);
  }

  /** Scan skips `$`-free text up to a `$` that starts a reference. */
  lemma {:induction false} ScanSkipsLiteral(s: string, from: nat, r: Reference)
    requires from <= r.start < |s| && s[r.start] == '$' && MatchAt(s, r.start) == Some(r)
    requires forall k :: from <= k < r.start ==> s[k] != '$'
    ensures Scan(s, from) == Some(r)
  {
    ScanFindsFirst(s, from, r);
  }

  /**
   * `${$}` and `$$` both stand for `$`, `$var` is looked up, and a `$` at the
   * end of the text stays as it is.
   */
  lemma {:induction false} DollarExample(sources: seq<VariableSource>, s: string)
    requires sources == [MapSource(map["var" := "val"])] && s == "${$}var $$var $var $"
    ensures ResolvedText(sources, s, []) == Ok("$var $var val $")
  {
    DollarAt18(sources, s);
    DollarAt10(sources, s);
    DollarAt4(sources, s);
    DollarAt0(sources, s);
    DollarPieces();
  }

  lemma {:induction false} DollarPieces()
    ensures "$" + ("var $" + ("var val" + " $")) == "$var $var val $"
  {
  }

  lemma {:induction false} DollarAt0(sources: seq<VariableSource>, s: string)
    requires s == "${$}var $$var $var $"
    ensures ResolvedText(sources, s, []) == Prepend("$", ResolvedFrom(sources, s, 4, []))
  {
    assert |s| == 20;
    var r := Reference(0, 4, "$", None);
    assert RelevantChar(s, '}', 2, |s|) == 3 by {
      assert Depth(s, 2, 3) == 0;
    }
    assert RelevantChar(s, ':', 2, 3) == -1;
    MatchAtBraced(s, 0, 3, -1);
    assert s[2..3] == "$";
    ScanSkipsLiteral(s, 0, r);
    ResolvedFromStep(sources, s, 0, r, [], Ok(Some("$")));
    EmptySlicePrefix(s, "$");
  }

  lemma {:induction false} EmptySlicePrefix(s: string, x: string)
    ensures s[0..0] + x == x
  {
    assert s[0..0] == [];
  }

  lemma {:induction false} DollarAt4(sources: seq<VariableSource>, s: string)
    requires s == "${$}var $$var $var $"
    ensures ResolvedFrom(sources, s, 4, []) == Prepend("var $", ResolvedFrom(sources, s, 10, []))
  {
    assert |s| == 20;
    var r := Reference(8, 2, "$", None);
    MatchAtDouble(s, 8);
    assert forall k :: 4 <= k < 8 ==> s[k] != '$' by {
      assert s[4] == 'v' && s[5] == 'a' && s[6] == 'r' && s[7] == ' ';
    }
    ScanSkipsLiteral(s, 4, r);
    StepDollar(sources, s, 4, r, [], "$", 10);
    assert s[4..8] == ['v', 'a', 'r', ' '];
    assert ['v', 'a', 'r', ' '] + "$" == "var $";
  }

  lemma {:induction false} DollarAt10(sources: seq<VariableSource>, s: string)
    requires sources == [MapSource(map["var" := "val"])] && s == "${$}var $$var $var $"
    ensures ResolvedFrom(sources, s, 10, []) == Prepend("var val", ResolvedFrom(sources, s, 18, []))
  {
    assert |s| == 20;
    var r := Reference(14, 4, "var", None);
    assert NameEnd(s, 15) == 18 by {
      assert IsValidNameCharacter(s[15]) && IsValidNameCharacter(s[16]) && IsValidNameCharacter(s[17]);
      assert !IsValidNameCharacter(s[18]);
      NameEndSpec(s, 15);
    }
    MatchAtBare(s, 14);
    assert s[15..18] == "var";
    ScanSkipsLiteral(s, 10, r);
    assert RawValue(sources, "var") == Ok(Some("val"));
    PlainNameUsesRawValue(sources, "var", None, [], "val");
    NoDollarUnchanged(sources, "val", [] + ["var"]);
    ResolvedFromStep(sources, s, 10, r, [], Ok(Some("val")));
    assert s[10..14] == ['v', 'a', 'r', ' '];
    assert ['v', 'a', 'r', ' '] + "val" == "var val";
  }

  lemma {:induction false} DollarAt18(sources: seq<VariableSource>, s: string)
    requires s == "${$}var $$var $var $"
    ensures ResolvedFrom(sources, s, 18, []) == Ok(" $")
  {
    assert |s| == 20;
    assert MatchAt(s, 19).None?;
    assert NoReferenceBetween(s, 18, 20) by {
      assert !StartsReference(s, 18) && !StartsReference(s, 19);
    }
    ScanFindsNothing(s, 18);
    ResolvedFromTail(sources, s, 18, []);
    assert s[18..] == " $";
  }

  /** With no source at all, `${a}` is a missing property. */
  lemma {:induction false} MissingPropertyExample(s: string)
    requires s == "${a}"
    ensures ResolvedText([], s, []) == Err(Missing("a"))
  {
    var r := Reference(0, 4, "a", None);
    assert RelevantChar(s, '}', 2, 4) == 3 by {
      assert Depth(s, 2, 3) == 0;
    }
    assert RelevantChar(s, ':', 2, 3) == -1;
    MatchAtBraced(s, 0, 3, -1);
    assert s[2..3] == "a";
    ScanSkipsLiteral(s, 0, r);
    PlainNameUsesDefault([], "a", None, []);
    ResolvedFromStep([], s, 0, r, [], Ok(None));
  }
}
