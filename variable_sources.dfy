/**
 * What both resolver versions share: the ordered chain of variable sources,
 * the errors resolution ends in, the circular-substitution message, and the
 * set of strings resolution can still visit (which is what makes it end).
 */
module VariableSources {
  import opened Wrappers

  /**
   * A variable source: a finite map of raw values, or a source whose
   * getRawValue throws with the given message on every lookup.
   */
  datatype VariableSource = MapSource(values: map<string, string>) | FailingSource(message: string)

  /** How resolution fails: the IllegalStateExceptions of the resolver, or a source's own exception. */
  datatype ResolveError =
    | Missing(name: string)
    | Circular(message: string)
    | SourceFailure(message: string)
  {
    /** The exception message. */
    function Message(): string {
      match this
      case Missing(name) => "Missing property " + name
      case Circular(message) => message
      case SourceFailure(message) => message
    }
  }

  /**
   * getRawValue: the value of the first source that has one; a source that
   * throws before any source answered ends the lookup with its exception.
   */
  function RawValue(sources: seq<VariableSource>, name: string): (r: Result<Option<string>, ResolveError>)
    ensures r == Ok(None) <==> forall i :: 0 <= i < |sources| ==> sources[i].MapSource? && name !in sources[i].values
    ensures r.Ok? && r.value.Some? ==>
              exists i :: 0 <= i < |sources| && sources[i].MapSource? && name in sources[i].values
                          && sources[i].values[name] == r.value.value
                          && forall j :: 0 <= j < i ==> sources[j].MapSource? && name !in sources[j].values
  {
    if sources == [] then Ok(None)
    else match sources[0]
      case FailingSource(message) => Err(SourceFailure(message))
      case MapSource(values) =>
        if name in values then Ok(Some(values[name]))
        else
          RawValue(sources[1..], name)
  }

  /** The first source that knows a name shadows every later one. */
  lemma {:induction false} FirstSourceWins(first: map<string, string>, rest: seq<VariableSource>, name: string)
    requires name in first
    ensures RawValue([MapSource(first)] + rest, name) == Ok(Some(first[name]))
  {
    assert ([MapSource(first)] + rest)[0] == MapSource(first);
  }

  /** A source that does not know the name is passed over. */
  lemma {:induction false} UnknownNameFallsThrough(first: map<string, string>, rest: seq<VariableSource>, name: string)
    requires name !in first
    ensures RawValue([MapSource(first)] + rest, name) == RawValue(rest, name)
  {
    assert ([MapSource(first)] + rest)[1..] == rest;
  }

  /** "Circular substitution " + every traced name (the repeated one starred) + " <- " ..., then the key. */
  function CircularMessage(trace: seq<string>, key: string): string {
    "Circular substitution " + TracePath(trace, key) + key
  }

  function TracePath(trace: seq<string>, key: string): string
  {
    if trace == [] then "" else TraceEntry(trace[0], key) + TracePath(trace[1..], key)
  }

  /** One traced name: starred when it is the repeated key, then the arrow. */
  function TraceEntry(name: string, key: string): string {
    name + (if name == key then "*" else "") + " <- "
  }

  /** The path is listed oldest first: a longer trace extends the message of its prefix. */
  lemma {:induction false} TracePathAppend(trace: seq<string>, name: string, key: string)
    ensures TracePath(trace + [name], key) == TracePath(trace, key) + TraceEntry(name, key)
    decreases |trace|
  {
    if trace == [] {
      assert TracePath([name], key) == TraceEntry(name, key) + TracePath([], key);
    } else {
      assert (trace + [name])[0] == trace[0];
      assert (trace + [name])[1..] == trace[1..] + [name];
      TracePathAppend(trace[1..], name, key);
      assert TracePath(trace + [name], key)
          == TraceEntry(trace[0], key) + (TracePath(trace[1..], key) + TraceEntry(name, key));
    }
  }

  /** The message of the cycle a -> b -> c -> d -> e -> b. */
  lemma {:induction false} CircularExample()
    ensures CircularMessage(["a", "b", "c", "d", "e"], "b") == "Circular substitution a <- b* <- c <- d <- e <- b"
  {
    var t := ["a", "b", "c", "d", "e"];
    assert t[1..] == ["b", "c", "d", "e"];
    assert t[1..][1..] == ["c", "d", "e"];
    assert t[1..][1..][1..] == ["d", "e"];
    assert t[1..][1..][1..][1..] == ["e"];
    assert t[1..][1..][1..][1..][1..] == [];
  }

  /** The builder loop of circularSubstitutionError. */
  method CircularSubstitutionError(trace: seq<string>, key: string) returns (e: ResolveError)
    ensures e == Circular(CircularMessage(trace, key))
  {
    var sb := "Circular substitution ";
    var i := 0;
    while i < |trace|
      invariant 0 <= i <= |trace|
      invariant sb == "Circular substitution " + TracePath(trace[..i], key)
    {
      TracePathAppend(trace[..i], trace[i], key);
      assert trace[..i + 1] == trace[..i] + [trace[i]];
      sb := sb + trace[i];
      if trace[i] == key {
        sb := sb + "*";
      }
      sb := sb + " <- ";
      assert sb == "Circular substitution " + TracePath(trace[..i], key) + TraceEntry(trace[i], key);
      i := i + 1;
    }
    assert trace[..i] == trace;
    sb := sb + key;
    e := Circular(sb);
  }

  /** All slices of `s`. */
  ghost function Substrings(s: string): set<string> {
    set i, j | 0 <= i <= j <= |s| :: s[i..j]
  }

  /** All slices of every value of every map source. */
  ghost function Pool(sources: seq<VariableSource>): set<string> {
    set k, v, i, j | 0 <= k < |sources| && sources[k].MapSource? && v in sources[k].values.Values
                     && 0 <= i <= j <= |v| :: v[i..j]
  }

  /**
   * The strings a resolution of `text` may still visit and that are not yet
   * on the trace; every nested resolution works on a strictly smaller set.
   */
  ghost function Unvisited(sources: seq<VariableSource>, texts: set<string>, trace: seq<string>): set<string> {
    texts + Pool(sources) - set x | x in trace
  }

  /** The strings a name and an optional default contain. */
  ghost function ReferenceTexts(name: string, default: Option<string>): set<string> {
    Substrings(name) + OptionTexts(default)
  }

  ghost function OptionTexts(text: Option<string>): set<string> {
    if text.Some? then Substrings(text.value) else {}
  }

  lemma {:induction false} SubstringsOfSlice(s: string, a: nat, b: nat)
    requires a <= b <= |s|
    ensures Substrings(s[a..b]) <= Substrings(s)
  {
    var t := s[a..b];
    forall x | x in Substrings(t)
      ensures x in Substrings(s)
    {
      var i, j :| 0 <= i <= j <= |t| && x == t[i..j];
      assert forall k :: 0 <= k < j - i ==> x[k] == s[a + i + k];
      assert x == s[a + i..a + j];
    }
  }

  lemma {:induction false} SelfSubstring(s: string)
    ensures s in Substrings(s)
  {
    assert s[0..|s|] == s;
  }

  /** A raw value and everything cut from it lie in the pool. */
  lemma {:induction false} RawValueInPool(sources: seq<VariableSource>, name: string)
    requires RawValue(sources, name).Ok? && RawValue(sources, name).value.Some?
    ensures Substrings(RawValue(sources, name).value.value) <= Pool(sources)
  {
    var v := RawValue(sources, name).value.value;
    var k :| 0 <= k < |sources| && sources[k].MapSource? && name in sources[k].values && sources[k].values[name] == v;
    assert v in sources[k].values.Values;
    forall x | x in Substrings(v)
      ensures x in Pool(sources)
    {
      var i, j :| 0 <= i <= j <= |v| && x == v[i..j];
    }
  }

  /** Pushing a name that is not on the trace removes it from what is left to visit. */
  lemma {:induction false} PushShrinks(sources: seq<VariableSource>, inner: set<string>, outer: set<string>,
                    trace: seq<string>, name: string)
    requires inner <= outer + Pool(sources) && name in outer && name !in trace
    ensures Unvisited(sources, inner, trace + [name]) < Unvisited(sources, outer, trace)
  {
    assert name !in Unvisited(sources, inner, trace + [name]);
    assert name in Unvisited(sources, outer, trace);
  }
}
