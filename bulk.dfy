/**
 * The bulk helpers both resolver versions offer (resolveValues,
 * resolveAndReplaceValues, resolveItems, resolveAndReplaceItems), stated for
 * any string resolution `resolve`; each resolver passes its own
 * resolveStringValue.
 */
module BulkResolution {
  import opened Wrappers
  import opened VariableSources

  /** A resolution of a single non-null string. */
  type Resolution = string -> Result<string, ResolveError>

  /**
   * resolveItems: every item resolved, in iteration order; the first item
   * that fails ends it with its error.
   */
  function ResolvedItems(resolve: Resolution, items: seq<string>): Result<seq<string>, ResolveError>
    decreases |items|
  {
    if items == [] then Ok([])
    else
      var head :- resolve(items[0]);
      var tail :- ResolvedItems(resolve, items[1..]);
      Ok([head] + tail)
  }

  /**
   * The list of the same length with item i resolved, when every item
   * resolves; otherwise the error of the first item that does not.
   */
  lemma {:induction false} ResolvedItemsPointwise(resolve: Resolution, items: seq<string>)
    ensures ResolvedItems(resolve, items).Ok? <==> forall i :: 0 <= i < |items| ==> resolve(items[i]).Ok?
    ensures ResolvedItems(resolve, items).Ok? ==>
              |ResolvedItems(resolve, items).value| == |items|
              && forall i :: 0 <= i < |items| ==> ResolvedItems(resolve, items).value[i] == resolve(items[i]).value
    ensures ResolvedItems(resolve, items).Err? ==>
              exists i :: 0 <= i < |items| && resolve(items[i]) == Err(ResolvedItems(resolve, items).error)
                          && forall j :: 0 <= j < i ==> resolve(items[j]).Ok?
    decreases |items|
  {
    if items != [] {
      ResolvedItemsPointwise(resolve, items[1..]);
      var r := ResolvedItems(resolve, items);
      if resolve(items[0]).Ok? {
        var rest := ResolvedItems(resolve, items[1..]);
        forall i | 1 <= i < |items|
          ensures resolve(items[i]) == resolve(items[1..][i - 1])
        {
        }
        if rest.Err? {
          var i :| 0 <= i < |items[1..]| && resolve(items[1..][i]) == Err(rest.error)
                   && forall j :: 0 <= j < i ==> resolve(items[1..][j]).Ok?;
          assert resolve(items[i + 1]) == Err(r.error);
          assert forall j :: 0 <= j < i + 1 ==> resolve(items[j]).Ok? by {
            forall j | 0 <= j < i + 1
              ensures resolve(items[j]).Ok?
            {
              if j > 0 {
                assert resolve(items[j]) == resolve(items[1..][j - 1]);
              }
            }
          }
        }
      } else {
        assert resolve(items[0]) == Err(r.error);
      }
    }
  }

  /** Resolving the items one at a time from the front. */
  lemma {:induction false} ResolvedItemsStep(resolve: Resolution, items: seq<string>, i: nat)
    requires i < |items|
    ensures var h := resolve(items[i]);
            ResolvedItems(resolve, items[i..])
            == if h.Err? then Err(h.error) else PrependItem(h.value, ResolvedItems(resolve, items[i + 1..]))
  {
    assert items[i..][0] == items[i];
    assert items[i..][1..] == items[i + 1..];
  }

  /** `head` put in front of a successful list. */
  function PrependItem(head: string, r: Result<seq<string>, ResolveError>): Result<seq<string>, ResolveError> {
    if r.Ok? then Ok([head] + r.value) else r
  }

  /** `done` put in front of a successful list. */
  function PrependItems(done: seq<string>, r: Result<seq<string>, ResolveError>): Result<seq<string>, ResolveError> {
    if r.Ok? then Ok(done + r.value) else r
  }

  /** One more item done: PrependItems then PrependItem is PrependItems of the longer prefix. */
  lemma {:induction false} PrependItemsAppend(done: seq<string>, head: string, r: Result<seq<string>, ResolveError>)
    ensures PrependItems(done, PrependItem(head, r)) == PrependItems(done + [head], r)
  {
    if r.Ok? {
      assert done + ([head] + r.value) == done + [head] + r.value;
    }
  }

  /** Whether every value of the map resolves. */
  predicate AllValuesResolve(resolve: Resolution, values: map<string, string>) {
    forall k :: k in values ==> resolve(values[k]).Ok?
  }

  /** resolveValues when nothing fails: the same keys, every value resolved. */
  function ResolvedValues(resolve: Resolution, values: map<string, string>): (r: map<string, string>)
    requires AllValuesResolve(resolve, values)
    ensures r.Keys == values.Keys
    ensures forall k :: k in r ==> r[k] == resolve(values[k]).value
  {
    map k | k in values :: resolve(values[k]).value
  }

  /** A java.util.Map<String, String> updated in place. */
  class StringMap {
    var entries: map<string, string>

    constructor(entries: map<string, string>)
      ensures this.entries == entries
    {
      this.entries := entries;
    }
  }

  /** A java.util.Collection<String> updated in place, in iteration order. */
  class StringList {
    var items: seq<string>

    constructor(items: seq<string>)
      ensures this.items == items
    {
      this.items := items;
    }
  }
}
