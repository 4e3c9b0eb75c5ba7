/**
 * ConfigurableLinksInterceptor's link data, shared by servlet-utils trunk
 * and 1.1: a LinkData is a LinkedHashMap from attribute name to value that
 * holds `href` first and the link text under the null key, and renders as an
 * `<a ...>` element. loadLinks reads the comma-separated ids under the
 * property base name and builds one link per id that has a url.
 */
module Links {
  import opened Wrappers
  import opened JavaText
  import opened LinkedMaps
  import opened Builders

  /** The entries of a LinkData: attribute name (none for the text) to value. */
  type Link = LinkedMap<Option<string>, Option<string>>

  /**
   * The two VariableResolver calls loadLinks makes: resolveValue(name), null
   * when the variable is missing, and resolveValue(name, default), which
   * falls back on a default that is not null.
   */
  datatype Variables = Variables(resolveValue: string -> Option<string>, resolveValueOr: (string, string) -> string)

  /** The attributes a link may carry besides `href`, in rendering order. */
  const OptionalAttributes: seq<string> := ["class", "id", "style", "tabindex", "title", "target"]

  const DefaultPropertyBasename: string := "externalLinks"

  /** `get(key)`: null when the key is absent. */
  function Get(link: Link, key: Option<string>): Option<string> {
    if key in link.values then link.values[key] else None
  }

  /** StringBuilder.append of a string that may be null. */
  function TextOf(s: Option<string>): string {
    if s.Some? then s.value else "null"
  }

  /** One entry as toString renders it: ` key="value"`, nothing when either is null. */
  function AttributeText(key: Option<string>, value: Option<string>): string {
    if key.Some? && value.Some? then " " + key.value + "=\"" + value.value + "\"" else ""
  }

  /** The attributes the first `n` entries render, in insertion order. */
  function AttributesText(link: Link, n: nat): string
    requires n <= |link.keys|
  {
    if n == 0 then "" else AttributesText(link, n - 1) + AttributeText(link.keys[n - 1], Get(link, link.keys[n - 1]))
  }

  /** One more entry appends what it renders. */
  lemma {:induction false} AttributesStep(link: Link, i: nat)
    requires i < |link.keys|
    ensures "<a" + AttributesText(link, i + 1) == "<a" + AttributesText(link, i) + AttributeText(link.keys[i], Get(link, link.keys[i]))
  {
  }

  /** LinkData.toString() */
  function Rendered(link: Link): string {
    "<a" + AttributesText(link, |link.keys|) + ">" + TextOf(Get(link, None)) + "</a>"
  }

  /** The link a LinkData starts as: `href`, then the text under the null key. */
  function NewLink(url: string, text: string): (r: Link)
    ensures r.Valid() && r.keys == [Some("href"), None]
    ensures Get(r, Some("href")) == Some(url) && Get(r, None) == Some(text)
  {
    Empty().Put(Some("href"), Some(url)).Put(None, Some(text))
  }

  class LinkData {
    var entries: Link

    /** LinkData(url, text) */
    constructor(url: string, text: string)
      ensures entries == NewLink(url, text)
    {
      entries := NewLink(url, text);
    }

    /** `put(key, value)` */
    method Put(key: Option<string>, value: Option<string>)
      modifies this
      ensures entries == old(entries).Put(key, value)
    {
      entries := entries.Put(key, value);
    }

    /** toString(): the entries appended one by one, then the text. */
    method ToString() returns (r: string)
      ensures r == Rendered(entries)
    {
      var link := entries;
      var result := new TextBuilder();
      result.Append("<a");
      assert result.text == "<a" + AttributesText(link, 0);
      for i := 0 to |link.keys|
        invariant result.text == "<a" + AttributesText(link, i)
      {
        AttributesStep(link, i);
        AppendAttribute(result, link.keys[i], Get(link, link.keys[i]));
      }
      ghost var attributes := AttributesText(link, |link.keys|);
      result.Append(">" + TextOf(Get(link, None)) + "</a>");
      r := result.text;
      assert r == "<a" + attributes + (">" + TextOf(Get(link, None)) + "</a>");
    }

    /** One entry of toString(): appended only when neither key nor value is null. */
    static method AppendAttribute(result: TextBuilder, key: Option<string>, value: Option<string>)
      modifies result
      ensures result.text == old(result.text) + AttributeText(key, value)
    {
      if key != None && value != None {
        result.Append(" " + key.value + "=\"" + value.value + "\"");
      }
    }
  }

  /** The value of one optional attribute of the link whose keys start with `prefix`. */
  function AttributeValue(variables: Variables, prefix: string, name: string): Option<string> {
    variables.resolveValue(prefix + "." + name)
  }

  /** The optional attributes `names` put one after the other, each only when it has a value. */
  function WithAttributes(link: Link, variables: Variables, prefix: string, names: seq<string>): Link
    decreases |names|
  {
    if names == [] then link
    else
      var before := WithAttributes(link, variables, prefix, names[..|names| - 1]);
      var name := names[|names| - 1];
      var value := AttributeValue(variables, prefix, name);
      if value.Some? then before.Put(Some(name), value) else before
  }

  /** The attributes `names` render once added: those with a value, in the order of `names`. */
  function OptionalText(variables: Variables, prefix: string, names: seq<string>): string
    decreases |names|
  {
    if names == [] then ""
    else
      var name := names[|names| - 1];
      OptionalText(variables, prefix, names[..|names| - 1]) + AttributeText(Some(name), AttributeValue(variables, prefix, name))
  }

  /** The url configured for a link id: `<base>.<id>.url`. */
  function UrlOf(variables: Variables, base: string, id: string): Option<string> {
    variables.resolveValue(base + "." + id + ".url")
  }

  /** The text of a link: `<base>.<id>`, defaulting to the id itself. */
  function TextFor(variables: Variables, base: string, id: string): string {
    variables.resolveValueOr(base + "." + id, id)
  }

  /** The link loadLinks builds for an id with a url. */
  function LinkOf(variables: Variables, base: string, id: string, url: string): Link {
    WithAttributes(NewLink(url, TextFor(variables, base, id)), variables, base + "." + id, OptionalAttributes)
  }

  /** Whether loadLinks builds a link for `id`: it is not empty and has a url. */
  predicate Linked(variables: Variables, base: string, id: string) {
    id != [] && UrlOf(variables, base, id).Some?
  }

  /** The ids among `items` that get a link, in order. */
  function LinkedIds(variables: Variables, base: string, items: seq<string>): seq<string>
    decreases |items|
  {
    if items == [] then []
    else
      var id := items[|items| - 1];
      LinkedIds(variables, base, items[..|items| - 1]) + (if Linked(variables, base, id) then [id] else [])
  }

  /** The links built for `items`, in order. */
  function LinksOf(variables: Variables, base: string, items: seq<string>): seq<Link>
    decreases |items|
  {
    if items == [] then []
    else
      var id := items[|items| - 1];
      var url := UrlOf(variables, base, id);
      LinksOf(variables, base, items[..|items| - 1])
      + (if id != [] && url.Some? then [LinkOf(variables, base, id, url.value)] else [])
  }

  /** One more id: its link, if it gets one, after the links of the ids before it. */
  lemma {:induction false} LinksOfStep(variables: Variables, base: string, items: seq<string>, i: nat)
    requires i < |items|
    ensures LinksOf(variables, base, items[..i + 1])
            == LinksOf(variables, base, items[..i])
               + (if items[i] != [] && UrlOf(variables, base, items[i]).Some?
                  then [LinkOf(variables, base, items[i], UrlOf(variables, base, items[i]).value)] else [])
  {
    assert items[..i + 1][..i] == items[..i];
  }

  /** The ids loadLinks reads: `<base>` (empty when missing) split on commas and the blanks around them. */
  function Ids(variables: Variables, base: string): seq<string> {
    SplitCommaPadded(variables.resolveValueOr(base, ""))
  }

  /** loadLinks(): the list it builds. */
  function LoadedLinks(variables: Variables, base: string): seq<Link> {
    LinksOf(variables, base, Ids(variables, base))
  }

  /** The link of one id: a LinkData with its url and text, then the optional attributes that have a value. */
  method BuildLink(variables: Variables, base: string, item: string, url: string) returns (link: LinkData)
    ensures fresh(link)
    ensures link.entries == LinkOf(variables, base, item, url)
  {
    var text := variables.resolveValueOr(base + "." + item, item);
    link := new LinkData(url, text);
    for j := 0 to |OptionalAttributes|
      invariant link.entries == WithAttributes(NewLink(url, text), variables, base + "." + item, OptionalAttributes[..j])
    {
      assert OptionalAttributes[..j + 1][..j] == OptionalAttributes[..j];
      var value := variables.resolveValue(base + "." + item + "." + OptionalAttributes[j]);
      if value != None {
        link.Put(Some(OptionalAttributes[j]), value);
      }
    }
    assert OptionalAttributes[..|OptionalAttributes|] == OptionalAttributes;
  }

  /** loadLinks(): one link per id, skipping empty ids and ids without a url. */
  method LoadLinkList(variables: Variables, base: string) returns (links: seq<Link>)
    ensures links == LoadedLinks(variables, base)
  {
    var list := variables.resolveValueOr(base, "");
    var items := SplitCommaPadded(list);
    links := [];
    for i := 0 to |items|
      invariant links == LinksOf(variables, base, items[..i])
    {
      LinksOfStep(variables, base, items, i);
      if |items[i]| > 0 {
        var url := variables.resolveValue(base + "." + items[i] + ".url");
        if url == None {
          continue;
        }
        var link := BuildLink(variables, base, items[i], url.value);
        links := links + [link.entries];
      }
    }
    assert items[..|items|] == items;
  }

  /** Entries rendered alike in two links render alike. */
  lemma {:induction false} AttributesTextFrame(a: Link, b: Link, n: nat)
    requires n <= |a.keys| && n <= |b.keys| && a.keys[..n] == b.keys[..n]
    requires forall k :: 0 <= k < n ==> Get(a, a.keys[k]) == Get(b, a.keys[k])
    ensures AttributesText(a, n) == AttributesText(b, n)
  {
    if n > 0 {
      assert a.keys[n - 1] == a.keys[..n][n - 1] == b.keys[n - 1];
      assert a.keys[..n - 1] == a.keys[..n][..n - 1];
      assert b.keys[..n - 1] == b.keys[..n][..n - 1];
      AttributesTextFrame(a, b, n - 1);
    }
  }

  /** A new key appends its own rendering. */
  lemma {:induction false} PutNewRendered(link: Link, k: Option<string>, v: Option<string>)
    requires link.Valid() && k !in link.keys
    ensures link.Put(k, v).keys == link.keys + [k]
    ensures AttributesText(link.Put(k, v), |link.keys| + 1) == AttributesText(link, |link.keys|) + AttributeText(k, v)
  {
    var w := link.Put(k, v);
    forall i | 0 <= i < |link.keys|
      ensures Get(w, w.keys[i]) == Get(link, w.keys[i])
    {
      assert w.keys[i] == link.keys[i];
    }
    assert w.keys[..|link.keys|] == link.keys[..|link.keys|];
    AttributesTextFrame(w, link, |link.keys|);
  }

  /**
   * Putting attributes keeps the link well formed and its text, and adds
   * only keys among `names`.
   */
  lemma {:induction false} WithAttributesShape(link: Link, variables: Variables, prefix: string, names: seq<string>)
    requires link.Valid()
    ensures var w := WithAttributes(link, variables, prefix, names);
            && w.Valid() && Get(w, None) == Get(link, None)
            && (forall k :: k in w.keys ==> k in link.keys || (k.Some? && k.value in names))
    decreases |names|
  {
    if names != [] {
      var front := names[..|names| - 1];
      WithAttributesShape(link, variables, prefix, front);
      assert forall x :: x in front ==> x in names;
    }
  }

  /**
   * Putting attributes that are new to the link and distinct from each other
   * renders them after the entries already there, in order, each only when
   * it has a value.
   */
  lemma {:induction false} WithAttributesRendered(link: Link, variables: Variables, prefix: string, names: seq<string>)
    requires link.Valid()
    requires forall i, j :: 0 <= i < j < |names| ==> names[i] != names[j]
    requires forall i :: 0 <= i < |names| ==> Some(names[i]) !in link.keys
    ensures var w := WithAttributes(link, variables, prefix, names);
            AttributesText(w, |w.keys|) == AttributesText(link, |link.keys|) + OptionalText(variables, prefix, names)
    decreases |names|
  {
    if names != [] {
      var front := names[..|names| - 1];
      var name := names[|names| - 1];
      WithAttributesRendered(link, variables, prefix, front);
      WithAttributesShape(link, variables, prefix, front);
      assert forall i :: 0 <= i < |front| ==> front[i] != name;
      RenderedStep(WithAttributes(link, variables, prefix, front), name, AttributeValue(variables, prefix, name),
                   AttributesText(link, |link.keys|), OptionalText(variables, prefix, front));
    }
  }

  /** One optional attribute more: rendered after the others when it has a value. */
  lemma {:induction false} RenderedStep(before: Link, name: string, value: Option<string>, head: string, rest: string)
    requires before.Valid() && Some(name) !in before.keys
    requires AttributesText(before, |before.keys|) == head + rest
    ensures var w := if value.Some? then before.Put(Some(name), value) else before;
            AttributesText(w, |w.keys|) == head + (rest + AttributeText(Some(name), value))
  {
    var last := AttributeText(Some(name), value);
    if value.Some? {
      PutNewRendered(before, Some(name), value);
      Associative(head, rest, last);
    } else {
      Associative(head, rest, last);
    }
  }

  lemma {:induction false} Associative(a: string, b: string, c: string)
    ensures (a + b) + c == a + (b + c)
    ensures c == [] ==> a + (b + c) == a + b
  {
  }

  /** The six optional attribute names are distinct and none of them is `href`. */
  lemma {:induction false} OptionalAttributesDistinct()
    ensures forall i, j :: 0 <= i < j < |OptionalAttributes| ==> OptionalAttributes[i] != OptionalAttributes[j]
    ensures forall i :: 0 <= i < |OptionalAttributes| ==> OptionalAttributes[i] != "href"
  {
  }

  /**
   * A loaded link renders as `<a href="url"`, then ` name="value"` for each
   * optional attribute that has a value in the order class, id, style,
   * tabindex, title, target, then `>`, the text and `</a>`.
   */
  lemma {:induction false} LinkOfRendered(variables: Variables, base: string, id: string, url: string)
    ensures Rendered(LinkOf(variables, base, id, url))
            == LinkHtml(url, OptionalText(variables, base + "." + id, OptionalAttributes), TextFor(variables, base, id))
  {
    var text := TextFor(variables, base, id);
    var start := NewLink(url, text);
    var optional := OptionalText(variables, base + "." + id, OptionalAttributes);
    OptionalAttributesDistinct();
    WithAttributesRendered(start, variables, base + "." + id, OptionalAttributes);
    WithAttributesShape(start, variables, base + "." + id, OptionalAttributes);
    NewLinkRendered(url, text);
    HrefFirst(url, optional);
  }

  /** The element of a link with `href` first: `<a href="url"`, the other attributes, `>`, the text, `</a>`. */
  function LinkHtml(url: string, attributes: string, text: string): string {
    "<a href=\"" + url + "\"" + attributes + ">" + text + "</a>"
  }

  /** A new LinkData renders its `href` alone. */
  lemma {:induction false} NewLinkRendered(url: string, text: string)
    ensures AttributesText(NewLink(url, text), 2) == " href=\"" + url + "\""
  {
    var start := NewLink(url, text);
    assert AttributesText(start, 1) == "" + AttributeText(Some("href"), Some(url));
    assert AttributesText(start, 2) == AttributesText(start, 1) + AttributeText(None, Some(text));
  }

  lemma {:induction false} HrefFirst(url: string, optional: string)
    ensures "<a" + (" href=\"" + url + "\"" + optional) == "<a href=\"" + url + "\"" + optional
  {
    Associative("<a", " href=\"", url);
    Associative("<a", " href=\"" + url, "\"");
    Associative("<a", " href=\"" + url + "\"", optional);
    assert "<a" + " href=\"" == "<a href=\"";
  }

  /** Attributes none of which has a value render nothing. */
  lemma {:induction false} NoAttributeValues(variables: Variables, prefix: string, names: seq<string>)
    requires forall i :: 0 <= i < |names| ==> AttributeValue(variables, prefix, names[i]).None?
    ensures OptionalText(variables, prefix, names) == ""
    decreases |names|
  {
    if names != [] {
      NoAttributeValues(variables, prefix, names[..|names| - 1]);
    }
  }

  /** Every link corresponds, in order, to an id that is not empty and has a url. */
  lemma {:induction false} LinksOfIds(variables: Variables, base: string, items: seq<string>)
    ensures var ids := LinkedIds(variables, base, items);
            && |LinksOf(variables, base, items)| == |ids|
            && forall k :: 0 <= k < |ids| ==>
                 UrlOf(variables, base, ids[k]).Some?
                 && LinksOf(variables, base, items)[k] == LinkOf(variables, base, ids[k], UrlOf(variables, base, ids[k]).value)
    decreases |items|
  {
    if items != [] {
      LinksOfIds(variables, base, items[..|items| - 1]);
    }
  }

  /** An id gets a link exactly when it is listed, not empty and has a url. */
  lemma {:induction false} LinkedIdsMember(variables: Variables, base: string, items: seq<string>, id: string)
    ensures id in LinkedIds(variables, base, items) <==> id in items && Linked(variables, base, id)
    decreases |items|
  {
    if items != [] {
      var front := items[..|items| - 1];
      LinkedIdsMember(variables, base, front, id);
      assert items == front + [items[|items| - 1]];
    }
  }

  /** The links keep the order of the ids: listing more ids appends their links. */
  lemma {:induction false} LinkedIdsAppend(variables: Variables, base: string, a: seq<string>, b: seq<string>)
    ensures LinkedIds(variables, base, a + b) == LinkedIds(variables, base, a) + LinkedIds(variables, base, b)
    decreases |b|
  {
    if b == [] {
      assert a + b == a;
    } else {
      var front := b[..|b| - 1];
      assert (a + b)[..|a + b| - 1] == a + front;
      LinkedIdsAppend(variables, base, a, front);
    }
  }

  /**
   * The documented contact link: a url and nothing else gives
   * `<a href="http://domain.name/contact">contact</a>`.
   */
  lemma {:induction false} ContactExample(variables: Variables)
    requires UrlOf(variables, DefaultPropertyBasename, "contact") == Some("http://domain.name/contact")
    requires TextFor(variables, DefaultPropertyBasename, "contact") == "contact"
    requires forall i :: 0 <= i < |OptionalAttributes| ==>
               AttributeValue(variables, DefaultPropertyBasename + "." + "contact", OptionalAttributes[i]).None?
    ensures Rendered(LinkOf(variables, DefaultPropertyBasename, "contact", "http://domain.name/contact"))
            == "<a href=\"" + "http://domain.name/contact" + "\">contact</a>"
  {
    LinkOfRendered(variables, DefaultPropertyBasename, "contact", "http://domain.name/contact");
    NoAttributeValues(variables, DefaultPropertyBasename + "." + "contact", OptionalAttributes);
    ContactText("http://domain.name/contact");
  }

  lemma {:induction false} ContactText(url: string)
    ensures LinkHtml(url, "", "contact") == "<a href=\"" + url + "\">contact</a>"
  {
    assert "\"" + "" + ">" + "contact" + "</a>" == "\">contact</a>";
    assert LinkHtml(url, "", "contact") == "<a href=\"" + url + ("\"" + "" + ">" + "contact" + "</a>");
  }

  /**
   * The documented help link: a url and a target `_blank` give
   * `<a href="url" target="_blank">help</a>` (the documentation's url is a
   * `javascript:` call).
   */
  lemma {:induction false} HelpExample(variables: Variables, url: string)
    requires UrlOf(variables, DefaultPropertyBasename, "help") == Some(url)
    requires TextFor(variables, DefaultPropertyBasename, "help") == "help"
    requires AttributeValue(variables, DefaultPropertyBasename + "." + "help", "target") == Some("_blank")
    requires forall i :: 0 <= i < 5 ==> AttributeValue(variables, DefaultPropertyBasename + "." + "help", OptionalAttributes[i]).None?
    ensures Rendered(LinkOf(variables, DefaultPropertyBasename, "help", url))
            == "<a href=\"" + url + "\" target=\"_blank\">help</a>"
  {
    var prefix := DefaultPropertyBasename + "." + "help";
    LinkOfRendered(variables, DefaultPropertyBasename, "help", url);
    assert OptionalAttributes[..5][..4] == OptionalAttributes[..4];
    NoAttributeValues(variables, prefix, OptionalAttributes[..5]);
    assert OptionalAttributes[..|OptionalAttributes| - 1] == OptionalAttributes[..5];
    assert OptionalText(variables, prefix, OptionalAttributes) == "" + AttributeText(Some("target"), Some("_blank"));
    HelpText(url);
  }

  lemma {:induction false} HelpText(url: string)
    ensures LinkHtml(url, "" + AttributeText(Some("target"), Some("_blank")), "help")
            == "<a href=\"" + url + "\" target=\"_blank\">help</a>"
  {
    var target := " target=\"_blank\"";
    assert "" + AttributeText(Some("target"), Some("_blank")) == target;
    assert "\"" + target + ">" + "help" + "</a>" == "\" target=\"_blank\">help</a>";
    assert LinkHtml(url, target, "help") == "<a href=\"" + url + ("\"" + target + ">" + "help" + "</a>");
  }

  /** Spring's ModelAndView, reduced to the model map the interceptors fill. */
  class ModelAndView {
    var model: map<string, seq<Link>>

    constructor()
      ensures model == map[]
    {
      model := map[];
    }
  }
}
