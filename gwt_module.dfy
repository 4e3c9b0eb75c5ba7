/**
 * GwtModuleInterceptor of ppgwt trunk: after a request is handled, the GWT
 * modules whose URI rules match the request URI (context path and session
 * suffix removed) are collected in name order, and the first of them is put
 * into the model as the `gwtModule` bean, with the js-API urls that match
 * the URI, variables substituted.
 */
module GwtModules {
  import opened Wrappers
  import opened UriConfiguration

  /** The include and exclude lists a UriRelatedConfiguration holds at request time. */
  datatype UriRules = UriRules(includes: Option<seq<string>>, excludes: Option<seq<string>>)

  /** UriRelatedConfiguration.matchesUri on the lists. */
  predicate RulesMatch(rules: UriRules, uri: string, matches: PathMatcher) {
    IncludedBy(rules.includes, uri, matches) && !ExcludedBy(rules.excludes, uri, matches)
  }

  /** A GwtModuleJsApi: its URI rules and its url, which may be null. */
  datatype JsApi = JsApi(rules: UriRules, url: Option<string>)

  /** A GwtModulePreferences: its URI rules and its js-APIs, which may be null. */
  datatype ModulePreferences = ModulePreferences(rules: UriRules, jsApis: Option<seq<JsApi>>)

  /** StringValueResolver.resolveStringValue */
  type StringValueResolver = Option<string> -> Option<string>

  /** GwtPreloadManager.getPreloadValues(moduleName, request) */
  type PreloadManager = (string, Request) -> map<string, string>

  /** What the interceptor reads of the request: the URI, the context path and the id of the session, if any. */
  datatype Request = Request(requestUri: string, contextPath: string, sessionId: Option<string>)

  function SessionSuffix(id: string): string {
    ";jsessionid=" + id
  }

  predicate EndsWith(s: string, suffix: string) {
    |suffix| <= |s| && s[|s| - |suffix|..] == suffix
  }

  /**
   * resolveRequestUri: the URI without the context path's length of leading
   * characters, and without `;jsessionid=<id>` at its end when a session
   * exists and the URI ends with exactly that.
   */
  function ResolvedRequestUri(request: Request): (r: string)
    requires |request.contextPath| <= |request.requestUri|
    ensures var path := request.requestUri[|request.contextPath|..];
            && r <= path
            && (r != path <==> request.sessionId.Some? && EndsWith(path, SessionSuffix(request.sessionId.value)))
            && (r != path ==> path == r + SessionSuffix(request.sessionId.value))
  {
    var requestUri := request.requestUri[|request.contextPath|..];
    if request.sessionId.Some? && EndsWith(requestUri, SessionSuffix(request.sessionId.value)) then
      var suffix := SessionSuffix(request.sessionId.value);
      assert requestUri == requestUri[..|requestUri| - |suffix|] + suffix;
      requestUri[..|requestUri| - |suffix|]
    else requestUri
  }

  /** String.compareTo(a, b) < 0: at the first difference the character is smaller, or `a` is a proper prefix. */
  predicate LexLess(a: string, b: string)
    decreases |a|
  {
    if a == [] then b != []
    else if b == [] then false
    else if a[0] != b[0] then a[0] < b[0]
    else LexLess(a[1..], b[1..])
  }

  /** No string is less than itself, and no two strings are less than each other. */
  lemma {:induction false} LexAsymmetric(a: string, b: string)
    ensures !(LexLess(a, b) && LexLess(b, a))
    ensures !LexLess(a, a)
    decreases |a|
  {
    if a != [] && b != [] {
      LexAsymmetric(a[1..], b[1..]);
    }
    if a != [] {
      LexAsymmetric(a[1..], a[1..]);
    }
  }

  /** Two different strings are ordered one way or the other. */
  lemma {:induction false} LexTotal(a: string, b: string)
    ensures a == b || LexLess(a, b) || LexLess(b, a)
    decreases |a|
  {
    if a != [] && b != [] && a[0] == b[0] {
      LexTotal(a[1..], b[1..]);
      if a[1..] == b[1..] {
        assert a == [a[0]] + a[1..] && b == [b[0]] + b[1..];
      }
    }
  }

  lemma {:induction false} LexTransitive(a: string, b: string, c: string)
    requires LexLess(a, b) && LexLess(b, c)
    ensures LexLess(a, c)
    decreases |a|
  {
    if a != [] && a[0] == b[0] && b[0] == c[0] {
      LexTransitive(a[1..], b[1..], c[1..]);
    }
  }

  /** `x` comes first in `s` in name order: the first element a TreeSet of `s` iterates. */
  predicate IsLeast(x: string, s: set<string>) {
    x in s && forall y :: y in s ==> y == x || LexLess(x, y)
  }

  /** A set has at most one first name. */
  lemma {:induction false} LeastUnique(x: string, y: string, s: set<string>)
    requires IsLeast(x, s) && IsLeast(y, s)
    ensures x == y
  {
    if x != y {
      LexAsymmetric(x, y);
    }
  }

  /** The names of the modules whose rules match the URI. */
  function MatchingModules(modules: map<string, ModulePreferences>, uri: string, matches: PathMatcher): (r: set<string>)
    ensures forall name :: name in r <==> name in modules && RulesMatch(modules[name].rules, uri, matches)
  {
    set name | name in modules && RulesMatch(modules[name].rules, uri, matches)
  }

  /** The js-APIs whose rules match the URI, in collection order. */
  function MatchingApis(apis: seq<JsApi>, uri: string, matches: PathMatcher): seq<JsApi>
    decreases |apis|
  {
    if apis == [] then []
    else
      var api := apis[|apis| - 1];
      MatchingApis(apis[..|apis| - 1], uri, matches) + (if RulesMatch(api.rules, uri, matches) then [api] else [])
  }

  /** substVariables(str): the resolver's value, or `str` itself when there is no resolver. */
  function SubstVariables(variables: Option<StringValueResolver>, str: Option<string>): (r: Option<string>)
    ensures variables.None? ==> r == str
  {
    if variables.None? then str else variables.value(str)
  }

  /** The urls of the js-APIs, substituted. */
  function SubstitutedUrls(variables: Option<StringValueResolver>, apis: seq<JsApi>): (r: seq<Option<string>>)
    ensures |r| == |apis|
  {
    seq(|apis|, k requires 0 <= k < |apis| => SubstVariables(variables, apis[k].url))
  }

  /** prepareJsApis: null when the module has no js-APIs, otherwise the substituted urls of those matching the URI. */
  function PreparedJsApis(jsApis: Option<seq<JsApi>>, uri: string, matches: PathMatcher, variables: Option<StringValueResolver>)
    : (r: Option<seq<Option<string>>>)
    ensures r.None? <==> jsApis.None?
  {
    if jsApis.None? then None else Some(SubstitutedUrls(variables, MatchingApis(jsApis.value, uri, matches)))
  }

  /** A js-API is kept exactly when it is in the collection and its rules match. */
  lemma {:induction false} MatchingApisMember(apis: seq<JsApi>, uri: string, matches: PathMatcher, api: JsApi)
    ensures api in MatchingApis(apis, uri, matches) <==> api in apis && RulesMatch(api.rules, uri, matches)
    decreases |apis|
  {
    if apis != [] {
      var front := apis[..|apis| - 1];
      MatchingApisMember(front, uri, matches, api);
      assert apis == front + [apis[|apis| - 1]];
    }
  }

  /** The kept js-APIs keep the collection's order. */
  lemma {:induction false} MatchingApisAppend(a: seq<JsApi>, b: seq<JsApi>, uri: string, matches: PathMatcher)
    ensures MatchingApis(a + b, uri, matches) == MatchingApis(a, uri, matches) + MatchingApis(b, uri, matches)
    decreases |b|
  {
    if b == [] {
      assert a + b == a;
    } else {
      var front := b[..|b| - 1];
      assert (a + b)[..|a + b| - 1] == a + front;
      MatchingApisAppend(a, front, uri, matches);
    }
  }

  /** Without a resolver the prepared list holds the urls of the matching js-APIs as they are. */
  lemma {:induction false} UnresolvedUrls(jsApis: seq<JsApi>, uri: string, matches: PathMatcher)
    ensures var r := PreparedJsApis(Some(jsApis), uri, matches, None).value;
            var kept := MatchingApis(jsApis, uri, matches);
            |r| == |kept| && forall k :: 0 <= k < |r| ==> r[k] == kept[k].url
  {
  }

  /** The GwtModuleBean put into the model. */
  class GwtModuleBean {
    var contextPath: Option<string>
    var name: Option<string>
    var jsApis: Option<seq<Option<string>>>
    var serializedObjects: Option<map<string, string>>

    constructor()
      ensures contextPath == None && name == None && jsApis == None && serializedObjects == None
    {
      contextPath := None;
      name := None;
      jsApis := None;
      serializedObjects := None;
    }
  }

  /** Spring's ModelAndView, reduced to the model map. */
  class ModelAndView {
    var model: map<string, GwtModuleBean>

    constructor()
      ensures model == map[]
    {
      model := map[];
    }
  }

  class GwtModuleInterceptor {
    var modules: map<string, ModulePreferences>
    var gwtModuleBean: GwtModuleBean?
    var variables: Option<StringValueResolver>
    var preloadManager: Option<PreloadManager>

    constructor()
      ensures modules == map[] && gwtModuleBean == null && variables == None && preloadManager == None
    {
      modules := map[];
      gwtModuleBean := null;
      variables := None;
      preloadManager := None;
    }

    method SetModules(modules: map<string, ModulePreferences>)
      modifies this
      ensures this.modules == modules
      ensures gwtModuleBean == old(gwtModuleBean) && variables == old(variables) && preloadManager == old(preloadManager)
    {
      this.modules := modules;
    }

    method SetVariables(variables: StringValueResolver)
      modifies this
      ensures this.variables == Some(variables)
      ensures modules == old(modules) && gwtModuleBean == old(gwtModuleBean) && preloadManager == old(preloadManager)
    {
      this.variables := Some(variables);
    }

    method SetPreloadManager(preloadManager: PreloadManager)
      modifies this
      ensures this.preloadManager == Some(preloadManager)
      ensures modules == old(modules) && gwtModuleBean == old(gwtModuleBean) && variables == old(variables)
    {
      this.preloadManager := Some(preloadManager);
    }

    method SetGwtModuleBean(gwtModuleBean: GwtModuleBean)
      modifies this
      ensures this.gwtModuleBean == gwtModuleBean
      ensures modules == old(modules) && variables == old(variables) && preloadManager == old(preloadManager)
    {
      this.gwtModuleBean := gwtModuleBean;
    }

    /** getGwtModuleBean(): the injected bean, or a new one when none was injected. */
    method GetGwtModuleBean() returns (bean: GwtModuleBean)
      ensures gwtModuleBean != null ==> bean == gwtModuleBean
      ensures gwtModuleBean == null ==> fresh(bean) && bean.contextPath == None && bean.name == None
                                        && bean.jsApis == None && bean.serializedObjects == None
    {
      if gwtModuleBean == null {
        bean := new GwtModuleBean();
      } else {
        bean := gwtModuleBean;
      }
    }

    /** The loop over the module entries, collecting the names of those that match. */
    method MatchingModuleNames(requestUri: string, matches: PathMatcher) returns (names: set<string>)
      ensures names == MatchingModules(modules, requestUri, matches)
    {
      names := {};
      var remaining := modules.Keys;
      while remaining != {}
        invariant remaining <= modules.Keys
        invariant names == set name | name in modules.Keys - remaining && RulesMatch(modules[name].rules, requestUri, matches)
        decreases |remaining|
      {
        var name :| name in remaining;
        if RulesMatch(modules[name].rules, requestUri, matches) {
          names := names + {name};
        }
        remaining := remaining - {name};
      }
    }

    /** prepareJsApis(requestUri, gwtModuleName) */
    method PrepareJsApis(requestUri: string, gwtModuleName: string, matches: PathMatcher) returns (r: Option<seq<Option<string>>>)
      requires gwtModuleName in modules
      ensures r == PreparedJsApis(modules[gwtModuleName].jsApis, requestUri, matches, variables)
    {
      var jsApis := modules[gwtModuleName].jsApis;
      if jsApis == None {
        return None;
      }
      var apis := jsApis.value;
      var result: seq<Option<string>> := [];
      for i := 0 to |apis|
        invariant result == SubstitutedUrls(variables, MatchingApis(apis[..i], requestUri, matches))
      {
        assert apis[..i + 1][..i] == apis[..i];
        if RulesMatch(apis[i].rules, requestUri, matches) {
          result := result + [SubstVariables(variables, apis[i].url)];
        }
      }
      assert apis[..|apis|] == apis;
      return Some(result);
    }

    /**
     * postHandle: when some module matches the resolved URI, the bean gets the
     * context path, the first matching name in name order, that module's
     * prepared js-APIs and, with a preload manager, its preload values, and
     * goes into the model as `gwtModule`; otherwise, and without a model,
     * nothing changes.
     */
    method PostHandle(request: Request, modelAndView: ModelAndView?, matches: PathMatcher)
      requires modelAndView != null ==> |request.contextPath| <= |request.requestUri|
      modifies modelAndView, gwtModuleBean
      ensures modelAndView == null && gwtModuleBean != null ==> unchanged(gwtModuleBean)
      ensures modelAndView != null && MatchingModules(modules, ResolvedRequestUri(request), matches) == {} ==>
                modelAndView.model == old(modelAndView.model) && (gwtModuleBean != null ==> unchanged(gwtModuleBean))
      ensures modelAndView != null && MatchingModules(modules, ResolvedRequestUri(request), matches) != {} ==>
                && "gwtModule" in modelAndView.model
                && modelAndView.model == old(modelAndView.model)["gwtModule" := modelAndView.model["gwtModule"]]
                && var bean := modelAndView.model["gwtModule"];
                   && (gwtModuleBean == null ==> fresh(bean))
                   && (gwtModuleBean != null ==> bean == gwtModuleBean)
                   && bean.contextPath == Some(request.contextPath)
                   && bean.name.Some? && IsLeast(bean.name.value, MatchingModules(modules, ResolvedRequestUri(request), matches))
                   && bean.jsApis == PreparedJsApis(modules[bean.name.value].jsApis, ResolvedRequestUri(request), matches, variables)
                   && bean.serializedObjects ==
                        if preloadManager.Some? then Some(preloadManager.value(bean.name.value, request))
                        else if gwtModuleBean == null then None
                        else old(gwtModuleBean.serializedObjects)
    {
      if modelAndView == null {
        return;
      }
      var requestUri := ResolvedRequestUri(request);
      var matchesModules := MatchingModuleNames(requestUri, matches);
      if matchesModules != {} {
        var moduleName := FirstName(matchesModules);
        var gwtModule := GetGwtModuleBean();
        gwtModule.contextPath := Some(request.contextPath);
        gwtModule.name := Some(moduleName);
        var jsApis := PrepareJsApis(requestUri, moduleName, matches);
        gwtModule.jsApis := jsApis;
        if preloadManager.Some? {
          gwtModule.serializedObjects := Some(preloadManager.value(moduleName, request));
        }
        modelAndView.model := modelAndView.model["gwtModule" := gwtModule];
      }
    }
  }

  /** The first name a TreeSet of `names` iterates: the least in String.compareTo order. */
  method FirstName(names: set<string>) returns (first: string)
    requires names != {}
    ensures IsLeast(first, names)
  {
    first :| first in names;
    var remaining := names - {first};
    while remaining != {}
      invariant remaining <= names && first in names && first !in remaining
      invariant forall y :: y in names - remaining ==> y == first || LexLess(first, y)
      decreases |remaining|
    {
      var x :| x in remaining;
      LexTotal(x, first);
      if LexLess(x, first) {
        forall y | y in names - remaining
          ensures y == x || LexLess(x, y)
        {
          if y != first {
            LexTransitive(x, first, y);
          }
        }
        first := x;
      }
      remaining := remaining - {x};
    }
  }
}
