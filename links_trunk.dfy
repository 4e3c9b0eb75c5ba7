/**
 * ConfigurableLinksInterceptor of servlet-utils trunk: the links are loaded
 * once and cached when `cacheOn` (the default) holds, reloaded when the
 * property file changes; without caching every request loads them anew.
 */
module LinksTrunk {
  import opened Wrappers
  import opened Links

  class ConfigurableLinksInterceptor {
    var propertyBasename: string
    var variableResolver: Option<Variables>
    var cacheOn: bool
    var links: seq<Link>

    /** ConfigurableLinksInterceptor(): the base name `externalLinks`. */
    constructor()
      ensures propertyBasename == DefaultPropertyBasename
      ensures variableResolver == None && cacheOn && links == []
    {
      propertyBasename := DefaultPropertyBasename;
      variableResolver := None;
      cacheOn := true;
      links := [];
    }

    /** ConfigurableLinksInterceptor(propertyBasename) */
    constructor WithBasename(propertyBasename: string)
      ensures this.propertyBasename == propertyBasename
      ensures variableResolver == None && cacheOn && links == []
    {
      this.propertyBasename := propertyBasename;
      variableResolver := None;
      cacheOn := true;
      links := [];
    }

    method SetVariableResolver(variableResolver: Variables)
      modifies this
      ensures this.variableResolver == Some(variableResolver)
      ensures propertyBasename == old(propertyBasename) && cacheOn == old(cacheOn) && links == old(links)
    {
      this.variableResolver := Some(variableResolver);
    }

    method SetCacheOn(cacheOn: bool)
      modifies this
      ensures this.cacheOn == cacheOn
      ensures propertyBasename == old(propertyBasename) && variableResolver == old(variableResolver) && links == old(links)
    {
      this.cacheOn := cacheOn;
    }

    method SetPropertyBasename(propertyBasename: string)
      modifies this
      ensures this.propertyBasename == propertyBasename
      ensures variableResolver == old(variableResolver) && cacheOn == old(cacheOn) && links == old(links)
    {
      this.propertyBasename := propertyBasename;
    }

    /** loadLinks(): the links of the ids listed under the base name. */
    method LoadLinks() returns (r: seq<Link>)
      requires variableResolver.Some?
      ensures r == LoadedLinks(variableResolver.value, propertyBasename)
    {
      r := LoadLinkList(variableResolver.value, propertyBasename);
    }

    /** afterPropertiesSet(): the links are loaded once when caching. */
    method AfterPropertiesSet()
      requires cacheOn ==> variableResolver.Some?
      modifies this
      ensures propertyBasename == old(propertyBasename) && variableResolver == old(variableResolver) && cacheOn == old(cacheOn)
      ensures links == if cacheOn then LoadedLinks(variableResolver.value, propertyBasename) else old(links)
    {
      if cacheOn {
        links := LoadLinks();
      }
    }

    /**
     * postHandle: the links go into the model under the base name, the
     * cached ones when caching and freshly loaded ones otherwise; nothing
     * happens without a model.
     */
    method PostHandle(modelAndView: ModelAndView?)
      requires modelAndView != null && !cacheOn ==> variableResolver.Some?
      modifies modelAndView
      ensures modelAndView != null ==>
                modelAndView.model == old(modelAndView.model)[propertyBasename :=
                  if cacheOn then links else LoadedLinks(variableResolver.value, propertyBasename)]
    {
      if modelAndView == null {
        return;
      }
      var published := links;
      if !cacheOn {
        published := LoadLinks();
      }
      modelAndView.model := modelAndView.model[propertyBasename := published];
    }

    /** onPropertyFileChanged: the cached links are reloaded; without caching nothing happens. */
    method OnPropertyFileChanged()
      requires cacheOn ==> variableResolver.Some?
      modifies this
      ensures propertyBasename == old(propertyBasename) && variableResolver == old(variableResolver) && cacheOn == old(cacheOn)
      ensures links == if cacheOn then LoadedLinks(variableResolver.value, propertyBasename) else old(links)
    {
      if !cacheOn {
        return;
      }
      links := LoadLinks();
    }
  }
}
