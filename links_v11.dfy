/**
 * ConfigurableLinksInterceptor of servlet-utils 1.1: the links are loaded
 * when a resolver is injected and again on every property file change, each
 * time replacing the whole list.
 */
module LinksV11 {
  import opened Links

  class ConfigurableLinksInterceptor {
    const propertyBasename: string
    var links: seq<Link>

    /** ConfigurableLinksInterceptor(): the base name `externalLinks`. */
    constructor()
      ensures propertyBasename == DefaultPropertyBasename && links == []
    {
      propertyBasename := DefaultPropertyBasename;
      links := [];
    }

    /** ConfigurableLinksInterceptor(propertyBasename) */
    constructor WithBasename(propertyBasename: string)
      ensures this.propertyBasename == propertyBasename && links == []
    {
      this.propertyBasename := propertyBasename;
      links := [];
    }

    /** loadLinks(variables): the list is replaced by the links the resolver describes. */
    method LoadLinks(variables: Variables)
      modifies this
      ensures links == LoadedLinks(variables, propertyBasename)
    {
      links := LoadLinkList(variables, propertyBasename);
    }

    /** postHandle: the current links go into the model under the base name; nothing happens without a model. */
    method PostHandle(modelAndView: ModelAndView?)
      modifies modelAndView
      ensures modelAndView != null ==> modelAndView.model == old(modelAndView.model)[propertyBasename := links]
    {
      if modelAndView == null {
        return;
      }
      modelAndView.model := modelAndView.model[propertyBasename := links];
    }

    /** onPropertyFileChanged(event): the links are reloaded from the event's resolver. */
    method OnPropertyFileChanged(eventVariables: Variables)
      modifies this
      ensures links == LoadedLinks(eventVariables, propertyBasename)
    {
      LoadLinks(eventVariables);
    }
  }
}
