/** One HTTP route (pygweblet/route.py): a URI path and an HTTP method (its `verb`) linked to a
    program, a template, or both, and the response it produces. */
module Routes {
  import opened Wrappers
  import opened Python

  /** A route. `program` is the object found under the method's lowercase
      name in the program file; `template` is a template name. */
  datatype Route = Route(
    path: string,
    verb: string,
    program: Option<Obj>,
    template: Option<string>)

  /** The route constructor, with the program and the template defaulting to
      absent. */
  function NewRoute(path: string, verb: string,
                    program: Option<Obj> := None,
                    template: Option<string> := None): (r: Route)
    ensures r.path == path && r.verb == verb
    ensures r.program == program && r.template == template
  {
    Route(path, verb, program, template)
  }

  /** The response sent back: its body text and its content type. */
  datatype Response = Response(text: string, contentType: string)

  const HtmlContentType := "text/html"

  /** Answers a request. `run` gives what awaiting `program(request)`
      returns for the request at hand. Only a truthy program is called; a
      string result becomes an HTML response and anything else yields none. */
  function Handle(route: Route, run: Obj -> Obj): (r: Option<Response>)
    ensures r.Some? <==>
      route.program.Some? && Truthy(route.program.value)
      && run(route.program.value).Str?
    ensures r.Some? ==>
      r.value.text == run(route.program.value).s
      && r.value.contentType == "text/html"
  {
    if route.program.Some? && Truthy(route.program.value) then
      var result := run(route.program.value);
      if result.Str? then Some(Response(result.s, HtmlContentType)) else None
    else None
  }

  /** The response does not depend on the route's template. */
  lemma TemplateNeverRead(route: Route, run: Obj -> Obj, t: Option<string>)
    ensures Handle(route.(template := t), run) == Handle(route, run)
  {
  }

  /** A route built with only a path and a method holds neither program nor
      template, and answers nothing. */
  lemma BareRouteAnswersNothing(path: string, verb: string, run: Obj -> Obj)
    ensures NewRoute(path, verb).program.None? && NewRoute(path, verb).template.None?
    ensures Handle(NewRoute(path, verb), run).None?
  {
    NoProgramNoResponse(NewRoute(path, verb), run);
  }

  /** A route without a program answers nothing, even with a template. */
  lemma NoProgramNoResponse(route: Route, run: Obj -> Obj)
    requires route.program.None?
    ensures Handle(route, run).None?
  {
  }
}
