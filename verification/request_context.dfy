/**
 * The two HTTP middlewares that carry the client's current project and
 * context into a request: a truthy `X-Project-Id` / `X-Context-Id` header is
 * merged into the request input (`current_project_id` /
 * `current_context_id`) and stored as a request attribute (`project_id` /
 * `context_id`); the request then goes on to the next handler.
 */
module RequestContext {
  /** Header names are taken as already normalised by the framework. */
  datatype Request = Request(headers: map<string, string>, input: map<string, string>, attributes: map<string, string>)

  const ProjectHeader := "X-Project-Id"
  const ContextHeader := "X-Context-Id"

  /** PHP truthiness of a header value: absent, "" and "0" are falsy. */
  predicate HeaderTruthy(r: Request, name: string) {
    name in r.headers && r.headers[name] != "" && r.headers[name] != "0"
  }

  /** The request carries `v` under both the input key and the attribute key. */
  predicate Carries(r: Request, inputKey: string, attributeKey: string, v: string) {
    inputKey in r.input && r.input[inputKey] == v && attributeKey in r.attributes && r.attributes[attributeKey] == v
  }

  /** One copy step: a truthy header goes to an input key and an attribute key; otherwise nothing changes. */
  function CopyHeader(r: Request, header: string, inputKey: string, attributeKey: string): (out: Request)
    ensures out.headers == r.headers
    ensures HeaderTruthy(r, header) ==>
              out.input == r.input[inputKey := r.headers[header]] && out.attributes == r.attributes[attributeKey := r.headers[header]]
    ensures !HeaderTruthy(r, header) ==> out == r
  {
    if HeaderTruthy(r, header) then
      Request(r.headers, r.input[inputKey := r.headers[header]], r.attributes[attributeKey := r.headers[header]])
    else r
  }

  /** The context middleware's `handle`: the request it passes to the next handler. */
  function ContextMiddleware(r: Request): (out: Request)
    ensures out.headers == r.headers
    ensures HeaderTruthy(r, ContextHeader) ==> Carries(out, "current_context_id", "context_id", r.headers[ContextHeader])
    ensures !HeaderTruthy(r, ContextHeader) ==> out == r
  {
    CopyHeader(r, ContextHeader, "current_context_id", "context_id")
  }

  /** The project middleware's `handle`: the project header, then the context header. */
  function ProjectMiddleware(r: Request): (out: Request)
    ensures out.headers == r.headers
    ensures HeaderTruthy(r, ProjectHeader) ==> Carries(out, "current_project_id", "project_id", r.headers[ProjectHeader])
    ensures HeaderTruthy(r, ContextHeader) ==> Carries(out, "current_context_id", "context_id", r.headers[ContextHeader])
    ensures !HeaderTruthy(r, ProjectHeader) && !HeaderTruthy(r, ContextHeader) ==> out == r
  {
    ContextMiddleware(CopyHeader(r, ProjectHeader, "current_project_id", "project_id"))
  }

  /** The keys the project middleware may write. */
  const WrittenInput := {"current_project_id", "current_context_id"}
  const WrittenAttributes := {"project_id", "context_id"}

  /** Nothing but the four documented keys changes. */
  lemma ProjectMiddlewareFrame(r: Request)
    ensures var out := ProjectMiddleware(r);
            (forall k :: k !in WrittenInput ==> (k in out.input <==> k in r.input)) &&
            (forall k :: k !in WrittenInput && k in r.input ==> out.input[k] == r.input[k]) &&
            (forall k :: k !in WrittenAttributes ==> (k in out.attributes <==> k in r.attributes)) &&
            (forall k :: k !in WrittenAttributes && k in r.attributes ==> out.attributes[k] == r.attributes[k])
  {
  }

  /** Running a middleware twice forwards the same request as running it once. */
  lemma MiddlewaresIdempotent(r: Request)
    ensures ProjectMiddleware(ProjectMiddleware(r)) == ProjectMiddleware(r)
    ensures ContextMiddleware(ContextMiddleware(r)) == ContextMiddleware(r)
  {
    var once := ProjectMiddleware(r);
    var twice := ProjectMiddleware(once);
    assert twice.input == once.input;
    assert twice.attributes == once.attributes;
  }

  /**
   * On the context header the two middlewares agree: the project middleware
   * is the context middleware after the project copy, and on a request
   * without a truthy project header it is the context middleware.
   */
  lemma ContextPartAgrees(r: Request)
    ensures !HeaderTruthy(r, ProjectHeader) ==> ProjectMiddleware(r) == ContextMiddleware(r)
    ensures ProjectMiddleware(r).input.Keys - {"current_project_id"} == ContextMiddleware(r).input.Keys - {"current_project_id"}
  {
  }

  /** A header value "0" is falsy and leaves the request untouched. */
  lemma ZeroHeaderIgnored(r: Request)
    requires ContextHeader in r.headers && r.headers[ContextHeader] == "0"
    requires !HeaderTruthy(r, ProjectHeader)
    ensures ProjectMiddleware(r) == r && ContextMiddleware(r) == r
  {
  }
}
