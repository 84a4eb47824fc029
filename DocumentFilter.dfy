/**
 * AuthenticationDocumentFilter (OpenAPISwaggerDoc.Web/Authentication/AuthenticationDocumentFilter.cs):
 * the Swagger document filter that empties the API list for anonymous users.
 */
module DocumentFilter {
  import opened Wrappers
  import opened Exceptions

  datatype Operation = Operation(operationType: string, operationId: string)
  datatype PathItem = PathItem(summary: string, operations: seq<Operation>)
  datatype Schema = Schema(schemaType: string, properties: seq<string>)

  /** OpenApiComponents: the schemas the filter clears, and the parts it keeps. */
  class OpenApiComponents {
    var schemas: map<string, Schema>
    var securitySchemes: map<string, string>

    constructor(schemas: map<string, Schema>, securitySchemes: map<string, string>)
      ensures this.schemas == schemas && this.securitySchemes == securitySchemes
    {
      this.schemas := schemas;
      this.securitySchemes := securitySchemes;
    }
  }

  /** OpenApiDocument: paths and components, with the parts the filter never touches. */
  class OpenApiDocument {
    var info: string
    var servers: seq<string>
    var paths: map<string, PathItem>
    var components: OpenApiComponents?
    var tags: seq<string>

    constructor(info: string, servers: seq<string>, paths: map<string, PathItem>,
                components: OpenApiComponents?, tags: seq<string>)
      ensures this.info == info && this.servers == servers && this.paths == paths
      ensures this.components == components && this.tags == tags
    {
      this.info := info;
      this.servers := servers;
      this.paths := paths;
      this.components := components;
      this.tags := tags;
    }

    /** The document as a value: every part the filter may read or write. */
    function View(): DocumentView
      reads this, components
    {
      DocumentView(info, servers, paths,
        if components == null then None else Some(ComponentsView(components.schemas, components.securitySchemes)),
        tags)
    }
  }

  datatype ComponentsView = ComponentsView(schemas: map<string, Schema>, securitySchemes: map<string, string>)

  datatype DocumentView = DocumentView(
    info: string,
    servers: seq<string>,
    paths: map<string, PathItem>,
    components: Option<ComponentsView>,
    tags: seq<string>)

  /** The document an anonymous user sees: no paths and no schemas, all else as it was. */
  function Hidden(v: DocumentView): (h: DocumentView)
    ensures h.paths == map[]
    ensures h.components.Some? <==> v.components.Some?
    ensures h.components.Some? ==>
      (h.components.value.schemas == map[]
       && h.components.value.securitySchemes == v.components.value.securitySchemes)
    ensures h.info == v.info && h.servers == v.servers && h.tags == v.tags
  {
    v.(paths := map[],
       components := if v.components.None? then None else Some(v.components.value.(schemas := map[])))
  }

  /** Hiding twice is hiding once. */
  lemma {:induction false} HiddenIdempotent(v: DocumentView)
    ensures Hidden(Hidden(v)) == Hidden(v)
  {
  }

  /** A hidden document lists no path and no schema, whatever it held before. */
  lemma {:induction false} HiddenListsNothing(v: DocumentView, path: string, schema: string)
    ensures path !in Hidden(v).paths
    ensures Hidden(v).components.Some? ==> schema !in Hidden(v).components.value.schemas
  {
  }

  datatype Identity = Identity(isAuthenticated: bool)

  /** HttpContext.User: a principal whose Identity may be null. */
  datatype User = User(identity: Option<Identity>)

  datatype HttpContext = HttpContext(user: User)

  /** `HttpContext?.User.Identity?.IsAuthenticated == false`: a null anywhere gives false. */
  predicate IsAnonymous(httpContext: Option<HttpContext>) {
    httpContext.Some? && httpContext.value.user.identity.Some?
    && !httpContext.value.user.identity.value.isAuthenticated
  }

  class AuthenticationDocumentFilter {
    /** IHttpContextAccessor.HttpContext at the time the document is generated. */
    const httpContext: Option<HttpContext>

    constructor(httpContext: Option<HttpContext>)
      ensures this.httpContext == httpContext
    {
      this.httpContext := httpContext;
    }

    /**
     * Apply: a null document throws; an anonymous user gets the paths replaced and then the
     * schemas, so a document without components throws after its paths were emptied.
     */
    method Apply(doc: OpenApiDocument?) returns (r: Outcome<Exception>)
      modifies doc
      modifies if doc != null && doc.components != null then {doc.components} else {}
      ensures doc == null ==> r == Fail(ArgumentNull("swaggerDoc"))
      ensures doc != null ==> doc.components == old(doc.components)
      ensures doc != null && !IsAnonymous(httpContext) ==> r == Pass && doc.View() == old(doc.View())
      ensures doc != null && IsAnonymous(httpContext) && old(doc.components) != null ==>
        r == Pass && doc.View() == Hidden(old(doc.View()))
      ensures doc != null && IsAnonymous(httpContext) && old(doc.components) == null ==>
        r == Fail(NullReference) && doc.View() == Hidden(old(doc.View()))
    {
      if doc == null {
        return Fail(ArgumentNull("swaggerDoc"));
      }
      if IsAnonymous(httpContext) {
        doc.paths := map[];
        if doc.components == null {
          return Fail(NullReference);
        }
        doc.components.schemas := map[];
      }
      return Pass;
    }
  }
}
