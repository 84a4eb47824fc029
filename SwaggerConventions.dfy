/**
 * SwaggerExtensions (src/OpenAPISwaggerDoc.Web/AppConventions/SwaggerExtensions.cs): the MVC
 * options the API is set up with, and the factory that answers an invalid model state.
 */
module SwaggerConventions {
  import opened Wrappers
  import opened Exceptions
  import Linq

  /** The global filters AddSwaggerMvcOptions registers, and any registered before. */
  datatype Filter =
    | ProducesResponseType(statusCode: int)
    | ProducesDefaultResponseType
    | OtherFilter(name: string)

  datatype FormatterKind = NewtonsoftJson | XmlSerializer | SystemTextJson | OtherFormatter(name: string)

  /** An output formatter; its SupportedMediaTypes collection is edited in place. */
  class OutputFormatter {
    const kind: FormatterKind
    var supportedMediaTypes: seq<string>

    constructor(kind: FormatterKind, supportedMediaTypes: seq<string>)
      ensures this.kind == kind && this.supportedMediaTypes == supportedMediaTypes
    {
      this.kind := kind;
      this.supportedMediaTypes := supportedMediaTypes;
    }
  }

  function FormatterSet(fs: seq<OutputFormatter>): set<OutputFormatter> {
    set i | 0 <= i < |fs| :: fs[i]
  }

  /** The media types a new XmlSerializerOutputFormatter supports. */
  const XmlMediaTypes := ["application/xml", "text/xml", "application/*+xml"]

  /** The five filters, in the order they are added. */
  const SwaggerFilters := [
    ProducesResponseType(400), ProducesResponseType(406), ProducesResponseType(500),
    ProducesDefaultResponseType, ProducesResponseType(401)]

  class MvcOptions {
    var outputFormatters: seq<OutputFormatter>
    var filters: seq<Filter>
    var returnHttpNotAcceptable: bool

    constructor(outputFormatters: seq<OutputFormatter>, filters: seq<Filter>)
      ensures this.outputFormatters == outputFormatters && this.filters == filters
      ensures !returnHttpNotAcceptable
    {
      this.outputFormatters := outputFormatters;
      this.filters := filters;
      returnHttpNotAcceptable := false;
    }

    /** The formatters, for frames. */
    function Formatters(): set<OutputFormatter>
      reads this
    {
      FormatterSet(outputFormatters)
    }
  }

  // ----- MediaTypeCollection.Remove -----

  /** Collection<string>.Remove: the first occurrence of x goes, nothing else changes. */
  function RemoveFirst(s: seq<string>, x: string): (r: seq<string>)
    ensures x !in s ==> r == s
    ensures x in s ==> |r| == |s| - 1
    ensures multiset(r) == multiset(s) - multiset{x}
    decreases |s|
  {
    if s == [] then []
    else
      assert s == [s[0]] + s[1..];
      if s[0] == x then s[1..] else [s[0]] + RemoveFirst(s[1..], x)
  }

  /** The other types keep their order: the result is s without the first x. */
  lemma {:induction false} RemoveFirstSplices(s: seq<string>, x: string, i: nat)
    requires i < |s| && s[i] == x && x !in s[..i]
    ensures RemoveFirst(s, x) == s[..i] + s[i + 1..]
    decreases i
  {
    if i == 0 {
      assert s[..0] + s[1..] == s[1..];
    } else {
      assert s[0] != x by {
        assert s[..i][0] == s[0];
      }
      assert x !in s[1..][..i - 1] by {
        assert s[1..][..i - 1] == s[..i][1..];
      }
      RemoveFirstSplices(s[1..], x, i - 1);
      SpliceAfterFirst(s, i);
    }
  }

  /** Cutting out position i > 0 keeps the first element in front. */
  lemma {:induction false} SpliceAfterFirst(s: seq<string>, i: nat)
    requires 0 < i < |s|
    ensures s[..i] + s[i + 1..] == [s[0]] + (s[1..][..i - 1] + s[1..][i..])
  {
    assert s[..i] == [s[0]] + s[1..][..i - 1];
    assert s[i + 1..] == s[1..][i..];
  }

  /** A type listed once is gone afterwards. */
  lemma {:induction false} RemoveFirstOnlyCopy(s: seq<string>, x: string)
    requires multiset(s)[x] <= 1
    ensures x !in RemoveFirst(s, x)
  {
    assert multiset(RemoveFirst(s, x))[x] == 0;
  }

  /** The first NewtonsoftJsonOutputFormatter, if any (OfType<...>().FirstOrDefault()). */
  function FirstJsonFormatter(fs: seq<OutputFormatter>): (r: Option<nat>)
    ensures r.Some? ==>
      (r.value < |fs| && fs[r.value].kind == NewtonsoftJson
       && forall j :: 0 <= j < r.value ==> fs[j].kind != NewtonsoftJson)
    ensures r.None? ==> forall j :: 0 <= j < |fs| ==> fs[j].kind != NewtonsoftJson
  {
    Linq.FirstIndexWhere(fs, (f: OutputFormatter) => f.kind == NewtonsoftJson)
  }

  /**
   * AddSwaggerMvcOptions: a null options object throws; otherwise one XML formatter and the
   * five filters are appended, 406 answers are switched on, and "text/json" is removed from
   * the first Newtonsoft JSON formatter. No other formatter and no other type changes.
   */
  method AddSwaggerMvcOptions(options: MvcOptions?) returns (r: Outcome<Exception>)
    modifies options
    modifies if options != null then options.Formatters() else {}
    ensures options == null ==> r == Fail(ArgumentNull("setupAction"))
    ensures options != null ==>
      (r == Pass
       && options.filters == old(options.filters) + SwaggerFilters
       && options.returnHttpNotAcceptable
       && |options.outputFormatters| == |old(options.outputFormatters)| + 1
       && options.outputFormatters[..|old(options.outputFormatters)|] == old(options.outputFormatters)
       && fresh(options.outputFormatters[|old(options.outputFormatters)|])
       && options.outputFormatters[|old(options.outputFormatters)|].kind == XmlSerializer
       && options.outputFormatters[|old(options.outputFormatters)|].supportedMediaTypes == XmlMediaTypes)
    ensures options != null ==>
      match FirstJsonFormatter(old(options.outputFormatters))
      case None =>
        forall f :: f in old(options.Formatters()) ==> f.supportedMediaTypes == old(f.supportedMediaTypes)
      case Some(k) =>
        var json := old(options.outputFormatters[k]);
        json.supportedMediaTypes == RemoveFirst(old(json.supportedMediaTypes), "text/json")
        && forall f :: f in old(options.Formatters()) && f != json ==>
             f.supportedMediaTypes == old(f.supportedMediaTypes)
  {
    if options == null {
      return Fail(ArgumentNull("setupAction"));
    }
    ghost var before := options.outputFormatters;
    var xml := new OutputFormatter(XmlSerializer, XmlMediaTypes);
    options.outputFormatters := options.outputFormatters + [xml];

    // the five Filters.Add calls, in their order
    options.filters := options.filters + SwaggerFilters;
    options.returnHttpNotAcceptable := true;

    FirstJsonAfterAppend(before, xml);
    FormatterSetAppend(before, xml);
    assert forall j :: 0 <= j < |before| ==> options.outputFormatters[j] == before[j];
    RemoveTextJson(options.outputFormatters);
    return Pass;
  }

  /** Appending a formatter of another kind leaves the first JSON formatter where it was. */
  lemma {:induction false} FirstJsonAfterAppend(fs: seq<OutputFormatter>, f: OutputFormatter)
    requires f.kind != NewtonsoftJson
    ensures FirstJsonFormatter(fs + [f]) == FirstJsonFormatter(fs)
  {
    var k, k0 := FirstJsonFormatter(fs + [f]), FirstJsonFormatter(fs);
    assert (fs + [f])[..|fs|] == fs;
    assert forall j :: 0 <= j < |fs| ==> (fs + [f])[j] == fs[j];
    if k.Some? && k0.Some? {
      assert !(k.value < k0.value) && !(k0.value < k.value);
    }
  }

  lemma {:induction false} FormatterSetAppend(fs: seq<OutputFormatter>, f: OutputFormatter)
    ensures FormatterSet(fs + [f]) == FormatterSet(fs) + {f}
  {
    var g := fs + [f];
    assert forall j :: 0 <= j < |fs| ==> g[j] == fs[j];
    assert g[|fs|] == f;
  }

  /**
   * `jsonOutputFormatter?.SupportedMediaTypes.Remove("text/json")`: the first Newtonsoft JSON
   * formatter loses its first "text/json" entry, and no other formatter changes.
   */
  method RemoveTextJson(fs: seq<OutputFormatter>)
    modifies FormatterSet(fs)
    ensures match FirstJsonFormatter(fs)
      case None =>
        forall f :: f in FormatterSet(fs) ==> f.supportedMediaTypes == old(f.supportedMediaTypes)
      case Some(k) =>
        fs[k].supportedMediaTypes == RemoveFirst(old(fs[k].supportedMediaTypes), "text/json")
        && forall f :: f in FormatterSet(fs) && f != fs[k] ==> f.supportedMediaTypes == old(f.supportedMediaTypes)
  {
    var k := FirstJsonFormatter(fs);
    if k.Some? {
      var json := fs[k.value];
      if "text/json" in json.supportedMediaTypes {
        json.supportedMediaTypes := RemoveFirst(json.supportedMediaTypes, "text/json");
      }
    }
  }

  // ----- InvalidModelStateResponseFactory -----

  /**
   * What the factory sees of the ActionContext: the model-state error count, the declared
   * parameter count, and the bound-argument count when it is an ActionExecutingContext.
   */
  datatype ActionContext = ActionContext(
    modelStateErrorCount: nat,
    declaredParameterCount: nat,
    actionArgumentCount: Option<nat>)

  datatype ModelStateResult = UnprocessableEntityObject(errorCount: nat) | BadRequestObject(errorCount: nat)

  function ResultStatusCode(r: ModelStateResult): int {
    match r
    case UnprocessableEntityObject(_) => 422
    case BadRequestObject(_) => 400
  }

  /**
   * The factory: the lifted comparison `context?.ActionArguments.Count == Parameters.Count`
   * is false for a context that is not an ActionExecutingContext.
   */
  function InvalidModelStateResponse(c: ActionContext): (r: ModelStateResult)
    ensures r.errorCount == c.modelStateErrorCount
    ensures ResultStatusCode(r) == 422 <==>
      c.modelStateErrorCount > 0 && c.actionArgumentCount == Some(c.declaredParameterCount)
    ensures ResultStatusCode(r) == 422 || ResultStatusCode(r) == 400
  {
    if c.modelStateErrorCount > 0 && c.actionArgumentCount.Some?
       && c.actionArgumentCount.value == c.declaredParameterCount
    then UnprocessableEntityObject(c.modelStateErrorCount)
    else BadRequestObject(c.modelStateErrorCount)
  }

  /** Any context that is not an ActionExecutingContext, or has no errors, gets 400. */
  lemma {:induction false} BadRequestCases(c: ActionContext)
    requires c.actionArgumentCount.None? || c.modelStateErrorCount == 0
      || c.actionArgumentCount.value != c.declaredParameterCount
    ensures ResultStatusCode(InvalidModelStateResponse(c)) == 400
  {
  }
}
