/**
 * RequestHeaderMatchesMediaTypeAttribute
 * (src/OpenAPISwaggerDoc.Web/Attributes/RequestHeaderMatchesMediaTypeAttribute.cs): the action
 * constraint that selects an action when one request header names one of its media types.
 */
module RequestHeaderMatchesMediaType {
  import opened Wrappers
  import opened Exceptions
  import opened MediaTypes

  /** The value MediaTypeHeaderValue.TryParse gives, as "type/subtype", when it succeeds. */
  function ParsedEssence(s: Option<string>): Option<string> {
    match ParseMediaType(s)
    case None => None
    case Some(m) => Some(Essence(m))
  }

  /** The value f gives for every element, when it gives one for every element. */
  function ParseAll<T, U>(ts: seq<T>, f: T -> Option<U>): (r: Option<seq<U>>)
    ensures r.Some? <==> forall i :: 0 <= i < |ts| ==> f(ts[i]).Some?
    ensures r.Some? ==> |r.value| == |ts| && forall i :: 0 <= i < |ts| ==> r.value[i] == f(ts[i]).value
    decreases |ts|
  {
    if ts == [] then Some([])
    else match f(ts[0])
      case None => None
      case Some(e) =>
        match ParseAll(ts[1..], f)
        case None => None
        case Some(es) =>
          assert forall i :: 0 <= i < |ts| - 1 ==> ts[1..][i] == ts[i + 1];
          Some([e] + es)
  }

  /** Parsing one element more appends its value. */
  lemma {:induction false} ParseAllExtend<T, U>(ts: seq<T>, i: nat, f: T -> Option<U>)
    requires i < |ts| && ParseAll(ts[..i], f).Some? && f(ts[i]).Some?
    ensures ParseAll(ts[..i + 1], f) == Some(ParseAll(ts[..i], f).value + [f(ts[i]).value])
  {
    assert ts[..i + 1] == ts[..i] + [ts[i]];
    ParseAllAppend(ts[..i], ts[i], f);
  }

  lemma {:induction false} ParseAllAppend<T, U>(ts: seq<T>, x: T, f: T -> Option<U>)
    requires ParseAll(ts, f).Some? && f(x).Some?
    ensures ParseAll(ts + [x], f) == Some(ParseAll(ts, f).value + [f(x).value])
  {
    var t := ts + [x];
    var expected := ParseAll(ts, f).value + [f(x).value];
    assert forall i :: 0 <= i < |ts| ==> t[i] == ts[i];
    assert t[|ts|] == x;
    var r := ParseAll(t, f);
    assert r.Some?;
    forall i | 0 <= i < |t| ensures r.value[i] == expected[i] {
      if i < |ts| { assert t[i] == ts[i]; }
    }
    assert r.value == expected;
  }

  /**
   * What the constructor stores, or the exception it throws: the header name and the primary
   * type must be non-null, the primary type and every other type must parse, and the stored
   * list is the primary type followed by the others. `tryParse` is the parser the
   * constructor uses, MediaTypeHeaderValue.TryParse read as ParsedEssence.
   */
  function Configured(requestHeaderToMatch: Option<string>, mediaType: Option<string>,
                      otherMediaTypes: Option<seq<Option<string>>>,
                      tryParse: Option<string> -> Option<string>): (r: Result<seq<string>, Exception>)
    ensures requestHeaderToMatch.None? ==> r == Failure(ArgumentNull("requestHeaderToMatch"))
    ensures requestHeaderToMatch.Some? && mediaType.None? ==> r == Failure(ArgumentNull("mediaType"))
    ensures requestHeaderToMatch.Some? && mediaType.Some? && tryParse(mediaType).None? ==>
      r == Failure(Argument("Invalid mediaType", "mediaType"))
    ensures r.Success? <==>
      requestHeaderToMatch.Some? && mediaType.Some? && tryParse(mediaType).Some?
      && (otherMediaTypes.Some? ==> forall i :: 0 <= i < |otherMediaTypes.value| ==> tryParse(otherMediaTypes.value[i]).Some?)
    ensures r.Failure? && requestHeaderToMatch.Some? && mediaType.Some? && tryParse(mediaType).Some? ==>
      r == Failure(Argument("Invalid otherMediaTypes", "otherMediaTypes"))
    ensures r.Success? ==>
      |r.value| == 1 + (if otherMediaTypes.None? then 0 else |otherMediaTypes.value|)
      && r.value[0] == tryParse(mediaType).value
      && (otherMediaTypes.Some? ==>
            forall i :: 0 <= i < |otherMediaTypes.value| ==> r.value[i + 1] == tryParse(otherMediaTypes.value[i]).value)
  {
    if requestHeaderToMatch.None? then Failure(ArgumentNull("requestHeaderToMatch"))
    else if mediaType.None? then Failure(ArgumentNull("mediaType"))
    else match tryParse(mediaType)
      case None => Failure(Argument("Invalid mediaType", "mediaType"))
      case Some(e) =>
        if otherMediaTypes.None? then Success([e])
        else match ParseAll(otherMediaTypes.value, tryParse)
          case None => Failure(Argument("Invalid otherMediaTypes", "otherMediaTypes"))
          case Some(es) => Success([e] + es)
  }

  /** Every stored type is the "type/subtype" of a well-formed media type. */
  lemma {:induction false} ConfiguredAreEssences(requestHeaderToMatch: Option<string>, mediaType: Option<string>,
                              otherMediaTypes: Option<seq<Option<string>>>, i: nat)
    requires Configured(requestHeaderToMatch, mediaType, otherMediaTypes, ParsedEssence).Success?
    requires i < |Configured(requestHeaderToMatch, mediaType, otherMediaTypes, ParsedEssence).value|
    ensures exists m :: WellFormed(m) && Configured(requestHeaderToMatch, mediaType, otherMediaTypes, ParsedEssence).value[i] == Essence(m)
  {
    var stored := Configured(requestHeaderToMatch, mediaType, otherMediaTypes, ParsedEssence).value;
    var source := if i == 0 then mediaType else otherMediaTypes.value[i - 1];
    assert ParsedEssence(source).Some? && stored[i] == ParsedEssence(source).value;
    var m := ParseMediaType(source).value;
    assert WellFormed(m) && stored[i] == Essence(m);
  }

  /** Adding a well-formed media type in its canonical text stores its "type/subtype". */
  lemma {:induction false} ConfiguredCanonical(header: string, m: MediaTypeValue)
    requires WellFormed(m)
    ensures Configured(Some(header), Some(Render(m)), None, ParsedEssence) == Success([Essence(m)])
  {
    ParseRender(m);
  }

  class RequestHeaderMatchesMediaTypeAttribute {
    /** _mediaTypes: the MediaTypeCollection the constructor fills. */
    var mediaTypes: seq<string>
    /** _requestHeaderToMatch. */
    const requestHeaderToMatch: string
    /** IActionConstraint.Order. */
    const order: int := 0
    /** The public properties RequestHeaderToMatch, MediaType and OtherMediaTypes: never assigned. */
    const requestHeaderToMatchProperty: Option<string> := None
    const mediaTypeProperty: Option<string> := None
    const otherMediaTypesProperty: Option<seq<string>> := None

    constructor Empty(requestHeaderToMatch: string)
      ensures this.requestHeaderToMatch == requestHeaderToMatch && mediaTypes == []
    {
      this.requestHeaderToMatch := requestHeaderToMatch;
      mediaTypes := [];
    }

    /**
     * The attribute's constructor: the checks, in order, and the types appended one at a time;
     * a `null` params array stops after the primary type.
     */
    static method Create(requestHeaderToMatch: Option<string>, mediaType: Option<string>,
                         otherMediaTypes: Option<seq<Option<string>>>)
      returns (r: Result<RequestHeaderMatchesMediaTypeAttribute, Exception>)
      ensures r.Failure? ==> Configured(requestHeaderToMatch, mediaType, otherMediaTypes, ParsedEssence) == Failure(r.error)
      ensures r.Success? ==>
        Configured(requestHeaderToMatch, mediaType, otherMediaTypes, ParsedEssence) == Success(r.value.mediaTypes)
        && fresh(r.value) && Some(r.value.requestHeaderToMatch) == requestHeaderToMatch
    {
      if requestHeaderToMatch.None? {
        return Failure(ArgumentNull("requestHeaderToMatch"));
      }
      var a := new RequestHeaderMatchesMediaTypeAttribute.Empty(requestHeaderToMatch.value);
      if mediaType.None? {
        return Failure(ArgumentNull("mediaType"));
      }
      var parsed := ParsedEssence(mediaType);
      if parsed.None? {
        return Failure(Argument("Invalid mediaType", "mediaType"));
      }
      assert a.mediaTypes == [];
      a.mediaTypes := a.mediaTypes + [parsed.value];
      assert a.mediaTypes == [parsed.value];
      if otherMediaTypes.None? {
        assert Configured(requestHeaderToMatch, mediaType, otherMediaTypes, ParsedEssence) == Success([parsed.value]);
        return Success(a);
      }
      var ok := a.AddOtherMediaTypes(otherMediaTypes.value, ParsedEssence);
      if !ok {
        return Failure(Argument("Invalid otherMediaTypes", "otherMediaTypes"));
      }
      return Success(a);
    }

    /**
     * The constructor's foreach: each other type parsed by tryParse (the constructor passes
     * MediaTypeHeaderValue.TryParse) and appended, the first bad one stopping it.
     */
    method AddOtherMediaTypes(others: seq<Option<string>>, tryParse: Option<string> -> Option<string>) returns (ok: bool)
      modifies this
      ensures ok <==> ParseAll(others, tryParse).Some?
      ensures ok ==> mediaTypes == old(mediaTypes) + ParseAll(others, tryParse).value
    {
      ghost var initial := mediaTypes;
      var i := 0;
      assert others[..0] == [];
      while i < |others|
        invariant 0 <= i <= |others|
        invariant ParseAll(others[..i], tryParse).Some?
        invariant mediaTypes == initial + ParseAll(others[..i], tryParse).value
      {
        var parsedOther := tryParse(others[i]);
        if parsedOther.None? {
          assert ParseAll(others, tryParse).None?;
          return false;
        }
        ParseAllExtend(others, i, tryParse);
        mediaTypes := mediaTypes + [parsedOther.value];
        i := i + 1;
      }
      assert others[..i] == others;
      return true;
    }

    /**
     * Accept: a null context throws; a request without the header is not accepted; otherwise
     * the header's media type must equal one of the stored ones, tried in order.
     */
    method Accept(context: Option<map<string, string>>) returns (r: Result<bool, Exception>)
      ensures context.None? ==> r == Failure(ArgumentNull("context"))
      ensures context.Some? && requestHeaderToMatch !in context.value ==> r == Success(false)
      ensures context.Some? ==>
        r == Success(requestHeaderToMatch in context.value && context.value[requestHeaderToMatch] in mediaTypes)
    {
      if context.None? {
        return Failure(ArgumentNull("context"));
      }
      var requestHeaders := context.value;
      if requestHeaderToMatch !in requestHeaders {
        return Success(false);
      }
      var parsedRequestMediaType := requestHeaders[requestHeaderToMatch];
      var i := 0;
      while i < |mediaTypes|
        invariant 0 <= i <= |mediaTypes|
        invariant forall j :: 0 <= j < i ==> mediaTypes[j] != parsedRequestMediaType
      {
        if MediaTypeEquals(parsedRequestMediaType, mediaTypes[i]) {
          return Success(true);
        }
        i := i + 1;
      }
      return Success(false);
    }
  }

  /**
   * MediaType.Equals: MediaType is a struct with no Equals of its own, so two values are
   * equal when all their fields are, and among them is the text each was built from.
   */
  predicate MediaTypeEquals(a: string, b: string) {
    a == b
  }

  /** "type/subtype" holds no ';': a header value with parameters matches no stored type. */
  lemma {:induction false} HeaderWithParametersMatchesNothing(requestHeaderToMatch: Option<string>, mediaType: Option<string>,
                                           otherMediaTypes: Option<seq<Option<string>>>, v: string)
    requires Configured(requestHeaderToMatch, mediaType, otherMediaTypes, ParsedEssence).Success?
    requires ';' in v
    ensures v !in Configured(requestHeaderToMatch, mediaType, otherMediaTypes, ParsedEssence).value
  {
    var stored := Configured(requestHeaderToMatch, mediaType, otherMediaTypes, ParsedEssence).value;
    forall i | 0 <= i < |stored| ensures stored[i] != v {
      ConfiguredAreEssences(requestHeaderToMatch, mediaType, otherMediaTypes, i);
      var m :| WellFormed(m) && stored[i] == Essence(m);
      EssenceHasNoSemicolon(m);
    }
  }

  lemma {:induction false} EssenceHasNoSemicolon(m: MediaTypeValue)
    requires WellFormed(m)
    ensures ';' !in Essence(m)
  {
    var e := Essence(m);
    forall i | 0 <= i < |e| ensures e[i] != ';' {
      if i < |m.mediaType| {
        assert e[i] == m.mediaType[i];
      } else if i > |m.mediaType| {
        assert e[i] == m.subType[i - |m.mediaType| - 1];
      }
    }
  }
}
