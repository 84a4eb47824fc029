/**
 * MediaTypeHeaderValue.TryParse over the media-type grammar of section 3.1.1.1 of RFC 7231:
 * `type "/" subtype *( OWS ";" OWS parameter )` with `parameter = token "=" token`, and the
 * MediaType property it yields, "type/subtype".
 */
module MediaTypes {
  import opened Wrappers
  import opened HttpText

  datatype MediaTypeValue = MediaTypeValue(mediaType: string, subType: string, parameters: seq<(string, string)>)

  /** The "type/subtype" part, as MediaTypeHeaderValue.MediaType gives it. */
  function Essence(m: MediaTypeValue): string {
    m.mediaType + "/" + m.subType
  }

  predicate WellFormed(m: MediaTypeValue) {
    IsToken(m.mediaType) && IsToken(m.subType) && AllTokenPairs(m.parameters)
  }

  /** The text after the leading white space. */
  function SkipWhiteSpace(s: string): (r: string)
    ensures r == [] || !IsHeaderWhiteSpace(r[0])
    ensures |r| <= |s|
  {
    s[LeadingWhiteSpace(s)..]
  }

  /** The leading run of token characters, when there is one, is a token. */
  lemma {:induction false} TokenPrefix(s: string)
    ensures TokenLength(s) > 0 ==> IsToken(s[..TokenLength(s)])
  {
    var n := TokenLength(s);
    assert forall i :: 0 <= i < n ==> s[..n][i] == s[i];
  }

  predicate AllTokenPairs(ps: seq<(string, string)>) {
    forall i :: 0 <= i < |ps| ==> IsToken(ps[i].0) && IsToken(ps[i].1)
  }

  lemma {:induction false} TokenPairs(p: (string, string), rest: seq<(string, string)>)
    requires IsToken(p.0) && IsToken(p.1) && AllTokenPairs(rest)
    ensures AllTokenPairs([p] + rest)
  {
    var r := [p] + rest;
    forall i | 0 <= i < |r| ensures IsToken(r[i].0) && IsToken(r[i].1) {
      if i > 0 { assert r[i] == rest[i - 1]; }
    }
  }

  /** `*( OWS ";" OWS token "=" token ) OWS` up to the end of the text. */
  function ParseParameters(s: string): (r: Option<seq<(string, string)>>)
    ensures r.Some? ==> AllTokenPairs(r.value)
    decreases |s|, 1
  {
    var t := SkipWhiteSpace(s);
    if t == [] then Some([])
    else if t[0] != ';' then None
    else ParseParameter(SkipWhiteSpace(t[1..]))
  }

  /** `token "=" token` after a ";", then the parameters that follow it. */
  function ParseParameter(u: string): (r: Option<seq<(string, string)>>)
    ensures r.Some? ==> AllTokenPairs(r.value)
    decreases |u|, 0
  {
    var n := TokenLength(u);
    if n == 0 || n == |u| || u[n] != '=' then None
    else
      var w := u[n + 1..];
      var m := TokenLength(w);
      if m == 0 then None
      else match ParseParameters(w[m..])
        case None => None
        case Some(rest) =>
          TokenPrefix(u);
          TokenPrefix(w);
          TokenPairs((u[..n], w[..m]), rest);
          Some([(u[..n], w[..m])] + rest)
  }

  /** MediaTypeHeaderValue.TryParse: None where it returns false (a null input included). */
  function ParseMediaType(s: Option<string>): (r: Option<MediaTypeValue>)
    ensures r.Some? ==> WellFormed(r.value)
  {
    if s.None? then None else ParseTypeAndSubtype(SkipWhiteSpace(s.value))
  }

  /** `token "/"` and then the subtype and parameters. */
  function ParseTypeAndSubtype(t: string): (r: Option<MediaTypeValue>)
    ensures r.Some? ==> WellFormed(r.value)
  {
    var n := TokenLength(t);
    if n == 0 || n == |t| || t[n] != '/' then None
    else match ParseSubtype(t[n + 1..])
      case None => None
      case Some((subType, ps)) =>
        TokenPrefix(t);
        Some(MediaTypeValue(t[..n], subType, ps))
  }

  /** The subtype token and the parameters after it. */
  function ParseSubtype(u: string): (r: Option<(string, seq<(string, string)>)>)
    ensures r.Some? ==> IsToken(r.value.0) && AllTokenPairs(r.value.1)
  {
    var m := TokenLength(u);
    if m == 0 then None
    else match ParseParameters(u[m..])
      case None => None
      case Some(ps) =>
        TokenPrefix(u);
        Some((u[..m], ps))
  }

  /** The canonical text of a media type: "type/subtype" and "; name=value" per parameter. */
  function Render(m: MediaTypeValue): string {
    Essence(m) + RenderParameters(m.parameters)
  }

  function RenderParameters(ps: seq<(string, string)>): string
    decreases |ps|
  {
    if ps == [] then "" else "; " + (ps[0].0 + ("=" + (ps[0].1 + RenderParameters(ps[1..]))))
  }

  lemma {:induction false} SkipNothing(s: string)
    requires s == [] || !IsHeaderWhiteSpace(s[0])
    ensures SkipWhiteSpace(s) == s
  {
  }

  /** A ";" and one space lead to the parameter they announce. */
  lemma {:induction false} ParseAfterSemicolon(u: string)
    requires u != [] && !IsHeaderWhiteSpace(u[0])
    ensures ParseParameters("; " + u) == ParseParameter(u)
  {
    var s := "; " + u;
    assert SkipWhiteSpace(s) == s by {
      assert s[0] == ';';
    }
    assert SkipWhiteSpace(s[1..]) == u by {
      assert s[1..] == " " + u;
      assert (" " + u)[1..] == u;
      assert LeadingWhiteSpace(" " + u) == 1;
    }
  }

  /** One parameter is read off ahead of the rest. */
  lemma {:induction false} ParseNameValue(name: string, value: string, rest: string)
    requires IsToken(name) && IsToken(value)
    requires rest == [] || rest[0] == ';'
    ensures ParseParameter(name + ("=" + (value + rest))) == match ParseParameters(rest)
      case None => None
      case Some(r) => Some([(name, value)] + r)
  {
    var w := value + rest;
    var u := name + ("=" + w);
    assert TokenLength(u) == |name| by {
      TokenLengthOfToken(name, "=" + w);
    }
    assert u[|name|] == '=' && u[..|name|] == name && u[|name| + 1..] == w;
    assert TokenLength(w) == |value| by {
      TokenLengthOfToken(value, rest);
    }
    assert w[..|value|] == value && w[|value|..] == rest;
  }

  /** One rendered parameter is read off ahead of the rest. */
  lemma {:induction false} ParseOneParameter(name: string, value: string, rest: string)
    requires IsToken(name) && IsToken(value)
    requires rest == [] || rest[0] == ';'
    ensures ParseParameters("; " + (name + ("=" + (value + rest)))) == match ParseParameters(rest)
      case None => None
      case Some(r) => Some([(name, value)] + r)
  {
    var u := name + ("=" + (value + rest));
    assert u[0] == name[0];
    ParseAfterSemicolon(u);
    ParseNameValue(name, value, rest);
  }

  lemma {:induction false} ParseRenderedParameters(ps: seq<(string, string)>)
    requires AllTokenPairs(ps)
    ensures ParseParameters(RenderParameters(ps)) == Some(ps)
    decreases |ps|
  {
    if ps == [] {
      assert SkipWhiteSpace("") == "";
    } else {
      assert [(ps[0].0, ps[0].1)] + ps[1..] == ps;
      var rest := RenderParameters(ps[1..]);
      assert AllTokenPairs(ps[1..]) by {
        forall i | 0 <= i < |ps| - 1 ensures IsToken(ps[1..][i].0) && IsToken(ps[1..][i].1) {
          assert ps[1..][i] == ps[i + 1];
        }
      }
      ParseRenderedParameters(ps[1..]);
      assert rest == [] || rest[0] == ';';
      ParseOneParameter(ps[0].0, ps[0].1, rest);
    }
  }

  /** The subtype is read off ahead of the parameter text that follows it. */
  lemma {:induction false} ParseSubtypeOf(subType: string, ps: string)
    requires IsToken(subType)
    requires ps == [] || ps[0] == ';'
    ensures ParseSubtype(subType + ps) == match ParseParameters(ps)
      case None => None
      case Some(p) => Some((subType, p))
  {
    var u := subType + ps;
    assert u[..|subType|] == subType && u[|subType|..] == ps;
    TokenLengthOfToken(subType, ps);
  }

  /** The type is read off ahead of the "/" and the text that follows it. */
  lemma {:induction false} ParseTypeOf(mediaType: string, u: string)
    requires IsToken(mediaType)
    ensures ParseTypeAndSubtype(mediaType + ("/" + u)) == match ParseSubtype(u)
      case None => None
      case Some(sp) => Some(MediaTypeValue(mediaType, sp.0, sp.1))
  {
    var t := mediaType + ("/" + u);
    var n := |mediaType|;
    assert t[n] == '/' && t[..n] == mediaType && t[n + 1..] == u;
    TokenLengthOfToken(mediaType, "/" + u);
  }

  /** "type/subtype" is read off ahead of the parameter text that follows it. */
  lemma {:induction false} ParseTypeAndRest(mediaType: string, subType: string, ps: string)
    requires IsToken(mediaType) && IsToken(subType)
    requires ps == [] || ps[0] == ';'
    ensures ParseMediaType(Some(mediaType + ("/" + (subType + ps)))) == match ParseParameters(ps)
      case None => None
      case Some(p) => Some(MediaTypeValue(mediaType, subType, p))
  {
    var u := subType + ps;
    var s := mediaType + ("/" + u);
    assert s[0] == mediaType[0];
    ParseUnpadded(s);
    ParseTypeOf(mediaType, u);
    ParseSubtypeOf(subType, ps);
    match ParseParameters(ps)
    case None =>
    case Some(p) =>
  }

  /** Text that starts with no white space is parsed as it stands. */
  lemma {:induction false} ParseUnpadded(s: string)
    requires s == [] || !IsHeaderWhiteSpace(s[0])
    ensures ParseMediaType(Some(s)) == ParseTypeAndSubtype(s)
  {
    SkipNothing(s);
  }

  /** Parsing the canonical text of a well-formed media type gives it back. */
  lemma {:induction false} ParseRender(m: MediaTypeValue)
    requires WellFormed(m)
    ensures ParseMediaType(Some(Render(m))) == Some(m)
  {
    var ps := RenderParameters(m.parameters);
    assert Render(m) == m.mediaType + ("/" + (m.subType + ps));
    assert ps == [] || ps[0] == ';';
    ParseTypeAndRest(m.mediaType, m.subType, ps);
    ParseRenderedParameters(m.parameters);
  }
}
