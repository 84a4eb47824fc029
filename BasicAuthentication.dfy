/**
 * BasicAuthenticationHandler (src/OpenAPISwaggerDoc.Web/Authentication/BasicAuthenticationHandler.cs):
 * the credential check of HandleAuthenticateAsync, the fail reason it keeps, and the
 * challenge that echoes that reason in a WWW-Authenticate header and a problem-details body.
 */
module BasicAuthentication {
  import opened Wrappers
  import opened Exceptions
  import Entities
  import Base64
  import opened HttpText

  const AuthorizationHeader := "Authorization"
  const WwwAuthenticateHeader := "WWW-Authenticate"
  const ValidUserName := "DNT"
  const ValidPassword := "123"

  const MissingHeaderReason := "Missing Authorization header"
  const InvalidCredentialsReason := "Invalid username or password"
  const InvalidHeaderPrefix := "Invalid Authorization header: "

  const Base64FormatMessage := "The input is not a valid Base-64 string as it contains a non-base 64 character, more than two padding characters, or an illegal character among the padding characters."

  /** The authentication ticket: the NameIdentifier claim, the identity's type and the scheme. */
  datatype Ticket = Ticket(nameIdentifier: string, authenticationType: string, scheme: string)

  datatype AuthenticateResult = Succeeded(ticket: Ticket) | Failed(failure: string)

  /** string.IsNullOrWhiteSpace. */
  predicate IsNullOrWhiteSpace(s: Option<string>) {
    s.None? || forall i :: 0 <= i < |s.value| ==> Entities.IsWhiteSpace(s.value[i])
  }

  /**
   * The decoded credential text of a header value: the header parsed, its parameter read as
   * base64 (a missing parameter makes FromBase64String throw ArgumentNullException) and the
   * bytes read as UTF-8.
   */
  function CredentialText(headerValue: string): Result<string, Exception> {
    match ParseAuthenticationHeader(headerValue)
    case Failure(e) => Failure(e)
    case Success(h) =>
      if h.parameter.None? then Failure(ArgumentNull("s"))
      else match Base64.Decode(h.parameter.value)
        case None => Failure(Format(Base64FormatMessage))
        case Some(bytes) => Success(Utf8Decode(bytes))
  }

  /** The texts the check lets in: "DNT:123", or "DNT:123:" followed by anything. */
  predicate IsAcceptedText(t: string) {
    t == ValidUserName + ":" + ValidPassword || ValidUserName + ":" + ValidPassword + ":" <= t
  }

  /** HandleAuthenticateAsync: the result for one request's headers. */
  function Authenticate(headers: map<string, string>, schemeName: string): (r: AuthenticateResult)
    ensures AuthorizationHeader !in headers ==> r == Failed(MissingHeaderReason)
    ensures r.Succeeded? <==>
      AuthorizationHeader in headers && CredentialText(headers[AuthorizationHeader]).Success?
      && IsAcceptedText(CredentialText(headers[AuthorizationHeader]).value)
    ensures r.Succeeded? ==> r.ticket == Ticket(ValidUserName, schemeName, schemeName)
    ensures AuthorizationHeader in headers && CredentialText(headers[AuthorizationHeader]).Failure? ==>
      r == Failed(InvalidHeaderPrefix + Message(CredentialText(headers[AuthorizationHeader]).error))
    ensures (AuthorizationHeader in headers && CredentialText(headers[AuthorizationHeader]).Success?
      && ':' !in CredentialText(headers[AuthorizationHeader]).value) ==>
      r == Failed(InvalidHeaderPrefix + Message(IndexOutOfRange))
    ensures (AuthorizationHeader in headers && CredentialText(headers[AuthorizationHeader]).Success?
      && ':' in CredentialText(headers[AuthorizationHeader]).value
      && !IsAcceptedText(CredentialText(headers[AuthorizationHeader]).value)) ==>
      r == Failed(InvalidCredentialsReason)
    ensures r.Failed? ==>
      (r.failure in {MissingHeaderReason, InvalidCredentialsReason} || InvalidHeaderPrefix <= r.failure)
  {
    if AuthorizationHeader !in headers then Failed(MissingHeaderReason)
    else match CredentialText(headers[AuthorizationHeader])
      case Failure(e) => Failed(InvalidHeaderPrefix + Message(e))
      case Success(t) =>
        var credentials := Split(t, ':');
        AcceptedTexts(t);
        OnePartWithoutSeparator(t, ':');
        SeparatorGivesTwoParts(t, ':');
        if |credentials| < 2 then Failed(InvalidHeaderPrefix + Message(IndexOutOfRange))
        else if credentials[0] == ValidUserName && credentials[1] == ValidPassword then
          Succeeded(Ticket(credentials[0], schemeName, schemeName))
        else Failed(InvalidCredentialsReason)
  }

  lemma {:induction false} OnePartWithoutSeparator(t: string, sep: char)
    ensures sep !in t ==> Split(t, sep) == [t]
  {
    if sep !in t {
      SplitWithoutSeparator(t, sep);
    }
  }

  /** A text holding the separator splits into at least two parts. */
  lemma {:induction false} SeparatorGivesTwoParts(t: string, sep: char)
    ensures sep in t ==> |Split(t, sep)| >= 2
  {
    if sep in t && |Split(t, sep)| == 1 {
      JoinSplit(t, sep);
      assert false;
    }
  }

  /** The first two parts of a split are "DNT" and "123" exactly for the accepted texts. */
  lemma {:induction false} AcceptedTexts(t: string)
    ensures (var p := Split(t, ':'); |p| >= 2 && p[0] == ValidUserName && p[1] == ValidPassword)
      <==> IsAcceptedText(t)
  {
    var p := Split(t, ':');
    if |p| >= 2 && p[0] == ValidUserName && p[1] == ValidPassword {
      JoinSplit(t, ':');
      if |p| == 2 {
        assert Join(p, ':') == p[0] + [':'] + p[1];
      } else {
        assert p[1..][1..] == p[2..];
        assert Join(p, ':') == p[0] + [':'] + (p[1] + [':'] + Join(p[2..], ':'));
      }
    }
    if t == ValidUserName + ":" + ValidPassword {
      SplitWithoutSeparator(ValidPassword, ':');
      SplitAtSeparator(ValidUserName, ValidPassword, ':');
    } else if ValidUserName + ":" + ValidPassword + ":" <= t {
      var rest := t[8..];
      assert t == ValidUserName + [':'] + (ValidPassword + [':'] + rest);
      SplitAtSeparator(ValidPassword, rest, ':');
      SplitAtSeparator(ValidUserName, ValidPassword + [':'] + rest, ':');
    }
  }

  /** Every reason a failed authentication stores is non-blank, so the challenge echoes it. */
  lemma {:induction false} FailReasonsNonBlank(headers: map<string, string>, schemeName: string)
    ensures Authenticate(headers, schemeName).Failed? ==>
      !IsNullOrWhiteSpace(Some(Authenticate(headers, schemeName).failure))
  {
    var r := Authenticate(headers, schemeName);
    if r.Failed? {
      assert r.failure[0] == 'M' || r.failure[0] == 'I';
    }
  }

  /**
   * A header "<scheme> <base64 of t>" for any scheme token: the scheme is never compared
   * to "Basic", and the check accepts t exactly when it is an accepted text.
   */
  lemma {:induction false} AuthenticateEncodedCredentials(scheme: string, t: string, schemeName: string)
    requires IsToken(scheme)
    requires IsAscii(t) && |t| > 0
    ensures var headers := map[AuthorizationHeader := BasicHeader(scheme, t)];
      Authenticate(headers, schemeName).Succeeded? <==> IsAcceptedText(t)
  {
    EncodedCredentialText(scheme, t);
  }

  /** The response a challenge writes to. */
  datatype ProblemDetails = ProblemDetails(detail: string, status: int)

  class HttpResponse {
    var statusCode: int
    var headers: map<string, string>
    var contentType: Option<string>
    var body: Option<ProblemDetails>

    constructor(headers: map<string, string>)
      ensures statusCode == 200 && this.headers == headers
      ensures contentType == None && body == None
    {
      statusCode := 200;
      this.headers := headers;
      contentType := None;
      body := None;
    }
  }

  /** AuthenticationHandler<AuthenticationSchemeOptions> with the _failReason field. */
  class BasicAuthenticationHandler {
    var failReason: Option<string>
    const schemeName: string

    constructor(schemeName: string)
      ensures failReason == None && this.schemeName == schemeName
    {
      failReason := None;
      this.schemeName := schemeName;
    }

    /** HandleAuthenticateAsync: a failure stores its reason, a success leaves the field alone. */
    method HandleAuthenticate(headers: map<string, string>) returns (r: AuthenticateResult)
      modifies this
      ensures r == Authenticate(headers, schemeName)
      ensures failReason == if r.Failed? then Some(r.failure) else old(failReason)
    {
      if AuthorizationHeader !in headers {
        failReason := Some(MissingHeaderReason);
        return Failed(failReason.value);
      }
      var text := CredentialText(headers[AuthorizationHeader]);
      if text.Failure? {
        failReason := Some(InvalidHeaderPrefix + Message(text.error));
        return Failed(failReason.value);
      }
      var credentials := Split(text.value, ':');
      if |credentials| < 2 {
        failReason := Some(InvalidHeaderPrefix + Message(IndexOutOfRange));
        return Failed(failReason.value);
      }
      var userName, password := credentials[0], credentials[1];
      if userName == ValidUserName && password == ValidPassword {
        return Succeeded(Ticket(userName, schemeName, schemeName));
      }
      failReason := Some(InvalidCredentialsReason);
      r := Failed(failReason.value);
    }

    /**
     * HandleChallengeAsync: the base sets 401; then a non-blank reason is added as the
     * WWW-Authenticate header (an existing header makes Add throw) and written as the body.
     */
    method HandleChallenge(response: HttpResponse) returns (r: Outcome<Exception>)
      modifies response
      ensures response.statusCode == 401
      ensures IsNullOrWhiteSpace(failReason) ==>
        (r == Pass && response.headers == old(response.headers)
         && response.contentType == old(response.contentType) && response.body == old(response.body))
      ensures (!IsNullOrWhiteSpace(failReason) && WwwAuthenticateHeader in old(response.headers)) ==>
        (r == Outcome.Fail(Argument("An item with the same key has already been added.", ""))
         && response.headers == old(response.headers)
         && response.contentType == old(response.contentType) && response.body == old(response.body))
      ensures (!IsNullOrWhiteSpace(failReason) && WwwAuthenticateHeader !in old(response.headers)) ==>
        (r == Pass
         && response.headers == old(response.headers)[WwwAuthenticateHeader := failReason.value]
         && response.contentType == Some("application/json")
         && response.body == Some(ProblemDetails(failReason.value, 401)))
    {
      response.statusCode := 401;
      if response.statusCode == 401 && !IsNullOrWhiteSpace(failReason) {
        if WwwAuthenticateHeader in response.headers {
          return Outcome.Fail(Argument("An item with the same key has already been added.", ""));
        }
        response.headers := response.headers[WwwAuthenticateHeader := failReason.value];
        response.contentType := Some("application/json");
        response.body := Some(ProblemDetails(failReason.value, response.statusCode));
      }
      return Pass;
    }
  }

  // ----- user-id and password as section 2 of RFC 7617 divides them -----

  const ValidCredentials := ValidUserName + ":" + ValidPassword

  /** The user-id ends at the first colon; the password is everything after it. */
  function Rfc7617Credentials(t: string): (r: Option<(string, string)>)
    ensures r.Some? ==> ':' !in r.value.0 && t == r.value.0 + ":" + r.value.1
    ensures r.None? <==> ':' !in t
  {
    match IndexOf(t, ':')
    case None => None
    case Some(k) => assert t == t[..k] + ":" + t[k + 1..]; Some((t[..k], t[k + 1..]))
  }

  lemma {:induction false} IndexOfFirst(a: string, b: string, sep: char)
    requires sep !in a
    ensures IndexOf(a + [sep] + b, sep) == Some(|a|)
    decreases |a|
  {
    if a != [] {
      assert (a + [sep] + b)[1..] == a[1..] + [sep] + b;
      IndexOfFirst(a[1..], b, sep);
    }
  }

  /** A colon-free user-id and any password, joined by a colon, divide back into the two. */
  lemma {:induction false} Rfc7617RoundTrip(user: string, password: string)
    requires ':' !in user
    ensures Rfc7617Credentials(user + ":" + password) == Some((user, password))
  {
    var t := user + ":" + password;
    IndexOfFirst(user, password, ':');
    assert t[..|user|] == user && t[|user| + 1..] == password;
  }

  /** The check with the password compared whole: only "DNT" with "123" is let in. */
  function AuthenticateRfc7617(headers: map<string, string>, schemeName: string): (r: AuthenticateResult)
    ensures r.Succeeded? <==>
      AuthorizationHeader in headers && CredentialText(headers[AuthorizationHeader]) == Result.Success(ValidCredentials)
    ensures r.Succeeded? ==> r.ticket == Ticket(ValidUserName, schemeName, schemeName)
  {
    if AuthorizationHeader !in headers then Failed(MissingHeaderReason)
    else match CredentialText(headers[AuthorizationHeader])
      case Failure(e) => Failed(InvalidHeaderPrefix + Message(e))
      case Success(t) =>
        Rfc7617RoundTrip(ValidUserName, ValidPassword);
        match Rfc7617Credentials(t)
        case None => assert ValidCredentials[3] == ':'; Failed(InvalidHeaderPrefix + Message(IndexOutOfRange))
        case Some((user, password)) =>
          if user == ValidUserName && password == ValidPassword then
            Succeeded(Ticket(user, schemeName, schemeName))
          else
            Failed(InvalidCredentialsReason)
  }

  /** The header value a client sends for the credential text t under scheme. */
  function BasicHeader(scheme: string, t: string): string
    requires IsAscii(t)
  {
    scheme + " " + Base64.Encode(AsciiBytes(t))
  }

  lemma {:induction false} EncodedCredentialText(scheme: string, t: string)
    requires IsToken(scheme)
    requires IsAscii(t) && |t| > 0
    ensures CredentialText(BasicHeader(scheme, t)) == Result.Success(t)
  {
    var e := Base64.Encode(AsciiBytes(t));
    assert |e| > 0;
    ParseSchemeAndParameter(scheme, e);
    Base64.DecodeEncode(AsciiBytes(t));
    DecodeAsciiBytes(t);
  }

  /**
   * As written, "DNT:123:" followed by anything is let in, though section 2 of RFC 7617
   * makes its password "123:" followed by that rest; the whole-password check refuses it.
   */
  lemma {:induction false} ColonInPasswordAccepted(x: string, schemeName: string)
    requires IsAscii(x)
    ensures var t := ValidCredentials + ":" + x;
      IsAscii(t) &&
      var headers := map[AuthorizationHeader := BasicHeader("Basic", t)];
      Authenticate(headers, schemeName).Succeeded?
      && Rfc7617Credentials(t) == Some((ValidUserName, ValidPassword + ":" + x))
      && AuthenticateRfc7617(headers, schemeName).Failed?
  {
    var t := ValidCredentials + ":" + x;
    AsciiAfterCredentials(x);
    BasicHeaderDecodes(t);
    ColonPasswordVerdicts(map[AuthorizationHeader := BasicHeader("Basic", t)], schemeName, x);
    ColonPasswordDivision(x);
  }

  lemma {:induction false} BasicHeaderDecodes(t: string)
    requires IsAscii(t) && |t| > 0
    ensures var headers := map[AuthorizationHeader := BasicHeader("Basic", t)];
      AuthorizationHeader in headers && CredentialText(headers[AuthorizationHeader]) == Result.Success(t)
  {
    assert IsToken("Basic");
    EncodedCredentialText("Basic", t);
  }

  /** Both checks on a header that decodes to "DNT:123:" followed by x. */
  lemma {:induction false} ColonPasswordVerdicts(headers: map<string, string>, schemeName: string, x: string)
    requires AuthorizationHeader in headers
    requires CredentialText(headers[AuthorizationHeader]) == Result.Success(ValidCredentials + ":" + x)
    ensures Authenticate(headers, schemeName).Succeeded?
    ensures AuthenticateRfc7617(headers, schemeName).Failed?
  {
    var t := ValidCredentials + ":" + x;
    assert ValidCredentials + ":" <= t;
    AcceptedDecodedText(headers, schemeName, t);
    assert |t| > |ValidCredentials|;
    RefusedDecodedText(headers, schemeName, t);
  }

  /** Section 2 of RFC 7617 puts the second colon inside the password. */
  lemma {:induction false} ColonPasswordDivision(x: string)
    ensures Rfc7617Credentials(ValidCredentials + ":" + x) == Some((ValidUserName, ValidPassword + ":" + x))
  {
    assert ValidCredentials + ":" + x == ValidUserName + ":" + (ValidPassword + ":" + x);
    Rfc7617RoundTrip(ValidUserName, ValidPassword + ":" + x);
  }

  lemma {:induction false} AcceptedDecodedText(headers: map<string, string>, schemeName: string, t: string)
    requires AuthorizationHeader in headers && CredentialText(headers[AuthorizationHeader]) == Result.Success(t)
    requires IsAcceptedText(t)
    ensures Authenticate(headers, schemeName).Succeeded?
  {
  }

  lemma {:induction false} RefusedDecodedText(headers: map<string, string>, schemeName: string, t: string)
    requires AuthorizationHeader in headers && CredentialText(headers[AuthorizationHeader]) == Result.Success(t)
    requires t != ValidCredentials
    ensures AuthenticateRfc7617(headers, schemeName).Failed?
  {
  }

  lemma {:induction false} AsciiAfterCredentials(x: string)
    requires IsAscii(x)
    ensures IsAscii(ValidCredentials + ":" + x)
  {
    var t := ValidCredentials + ":" + x;
    forall i | 0 <= i < |t| ensures t[i] < '\U{80}' {
      if i >= 8 { assert t[i] == x[i - 8]; }
    }
  }
}
