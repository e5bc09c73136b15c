/**
 * The Express side of heyserv/index.js: the `validateKeycloakToken`
 * middleware acting on a request and a response, and the `/email` and
 * `/email/send` handlers that run after it. Each backend exchange the handlers
 * make is a parameter returning either a value or the message of the error it
 * throws; the handlers are pure functions returning the reply together with
 * the sequence of calls made, so that the order of the calls can be stated.
 */
module Heyserv {
  import opened Wrappers
  import opened Bearer
  import opened KeycloakAdmin

  /** The JSON bodies the two routes and the middleware send. */
  datatype Json =
    | Error(error: string, details: Option<string>)
    | Identity(federatedIdentity: Option<FederatedIdentity>)
    | Sent(message: string, to: Option<string>, subject: Option<string>)

  datatype Reply = Reply(status: int, json: Json)

  /** The 401 reply for each way the middleware rejects a request. */
  function Rejection(outcome: AuthOutcome): (r: Reply)
    requires !outcome.Authenticated?
    ensures r.status == 401 && r.json.Error?
    ensures r.json.details.Some? <==> outcome.InvalidToken?
    ensures outcome.NoToken? ==> r.json.error == "No token provided"
    ensures outcome.MalformedToken? ==> r.json.error == "Malformed token"
    ensures outcome.InvalidToken? ==> r.json.error == "Invalid token" && r.json.details == Some(outcome.details)
  {
    match outcome
    case NoToken => Reply(401, Error("No token provided", None))
    case MalformedToken => Reply(401, Error("Malformed token", None))
    case InvalidToken(details) => Reply(401, Error("Invalid token", Some(details)))
  }

  /** The part of an Express request the middleware and the handlers use. */
  class Request {
    const authorization: Option<string>
    var user: Option<Claims>

    constructor(authorization: Option<string>)
      ensures this.authorization == authorization && user == None
    {
      this.authorization := authorization;
      user := None;
    }
  }

  /** An Express response; `reply` is what `res.status(...).json(...)` has sent so far. */
  class Response {
    var reply: Option<Reply>

    constructor()
      ensures reply == None
    {
      reply := None;
    }

    method Send(r: Reply)
      modifies this
      ensures reply == Some(r)
    {
      reply := Some(r);
    }
  }

  /**
   * `validateKeycloakToken(req, res, next)`: `next` is taken exactly when the
   * token is verified, after the claims are stored on the request; otherwise
   * the 401 reply is sent and the request is left as it was.
   */
  method ValidateKeycloakToken(req: Request, res: Response, verify: string -> Verdict) returns (next: bool)
    modifies req, res
    ensures next <==> Authenticate(req.authorization, verify).Authenticated?
    ensures next ==> req.user == Some(Authenticate(req.authorization, verify).claims) && res.reply == old(res.reply)
    ensures !next ==> req.user == old(req.user) && res.reply == Some(Rejection(Authenticate(req.authorization, verify)))
  {
    var authHeader := req.authorization;
    if authHeader.None? || authHeader.value == "" {
      res.Send(Reply(401, Error("No token provided", None)));
      return false;
    }
    var token := TokenOf(authHeader.value);
    if token.None? {
      res.Send(Reply(401, Error("Malformed token", None)));
      return false;
    }
    match verify(token.value)
    case Rejected(message) =>
      res.Send(Reply(401, Error("Invalid token", Some(message))));
      next := false;
    case Valid(decoded) =>
      req.user := Some(decoded);
      next := true;
  }

  /** The result of a backend exchange: its value, or the message of the error it throws. */
  datatype Upstream<T> = Ok(value: T) | Failed(message: string)

  /** The calls a request causes, in order. */
  datatype Call =
    | VerifyToken(token: string)
    | PostAdminToken(form: Form)
    | GetFederatedIdentities(userId: string, adminToken: string)

  /**
   * The backend: the signature check, the token endpoint (the form in, the
   * `access_token` out), and the admin API's identity listing for a user id
   * under an admin token.
   */
  datatype Backend = Backend(
    client: BackendClient,
    verify: string -> Verdict,
    exchange: Form -> Upstream<string>,
    lookup: (string, string) -> Upstream<seq<FederatedIdentity>>)

  datatype Handled = Handled(reply: Reply, calls: seq<Call>)

  /** The calls made by the middleware: one signature check, when a token was extracted. */
  function MiddlewareCalls(authorization: Option<string>): seq<Call>
  {
    if TokenToVerify(authorization).Some? then [VerifyToken(TokenToVerify(authorization).value)] else []
  }

  /**
   * Steps 1 to 3 shared by both handlers: `getKeycloakAdminToken`, then
   * `getUserGoogleFederatedIdentity` for the user's subject under that token.
   */
  function ResolveGoogleIdentity(sub: string, backend: Backend): (r: (Upstream<Option<FederatedIdentity>>, seq<Call>))
    ensures var form := ClientCredentialsForm(backend.client);
            1 <= |r.1| <= 2 && r.1[0] == PostAdminToken(form) &&
            (|r.1| == 2 <==> backend.exchange(form).Ok?) &&
            (|r.1| == 2 ==> r.1[1] == GetFederatedIdentities(sub, backend.exchange(form).value))
    ensures var form := ClientCredentialsForm(backend.client);
            r.0.Ok? <==> backend.exchange(form).Ok? && backend.lookup(sub, backend.exchange(form).value).Ok?
    ensures var form := ClientCredentialsForm(backend.client);
            r.0.Ok? ==> r.0.value == FindGoogleIdentity(backend.lookup(sub, backend.exchange(form).value).value)
    ensures var form := ClientCredentialsForm(backend.client);
            r.0.Failed? ==> (if backend.exchange(form).Failed? then backend.exchange(form).message
                             else backend.lookup(sub, backend.exchange(form).value).message) == r.0.message
  {
    var form := ClientCredentialsForm(backend.client);
    match backend.exchange(form)
    case Failed(message) => (Failed(message), [PostAdminToken(form)])
    case Ok(adminToken) =>
      var calls := [PostAdminToken(form), GetFederatedIdentities(sub, adminToken)];
      match backend.lookup(sub, adminToken)
      case Failed(message) => (Failed(message), calls)
      case Ok(records) => (Ok(FindGoogleIdentity(records)), calls)
  }

  const FetchFailed := "Failed to fetch Google federated identity"
  const SendFailed := "Failed to send email"
  const SendPlaceholder := "Email sent (placeholder)"
  /**
   * The message of the `TypeError` thrown by reading `.token` of `undefined`.
   * Its exact text depends on the JavaScript engine (older engines say
   * "Cannot read property 'token' of undefined"); the constant stands for
   * whatever message the runtime gives.
   */
  const UndefinedToken := "Cannot read properties of undefined (reading 'token')"

  /** The `/email` handler once the middleware has let the request through. */
  function EmailHandler(claims: Claims, backend: Backend): (h: Handled)
    ensures h.calls == ResolveGoogleIdentity(claims.sub, backend).1
    ensures h.reply.status == 200 <==> ResolveGoogleIdentity(claims.sub, backend).0.Ok?
    ensures h.reply.status == 200 ==> h.reply.json == Identity(ResolveGoogleIdentity(claims.sub, backend).0.value)
    ensures h.reply.status != 200 ==>
              h.reply == Reply(500, Error(FetchFailed, Some(ResolveGoogleIdentity(claims.sub, backend).0.message)))
  {
    var (identity, calls) := ResolveGoogleIdentity(claims.sub, backend);
    match identity
    case Ok(found) => Handled(Reply(200, Identity(found)), calls)
    case Failed(message) => Handled(Reply(500, Error(FetchFailed, Some(message))), calls)
  }

  /** The `/email/send` handler once the middleware has let the request through; `to` and `subject` come from the JSON body. */
  function SendHandler(claims: Claims, to: Option<string>, subject: Option<string>, backend: Backend): (h: Handled)
    ensures h.calls == ResolveGoogleIdentity(claims.sub, backend).1
    ensures h.reply.status == 200 <==>
              ResolveGoogleIdentity(claims.sub, backend).0.Ok? && ResolveGoogleIdentity(claims.sub, backend).0.value.Some?
    ensures h.reply.status == 200 ==> h.reply.json == Sent(SendPlaceholder, to, subject)
    ensures h.reply.status != 200 ==> h.reply.status == 500 && h.reply.json.Error? && h.reply.json.error == SendFailed
  {
    var (identity, calls) := ResolveGoogleIdentity(claims.sub, backend);
    match identity
    case Ok(Some(_)) => Handled(Reply(200, Sent(SendPlaceholder, to, subject)), calls)
    case Ok(None) => Handled(Reply(500, Error(SendFailed, Some(UndefinedToken))), calls)
    case Failed(message) => Handled(Reply(500, Error(SendFailed, Some(message))), calls)
  }

  /** `GET /email`: the middleware, then the handler. */
  function GetEmail(authorization: Option<string>, backend: Backend): (r: Handled)
    ensures |MiddlewareCalls(authorization)| <= |r.calls| && r.calls[..|MiddlewareCalls(authorization)|] == MiddlewareCalls(authorization)
    ensures !Authenticate(authorization, backend.verify).Authenticated? ==>
              r == Handled(Rejection(Authenticate(authorization, backend.verify)), MiddlewareCalls(authorization))
    ensures Authenticate(authorization, backend.verify).Authenticated? ==>
              r.reply == EmailHandler(Authenticate(authorization, backend.verify).claims, backend).reply
  {
    var outcome := Authenticate(authorization, backend.verify);
    if outcome.Authenticated? then
      var h := EmailHandler(outcome.claims, backend);
      Handled(h.reply, MiddlewareCalls(authorization) + h.calls)
    else Handled(Rejection(outcome), MiddlewareCalls(authorization))
  }

  /** `POST /email/send`: the middleware, then the handler. */
  function SendEmail(authorization: Option<string>, to: Option<string>, subject: Option<string>, backend: Backend): (r: Handled)
    ensures |MiddlewareCalls(authorization)| <= |r.calls| && r.calls[..|MiddlewareCalls(authorization)|] == MiddlewareCalls(authorization)
    ensures !Authenticate(authorization, backend.verify).Authenticated? ==>
              r == Handled(Rejection(Authenticate(authorization, backend.verify)), MiddlewareCalls(authorization))
    ensures Authenticate(authorization, backend.verify).Authenticated? ==>
              r.reply == SendHandler(Authenticate(authorization, backend.verify).claims, to, subject, backend).reply
  {
    var outcome := Authenticate(authorization, backend.verify);
    if outcome.Authenticated? then
      var h := SendHandler(outcome.claims, to, subject, backend);
      Handled(h.reply, MiddlewareCalls(authorization) + h.calls)
    else Handled(Rejection(outcome), MiddlewareCalls(authorization))
  }

  /**
   * Serving `GET /email` on a request and a response: the middleware method
   * runs first, and the handler reads the claims it stored on the request.
   */
  method ServeGetEmail(req: Request, res: Response, backend: Backend)
    modifies req, res
    ensures res.reply == Some(GetEmail(req.authorization, backend).reply)
    ensures req.user == (if Authenticate(req.authorization, backend.verify).Authenticated?
                         then Some(Authenticate(req.authorization, backend.verify).claims) else old(req.user))
  {
    var next := ValidateKeycloakToken(req, res, backend.verify);
    if next {
      var h := EmailHandler(req.user.value, backend);
      res.Send(h.reply);
    }
  }

  /** Serving `POST /email/send` on a request and a response. */
  method ServeSendEmail(req: Request, res: Response, to: Option<string>, subject: Option<string>, backend: Backend)
    modifies req, res
    ensures res.reply == Some(SendEmail(req.authorization, to, subject, backend).reply)
    ensures req.user == (if Authenticate(req.authorization, backend.verify).Authenticated?
                         then Some(Authenticate(req.authorization, backend.verify).claims) else old(req.user))
  {
    var next := ValidateKeycloakToken(req, res, backend.verify);
    if next {
      var h := SendHandler(req.user.value, to, subject, backend);
      res.Send(h.reply);
    }
  }

  predicate BackendCall(c: Call)
  {
    c.PostAdminToken? || c.GetFederatedIdentities?
  }

  /**
   * Both routes answer 401 exactly when the middleware rejects the request,
   * and then nothing beyond the signature check has been called; the handlers
   * themselves never answer 401.
   */
  lemma UnauthorizedIsDecidedFirst(authorization: Option<string>, to: Option<string>, subject: Option<string>, backend: Backend)
    ensures var g := GetEmail(authorization, backend);
            (g.reply.status == 401 <==> !Authenticate(authorization, backend.verify).Authenticated?) &&
            (g.reply.status == 401 ==> forall i :: 0 <= i < |g.calls| ==> !BackendCall(g.calls[i]))
    ensures var s := SendEmail(authorization, to, subject, backend);
            (s.reply.status == 401 <==> !Authenticate(authorization, backend.verify).Authenticated?) &&
            (s.reply.status == 401 ==> forall i :: 0 <= i < |s.calls| ==> !BackendCall(s.calls[i]))
  {
  }

  /** A request without an `authorization` header gets 401 "No token provided" having caused no call at all. */
  lemma MissingHeaderCallsNothing(authorization: Option<string>, backend: Backend)
    requires HeaderMissing(authorization)
    ensures GetEmail(authorization, backend) == Handled(Reply(401, Error("No token provided", None)), [])
  {
  }

  /** A header without a second segment gets 401 "Malformed token" with no signature check. */
  lemma MalformedHeaderCallsNothing(header: string, backend: Backend)
    requires header != "" && TokenOf(header).None?
    ensures GetEmail(Some(header), backend) == Handled(Reply(401, Error("Malformed token", None)), [])
  {
  }

  /** A token the signature check rejects gets 401 "Invalid token" with the checker's message, after that one check only. */
  lemma InvalidTokenStopsAfterVerify(header: string, backend: Backend, message: string)
    requires header != "" && TokenOf(header).Some? && backend.verify(TokenOf(header).value) == Rejected(message)
    ensures GetEmail(Some(header), backend) == Handled(Reply(401, Error("Invalid token", Some(message))), [VerifyToken(TokenOf(header).value)])
  {
  }

  /**
   * In both routes the admin token is requested before the identities are
   * looked up, the request carries the client-credentials form, and the
   * lookup uses the authenticated user's subject and the token just obtained.
   */
  lemma AdminTokenPrecedesLookup(authorization: Option<string>, to: Option<string>, subject: Option<string>, backend: Backend, calls: seq<Call>)
    requires calls == GetEmail(authorization, backend).calls || calls == SendEmail(authorization, to, subject, backend).calls
    ensures forall j :: 0 <= j < |calls| && calls[j].GetFederatedIdentities? ==>
              Authenticate(authorization, backend.verify).Authenticated? &&
              calls[j].userId == Authenticate(authorization, backend.verify).claims.sub &&
              exists i :: 0 <= i < j && calls[i] == PostAdminToken(ClientCredentialsForm(backend.client)) &&
                          backend.exchange(calls[i].form) == Ok(calls[j].adminToken)
    ensures forall j :: 0 <= j < |calls| && calls[j].VerifyToken? ==> j == 0 && forall i :: 0 < i < |calls| ==> BackendCall(calls[i])
  {
    var outcome := Authenticate(authorization, backend.verify);
    if outcome.Authenticated? {
      var form := ClientCredentialsForm(backend.client);
      assert calls[0] == VerifyToken(TokenToVerify(authorization).value);
      if backend.exchange(form).Ok? {
        assert calls == [VerifyToken(TokenToVerify(authorization).value), PostAdminToken(form),
                         GetFederatedIdentities(outcome.claims.sub, backend.exchange(form).value)];
        assert calls[1].form == form && backend.exchange(calls[1].form) == Ok(calls[2].adminToken);
      } else {
        assert calls == [VerifyToken(TokenToVerify(authorization).value), PostAdminToken(form)];
      }
    }
  }

  /** An error thrown by either backend exchange becomes a 500 carrying its message, in both routes. */
  lemma BackendFailureIsServerError(authorization: Option<string>, to: Option<string>, subject: Option<string>, backend: Backend, message: string)
    requires Authenticate(authorization, backend.verify).Authenticated?
    requires var form := ClientCredentialsForm(backend.client);
             backend.exchange(form) == Failed(message) ||
             (backend.exchange(form).Ok? &&
              backend.lookup(Authenticate(authorization, backend.verify).claims.sub, backend.exchange(form).value) == Failed(message))
    ensures GetEmail(authorization, backend).reply == Reply(500, Error(FetchFailed, Some(message)))
    ensures SendEmail(authorization, to, subject, backend).reply == Reply(500, Error(SendFailed, Some(message)))
  {
  }

  /** The identities the lookup returns for an authenticated request, when both exchanges succeed. */
  predicate ListedIdentities(authorization: Option<string>, backend: Backend, records: seq<FederatedIdentity>)
  {
    Authenticate(authorization, backend.verify).Authenticated? &&
    var form := ClientCredentialsForm(backend.client);
    backend.exchange(form).Ok? &&
    backend.lookup(Authenticate(authorization, backend.verify).claims.sub, backend.exchange(form).value) == Ok(records)
  }

  /**
   * `/email/send` for a user without a google identity: reading `.token` of
   * `undefined` throws, and the reply is 500 "Failed to send email". With a
   * google identity the placeholder reply echoes the body's `to` and `subject`.
   */
  lemma SendNeedsGoogleIdentity(authorization: Option<string>, to: Option<string>, subject: Option<string>, backend: Backend, records: seq<FederatedIdentity>)
    requires ListedIdentities(authorization, backend, records)
    ensures (forall i :: 0 <= i < |records| ==> records[i].identityProvider != Google) ==>
              SendEmail(authorization, to, subject, backend).reply == Reply(500, Error(SendFailed, Some(UndefinedToken)))
    ensures (exists i :: 0 <= i < |records| && records[i].identityProvider == Google) ==>
              SendEmail(authorization, to, subject, backend).reply == Reply(200, Sent(SendPlaceholder, to, subject))
  {
  }

  /**
   * `/email` answers 200 whenever both exchanges succeed: with the first google
   * record, or with the identity absent when the user has none.
   */
  lemma EmailReturnsFirstGoogleIdentity(authorization: Option<string>, backend: Backend, records: seq<FederatedIdentity>)
    requires ListedIdentities(authorization, backend, records)
    ensures GetEmail(authorization, backend).reply.status == 200
    ensures (forall i :: 0 <= i < |records| ==> records[i].identityProvider != Google) ==>
              GetEmail(authorization, backend).reply.json == Identity(None)
    ensures forall i :: 0 <= i < |records| && records[i].identityProvider == Google &&
                        (forall j :: 0 <= j < i ==> records[j].identityProvider != Google) ==>
              GetEmail(authorization, backend).reply.json == Identity(Some(records[i]))
  {
  }
}
