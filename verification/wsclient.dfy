/**
 The coreBOS/vtiger web-service client (`App\Utils\WSClient`) as an immutable
 state record and pure operations.

 Every operation takes the current client and the decoded response(s) the
 HTTP transport returns, and yields the requests it sent (verb and parameter
 map, in order), the new client and its result: PHP `false` or the payload.
 The digest and JSON functions the client calls are supplied as `Foreign`.
 */
module WSClient {
  import opened Strings
  import opened Values

  /** The script every service URL must name. */
  const ServiceBase: string := "webservice.php"

  /** The value `version()` reports. */
  const Version: string := "coreBOS2.2"

  const Unset: Value := Bool(false)

  datatype Client = Client(
    serviceUrl: string,
    serviceUser: Value,
    serviceKey: Value,
    serverTime: Value,
    expireTime: Value,
    serviceToken: Value,
    sessionId: Value,
    userId: Value,
    entityId: Value,
    language: Value,
    /** One-shot extra options attached to the next consuming request. */
    cbwsOptions: seq<Entry>,
    lastError: Value)

  /** `md5`, `hash('sha256'|'sha512', …)` and `json_encode`, which are not part of this model. */
  datatype Foreign = Foreign(
    md5: string -> string,
    sha256: string -> string,
    sha512: string -> string,
    jsonEncode: Value -> string)

  datatype Verb = GET | POST

  datatype Request = Request(verb: Verb, params: seq<Entry>)

  /** What an operation did: the requests sent, the client afterwards and the value returned. */
  datatype Reply<T> = Reply(sent: seq<Request>, client: Client, result: T)

  // ---------------------------------------------------------------------------
  // Construction and URL handling
  // ---------------------------------------------------------------------------

  /**
   `getWebServiceURL`: a URL that already names the service script (in any
   case) is kept; otherwise the script is appended, after a `/` unless the URL
   already ends in one. The `/` test is PHP's loose `strrpos($url, '/') !=
   strlen($url) - 1`, so a one-character URL without a `/` gets no `/` either.
   */
  function WebServiceUrl(url: string): (r: string)
    ensures ContainsIgnoringCase(url, ServiceBase) ==> r == url
    ensures !ContainsIgnoringCase(url, ServiceBase) ==>
              (r == url + ServiceBase || r == url + "/" + ServiceBase)
    ensures !ContainsIgnoringCase(url, ServiceBase) ==>
              (r == url + ServiceBase <==> ((|url| > 0 && url[|url| - 1] == '/') || |url| == 1))
  {
    LooseSuffixTest(url, '/');
    if ContainsIgnoringCase(url, ServiceBase) then url
    else if LooseNotEqual(LastIndexOf(url, '/'), |url| - 1) then url + "/" + ServiceBase
    else url + ServiceBase
  }

  /** Whatever `getWebServiceURL` returns names the service script. */
  lemma WebServiceUrlNamesService(url: string)
    ensures ContainsIgnoringCase(WebServiceUrl(url), ServiceBase)
  {
    var r := WebServiceUrl(url);
    if !ContainsIgnoringCase(url, ServiceBase) {
      var prefix := if r == url + ServiceBase then url else url + "/";
      ContainsIgnoringCaseSuffix(prefix, ServiceBase);
    }
  }

  /** Normalising a service URL twice is the same as once. */
  lemma WebServiceUrlIdempotent(url: string)
    ensures WebServiceUrl(WebServiceUrl(url)) == WebServiceUrl(url)
  {
    WebServiceUrlNamesService(url);
  }

  /** The loose comparison at work: a one-character URL gets the script glued on without a `/`. */
  lemma OneCharacterUrlGetsNoSlash(c: char)
    ensures WebServiceUrl([c]) == [c] + ServiceBase
  {
    ShorterNotContains(Lower([c]), Lower(ServiceBase));
  }

  /** The constructor: a client for the normalised URL with no session yet. */
  function NewClient(url: string): (c: Client)
    ensures c.serviceUrl == WebServiceUrl(url)
    ensures ContainsIgnoringCase(c.serviceUrl, ServiceBase)
    ensures c.serverTime == Unset && c.expireTime == Unset
    ensures c.sessionId == Unset && c.userId == Unset && c.serviceToken == Unset
    ensures c.serviceUser == Unset && c.serviceKey == Unset && c.lastError == Unset
    ensures c.entityId == Str("") && c.language == Str("en") && c.cbwsOptions == []
  {
    WebServiceUrlNamesService(url);
    Client(WebServiceUrl(url), Unset, Unset, Unset, Unset, Unset, Unset, Unset, Str(""), Str("en"), [], Unset)
  }

  // ---------------------------------------------------------------------------
  // Record ids
  // ---------------------------------------------------------------------------

  /**
   `getRecordId`: index 1 of `explode('x', $id)`, i.e. the text between the
   first and the second `x`. Without an `x` there is no index 1, and PHP
   reads `null`.
   */
  function RecordId(id: string): (r: Value)
    ensures r == Null <==> 'x' !in id
    ensures r.Str? ==> 'x' !in r.s
  {
    var parts := Explode(id, 'x');
    if |parts| > 1 then Str(parts[1]) else Null
  }

  /** A composite id `<module>x<local>` yields its local part. */
  lemma {:induction false} RecordIdOfComposite(moduleId: string, localId: string)
    requires 'x' !in moduleId && 'x' !in localId
    ensures RecordId(moduleId + "x" + localId) == Str(localId)
  {
    ExplodeAround(moduleId, localId, 'x');
    ExplodeNoSeparator(localId, 'x');
  }

  /** `r` follows the first `x` of `id`, at `i`, and runs up to the next `x` or the end. */
  predicate SegmentAfter(id: string, r: string, i: int) {
    0 <= i < |id| && id[i] == 'x' && 'x' !in id[..i] && i + 1 + |r| <= |id|
    && id[i + 1..i + 1 + |r|] == r && (i + 1 + |r| == |id| || id[i + 1 + |r|] == 'x')
  }

  /** The record id sits right after the first `x` and runs to the next `x` or the end. */
  lemma RecordIdIsSecondSegment(id: string)
    requires 'x' in id
    ensures exists i :: SegmentAfter(id, RecordId(id).s, i)
  {
    var i := |Explode(id, 'x')[0]|;
    FirstSeparator(id, 'x');
    SecondPart(id, 'x');
    var after := id[i + 1..];
    var r := RecordId(id).s;
    assert SegmentAfter(id, r, i) by {
      assert r == Explode(after, 'x')[0];
      ExplodeFirst(after, 'x');
      assert id[i + 1..i + 1 + |r|] == after[..|r|];
      assert i + 1 + |r| < |id| ==> id[i + 1 + |r|] == after[|r|];
    }
  }

  // ---------------------------------------------------------------------------
  // Response envelopes
  // ---------------------------------------------------------------------------

  /** The server's success envelope: an array whose `success` is exactly `true`. */
  predicate Succeeded(response: Value) {
    response.Arr? && Index(response, "success") == Bool(true)
  }

  /** What a failed response leaves as last error: its `error`, else the whole response. */
  function ErrorOf(response: Value): Value {
    if Isset(response, "error") then Index(response, "error") else response
  }

  /**
   `hasError`: true unless the response succeeded; records the error, or
   clears it to `false` on success. Nothing else in the client changes.
   */
  function HasError(c: Client, response: Value): (out: (bool, Client))
    ensures out.0 <==> !Succeeded(response)
    ensures !out.0 ==> out.1.lastError == Unset
    ensures out.0 ==> out.1.lastError == ErrorOf(response)
    ensures out.1 == c.(lastError := out.1.lastError)
  {
    if Succeeded(response) then (false, c.(lastError := Unset))
    else (true, c.(lastError := ErrorOf(response)))
  }

  /** `lastError()`. */
  function LastError(c: Client): Value {
    c.lastError
  }

  /** The envelope of a successful call carrying `payload`. */
  function SuccessEnvelope(payload: Value): (e: Value)
    ensures Succeeded(e) && Index(e, "result") == payload
  {
    Arr([Entry("success", Bool(true)), Entry("result", payload)])
  }

  /** The envelope of a failed call carrying `error`. */
  function FailureEnvelope(error: Value): (e: Value)
    ensures !Succeeded(e)
    ensures error != Null ==> ErrorOf(e) == error
  {
    Arr([Entry("success", Bool(false)), Entry("error", error)])
  }

  /** A server error is what `lastError()` reports after the envelope is checked. */
  lemma FailureEnvelopeRecorded(c: Client, error: Value)
    requires error != Null
    ensures HasError(c, FailureEnvelope(error)).0
    ensures LastError(HasError(c, FailureEnvelope(error)).1) == error
  {
  }

  /** A success envelope clears the last error. */
  lemma SuccessEnvelopeClears(c: Client, payload: Value)
    ensures !HasError(c, SuccessEnvelope(payload)).0
    ensures LastError(HasError(c, SuccessEnvelope(payload)).1) == Unset
  {
  }

  /** `success` must be the boolean `true`: the string "true" or 1 is an error. */
  lemma LooseSuccessIsError(c: Client)
    ensures HasError(c, Arr([Entry("success", Str("true"))])).0
    ensures HasError(c, Arr([Entry("success", Int(1))])).0
  {
  }

  /** `$response['result'][$field]`. */
  function ResultField(response: Value, field: string): Value {
    Index(Index(response, "result"), field)
  }

  /**
   The shared tail of every request: send `params`, check the envelope, and
   return `false` on error or the response's `result`.
   */
  function Send(c: Client, verb: Verb, params: seq<Entry>, response: Value): (r: Reply<Value>)
    ensures r.sent == [Request(verb, params)]
    ensures r.client == c.(lastError := if Succeeded(response) then Unset else ErrorOf(response))
    ensures Succeeded(response) ==> r.result == Index(response, "result") && r.client.lastError == Unset
    ensures !Succeeded(response) ==> r.result == Bool(false) && r.client.lastError == ErrorOf(response)
  {
    var (err, c') := HasError(c, response);
    Reply([Request(verb, params)], c', if err then Bool(false) else Index(response, "result"))
  }

  /** A success envelope's payload comes back verbatim from any request. */
  lemma SendReturnsPayload(c: Client, verb: Verb, params: seq<Entry>, payload: Value)
    ensures Send(c, verb, params, SuccessEnvelope(payload)).result == payload
  {
  }

  /** A failure envelope yields `false` and leaves its error as the last error. */
  lemma SendReportsError(c: Client, verb: Verb, params: seq<Entry>, error: Value)
    requires error != Null
    ensures Send(c, verb, params, FailureEnvelope(error)).result == Bool(false)
    ensures LastError(Send(c, verb, params, FailureEnvelope(error)).client) == error
  {
  }

  /**
   The `cbwsOptions` side channel as it reaches the wire: attached under its
   own key when non-empty, otherwise the parameters go out as they are.
   */
  function WithOptions(params: seq<Entry>, options: seq<Entry>): (p: seq<Entry>)
    ensures |options| > 0 ==> Lookup(p, "cbwsOptions") == Some(Arr(options))
    ensures forall k :: k != "cbwsOptions" ==> Lookup(p, k) == Lookup(params, k)
    ensures |options| == 0 ==> p == params
    ensures UniqueKeys(params) ==> UniqueKeys(p)
  {
    PutUnique(params, "cbwsOptions", Arr(options));
    if |options| > 0 then Put(params, "cbwsOptions", Arr(options)) else params
  }

  /**
   `Send` for the operations that consume the side channel: the options are
   attached, and the client's copy is cleared before the request goes out, so
   it is empty afterwards whatever the server answers.
   */
  function SendWithOptions(c: Client, verb: Verb, params: seq<Entry>, response: Value): (r: Reply<Value>)
    ensures r.sent == [Request(verb, WithOptions(params, c.cbwsOptions))]
    ensures r.client == c.(cbwsOptions := [], lastError := if Succeeded(response) then Unset else ErrorOf(response))
    ensures r.client.cbwsOptions == []
    ensures r.result == (if Succeeded(response) then Index(response, "result") else Bool(false))
  {
    Send(c.(cbwsOptions := []), verb, WithOptions(params, c.cbwsOptions), response)
  }

  /** The common head of a session request: the operation name and the session handle. */
  function SessionParams(c: Client, operation: string): seq<Entry> {
    [Entry("operation", Str(operation)), Entry("sessionName", c.sessionId)]
  }

  // ---------------------------------------------------------------------------
  // Challenge and logins
  // ---------------------------------------------------------------------------

  function ChallengeParams(username: string): seq<Entry> {
    [Entry("operation", Str("getchallenge")), Entry("username", Str(username))]
  }

  /**
   `doChallenge`: GET `getchallenge` for the user; on success store the
   server time, expiry and token from the response, otherwise only the error.
   */
  function Challenge(c: Client, username: string, response: Value): (r: Reply<bool>)
    ensures r.sent == [Request(GET, ChallengeParams(username))]
    ensures r.result <==> Succeeded(response)
    ensures !r.result ==> r.client == c.(lastError := ErrorOf(response))
    ensures r.result ==> r.client == c.(lastError := Unset,
                                        serverTime := ResultField(response, "serverTime"),
                                        expireTime := ResultField(response, "expireTime"),
                                        serviceToken := ResultField(response, "token"))
  {
    var (err, c1) := HasError(c, response);
    if err then Reply([Request(GET, ChallengeParams(username))], c1, false)
    else
      Reply([Request(GET, ChallengeParams(username))],
            c1.(serverTime := ResultField(response, "serverTime"),
                expireTime := ResultField(response, "expireTime"),
                serviceToken := ResultField(response, "token")),
            true)
  }

  /** The client a successful challenge leaves: its time, expiry and token stored, no error. */
  function Challenged(c: Client, response: Value): Client {
    c.(lastError := Unset,
       serverTime := ResultField(response, "serverTime"),
       expireTime := ResultField(response, "expireTime"),
       serviceToken := ResultField(response, "token"))
  }

  /** `doLogin`'s access key: token and key concatenated, md5-hashed unless `withPassword`. */
  function LoginAccessKey(token: Value, accessKey: string, withPassword: bool, f: Foreign): (k: string)
    ensures withPassword ==> k == ToStr(token) + accessKey
    ensures !withPassword ==> k == f.md5(ToStr(token) + accessKey)
  {
    if withPassword then ToStr(token) + accessKey else f.md5(ToStr(token) + accessKey)
  }

  function LoginParams(username: string, key: string): seq<Entry> {
    [Entry("operation", Str("login")), Entry("username", Str(username)), Entry("accessKey", Str(key))]
  }

  /**
   `doLogin`: a fresh challenge, then POST `login` with the access key derived
   from the token that challenge returned; on success adopt the session and
   user ids and remember the credentials. A failed challenge sends nothing
   more; a failed login keeps the new token but changes no session field.
   */
  function Login(c: Client, username: string, accessKey: string, withPassword: bool, f: Foreign,
                 challengeResponse: Value, loginResponse: Value): (r: Reply<bool>)
    ensures !Succeeded(challengeResponse) ==>
              r.sent == [Request(GET, ChallengeParams(username))] && !r.result &&
              r.client == c.(lastError := ErrorOf(challengeResponse))
    ensures Succeeded(challengeResponse) ==>
              r.sent == [Request(GET, ChallengeParams(username)),
                         Request(POST, LoginParams(username,
                           LoginAccessKey(ResultField(challengeResponse, "token"), accessKey, withPassword, f)))] &&
              r.client.serviceToken == ResultField(challengeResponse, "token")
    ensures r.result <==> Succeeded(challengeResponse) && Succeeded(loginResponse)
    ensures r.result ==>
              r.client.sessionId == ResultField(loginResponse, "sessionName") &&
              r.client.userId == ResultField(loginResponse, "userId") &&
              r.client.serviceUser == Str(username) && r.client.serviceKey == Str(accessKey)
    ensures !r.result ==>
              r.client.sessionId == c.sessionId && r.client.userId == c.userId &&
              r.client.serviceUser == c.serviceUser && r.client.serviceKey == c.serviceKey
    ensures Succeeded(challengeResponse) && !Succeeded(loginResponse) ==>
              r.client == Challenged(c, challengeResponse).(lastError := ErrorOf(loginResponse))
    ensures r.result ==>
              r.client == Challenged(c, challengeResponse).(
                            serviceUser := Str(username), serviceKey := Str(accessKey),
                            sessionId := ResultField(loginResponse, "sessionName"),
                            userId := ResultField(loginResponse, "userId"))
  {
    var ch := Challenge(c, username, challengeResponse);
    if !ch.result then ch
    else
      var c1 := ch.client;
      var sent := ch.sent + [Request(POST, LoginParams(username, LoginAccessKey(c1.serviceToken, accessKey, withPassword, f)))];
      var (err, c2) := HasError(c1, loginResponse);
      if err then Reply(sent, c2, false)
      else
        Reply(sent,
              c2.(serviceUser := Str(username), serviceKey := Str(accessKey),
                  sessionId := ResultField(loginResponse, "sessionName"),
                  userId := ResultField(loginResponse, "userId")),
              true)
  }

  /** `doLoginPortal`'s digest of token and password, chosen by name; md5 for any other name. */
  function PortalDigest(passwordHash: string, text: string, f: Foreign): (d: string)
    ensures passwordHash == "sha256" ==> d == f.sha256(text)
    ensures passwordHash == "sha512" ==> d == f.sha512(text)
    ensures passwordHash == "plaintext" ==> d == text
    ensures passwordHash != "sha256" && passwordHash != "sha512" && passwordHash != "plaintext" ==>
              d == f.md5(text)
  {
    if passwordHash == "sha256" then f.sha256(text)
    else if passwordHash == "sha512" then f.sha512(text)
    else if passwordHash == "plaintext" then text
    else f.md5(text)
  }

  function PortalParams(username: string, digest: string, entity: string): seq<Entry> {
    [Entry("operation", Str("loginPortal")), Entry("username", Str(username)),
     Entry("password", Str(digest)), Entry("entity", Str(entity))]
  }

  /** `$response['result']['user'][$field]`. */
  function PortalUser(response: Value, field: string): Value {
    Index(ResultField(response, "user"), field)
  }

  /**
   `doLoginPortal`: a fresh challenge, then GET `loginPortal` with the password
   digested together with the new token; on success take user name, access
   key, session, user id, contact id and language from the response.
   */
  function LoginPortal(c: Client, username: string, password: string, passwordHash: string, entity: string,
                       f: Foreign, challengeResponse: Value, loginResponse: Value): (r: Reply<bool>)
    ensures !Succeeded(challengeResponse) ==>
              r.sent == [Request(GET, ChallengeParams(username))] && !r.result &&
              r.client == c.(lastError := ErrorOf(challengeResponse))
    ensures Succeeded(challengeResponse) ==>
              r.sent == [Request(GET, ChallengeParams(username)),
                         Request(GET, PortalParams(username,
                           PortalDigest(passwordHash, ToStr(ResultField(challengeResponse, "token")) + password, f),
                           entity))]
    ensures r.result <==> Succeeded(challengeResponse) && Succeeded(loginResponse)
    ensures r.result ==>
              r.client.sessionId == ResultField(loginResponse, "sessionName") &&
              r.client.userId == PortalUser(loginResponse, "id") &&
              r.client.serviceUser == PortalUser(loginResponse, "user_name") &&
              r.client.serviceKey == PortalUser(loginResponse, "accesskey") &&
              r.client.entityId == PortalUser(loginResponse, "contactid") &&
              r.client.language == PortalUser(loginResponse, "language")
    ensures !r.result ==>
              r.client.sessionId == c.sessionId && r.client.userId == c.userId &&
              r.client.serviceUser == c.serviceUser && r.client.serviceKey == c.serviceKey &&
              r.client.entityId == c.entityId && r.client.language == c.language
    ensures Succeeded(challengeResponse) && !Succeeded(loginResponse) ==>
              r.client == Challenged(c, challengeResponse).(lastError := ErrorOf(loginResponse))
    ensures r.result ==>
              r.client == Challenged(c, challengeResponse).(
                            serviceUser := PortalUser(loginResponse, "user_name"),
                            serviceKey := PortalUser(loginResponse, "accesskey"),
                            sessionId := ResultField(loginResponse, "sessionName"),
                            userId := PortalUser(loginResponse, "id"),
                            entityId := PortalUser(loginResponse, "contactid"),
                            language := PortalUser(loginResponse, "language"))
  {
    var ch := Challenge(c, username, challengeResponse);
    if !ch.result then ch
    else
      var c1 := ch.client;
      var digest := PortalDigest(passwordHash, ToStr(c1.serviceToken) + password, f);
      var sent := ch.sent + [Request(GET, PortalParams(username, digest, entity))];
      var (err, c2) := HasError(c1, loginResponse);
      if err then Reply(sent, c2, false)
      else
        Reply(sent,
              c2.(serviceUser := PortalUser(loginResponse, "user_name"),
                  serviceKey := PortalUser(loginResponse, "accesskey"),
                  sessionId := ResultField(loginResponse, "sessionName"),
                  userId := PortalUser(loginResponse, "id"),
                  entityId := PortalUser(loginResponse, "contactid"),
                  language := PortalUser(loginResponse, "language")),
              true)
  }

  function SessionLoginParams(username: string, loggedInAt: Value, hash: string, sessionId: Value): seq<Entry> {
    [Entry("operation", Str("loginSession")), Entry("username", Str(username)), Entry("loggedinat", loggedInAt),
     Entry("hashaccess", Str(hash)), Entry("sessionid", sessionId)]
  }

  /**
   `doLoginSession`: a fresh challenge, then GET `loginSession` with the sha512
   of the new token and the key; it only reports the outcome and adopts no
   session.
   */
  function LoginSession(c: Client, username: string, loggedInAt: Value, pkey: string, sessionId: Value,
                        f: Foreign, challengeResponse: Value, loginResponse: Value): (r: Reply<bool>)
    ensures !Succeeded(challengeResponse) ==>
              r.sent == [Request(GET, ChallengeParams(username))] && !r.result &&
              r.client == c.(lastError := ErrorOf(challengeResponse))
    ensures Succeeded(challengeResponse) ==>
              r.sent == [Request(GET, ChallengeParams(username)),
                         Request(GET, SessionLoginParams(username, loggedInAt,
                           f.sha512(ToStr(ResultField(challengeResponse, "token")) + pkey), sessionId))]
    ensures r.result <==> Succeeded(challengeResponse) && Succeeded(loginResponse)
    ensures r.client.sessionId == c.sessionId && r.client.userId == c.userId &&
            r.client.serviceUser == c.serviceUser && r.client.serviceKey == c.serviceKey
    ensures Succeeded(challengeResponse) ==>
              r.client == Challenged(c, challengeResponse).(
                            lastError := if r.result then Unset else ErrorOf(loginResponse))
  {
    var ch := Challenge(c, username, challengeResponse);
    if !ch.result then ch
    else
      var c1 := ch.client;
      var params := SessionLoginParams(username, loggedInAt, f.sha512(ToStr(c1.serviceToken) + pkey), sessionId);
      var (err, c2) := HasError(c1, loginResponse);
      Reply(ch.sent + [Request(GET, params)], c2, !err)
  }

  /**
   `doLogout`: POST `logout` with the current session. The client keeps every
   session field whatever the server answers.
   */
  function Logout(c: Client, response: Value): (r: Reply<Value>)
    ensures r.sent == [Request(POST, SessionParams(c, "logout"))]
    ensures r.client == c.(lastError := if Succeeded(response) then Unset else ErrorOf(response))
    ensures r.result == (if Succeeded(response) then Index(response, "result") else Bool(false))
  {
    Send(c, POST, SessionParams(c, "logout"), response)
  }

  // ---------------------------------------------------------------------------
  // Queries and result reshaping
  // ---------------------------------------------------------------------------

  /**
   The query clean-up of `doQuery`: trim, then append `;` when PHP's loose
   `strrpos($q, ';') != strlen($q) - 1` holds.
   */
  function NormalizeQuery(query: string): (q: string)
    ensures q == Trim(query) || q == Trim(query) + ";"
    ensures q == Trim(query) + ";" <==>
              !((|Trim(query)| > 0 && Trim(query)[|Trim(query)| - 1] == ';') ||
                (|Trim(query)| == 1 && ';' !in Trim(query)))
    ensures (|q| > 0 && q[|q| - 1] == ';') || (|Trim(query)| == 1 && q == Trim(query))
  {
    var t := Trim(query);
    LooseSuffixTest(t, ';');
    if LooseNotEqual(LastIndexOf(t, ';'), |t| - 1) then t + ";" else t
  }

  /** Normalising a normalised query changes nothing. */
  lemma NormalizeQueryIdempotent(query: string)
    ensures NormalizeQuery(NormalizeQuery(query)) == NormalizeQuery(query)
  {
    var t := Trim(query);
    var q := NormalizeQuery(query);
    assert |q| == 0 || (!IsTrimmed(q[0]) && !IsTrimmed(q[|q| - 1])) by {
      if q == t + ";" && |t| > 0 {
        assert q[0] == t[0];
      }
    }
    TrimOfTrimmed(q);
  }

  /** The loose comparison at work: a query that trims to one character other than `;` is sent bare. */
  lemma OneCharacterQueryGetsNoTerminator(query: string)
    requires |Trim(query)| == 1 && Trim(query) != ";"
    ensures NormalizeQuery(query) == Trim(query)
  {
  }

  /** An empty (or blank) query is sent as the bare terminator. */
  lemma BlankQueryBecomesTerminator(query: string)
    requires Trim(query) == ""
    ensures NormalizeQuery(query) == ";"
  {
  }

  function QueryParams(c: Client, query: string): seq<Entry> {
    SessionParams(c, "query") + [Entry("query", Str(NormalizeQuery(query)))]
  }

  /** `doQuery`: GET `query` with the normalised query; the payload is the result. */
  function Query(c: Client, query: string, response: Value): (r: Reply<Value>)
    ensures r.sent == [Request(GET, QueryParams(c, query))]
    ensures r.client == c.(lastError := if Succeeded(response) then Unset else ErrorOf(response))
    ensures r.result == (if Succeeded(response) then Index(response, "result") else Bool(false))
  {
    Send(c, GET, QueryParams(c, query), response)
  }

  /** `doQueryWithTotal`: as `doQuery`, but pairs the rows with `moreinfo.totalrows`. */
  function QueryWithTotal(c: Client, query: string, response: Value): (r: Reply<Value>)
    ensures r.sent == [Request(GET, QueryParams(c, query))]
    ensures r.client == c.(lastError := if Succeeded(response) then Unset else ErrorOf(response))
    ensures !Succeeded(response) ==> r.result == Bool(false)
    ensures Succeeded(response) ==>
              r.result.Arr? && Keys(r.result.entries) == ["result", "totalrows"] &&
              Index(r.result, "result") == Index(response, "result") &&
              Index(r.result, "totalrows") == Index(Index(response, "moreinfo"), "totalrows")
  {
    var s := Send(c, GET, QueryParams(c, query), response);
    if !Succeeded(response) then s
    else
      s.(result := Arr([Entry("result", s.result),
                        Entry("totalrows", Index(Index(response, "moreinfo"), "totalrows"))]))
  }

  /**
   `getResultColumns`: the field names of row 0 of a query result, in order;
   none for an empty result or when row 0 is not an array.
   */
  function ResultColumns(result: Value): (cols: seq<string>)
    ensures Empty(result) ==> cols == []
    ensures forall k :: k in cols <==> !Empty(result) && Index(result, "0").Arr? &&
                                       Lookup(Index(result, "0").entries, k).Some?
    ensures !Empty(result) && Index(result, "0").Arr? ==> |cols| == |Index(result, "0").entries|
    ensures !Empty(result) && Index(result, "0").Arr? ==> cols == Keys(Index(result, "0").entries)
  {
    if Empty(result) then []
    else
      match Index(result, "0")
      case Arr(row) => Keys(row)
      case _ => []
  }

  /**
   PHP's conversion of a value used as an array key: `null` is `""`, a
   boolean `"0"` or `"1"`, and an integer or string its text. PHP refuses an
   array or an object as a key; this model does not, and keys them by their
   string form.
   */
  function KeyOf(v: Value): (k: string)
    ensures v != Bool(false) ==> k == ToStr(v)
    ensures v == Bool(false) ==> k == "0"
  {
    match v
    case Bool(b) => if b then "1" else "0"
    case _ => ToStr(v)
  }

  /** The entry `doListTypes` makes of one module name. */
  function NameEntry(v: Value): Value {
    Arr([Entry("name", v)])
  }

  /** The name listed last among `names` whose key is `k`, if any. */
  function LastNamed(names: seq<Value>, k: string): (r: Option<Value>)
    ensures r.Some? <==> exists i :: 0 <= i < |names| && KeyOf(names[i]) == k
    ensures r.Some? ==> KeyOf(r.value) == k
  {
    if |names| == 0 then None
    else if KeyOf(names[|names| - 1]) == k then Some(names[|names| - 1])
    else
      var r := LastNamed(names[..|names| - 1], k);
      assert forall i :: 0 <= i < |names| - 1 ==> names[..|names| - 1][i] == names[i];
      r
  }

  /**
   The reshaping loop of `doListTypes`: each name `n` becomes the entry
   `n => ['name' => n]`, so a name listed twice keeps its first position and
   its last value.
   */
  function ModuleMap(names: seq<Value>): (m: seq<Entry>)
    ensures UniqueKeys(m)
  {
    if |names| == 0 then []
    else
      var init := names[..|names| - 1];
      var v := names[|names| - 1];
      var prefix := ModuleMap(init);
      PutUnique(prefix, KeyOf(v), NameEntry(v));
      Put(prefix, KeyOf(v), NameEntry(v))
  }

  /** Looking a name up in the reshaped list finds the entry made of the last module listed under it. */
  lemma {:induction false} ModuleMapLookup(names: seq<Value>, k: string)
    ensures Lookup(ModuleMap(names), k) == match LastNamed(names, k) case Some(v) => Some(NameEntry(v)) case None => None
  {
    if |names| > 0 {
      var init := names[..|names| - 1];
      var v := names[|names| - 1];
      ModuleMapLookup(init, k);
      assert ModuleMap(names) == Put(ModuleMap(init), KeyOf(v), NameEntry(v));
      if KeyOf(v) != k {
        assert LastNamed(names, k) == LastNamed(init, k);
      }
    }
  }

  function StrValues(names: seq<string>): (vs: seq<Value>)
    ensures |vs| == |names|
    ensures forall i :: 0 <= i < |names| ==> vs[i] == Str(names[i])
  {
    if |names| == 0 then [] else StrValues(names[..|names| - 1]) + [Str(names[|names| - 1])]
  }

  /** Distinct module names keep their order and are looked up under their own name. */
  lemma {:induction false} ModuleMapOfDistinctNames(names: seq<string>)
    requires Distinct(names)
    ensures Keys(ModuleMap(StrValues(names))) == names
  {
    if |names| > 0 {
      var n := |names| - 1;
      var init := names[..n];
      var last := names[n];
      assert names == init + [last];
      assert Distinct(init) by {
        assert forall i :: 0 <= i < n ==> init[i] == names[i];
      }
      assert last !in init by {
        assert forall i :: 0 <= i < n ==> init[i] == names[i] && names[i] != names[n];
      }
      ModuleMapOfDistinctNames(init);
      ModuleMapOfNewName(init, last);
    }
  }

  /** One more name, not seen before, is appended as a key of its own. */
  lemma ModuleMapOfNewName(init: seq<string>, last: string)
    requires Keys(ModuleMap(StrValues(init))) == init
    requires last !in init
    ensures Keys(ModuleMap(StrValues(init + [last]))) == init + [last]
  {
    StrValuesSnoc(init, last);
    ModuleMapSnoc(StrValues(init), Str(last));
    NewKeyAppended(ModuleMap(StrValues(init)), last, NameEntry(Str(last)));
  }

  lemma StrValuesSnoc(init: seq<string>, last: string)
    ensures StrValues(init + [last]) == StrValues(init) + [Str(last)]
  {
    assert (init + [last])[..|init|] == init;
  }

  lemma NewKeyAppended(es: seq<Entry>, k: string, v: Value)
    requires k !in Keys(es)
    ensures Keys(Put(es, k, v)) == Keys(es) + [k]
  {
  }

  /** One more name is assigned into the map of the names before it. */
  lemma ModuleMapSnoc(names: seq<Value>, v: Value)
    ensures ModuleMap(names + [v]) == Put(ModuleMap(names), KeyOf(v), NameEntry(v))
  {
    assert (names + [v])[..|names|] == names;
  }

  function ListTypesParams(c: Client, fieldTypeList: Value, f: Foreign): seq<Entry> {
    var ftl := if fieldTypeList.Arr? then Str(f.jsonEncode(fieldTypeList)) else fieldTypeList;
    SessionParams(c, "listtypes") + [Entry("fieldTypeList", ftl)]
  }

  /**
   `doListTypes`: GET `listtypes` (an array filter is JSON-encoded first); the
   payload's `types` list is reshaped by name.
   */
  function ListTypes(c: Client, fieldTypeList: Value, f: Foreign, response: Value): (r: Reply<Value>)
    ensures r.sent == [Request(GET, ListTypesParams(c, fieldTypeList, f))]
    ensures r.client == c.(lastError := if Succeeded(response) then Unset else ErrorOf(response))
    ensures !Succeeded(response) ==> r.result == Bool(false)
    ensures Succeeded(response) ==> r.result.Arr? && UniqueKeys(r.result.entries)
    ensures Succeeded(response) && !ResultField(response, "types").Arr? ==> r.result == Arr([])
    ensures Succeeded(response) && ResultField(response, "types").Arr? ==>
              r.result == Arr(ModuleMap(ValuesOf(ResultField(response, "types").entries)))
  {
    var s := Send(c, GET, ListTypesParams(c, fieldTypeList, f), response);
    if !Succeeded(response) then s
    else
      var types := ResultField(response, "types");
      s.(result := Arr(if types.Arr? then ModuleMap(ValuesOf(types.entries)) else []))
  }

  // ---------------------------------------------------------------------------
  // Record operations
  // ---------------------------------------------------------------------------

  /**
   The owner default of create, update, revise and upsert: `assigned_user_id`
   becomes the client's user id unless the caller set it (to a non-null value).
   */
  function FillOwner(fields: seq<Entry>, userId: Value): (r: seq<Entry>)
    ensures Isset(Arr(fields), "assigned_user_id") ==> r == fields
    ensures !Isset(Arr(fields), "assigned_user_id") ==> Lookup(r, "assigned_user_id") == Some(userId)
    ensures forall k :: k != "assigned_user_id" ==> Lookup(r, k) == Lookup(fields, k)
    ensures UniqueKeys(fields) ==> UniqueKeys(r)
  {
    PutUnique(fields, "assigned_user_id", userId);
    if Isset(Arr(fields), "assigned_user_id") then fields
    else Put(fields, "assigned_user_id", userId)
  }

  function ElementParams(c: Client, operation: string, moduleName: Value, fields: seq<Entry>, f: Foreign): seq<Entry> {
    SessionParams(c, operation) +
      [Entry("elementType", moduleName), Entry("element", Str(f.jsonEncode(Arr(FillOwner(fields, c.userId)))))]
  }

  /** The element sent by create, update, revise and upsert is the owner-filled field map. */
  lemma ElementParamsCarryOwner(c: Client, operation: string, moduleName: Value, fields: seq<Entry>, f: Foreign)
    ensures Lookup(ElementParams(c, operation, moduleName, fields, f), "operation") == Some(Str(operation))
    ensures Lookup(ElementParams(c, operation, moduleName, fields, f), "elementType") == Some(moduleName)
    ensures Lookup(ElementParams(c, operation, moduleName, fields, f), "element") ==
              Some(Str(f.jsonEncode(Arr(FillOwner(fields, c.userId)))))
  {
    var tail := [Entry("elementType", moduleName), Entry("element", Str(f.jsonEncode(Arr(FillOwner(fields, c.userId)))))];
    LookupAppend(SessionParams(c, operation), tail, "elementType");
    LookupAppend(SessionParams(c, operation), tail, "element");
  }

  /** The request shape shared by `doCreate`, `doUpdate` and `doRevise`. */
  function SendElement(c: Client, operation: string, moduleName: Value, fields: seq<Entry>, f: Foreign,
                       response: Value): (r: Reply<Value>)
    ensures r.sent == [Request(POST, WithOptions(ElementParams(c, operation, moduleName, fields, f), c.cbwsOptions))]
    ensures r.client == c.(cbwsOptions := [], lastError := if Succeeded(response) then Unset else ErrorOf(response))
    ensures r.result == (if Succeeded(response) then Index(response, "result") else Bool(false))
  {
    SendWithOptions(c, POST, ElementParams(c, operation, moduleName, fields, f), response)
  }

  /** `doCreate`: POST `create` with the owner-filled element, consuming the options. */
  function Create(c: Client, moduleName: Value, fields: seq<Entry>, f: Foreign, response: Value): (r: Reply<Value>)
    ensures r.sent == [Request(POST, WithOptions(ElementParams(c, "create", moduleName, fields, f), c.cbwsOptions))]
    ensures r.client == c.(cbwsOptions := [], lastError := if Succeeded(response) then Unset else ErrorOf(response))
    ensures r.result == (if Succeeded(response) then Index(response, "result") else Bool(false))
  {
    SendElement(c, "create", moduleName, fields, f, response)
  }

  /** `doUpdate`: POST `update` with the owner-filled element, consuming the options. */
  function Update(c: Client, moduleName: Value, fields: seq<Entry>, f: Foreign, response: Value): (r: Reply<Value>)
    ensures r.sent == [Request(POST, WithOptions(ElementParams(c, "update", moduleName, fields, f), c.cbwsOptions))]
    ensures r.client == c.(cbwsOptions := [], lastError := if Succeeded(response) then Unset else ErrorOf(response))
    ensures r.result == (if Succeeded(response) then Index(response, "result") else Bool(false))
  {
    SendElement(c, "update", moduleName, fields, f, response)
  }

  /** `doRevise`: POST `revise` with the owner-filled element, consuming the options. */
  function Revise(c: Client, moduleName: Value, fields: seq<Entry>, f: Foreign, response: Value): (r: Reply<Value>)
    ensures r.sent == [Request(POST, WithOptions(ElementParams(c, "revise", moduleName, fields, f), c.cbwsOptions))]
    ensures r.client == c.(cbwsOptions := [], lastError := if Succeeded(response) then Unset else ErrorOf(response))
    ensures r.result == (if Succeeded(response) then Index(response, "result") else Bool(false))
  {
    SendElement(c, "revise", moduleName, fields, f, response)
  }

  function UpsertParams(c: Client, moduleName: Value, createFields: seq<Entry>, searchOn: Value,
                        updateFields: seq<string>, f: Foreign): seq<Entry> {
    ElementParams(c, "upsert", moduleName, createFields, f) +
      [Entry("searchOn", searchOn), Entry("updatedfields", Str(Join(",", updateFields)))]
  }

  /** `doUpsert`: as create, plus the search field and the comma-joined update field list. */
  function Upsert(c: Client, moduleName: Value, createFields: seq<Entry>, searchOn: Value, updateFields: seq<string>,
                  f: Foreign, response: Value): (r: Reply<Value>)
    ensures r.sent == [Request(POST, WithOptions(UpsertParams(c, moduleName, createFields, searchOn, updateFields, f),
                                                 c.cbwsOptions))]
    ensures r.client == c.(cbwsOptions := [], lastError := if Succeeded(response) then Unset else ErrorOf(response))
    ensures r.result == (if Succeeded(response) then Index(response, "result") else Bool(false))
  {
    SendWithOptions(c, POST, UpsertParams(c, moduleName, createFields, searchOn, updateFields, f), response)
  }

  /** The server can split `updatedfields` back into the caller's list when no name holds a comma. */
  lemma UpsertFieldListRoundTrip(updateFields: seq<string>)
    requires |updateFields| >= 1
    requires forall i :: 0 <= i < |updateFields| ==> ',' !in updateFields[i]
    ensures Explode(Join(",", updateFields), ',') == updateFields
  {
    ExplodeJoin(updateFields, ',');
  }

  /**
   The record information `doValidateInformation` sends: `module` and `record`
   are filled in where empty; every other entry is kept.
   */
  function ValidationContext(record: Value, moduleName: Value, info: seq<Entry>): (r: seq<Entry>)
    ensures Lookup(r, "module") == Some(if Empty(Index(Arr(info), "module")) then moduleName else Index(Arr(info), "module"))
    ensures Lookup(r, "record") == Some(if Empty(Index(Arr(info), "record")) then record else Index(Arr(info), "record"))
    ensures forall k :: k != "module" && k != "record" ==> Lookup(r, k) == Lookup(info, k)
  {
    var m := if Empty(Index(Arr(info), "module")) then moduleName else Index(Arr(info), "module");
    var info1 := Put(info, "module", m);
    assert Index(Arr(info1), "record") == Index(Arr(info), "record");
    var rec := if Empty(Index(Arr(info1), "record")) then record else Index(Arr(info1), "record");
    Put(info1, "record", rec)
  }

  /** `doValidateInformation`: POST the JSON-encoded context, consuming the options. */
  function ValidateInformation(c: Client, record: Value, moduleName: Value, info: seq<Entry>, f: Foreign,
                               response: Value): (r: Reply<Value>)
    ensures r.sent == [Request(POST, WithOptions(SessionParams(c, "ValidateInformation") +
                         [Entry("context", Str(f.jsonEncode(Arr(ValidationContext(record, moduleName, info)))))],
                         c.cbwsOptions))]
    ensures r.client == c.(cbwsOptions := [], lastError := if Succeeded(response) then Unset else ErrorOf(response))
    ensures r.result == (if Succeeded(response) then Index(response, "result") else Bool(false))
  {
    var params := SessionParams(c, "ValidateInformation") +
                  [Entry("context", Str(f.jsonEncode(Arr(ValidationContext(record, moduleName, info)))))];
    SendWithOptions(c, POST, params, response)
  }

  /** `doDescribe`: GET `describe` for a module. */
  function Describe(c: Client, moduleName: Value, response: Value): (r: Reply<Value>)
    ensures r.sent == [Request(GET, SessionParams(c, "describe") + [Entry("elementType", moduleName)])]
    ensures r.client == c.(lastError := if Succeeded(response) then Unset else ErrorOf(response))
    ensures r.result == (if Succeeded(response) then Index(response, "result") else Bool(false))
  {
    Send(c, GET, SessionParams(c, "describe") + [Entry("elementType", moduleName)], response)
  }

  /** `doRetrieve`: GET `retrieve` for a record id. */
  function Retrieve(c: Client, record: Value, response: Value): (r: Reply<Value>)
    ensures r.sent == [Request(GET, SessionParams(c, "retrieve") + [Entry("id", record)])]
    ensures r.client == c.(lastError := if Succeeded(response) then Unset else ErrorOf(response))
    ensures r.result == (if Succeeded(response) then Index(response, "result") else Bool(false))
  {
    Send(c, GET, SessionParams(c, "retrieve") + [Entry("id", record)], response)
  }

  /** `doDelete`: POST `delete` for a record id. */
  function Delete(c: Client, record: Value, response: Value): (r: Reply<Value>)
    ensures r.sent == [Request(POST, SessionParams(c, "delete") + [Entry("id", record)])]
    ensures r.client == c.(lastError := if Succeeded(response) then Unset else ErrorOf(response))
    ensures r.result == (if Succeeded(response) then Index(response, "result") else Bool(false))
  {
    Send(c, POST, SessionParams(c, "delete") + [Entry("id", record)], response)
  }

  /** `doMassUpsert`, which sends the operation `MassCreate` and consumes the options. */
  function MassUpsert(c: Client, elements: Value, f: Foreign, response: Value): (r: Reply<Value>)
    ensures r.sent == [Request(POST, WithOptions(SessionParams(c, "MassCreate") +
                                                 [Entry("elements", Str(f.jsonEncode(elements)))], c.cbwsOptions))]
    ensures r.client == c.(cbwsOptions := [], lastError := if Succeeded(response) then Unset else ErrorOf(response))
    ensures r.result == (if Succeeded(response) then Index(response, "result") else Bool(false))
  {
    SendWithOptions(c, POST, SessionParams(c, "MassCreate") + [Entry("elements", Str(f.jsonEncode(elements)))], response)
  }

  /** `doMassRetrieve`: POST `MassRetrieve` with the ids as given. */
  function MassRetrieve(c: Client, ids: Value, response: Value): (r: Reply<Value>)
    ensures r.sent == [Request(POST, SessionParams(c, "MassRetrieve") + [Entry("ids", ids)])]
    ensures r.client == c.(lastError := if Succeeded(response) then Unset else ErrorOf(response))
    ensures r.result == (if Succeeded(response) then Index(response, "result") else Bool(false))
  {
    Send(c, POST, SessionParams(c, "MassRetrieve") + [Entry("ids", ids)], response)
  }

  /** `doMassUpdate`: POST `MassUpdate`, consuming the options. */
  function MassUpdate(c: Client, elements: Value, f: Foreign, response: Value): (r: Reply<Value>)
    ensures r.sent == [Request(POST, WithOptions(SessionParams(c, "MassUpdate") +
                                                 [Entry("elements", Str(f.jsonEncode(elements)))], c.cbwsOptions))]
    ensures r.client == c.(cbwsOptions := [], lastError := if Succeeded(response) then Unset else ErrorOf(response))
    ensures r.result == (if Succeeded(response) then Index(response, "result") else Bool(false))
  {
    SendWithOptions(c, POST, SessionParams(c, "MassUpdate") + [Entry("elements", Str(f.jsonEncode(elements)))], response)
  }

  /** `doMassDelete`: POST `MassDelete` with the ids as given. */
  function MassDelete(c: Client, ids: Value, response: Value): (r: Reply<Value>)
    ensures r.sent == [Request(POST, SessionParams(c, "MassDelete") + [Entry("ids", ids)])]
    ensures r.client == c.(lastError := if Succeeded(response) then Unset else ErrorOf(response))
    ensures r.result == (if Succeeded(response) then Index(response, "result") else Bool(false))
  {
    Send(c, POST, SessionParams(c, "MassDelete") + [Entry("ids", ids)], response)
  }

  function RelatedParams(c: Client, record: Value, moduleName: Value, relatedModule: Value, queryParameters: Value): seq<Entry> {
    SessionParams(c, "getRelatedRecords") +
      [Entry("id", record), Entry("module", moduleName), Entry("relatedModule", relatedModule),
       Entry("queryParameters", queryParameters)]
  }

  /** `doGetRelatedRecords`: POST `getRelatedRecords`; the payload's `records` is returned. */
  function GetRelatedRecords(c: Client, record: Value, moduleName: Value, relatedModule: Value,
                             queryParameters: Value, response: Value): (r: Reply<Value>)
    ensures r.sent == [Request(POST, RelatedParams(c, record, moduleName, relatedModule, queryParameters))]
    ensures r.client == c.(lastError := if Succeeded(response) then Unset else ErrorOf(response))
    ensures r.result == (if Succeeded(response) then ResultField(response, "records") else Bool(false))
  {
    var s := Send(c, POST, RelatedParams(c, record, moduleName, relatedModule, queryParameters), response);
    if !Succeeded(response) then s else s.(result := ResultField(response, "records"))
  }

  /** `doSetRelated`: POST `SetRelation` with the related ids JSON-encoded. */
  function SetRelated(c: Client, relateThisId: Value, withTheseIds: Value, f: Foreign, response: Value): (r: Reply<Value>)
    ensures r.sent == [Request(POST, SessionParams(c, "SetRelation") +
                                     [Entry("relate_this_id", relateThisId),
                                      Entry("with_these_ids", Str(f.jsonEncode(withTheseIds)))])]
    ensures r.client == c.(lastError := if Succeeded(response) then Unset else ErrorOf(response))
    ensures r.result == (if Succeeded(response) then Index(response, "result") else Bool(false))
  {
    Send(c, POST, SessionParams(c, "SetRelation") +
                  [Entry("relate_this_id", relateThisId), Entry("with_these_ids", Str(f.jsonEncode(withTheseIds)))],
         response)
  }

  // ---------------------------------------------------------------------------
  // Generic dispatch
  // ---------------------------------------------------------------------------

  /**
   The copy loop of `doInvoke`: each caller entry is assigned unless its key is
   already set to a non-null value.
   */
  function CopyUnset(send: seq<Entry>, params: seq<Entry>): (r: seq<Entry>)
    requires UniqueKeys(params)
    ensures forall k :: Isset(Arr(send), k) ==> Lookup(r, k) == Lookup(send, k)
    ensures forall k :: !Isset(Arr(send), k) && k in Keys(params) ==> Lookup(r, k) == Lookup(params, k)
    ensures forall k :: k !in Keys(params) ==> Lookup(r, k) == Lookup(send, k)
    ensures UniqueKeys(send) ==> UniqueKeys(r)
  {
    var r := Copy(send, params);
    forall k
      ensures Isset(Arr(send), k) ==> Lookup(r, k) == Lookup(send, k)
      ensures !Isset(Arr(send), k) && k in Keys(params) ==> Lookup(r, k) == Lookup(params, k)
      ensures k !in Keys(params) ==> Lookup(r, k) == Lookup(send, k)
    {
      CopyLookup(send, params, k);
    }
    CopyUnique(send, params);
    r
  }

  /** The loop of `CopyUnset`, parameter by parameter. */
  function Copy(send: seq<Entry>, params: seq<Entry>): seq<Entry>
    decreases |params|
  {
    if |params| == 0 then send
    else
      Copy(CopyStep(send, params[0]), params[1..])
  }

  /** One turn of the loop: assign `p` unless its key is already set. */
  function CopyStep(send: seq<Entry>, p: Entry): seq<Entry> {
    if Isset(Arr(send), p.key) then send else Put(send, p.key, p.val)
  }

  /** A turn leaves every other key as it was. */
  lemma CopyStepOther(send: seq<Entry>, p: Entry, k: string)
    requires k != p.key
    ensures Lookup(CopyStep(send, p), k) == Lookup(send, k)
    ensures Isset(Arr(CopyStep(send, p)), k) == Isset(Arr(send), k)
  {
  }

  lemma {:induction false} CopyLookup(send: seq<Entry>, params: seq<Entry>, k: string)
    requires UniqueKeys(params)
    ensures Isset(Arr(send), k) ==> Lookup(Copy(send, params), k) == Lookup(send, k)
    ensures !Isset(Arr(send), k) && k in Keys(params) ==> Lookup(Copy(send, params), k) == Lookup(params, k)
    ensures k !in Keys(params) ==> Lookup(Copy(send, params), k) == Lookup(send, k)
    decreases |params|, 1
  {
    if |params| > 0 {
      if k == params[0].key {
        CopyLookupFirst(send, params);
      } else {
        CopyLookupOther(send, params, k);
      }
    }
  }

  /** The first parameter's key: assigned if and only if it was not set, and never touched again. */
  lemma {:induction false} CopyLookupFirst(send: seq<Entry>, params: seq<Entry>)
    requires UniqueKeys(params) && |params| > 0
    ensures var k := params[0].key;
            Lookup(Copy(send, params), k) == if Isset(Arr(send), k) then Lookup(send, k) else Some(params[0].val)
    decreases |params|, 0
  {
    var p := params[0];
    var rest := params[1..];
    assert Keys(params) == [p.key] + Keys(rest);
    assert p.key !in Keys(rest);
    assert UniqueKeys(rest);
    var send1 := CopyStep(send, p);
    assert Copy(send, params) == Copy(send1, rest);
    CopyLookup(send1, rest, p.key);
  }

  /** Any other key: the step on the first parameter leaves it alone. */
  lemma {:induction false} CopyLookupOther(send: seq<Entry>, params: seq<Entry>, k: string)
    requires UniqueKeys(params) && |params| > 0 && k != params[0].key
    ensures Isset(Arr(send), k) ==> Lookup(Copy(send, params), k) == Lookup(send, k)
    ensures !Isset(Arr(send), k) && k in Keys(params) ==> Lookup(Copy(send, params), k) == Lookup(params, k)
    ensures k !in Keys(params) ==> Lookup(Copy(send, params), k) == Lookup(send, k)
    decreases |params|, 0
  {
    var p := params[0];
    var rest := params[1..];
    assert UniqueKeys(rest) && (k in Keys(params) <==> k in Keys(rest))
           && Lookup(params, k) == Lookup(rest, k) by {
      assert params == [p] + rest;
      KeysCons(p, rest);
      LookupCons(p, rest, k);
    }
    var send1 := CopyStep(send, p);
    assert Copy(send, params) == Copy(send1, rest);
    CopyStepOther(send, p, k);
    CopyLookup(send1, rest, k);
  }

  lemma {:induction false} CopyUnique(send: seq<Entry>, params: seq<Entry>)
    ensures UniqueKeys(send) ==> UniqueKeys(Copy(send, params))
    decreases |params|
  {
    if |params| > 0 {
      var p := params[0];
      PutUnique(send, p.key, p.val);
      CopyUnique(CopyStep(send, p), params[1..]);
    }
  }

  function InvokeVerb(requestType: string): (v: Verb)
    ensures v == POST <==> Upper(requestType) == "POST"
  {
    if Upper(requestType) == "POST" then POST else GET
  }

  /** What `doInvoke` puts on the wire before the options are attached. */
  function InvokeParams(c: Client, operationName: string, params: seq<Entry>): (p: seq<Entry>)
    requires UniqueKeys(params)
    ensures UniqueKeys(p)
    ensures Lookup(p, "operation") == Some(Str(operationName))
    ensures c.sessionId != Null ==> Lookup(p, "sessionName") == Some(c.sessionId)
    ensures c.sessionId == Null && "sessionName" in Keys(params) ==>
              Lookup(p, "sessionName") == Lookup(params, "sessionName")
    ensures c.sessionId == Null && "sessionName" !in Keys(params) ==> Lookup(p, "sessionName") == Some(Null)
    ensures forall k :: k != "operation" && k != "sessionName" ==> Lookup(p, k) == Lookup(params, k)
  {
    SessionParamsLookup(c, operationName);
    CopyUnset(SessionParams(c, operationName), params)
  }

  /** The session head names the operation and the session, and nothing else. */
  lemma SessionParamsLookup(c: Client, operation: string)
    ensures UniqueKeys(SessionParams(c, operation))
    ensures Lookup(SessionParams(c, operation), "operation") == Some(Str(operation))
    ensures Lookup(SessionParams(c, operation), "sessionName") == Some(c.sessionId)
    ensures Isset(Arr(SessionParams(c, operation)), "operation")
    ensures Isset(Arr(SessionParams(c, operation)), "sessionName") <==> c.sessionId != Null
    ensures forall k :: k != "operation" && k != "sessionName" ==> Lookup(SessionParams(c, operation), k) == None
  {
    var base := SessionParams(c, operation);
    assert Keys(base) == ["operation", "sessionName"];
  }

  /** What `doInvoke` sends: its parameters with the one-shot options attached. */
  function InvokeWire(c: Client, operationName: string, params: seq<Entry>): (p: seq<Entry>)
    requires UniqueKeys(params)
    ensures Lookup(p, "operation") == Some(Str(operationName))
    ensures c.sessionId != Null ==> Lookup(p, "sessionName") == Some(c.sessionId)
    ensures c.sessionId == Null && "sessionName" in Keys(params) ==>
              Lookup(p, "sessionName") == Lookup(params, "sessionName")
    ensures c.sessionId == Null && "sessionName" !in Keys(params) ==> Lookup(p, "sessionName") == Some(Null)
    ensures forall k :: k != "operation" && k != "sessionName" && k != "cbwsOptions" ==>
              Lookup(p, k) == Lookup(params, k)
    ensures |c.cbwsOptions| > 0 ==> Lookup(p, "cbwsOptions") == Some(Arr(c.cbwsOptions))
    ensures |c.cbwsOptions| == 0 ==> Lookup(p, "cbwsOptions") == Lookup(params, "cbwsOptions")
    ensures UniqueKeys(p)
  {
    var q := InvokeParams(c, operationName, params);
    var p := WithOptions(q, c.cbwsOptions);
    assert Lookup(p, "operation") == Lookup(q, "operation");
    assert Lookup(p, "sessionName") == Lookup(q, "sessionName");
    p
  }

  /**
   `doInvoke`: the operation name and the session handle, then every caller
   entry that does not collide with a set key, then the one-shot options; POST
   when the type upper-cases to "POST", otherwise GET.
   */
  function Invoke(c: Client, operationName: string, params: seq<Entry>, requestType: string, response: Value): (r: Reply<Value>)
    requires UniqueKeys(params)
    ensures |r.sent| == 1
    ensures r.sent[0].verb == POST <==> Upper(requestType) == "POST"
    ensures Lookup(r.sent[0].params, "operation") == Some(Str(operationName))
    ensures c.sessionId != Null ==> Lookup(r.sent[0].params, "sessionName") == Some(c.sessionId)
    ensures c.sessionId == Null && "sessionName" in Keys(params) ==>
              Lookup(r.sent[0].params, "sessionName") == Lookup(params, "sessionName")
    ensures c.sessionId == Null && "sessionName" !in Keys(params) ==> Lookup(r.sent[0].params, "sessionName") == Some(Null)
    ensures forall k :: k != "operation" && k != "sessionName" && k != "cbwsOptions" ==>
              Lookup(r.sent[0].params, k) == Lookup(params, k)
    ensures |c.cbwsOptions| > 0 ==> Lookup(r.sent[0].params, "cbwsOptions") == Some(Arr(c.cbwsOptions))
    ensures |c.cbwsOptions| == 0 ==> Lookup(r.sent[0].params, "cbwsOptions") == Lookup(params, "cbwsOptions")
    ensures UniqueKeys(r.sent[0].params)
    ensures r.client == c.(cbwsOptions := [], lastError := if Succeeded(response) then Unset else ErrorOf(response))
    ensures r.result == (if Succeeded(response) then Index(response, "result") else Bool(false))
  {
    var r := SendWithOptions(c, InvokeVerb(requestType), InvokeParams(c, operationName, params), response);
    assert r.sent[0].params == InvokeWire(c, operationName, params);
    r
  }

  /** The options bag is used once: after one consuming call the next attaches nothing of its own. */
  lemma OptionsConsumedOnce(c: Client, m1: string, m2: string, params: seq<Entry>, resp1: Value, resp2: Value)
    requires UniqueKeys(params)
    requires "cbwsOptions" !in Keys(params)
    ensures var first := Invoke(c, m1, params, "POST", resp1);
            var second := Invoke(first.client, m2, params, "POST", resp2);
            Lookup(second.sent[0].params, "cbwsOptions") == None
  {
  }

  /** Requests that do not consume the options leave them for the next one that does. */
  lemma OptionsSurviveQuery(c: Client, query: string, resp1: Value, moduleName: Value, fields: seq<Entry>,
                            f: Foreign, resp2: Value)
    requires |c.cbwsOptions| > 0
    ensures var q := Query(c, query, resp1);
            var cr := Create(q.client, moduleName, fields, f, resp2);
            Lookup(cr.sent[0].params, "cbwsOptions") == Some(Arr(c.cbwsOptions))
  {
  }

  /**
   With a server that answers with a success envelope, `create` returns its
   payload and sends the element type and, as owner of a record that named
   none, the session's user.
   */
  lemma CreateFillsOwner(c: Client, moduleName: Value, fields: seq<Entry>, f: Foreign, payload: Value)
    requires !Isset(Arr(fields), "assigned_user_id")
    ensures var r := Create(c, moduleName, fields, f, SuccessEnvelope(payload));
            r.result == payload &&
            Lookup(r.sent[0].params, "elementType") == Some(moduleName) &&
            Lookup(FillOwner(fields, c.userId), "assigned_user_id") == Some(c.userId) &&
            Lookup(r.sent[0].params, "element") == Some(Str(f.jsonEncode(Arr(FillOwner(fields, c.userId)))))
  {
    var params := ElementParams(c, "create", moduleName, fields, f);
    ElementParamsCarryOwner(c, "create", moduleName, fields, f);
    assert Lookup(WithOptions(params, c.cbwsOptions), "elementType") == Lookup(params, "elementType");
    assert Lookup(WithOptions(params, c.cbwsOptions), "element") == Lookup(params, "element");
  }
}
