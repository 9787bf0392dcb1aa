/** ApiKeyAuthenticationService: checks a presented API key against the
    configured one and builds the principal of an authenticated caller. */
module ApiKeys {
  import opened Wrappers
  import opened Text
  import opened Http

  /** ClaimTypes.Name and ClaimTypes.AuthenticationMethod. */
  const NameClaimType: string := "http://schemas.xmlsoap.org/ws/2005/05/identity/claims/name"
  const AuthenticationMethodClaimType: string := "http://schemas.microsoft.com/ws/2008/06/identity/claims/authenticationmethod"
  const ApiKeyClaimType: string := "ApiKey"
  const ApiUser: string := "ApiUser"
  /** The authentication method and the identity's authentication type. */
  const ApiKeyScheme: string := "ApiKey"

  class ApiKeyAuthenticationService {
    /** The configuration value ApiSettings:ApiKey; None when it is not set. */
    const configuredKey: Option<string>

    constructor (configuredKey: Option<string>)
      ensures this.configuredKey == configuredKey
    {
      this.configuredKey := configuredKey;
    }

    /** A key is accepted when it is present and not empty, a key is
        configured and not empty, and the two agree ignoring case. */
    function ValidateApiKey(apiKey: Option<string>): (ok: bool)
      ensures ok <==> apiKey.Some? && apiKey.value != []
                      && configuredKey.Some? && configuredKey.value != []
                      && Lower(apiKey.value) == Lower(configuredKey.value)
    {
      if apiKey.None? || apiKey.value == [] then false
      else if configuredKey.None? || configuredKey.value == [] then false
      else
        EqualsIgnoreCaseIsLowerEquality(apiKey.value, configuredKey.value);
        EqualsIgnoreCase(apiKey.value, configuredKey.value)
    }

    /** The principal of a caller that presented the given key: an
        authenticated identity named ApiUser that carries the key. */
    function CreatePrincipal(apiKey: string): (p: Principal)
      ensures |p.identities| == 1 && |p.identities[0].claims| == 3
      ensures p.identities[0].authenticationType == Some(ApiKeyScheme) && p.IsAuthenticated()
      ensures p.FindFirst(NameClaimType) == Some(ApiUser)
      ensures p.FindFirst(AuthenticationMethodClaimType) == Some(ApiKeyScheme)
      ensures p.FindFirst(ApiKeyClaimType) == Some(apiKey)
    {
      var claims := [
        Claim(NameClaimType, ApiUser),
        Claim(AuthenticationMethodClaimType, ApiKeyScheme),
        Claim(ApiKeyClaimType, apiKey)
      ];
      Principal([Identity(claims, Some(ApiKeyScheme))])
    }
  }

  /** With no key configured, or an empty one, every request key is refused. */
  lemma NothingConfiguredRefusesAll(service: ApiKeyAuthenticationService, apiKey: Option<string>)
    requires service.configuredKey.None? || service.configuredKey == Some([])
    ensures !service.ValidateApiKey(apiKey)
  {
  }

  /** Changing the letter case of a key never changes whether it is accepted. */
  lemma AcceptanceIgnoresCase(service: ApiKeyAuthenticationService, a: string, b: string)
    requires EqualsIgnoreCase(a, b)
    ensures service.ValidateApiKey(Some(a)) == service.ValidateApiKey(Some(b))
  {
    EqualsIgnoreCaseIsLowerEquality(a, b);
  }

  /** With a key configured, the accepted keys are exactly the non-empty
      strings equal to it ignoring case. */
  lemma AcceptedKeys(service: ApiKeyAuthenticationService, apiKey: string)
    requires service.configuredKey.Some? && service.configuredKey.value != []
    ensures service.ValidateApiKey(Some(apiKey)) <==>
              apiKey != [] && EqualsIgnoreCase(apiKey, service.configuredKey.value)
  {
    EqualsIgnoreCaseIsLowerEquality(apiKey, service.configuredKey.value);
  }
}

/** ApiKeyAuthenticationMiddleware: lets documentation and health requests
    through, and otherwise demands a valid API key from the X-API-Key header
    or, when that header is absent, the apiKey query parameter. */
module Authentication {
  import opened Wrappers
  import opened Text
  import opened Http
  import opened ApiKeys

  const SwaggerPath: string := "/swagger"
  const ApiDocsPath: string := "/api-docs"
  const HealthPath: string := "/health"
  const ApiKeyHeader: string := "X-API-Key"
  const ApiKeyParameter: string := "apiKey"
  const Unauthorized: int := 401
  const KeyRequired: string := "API key is required"
  const KeyInvalid: string := "Invalid API key"

  /** Paths that need no key: Swagger, the API documents and health checks. */
  predicate IsOpen(path: string)
    ensures IsOpen(path) ==> 7 <= |path| && path[0] == '/'
  {
    StartsWithSegments(path, SwaggerPath) || StartsWithSegments(path, ApiDocsPath)
    || StartsWithSegments(path, HealthPath)
  }

  /** The presented key: the first value of the X-API-Key header when the
      header is there (an empty header is the empty string), otherwise the first value of
      the apiKey query parameter. */
  function PresentedKey(headers: Collection, query: Collection): (k: Option<string>)
    ensures TryGetValue(headers, ApiKeyHeader).Some? ==> k == FirstOrDefault(TryGetValue(headers, ApiKeyHeader).value)
    ensures TryGetValue(headers, ApiKeyHeader).None? && TryGetValue(query, ApiKeyParameter).Some? ==>
              k == FirstOrDefault(TryGetValue(query, ApiKeyParameter).value)
    ensures TryGetValue(headers, ApiKeyHeader).None? && TryGetValue(query, ApiKeyParameter).None? ==> k == None
  {
    match TryGetValue(headers, ApiKeyHeader)
    case Some(values) => FirstOrDefault(values)
    case None =>
      match TryGetValue(query, ApiKeyParameter)
      case Some(values) => FirstOrDefault(values)
      case None => None
  }

  /** What the middleware does with one request. */
  datatype Decision =
    | PassThrough
    | Refuse(message: string)
    | Admit(user: Principal)

  /** The decision InvokeAsync takes: exactly the open paths pass through,
      whatever the request carries. AdmittedOnlyWithValidKey says when a request on a
      protected path is admitted and why one is refused. */
  function Decide(path: string, headers: Collection, query: Collection,
                  service: ApiKeyAuthenticationService): (d: Decision)
    ensures d.PassThrough? <==> IsOpen(path)
  {
    if IsOpen(path) then PassThrough
    else
      var key := PresentedKey(headers, query);
      if key.None? || key.value == [] then Refuse(KeyRequired)
      else if !service.ValidateApiKey(key) then Refuse(KeyInvalid)
      else Admit(service.CreatePrincipal(key.value))
  }

  /** A request to a protected path reaches the rest of the pipeline only
      with a key that matches the configured one ignoring case; the user it
      then carries is authenticated, named ApiUser and holds that key. */
  lemma AdmittedOnlyWithValidKey(path: string, headers: Collection, query: Collection,
                                 service: ApiKeyAuthenticationService)
    requires !IsOpen(path)
    ensures Decide(path, headers, query, service).Admit? <==>
              service.ValidateApiKey(PresentedKey(headers, query))
    ensures Decide(path, headers, query, service).Admit? ==>
              var user := Decide(path, headers, query, service).user;
              user.IsAuthenticated() && user.FindFirst(NameClaimType) == Some(ApiUser)
              && Some(user.FindFirst(ApiKeyClaimType).value) == PresentedKey(headers, query)
              && Lower(user.FindFirst(ApiKeyClaimType).value) == Lower(service.configuredKey.value)
    ensures Decide(path, headers, query, service).Refuse? ==>
              Decide(path, headers, query, service).message ==
                (if PresentedKey(headers, query).None? || PresentedKey(headers, query) == Some([])
                 then KeyRequired else KeyInvalid)
  {
  }

  /** On an open path the key, the query string and the configured key play
      no part: every such request passes through. */
  lemma OpenPathsIgnoreKeys(path: string, headers: Collection, query: Collection,
                            service: ApiKeyAuthenticationService,
                            headers': Collection, query': Collection,
                            service': ApiKeyAuthenticationService)
    requires IsOpen(path)
    ensures Decide(path, headers, query, service) == Decide(path, headers', query', service') == PassThrough
  {
  }

  /** Whether a path is open does not depend on its letter case. */
  lemma OpennessIgnoresCase(path: string, path': string)
    requires Lower(path) == Lower(path')
    ensures IsOpen(path) == IsOpen(path')
  {
    SegmentsIgnoreCase(path, path', SwaggerPath);
    SegmentsIgnoreCase(path, path', ApiDocsPath);
    SegmentsIgnoreCase(path, path', HealthPath);
  }

  /** An X-API-Key header, in any letter case, decides on its own: a key in
      the query string is then never looked at. */
  lemma HeaderShadowsQuery(headers: Collection, query: Collection, query': Collection)
    requires exists e :: e in headers && Lower(e.0) == Lower(ApiKeyHeader)
    ensures PresentedKey(headers, query) == PresentedKey(headers, query')
  {
  }

  /** The todo endpoints are protected. */
  lemma TodosIsProtected()
    ensures !IsOpen("/api/todos")
  {
    NotSegmentAt("/api/todos", SwaggerPath, 1);
    NotSegmentAt("/api/todos", ApiDocsPath, 4);
    NotSegmentAt("/api/todos", HealthPath, 1);
  }

  /** A header present but empty is refused as a missing key even when the
      query string carries the right key, which alone would be admitted. */
  lemma EmptyHeaderIgnoresQuery(service: ApiKeyAuthenticationService, key: string)
    requires service.ValidateApiKey(Some(key))
    ensures Decide("/api/todos", [("x-api-key", [""])], [(ApiKeyParameter, [key])], service) == Refuse(KeyRequired)
    ensures Decide("/api/todos", [], [(ApiKeyParameter, [key])], service).Admit?
  {
    TodosIsProtected();
    EmptyHeaderPresentsEmptyKey([(ApiKeyParameter, [key])]);
    QueryPresentsKey(key);
  }

  lemma EmptyHeaderPresentsEmptyKey(query: Collection)
    ensures PresentedKey([("x-api-key", [""])], query) == Some("")
  {
    assert TryGetValue([("x-api-key", [""])], ApiKeyHeader) == Some([""]) by {
      EqualsIgnoreCaseIsLowerEquality("x-api-key", ApiKeyHeader);
    }
  }

  lemma QueryPresentsKey(key: string)
    ensures PresentedKey([], [(ApiKeyParameter, [key])]) == Some(key)
  {
    assert TryGetValue([(ApiKeyParameter, [key])], ApiKeyParameter) == Some([key]) by {
      EqualsIgnoreCaseIsLowerEquality(ApiKeyParameter, ApiKeyParameter);
    }
  }

  /** The documentation and health paths exercised by the middleware's
      tests are open. */
  lemma SwaggerIsOpen()
    ensures IsOpen("/swagger/index.html")
  {
    assert "/swagger/index.html"[..|SwaggerPath|] == SwaggerPath;
    EqualsIgnoreCaseIsLowerEquality(SwaggerPath, SwaggerPath);
  }

  lemma ApiDocsIsOpen()
    ensures IsOpen("/api-docs/v1/swagger.json")
  {
    assert "/api-docs/v1/swagger.json"[..|ApiDocsPath|] == ApiDocsPath;
    EqualsIgnoreCaseIsLowerEquality(ApiDocsPath, ApiDocsPath);
  }

  lemma HealthIsOpen()
    ensures IsOpen("/health")
  {
    assert "/health"[..|HealthPath|] == HealthPath;
    EqualsIgnoreCaseIsLowerEquality(HealthPath, HealthPath);
  }

  /** Letter case does not matter. */
  lemma OpenIgnoresCase()
    ensures IsOpen("/SWAGGER")
  {
    assert "/SWAGGER"[..|SwaggerPath|] == "/SWAGGER";
    EqualsIgnoreCaseIsLowerEquality("/SWAGGER", SwaggerPath);
  }

  /** Only whole segments count: a longer name is not open. */
  lemma WholeSegmentsOnly()
    ensures !IsOpen("/swaggerui") && !IsOpen("/healthz")
  {
    NotSegmentAt("/swaggerui", ApiDocsPath, 1);
    NotSegmentAt("/swaggerui", HealthPath, 1);
    NotSegmentAt("/healthz", SwaggerPath, 1);
  }

  /** InvokeAsync: runs the next component exactly when the request is let
      through; a refusal answers 401 with its reason as text instead. */
  method InvokeAsync(context: HttpContext, service: ApiKeyAuthenticationService)
    modifies context
    ensures match Decide(context.path, context.headers, context.query, service)
      case PassThrough =>
        context.nextCalls == old(context.nextCalls) + 1 && context.user == old(context.user)
        && context.statusCode == old(context.statusCode) && context.body == old(context.body)
      case Refuse(message) =>
        context.nextCalls == old(context.nextCalls) && context.user == old(context.user)
        && context.statusCode == Unauthorized && context.body == old(context.body) + [Text(message)]
      case Admit(user) =>
        context.nextCalls == old(context.nextCalls) + 1 && context.user == Some(user)
        && context.statusCode == old(context.statusCode) && context.body == old(context.body)
    ensures context.contentType == old(context.contentType)
  {
    var decision := Decide(context.path, context.headers, context.query, service);
    match decision {
      case PassThrough =>
        context.Next();
      case Refuse(message) =>
        context.statusCode := Unauthorized;
        context.body := context.body + [Text(message)];
      case Admit(user) =>
        context.user := Some(user);
        context.Next();
    }
  }
}
