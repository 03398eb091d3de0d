/** Discovery of a Socket Agent descriptor (src-tauri/src/api/discovery.rs):
    probing `<origin>/.well-known/socket-agent`, validating what comes back,
    and resolving a symbolic endpoint reference against the descriptor. */
module Discovery {
  import opened Wrappers
  import opened Text

  datatype Endpoint = Endpoint(
    path: string,
    httpMethod: Option<string>,
    operationId: Option<string>,
    summary: Option<string>,
    description: Option<string>)

  datatype SocketAgentDescriptor = SocketAgentDescriptor(
    name: string,
    description: Option<string>,
    baseUrl: Option<string>,
    endpoints: seq<Endpoint>,
    context: Option<Json>)

  const WellKnownPath: string := "/.well-known/socket-agent"

  /** What the probe GET produced: no response at all (connection refused,
      DNS failure, timeout), or a status with the body deserialised into a
      descriptor (`None` when the body is not JSON of the descriptor's shape,
      which includes a missing `name`, `endpoints` or endpoint `path`). */
  datatype ProbeResponse =
    | ConnectFailed
    | Status(code: StatusCode, payload: Option<SocketAgentDescriptor>)

  datatype DiscoveryError =
    | ConnectionFailed
    | NoSocketAgent(url: string)
    | HttpStatus(code: StatusCode)
    | ParseFailed
    | MissingRequiredFields
  {
    function Message(): string {
      match this
      case ConnectionFailed => "Failed to connect to server"
      case NoSocketAgent(url) =>
        "No Socket Agent API found at " + url + ". Make sure it's a Socket Agent compliant API."
      case HttpStatus(code) => "HTTP " + NatToString(code)
      case ParseFailed => "Failed to parse Socket Agent descriptor"
      case MissingRequiredFields => "Invalid Socket Agent descriptor: missing required fields"
    }
  }

  /** The probe URL: every trailing '/' of the given URL removed, then the well-known path. */
  function ProbeUrl(baseUrl: string): (r: string)
    ensures |r| >= |WellKnownPath| && r[|r| - |WellKnownPath|..] == WellKnownPath
    ensures var base := r[..|r| - |WellKnownPath|];
      && StartsWith(baseUrl, base)
      && (|base| == 0 || base[|base| - 1] != '/')
      && forall i :: |base| <= i < |baseUrl| ==> baseUrl[i] == '/'
  {
    var base := TrimEnd(baseUrl, '/');
    var r := base + WellKnownPath;
    assert r[..|base|] == base && r[|base|..] == WellKnownPath;
    r
  }

  /** Any number of trailing slashes on the input leads to the same probe URL. */
  lemma ProbeUrlIgnoresTrailingSlash(baseUrl: string)
    ensures ProbeUrl(baseUrl + "/") == ProbeUrl(baseUrl)
    ensures ProbeUrl(TrimEnd(baseUrl, '/')) == ProbeUrl(baseUrl)
  {
    TrimEndAppend(baseUrl, '/');
    TrimEndIdempotent(baseUrl, '/');
  }

  /** The required-field check of discover_socket_agent. */
  predicate HasRequiredFields(d: SocketAgentDescriptor) {
    d.name != "" && |d.endpoints| > 0
  }

  /** What discovery admits: the required fields filled in and a base URL present. */
  predicate Admitted(d: SocketAgentDescriptor) {
    HasRequiredFields(d) && d.baseUrl.Some?
  }

  /** `discover_socket_agent`: the network is the `probe` parameter, applied to
      the probe URL. Every failing check returns early; the one in-place
      patch is the default base URL. */
  method DiscoverSocketAgent(baseUrl: string, probe: string -> ProbeResponse)
    returns (r: Result<SocketAgentDescriptor, DiscoveryError>)
    ensures probe(ProbeUrl(baseUrl)).ConnectFailed? ==> r == Err(ConnectionFailed)
    ensures var resp := probe(ProbeUrl(baseUrl));
      resp.Status? && resp.code == 404 ==> r == Err(NoSocketAgent(baseUrl))
    ensures var resp := probe(ProbeUrl(baseUrl));
      resp.Status? && !IsSuccess(resp.code) && resp.code != 404 ==> r == Err(HttpStatus(resp.code))
    ensures var resp := probe(ProbeUrl(baseUrl));
      resp.Status? && IsSuccess(resp.code) && resp.payload.None? ==> r == Err(ParseFailed)
    ensures var resp := probe(ProbeUrl(baseUrl));
      resp.Status? && IsSuccess(resp.code) && resp.payload.Some? && !HasRequiredFields(resp.payload.value)
      ==> r == Err(MissingRequiredFields)
    ensures var resp := probe(ProbeUrl(baseUrl));
      r.Ok? <==> resp.Status? && IsSuccess(resp.code) && resp.payload.Some? && HasRequiredFields(resp.payload.value)
    ensures r.Ok? ==> Admitted(r.value)
    ensures var resp := probe(ProbeUrl(baseUrl));
      r.Ok? ==> r.value.(baseUrl := resp.payload.value.baseUrl) == resp.payload.value
    ensures var resp := probe(ProbeUrl(baseUrl));
      r.Ok? ==> (r.value.baseUrl ==
                 if resp.payload.value.baseUrl.Some? then resp.payload.value.baseUrl else Some(TrimEnd(baseUrl, '/')))
  {
    var url := TrimEnd(baseUrl, '/');
    var discoveryUrl := url + WellKnownPath;
    var response := probe(discoveryUrl);
    if response.ConnectFailed? {
      return Err(ConnectionFailed);
    }
    if !IsSuccess(response.code) {
      if response.code == 404 {
        return Err(NoSocketAgent(baseUrl));
      } else {
        return Err(HttpStatus(response.code));
      }
    }
    if response.payload.None? {
      return Err(ParseFailed);
    }
    var descriptor := response.payload.value;
    if descriptor.name == "" || |descriptor.endpoints| == 0 {
      return Err(MissingRequiredFields);
    }
    if descriptor.baseUrl.None? {
      descriptor := descriptor.(baseUrl := Some(url));
    }
    return Ok(descriptor);
  }

  /** The closure given to `find` in get_endpoint: the reference equals the
      operationId, or the path, or, only when a method is declared, `method:path`. */
  predicate Matches(ep: Endpoint, endpointId: string) {
    || (ep.operationId.Some? && ep.operationId.value == endpointId)
    || ep.path == endpointId
    || (ep.httpMethod.Some? && ep.httpMethod.value + ":" + ep.path == endpointId)
  }

  /** Index of the first endpoint, in list order, that matches. */
  function FindFirst(endpoints: seq<Endpoint>, endpointId: string): (r: Option<nat>)
    ensures r.Some? ==> r.value < |endpoints| && Matches(endpoints[r.value], endpointId)
    ensures r.Some? ==> forall j :: 0 <= j < r.value ==> !Matches(endpoints[j], endpointId)
    ensures r.None? <==> forall j :: 0 <= j < |endpoints| ==> !Matches(endpoints[j], endpointId)
    decreases |endpoints|
  {
    if |endpoints| == 0 then None
    else if Matches(endpoints[0], endpointId) then Some(0)
    else match FindFirst(endpoints[1..], endpointId)
      case None => None
      case Some(k) => Some(k + 1)
  }

  /** `get_endpoint`: the first endpoint in list order that matches on any of
      the three tests; `None` exactly when no endpoint matches. */
  function GetEndpoint(descriptor: SocketAgentDescriptor, endpointId: string): (r: Option<Endpoint>)
    ensures r.None? <==> forall j :: 0 <= j < |descriptor.endpoints| ==> !Matches(descriptor.endpoints[j], endpointId)
    ensures r.Some? ==> r.value in descriptor.endpoints && Matches(r.value, endpointId)
    ensures r.Some? ==> exists i :: (0 <= i < |descriptor.endpoints| && descriptor.endpoints[i] == r.value &&
                                     forall j :: 0 <= j < i ==> !Matches(descriptor.endpoints[j], endpointId))
  {
    match FindFirst(descriptor.endpoints, endpointId)
    case None => None
    case Some(i) => Some(descriptor.endpoints[i])
  }

  /** Without a declared method only the operationId and path tests can match. */
  lemma MethodPathTestNeedsMethod(ep: Endpoint, endpointId: string)
    requires ep.httpMethod.None?
    ensures Matches(ep, endpointId) <==>
      (ep.operationId == Some(endpointId) || ep.path == endpointId)
  {
  }

  /** List order decides, not the kind of test: an endpoint matched by path
      wins over a later endpoint matched by operationId. */
  lemma ListOrderBeatsMatchKind()
    ensures var byPath := Endpoint("search", None, None, None, None);
      var byId := Endpoint("/search", Some("GET"), Some("search"), None, None);
      var d := SocketAgentDescriptor("Shop", None, None, [byPath, byId], None);
      GetEndpoint(d, "search") == Some(byPath)
  {
  }

  /** A reference of the form `method:path` resolves to an endpoint declaring that method and path. */
  lemma MethodPathReference()
    ensures var list := Endpoint("/products", Some("GET"), Some("list_products"), None, None);
      var add := Endpoint("/products", Some("POST"), Some("add_product"), None, None);
      var d := SocketAgentDescriptor("Shop", None, None, [list, add], None);
      GetEndpoint(d, "POST:/products") == Some(add) && GetEndpoint(d, "/products") == Some(list)
  {
  }
}
