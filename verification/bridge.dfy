/** The Python bridge (src/python/bridge.py): a command-line entry point that
    discovers a Socket Agent API, calls one of its endpoints with a GET, or
    hands a descriptor to the website generator. The HTTP client, `json.loads`
    and the generator are parameters. */
module Bridge {
  import opened Wrappers
  import opened Text
  import Discovery

  /** The URL `discover_api` fetches. */
  function DiscoveryUrl(url: string): (r: string)
    ensures r == Discovery.ProbeUrl(url)
  {
    TrimEnd(url, '/') + "/.well-known/socket-agent"
  }

  /** The bridge and the desktop client probe the same URL for the same input,
      and trailing slashes do not change it. */
  lemma DiscoveryUrlNormalises(url: string)
    ensures DiscoveryUrl(url + "/") == DiscoveryUrl(url)
    ensures StartsWith(DiscoveryUrl(url), TrimEnd(url, '/'))
  {
    Discovery.ProbeUrlIgnoresTrailingSlash(url);
    assert DiscoveryUrl(url)[..|TrimEnd(url, '/')|] == TrimEnd(url, '/');
  }

  /** The `call_api` URL: a leading '/' of the endpoint is kept as the
      separator, otherwise one '/' is inserted. */
  function CallApiUrl(url: string, endpoint: string): (r: string)
    ensures r == TrimEnd(url, '/') + "/" + (if StartsWith(endpoint, "/") then endpoint[1..] else endpoint)
  {
    if StartsWith(endpoint, "/") then TrimEnd(url, '/') + endpoint
    else TrimEnd(url, '/') + "/" + endpoint
  }

  /** Exactly one '/' separates the trimmed base from an endpoint that starts
      with at most one '/'. */
  lemma CallApiUrlSeparator(url: string, endpoint: string)
    requires !StartsWith(endpoint, "//")
    ensures var base := TrimEnd(url, '/');
      var rest := CallApiUrl(url, endpoint)[|base| + 1..];
      && StartsWith(CallApiUrl(url, endpoint), base + "/")
      && (|base| == 0 || base[|base| - 1] != '/')
      && (|rest| == 0 || rest[0] != '/')
  {
    var base := TrimEnd(url, '/');
    var r := CallApiUrl(url, endpoint);
    var tail := if StartsWith(endpoint, "/") then endpoint[1..] else endpoint;
    assert r == base + "/" + tail;
    assert r[..|base| + 1] == base + "/";
    assert r[|base| + 1..] == tail;
    if StartsWith(endpoint, "/") && |tail| > 0 {
      assert endpoint[..2] == "/" + [tail[0]];
    }
  }

  const Fence: string := "```"
  const HtmlFence: string := "```html"

  /** `clean_html`: drop every "```html", then every "```", then strip whitespace. */
  function CleanHtml(html: string): (r: string)
    ensures |r| <= |html|
  {
    var u := ReplaceAll(html, HtmlFence, "");
    ReplaceAllNoLonger(html, HtmlFence, "");
    ReplaceAllNoLonger(u, Fence, "");
    Strip(ReplaceAll(u, Fence, ""))
  }

  /** The cleaned page holds no Markdown fence and no whitespace at either end. */
  lemma CleanHtmlClean(html: string)
    ensures !Contains(CleanHtml(html), Fence)
    ensures var r := CleanHtml(html); |r| == 0 || (!IsSpace(r[0]) && !IsSpace(r[|r| - 1]))
  {
    var u := ReplaceAll(html, HtmlFence, "");
    assert Repeat('`', 3) == Fence;
    StripAfterRemoveRun(u, '`', 3);
    assert CleanHtml(html) == Strip(ReplaceAll(u, Fence, ""));
  }

  /** A page without a fence and without whitespace at its ends is left as it is. */
  lemma CleanHtmlKeepsClean(r: string)
    requires !Contains(r, Fence)
    requires |r| == 0 || (!IsSpace(r[0]) && !IsSpace(r[|r| - 1]))
    ensures CleanHtml(r) == r
  {
    NoFenceNoHtmlFence(r);
    var a := ReplaceAll(r, HtmlFence, "");
    assert a == r by { ReplaceAllAbsent(r, HtmlFence, ""); }
    var b := ReplaceAll(a, Fence, "");
    assert b == r by { ReplaceAllAbsent(r, Fence, ""); }
    assert Strip(b) == r by { StripStripped(r); }
  }

  /** "```html" begins with "```", so a page without the latter lacks the former. */
  lemma NoFenceNoHtmlFence(r: string)
    requires !Contains(r, Fence)
    ensures !Contains(r, HtmlFence)
  {
    if Contains(r, HtmlFence) {
      assert HtmlFence == Fence + "html";
      ContainsLonger(r, Fence, "html");
    }
  }

  /** Cleaning twice is cleaning once. */
  lemma CleanHtmlIdempotent(html: string)
    ensures CleanHtml(CleanHtml(html)) == CleanHtml(html)
  {
    CleanHtmlClean(html);
    CleanHtmlKeepsClean(CleanHtml(html));
  }

  /** What `requests.get` produced: no response (connection error or timeout),
      or a status and the body parsed as JSON (`None` when it is not JSON). */
  datatype Reply =
    | NoReply
    | Reply(code: StatusCode, json: Option<Json>)

  /** A GET request: the URL and the `params` mapping requests encodes into
      the query string. */
  datatype Query = Query(url: string, params: Json)

  /** `raise_for_status` raises for 4xx and 5xx codes only. */
  predicate RaisesForStatus(code: StatusCode) {
    400 <= code < 600
  }

  datatype Failure =
    | RequestFailed
    | HttpError(code: StatusCode)
    | NotJson

  /** The dictionaries `discover_api` and `call_api` return. */
  datatype Outcome =
    | Discovered(descriptor: Json)
    | Called(data: Json, statusCode: StatusCode)
    | Failed(cause: Failure)

  /** The common part of both calls: `raise_for_status`, then `response.json()`. */
  function Interpret(reply: Reply): (r: Result<Json, Failure>)
    ensures reply.NoReply? ==> r == Err(RequestFailed)
    ensures reply.Reply? && RaisesForStatus(reply.code) ==> r == Err(HttpError(reply.code))
    ensures r.Ok? <==> reply.Reply? && !RaisesForStatus(reply.code) && reply.json.Some?
    ensures r.Ok? ==> r.value == reply.json.value
  {
    match reply
    case NoReply => Err(RequestFailed)
    case Reply(code, json) =>
      if RaisesForStatus(code) then Err(HttpError(code))
      else match json
        case None => Err(NotJson)
        case Some(v) => Ok(v)
  }

  /** `discover_api`: fetch the well-known document; every exception becomes a failure. */
  function DiscoverApi(url: string, get: Query -> Reply): (r: Outcome)
    ensures var reply := get(Query(DiscoveryUrl(url), JOther("null")));
      && (r.Discovered? <==> Interpret(reply).Ok?)
      && (r.Discovered? ==> r.descriptor == reply.json.value)
      && (r.Failed? ==> Interpret(reply) == Err(r.cause))
    ensures !r.Called?
  {
    match Interpret(get(Query(DiscoveryUrl(url), JOther("null"))))
    case Ok(descriptor) => Discovered(descriptor)
    case Err(e) => Failed(e)
  }

  /** `call_api`: always a GET of the joined URL with every parameter in the query string. */
  function CallApi(url: string, endpoint: string, params: Json, get: Query -> Reply): (r: Outcome)
    ensures var reply := get(Query(CallApiUrl(url, endpoint), params));
      && (r.Called? <==> Interpret(reply).Ok?)
      && (r.Called? ==> r.data == reply.json.value && r.statusCode == reply.code)
      && (r.Failed? ==> Interpret(reply) == Err(r.cause))
    ensures !r.Discovered?
  {
    var reply := get(Query(CallApiUrl(url, endpoint), params));
    match Interpret(reply)
    case Ok(data) => Called(data, reply.code)
    case Err(e) => Failed(e)
  }

  /** A redirect or informational status is not raised by `raise_for_status`:
      a 3xx reply with a JSON body counts as a successful call. */
  lemma RedirectIsNotAnError(url: string, endpoint: string, params: Json, get: Query -> Reply, code: StatusCode)
    requires 300 <= code < 400
    requires get(Query(CallApiUrl(url, endpoint), params)).Reply?
    requires get(Query(CallApiUrl(url, endpoint), params)).code == code
    requires get(Query(CallApiUrl(url, endpoint), params)).json.Some?
    ensures CallApi(url, endpoint, params, get).Called?
  {
  }

  datatype ServiceType =
    | GroceryStore
    | Bank
    | RecipeSite
    | Ecommerce
    | GenericService
  {
    function Label(): (r: string)
      ensures r in ["grocery_store", "bank", "recipe_site", "ecommerce", "generic_service"]
    {
      match this
      case GroceryStore => "grocery_store"
      case Bank => "bank"
      case RecipeSite => "recipe_site"
      case Ecommerce => "ecommerce"
      case GenericService => "generic_service"
    }
  }

  const GroceryWords: seq<string> := ["grocery", "store", "shop"]
  const BankWords: seq<string> := ["bank", "financial"]
  const RecipeWords: seq<string> := ["recipe", "cooking", "food"]
  const CommerceWords: seq<string> := ["ecommerce", "commerce"]

  /** Some word of the list occurs in the text. */
  predicate MentionsAny(text: string, words: seq<string>) {
    exists i :: 0 <= i < |words| && Contains(text, words[i])
  }

  /** `MentionsAny` on a two- or three-word list, spelled out. */
  lemma MentionsListed(text: string, words: seq<string>)
    requires |words| == 2 || |words| == 3
    ensures |words| == 2 ==> (MentionsAny(text, words) <==> Contains(text, words[0]) || Contains(text, words[1]))
    ensures |words| == 3 ==> (MentionsAny(text, words) <==>
      Contains(text, words[0]) || Contains(text, words[1]) || Contains(text, words[2]))
  {
  }

  /** The text `infer_service_type` searches: the lowered name and description
      (absent ones read as ""), joined by a space. */
  function Combined(name: Option<string>, description: Option<string>): (r: string)
    ensures |r| == |name.GetOr("")| + 1 + |description.GetOr("")|
    ensures r[|name.GetOr("")|] == ' '
    ensures forall i :: 0 <= i < |r| ==> !('A' <= r[i] <= 'Z')
  {
    Lower(name.GetOr("")) + " " + Lower(description.GetOr(""))
  }

  /** `infer_service_type`: the first keyword group, in a fixed order, that
      the combined text mentions decides; none gives the generic type. */
  function InferServiceType(name: Option<string>, description: Option<string>): (r: ServiceType)
    ensures var text := Combined(name, description);
      && (r == GroceryStore <==> MentionsAny(text, GroceryWords))
      && (r == Bank <==> !MentionsAny(text, GroceryWords) && MentionsAny(text, BankWords))
      && (r == RecipeSite <==> !MentionsAny(text, GroceryWords) && !MentionsAny(text, BankWords) &&
                               MentionsAny(text, RecipeWords))
      && (r == Ecommerce <==> !MentionsAny(text, GroceryWords) && !MentionsAny(text, BankWords) &&
                              !MentionsAny(text, RecipeWords) && MentionsAny(text, CommerceWords))
      && (r == GenericService <==> !MentionsAny(text, GroceryWords) && !MentionsAny(text, BankWords) &&
                                   !MentionsAny(text, RecipeWords) && !MentionsAny(text, CommerceWords))
  {
    var combined := Combined(name, description);
    MentionsListed(combined, GroceryWords);
    MentionsListed(combined, BankWords);
    MentionsListed(combined, RecipeWords);
    MentionsListed(combined, CommerceWords);
    if Contains(combined, "grocery") || Contains(combined, "store") || Contains(combined, "shop") then
      GroceryStore
    else if Contains(combined, "bank") || Contains(combined, "financial") then
      Bank
    else if Contains(combined, "recipe") || Contains(combined, "cooking") || Contains(combined, "food") then
      RecipeSite
    else if Contains(combined, "ecommerce") || Contains(combined, "commerce") then
      Ecommerce
    else
      GenericService
  }

  /** No keyword contains a space, so none is found across the joining space:
      a group is mentioned by the combined text exactly when it is mentioned
      by the lowered name or by the lowered description. */
  lemma MentionedInNameOrDescription(name: string, description: string, words: seq<string>)
    requires words in [GroceryWords, BankWords, RecipeWords, CommerceWords]
    ensures MentionsAny(Lower(name) + " " + Lower(description), words) <==>
            MentionsAny(Lower(name), words) || MentionsAny(Lower(description), words)
  {
    forall i | 0 <= i < |words|
      ensures Contains(Lower(name) + [' '] + Lower(description), words[i]) <==>
              Contains(Lower(name), words[i]) || Contains(Lower(description), words[i])
    {
      ContainsAroundSeparator(Lower(name), ' ', Lower(description), words[i]);
    }
    assert Lower(name) + " " + Lower(description) == Lower(name) + [' '] + Lower(description);
  }

  /** A name mentioning a grocery word makes a grocery store, whatever the description says. */
  lemma NameDecidesGrocery(name: string, description: Option<string>)
    requires MentionsAny(Lower(name), GroceryWords)
    ensures InferServiceType(Some(name), description) == GroceryStore
  {
    MentionedInNameOrDescription(name, description.GetOr(""), GroceryWords);
  }

  /** The type is generic exactly when neither the name nor the description
      mentions any keyword. */
  lemma GenericWhenNoKeyword(name: string, description: string)
    ensures InferServiceType(Some(name), Some(description)) == GenericService <==>
      forall words | words in [GroceryWords, BankWords, RecipeWords, CommerceWords] ::
        !MentionsAny(Lower(name), words) && !MentionsAny(Lower(description), words)
  {
    MentionedInNameOrDescription(name, description, GroceryWords);
    MentionedInNameOrDescription(name, description, BankWords);
    MentionedInNameOrDescription(name, description, RecipeWords);
    MentionedInNameOrDescription(name, description, CommerceWords);
  }

  /** The "ecommerce" test adds nothing: every text containing it contains "commerce". */
  lemma EcommerceNeedsOnlyCommerce(text: string)
    ensures MentionsAny(text, CommerceWords) <==> Contains(text, "commerce")
  {
    if Contains(text, "ecommerce") {
      ContainsIff(text, "ecommerce");
      var i :| 0 <= i <= |text| && StartsWith(text[i..], "ecommerce");
      assert text[i + 1..][..8] == text[i..][..9][1..];
      assert "ecommerce"[1..] == "commerce";
      ContainsIff(text, "commerce");
      assert StartsWith(text[i + 1..], "commerce");
    }
    assert CommerceWords[1] == "commerce";
  }

  /** An endpoint as the bridge reads it from the descriptor JSON: every
      field may be absent. */
  datatype EndpointEntry = EndpointEntry(
    operationId: Option<string>,
    path: Option<string>,
    httpMethod: Option<string>,
    summary: Option<string>)

  /** The label of a line: the operationId, else the path, else "". */
  function Tag(ep: EndpointEntry): (r: string)
    ensures ep.operationId.Some? ==> r == ep.operationId.value
    ensures ep.operationId.None? && ep.path.Some? ==> r == ep.path.value
    ensures ep.operationId.None? && ep.path.None? ==> r == ""
  {
    ep.operationId.GetOr(ep.path.GetOr(""))
  }

  /** One line of the endpoint list in `build_website_prompt`: the label, then
      the method (GET when absent) and the path, then the summary. */
  function EndpointLine(ep: EndpointEntry): (r: string)
    ensures StartsWith(r, "- " + Tag(ep) + ": ")
    ensures StartsWith(r[|Tag(ep)| + 4..], ep.httpMethod.GetOr("GET") + " " + ep.path.GetOr("") + " - ")
    ensures StartsWith(r[|Tag(ep)| + 4..], if ep.httpMethod.None? then "GET " else ep.httpMethod.value + " ")
    ensures var k := |Tag(ep)| + |ep.httpMethod.GetOr("GET")| + |ep.path.GetOr("")| + 8;
      |r| == k + |ep.summary.GetOr("")| && r[k..] == ep.summary.GetOr("")
  {
    var m, path, summary := ep.httpMethod.GetOr("GET"), ep.path.GetOr(""), ep.summary.GetOr("");
    var head := "- " + Tag(ep) + ": ";
    var middle := m + " " + path + " - ";
    assert |head| == |Tag(ep)| + 4 && |middle| == |m| + |path| + 4;
    var r := head + middle + summary;
    assert r[..|head|] == head;
    assert r[|head|..][..|middle|] == middle;
    assert middle[..|m| + 1] == m + " ";
    assert r[|head| + |middle|..] == summary;
    r
  }

  /** The endpoint list of the prompt: one line per endpoint, in order, joined by newlines. */
  function EndpointList(endpoints: seq<EndpointEntry>): (r: string)
    ensures |endpoints| == 0 ==> r == ""
    ensures |endpoints| > 0 ==> StartsWith(r, EndpointLine(endpoints[0]))
  {
    Join(seq(|endpoints|, i requires 0 <= i < |endpoints| => EndpointLine(endpoints[i])), "\n")
  }

  predicate OneLine(s: Option<string>) {
    s.Some? ==> Count(s.value, '\n') == 0
  }

  /** When no field holds a newline, the list has exactly one line per
      endpoint: as many newlines as endpoints minus one. */
  lemma EndpointListLines(endpoints: seq<EndpointEntry>)
    requires |endpoints| > 0
    requires forall i :: 0 <= i < |endpoints| ==>
      OneLine(endpoints[i].operationId) && OneLine(endpoints[i].path) &&
      OneLine(endpoints[i].httpMethod) && OneLine(endpoints[i].summary)
    ensures Count(EndpointList(endpoints), '\n') == |endpoints| - 1
  {
    var lines := seq(|endpoints|, i requires 0 <= i < |endpoints| => EndpointLine(endpoints[i]));
    forall i | 0 <= i < |lines| ensures Count(lines[i], '\n') == 0 {
      LineHasNoNewline(endpoints[i]);
    }
    JoinCount(lines, '\n');
  }

  /** When no field holds a newline, splitting the list at its newlines gives
      the lines back in order: line `i` is the line of endpoint `i`. */
  lemma EndpointListSplits(endpoints: seq<EndpointEntry>)
    requires |endpoints| > 0
    requires forall i :: 0 <= i < |endpoints| ==>
      OneLine(endpoints[i].operationId) && OneLine(endpoints[i].path) &&
      OneLine(endpoints[i].httpMethod) && OneLine(endpoints[i].summary)
    ensures |SplitOn(EndpointList(endpoints), '\n')| == |endpoints|
    ensures forall i :: 0 <= i < |endpoints| ==>
      SplitOn(EndpointList(endpoints), '\n')[i] == EndpointLine(endpoints[i])
  {
    var lines := seq(|endpoints|, i requires 0 <= i < |endpoints| => EndpointLine(endpoints[i]));
    forall i | 0 <= i < |lines| ensures Lacks(lines[i], '\n') {
      LineHasNoNewline(endpoints[i]);
    }
    SplitOnJoin(lines, '\n');
  }

  lemma LineHasNoNewline(ep: EndpointEntry)
    requires OneLine(ep.operationId) && OneLine(ep.path) && OneLine(ep.httpMethod) && OneLine(ep.summary)
    ensures Count(EndpointLine(ep), '\n') == 0
  {
    var head := "- " + Tag(ep) + ": ";
    var middle := ep.httpMethod.GetOr("GET") + " " + ep.path.GetOr("") + " - ";
    HeadHasNoNewline(Tag(ep));
    MiddleHasNoNewline(ep.httpMethod.GetOr("GET"), ep.path.GetOr(""));
    CountAppend(head, middle, '\n');
    CountAppend(head + middle, ep.summary.GetOr(""), '\n');
    assert EndpointLine(ep) == head + middle + ep.summary.GetOr("");
  }

  lemma HeadHasNoNewline(tag: string)
    requires Count(tag, '\n') == 0
    ensures Count("- " + tag + ": ", '\n') == 0
  {
    CountAppend("- ", tag, '\n');
    CountAppend("- " + tag, ": ", '\n');
  }

  lemma MiddleHasNoNewline(m: string, path: string)
    requires Count(m, '\n') == 0 && Count(path, '\n') == 0
    ensures Count(m + " " + path + " - ", '\n') == 0
  {
    CountAppend(m, " ", '\n');
    CountAppend(m + " ", path, '\n');
    CountAppend(m + " " + path, " - ", '\n');
  }

  /** What `main` prints: a result dictionary, or an error dictionary. */
  datatype Printed =
    | Report(outcome: Outcome)
    | Website(result: Json)
    | ErrorReport(message: string)

  /** `main`, on the argument vector (program name first). `parse` is
      `json.loads` with the text of its exception, `get` the HTTP client,
      `generate` the website generator, which catches its own errors. */
  method RunBridge(argv: seq<string>, get: Query -> Reply, parse: string -> Result<Json, string>,
                   generate: Json -> Json)
    returns (printed: Printed, exitCode: int)
    ensures exitCode == 1 <==> printed.ErrorReport?
    ensures exitCode == 0 || exitCode == 1
    ensures |argv| < 2 ==> printed == ErrorReport("No command specified")
    ensures |argv| >= 2 && argv[1] == "discover" ==>
      printed == if |argv| < 3 then ErrorReport("URL required for discover command")
                 else Report(DiscoverApi(argv[2], get))
    ensures |argv| >= 2 && argv[1] == "generate-website" ==>
      printed == if |argv| < 3 then ErrorReport("Descriptor JSON required for generate-website command")
                 else match parse(argv[2])
                   case Err(e) => ErrorReport("Command failed: " + e)
                   case Ok(d) => Website(generate(d))
    ensures |argv| >= 2 && argv[1] == "call-api" ==>
      printed == if |argv| < 5 then ErrorReport("URL, endpoint, and params required for call-api command")
                 else match parse(argv[4])
                   case Err(e) => ErrorReport("Command failed: " + e)
                   case Ok(params) => Report(CallApi(argv[2], argv[3], params, get))
    ensures |argv| >= 2 && argv[1] !in ["discover", "generate-website", "call-api"] ==>
      printed == ErrorReport("Unknown command: " + argv[1])
  {
    if |argv| < 2 {
      return ErrorReport("No command specified"), 1;
    }
    var command := argv[1];
    if command == "discover" {
      if |argv| < 3 {
        return ErrorReport("URL required for discover command"), 1;
      }
      var url := argv[2];
      printed := Report(DiscoverApi(url, get));
    } else if command == "generate-website" {
      if |argv| < 3 {
        return ErrorReport("Descriptor JSON required for generate-website command"), 1;
      }
      var descriptor := parse(argv[2]);
      if descriptor.Err? {
        return ErrorReport("Command failed: " + descriptor.error), 1;
      }
      printed := Website(generate(descriptor.value));
    } else if command == "call-api" {
      if |argv| < 5 {
        return ErrorReport("URL, endpoint, and params required for call-api command"), 1;
      }
      var url := argv[2];
      var endpoint := argv[3];
      var params := parse(argv[4]);
      if params.Err? {
        return ErrorReport("Command failed: " + params.error), 1;
      }
      printed := Report(CallApi(url, endpoint, params.value, get));
    } else {
      return ErrorReport("Unknown command: " + command), 1;
    }
    exitCode := 0;
  }
}
