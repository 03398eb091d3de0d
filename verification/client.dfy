/** Invocation of a Socket Agent endpoint (src-tauri/src/api/client.rs, `call_api`):
    choosing method and path, sorting every parameter into a path
    substitution, a query parameter or a body field, assembling the request,
    and mapping the response status to a result. */
module Client {
  import opened Wrappers
  import opened Text
  import opened Discovery

  /** One entry of the `params` map, in the order the map yields it. */
  type Param = (string, Json)

  /** The keys of a `HashMap` are distinct. */
  predicate DistinctKeys(params: seq<Param>) {
    forall i, j :: 0 <= i < j < |params| ==> params[i].0 != params[j].0
  }

  function KeySet(params: seq<Param>): set<string> {
    set p | p in params :: p.0
  }

  function SeqToSet(keys: seq<string>): set<string> {
    set k | k in keys
  }

  predicate NoDuplicates(keys: seq<string>) {
    forall i, j :: 0 <= i < j < |keys| ==> keys[i] != keys[j]
  }

  function Placeholder(key: string): string {
    "{" + key + "}"
  }

  /** The methods whose leftover parameters travel in the query string
      (compared case-sensitively, as the source compares them). */
  predicate IsQueryMethod(httpMethod: string) {
    httpMethod == "GET" || httpMethod == "DELETE"
  }

  /** The text a value contributes to a path or a query string: a JSON string
      as it is, any other value as its JSON text with '"' trimmed from both ends. */
  function ValueText(v: Json): (r: string)
    ensures v.JString? ==> r == v.s
    ensures v.JOther? ==> |r| == 0 || (r[0] != '"' && r[|r| - 1] != '"')
    ensures v.JOther? ==> r == TrimMatches(v.text, '"')
  {
    match v
    case JString(s) => s
    case JOther(text) => TrimMatches(text, '"')
  }

  /** The state of the parameter loop: the path built so far, the keys used
      as path substitutions (in order), the query map and the body map. */
  datatype Split = Split(
    path: string,
    pathKeys: seq<string>,
    query: map<string, string>,
    body: map<string, Json>)

  /** One turn of the loop: the placeholder test runs on the path built so far. */
  function Step(st: Split, httpMethod: string, p: Param): Split {
    var placeholder := Placeholder(p.0);
    if Contains(st.path, placeholder) then
      st.(path := ReplaceAll(st.path, placeholder, ValueText(p.1)), pathKeys := st.pathKeys + [p.0])
    else if IsQueryMethod(httpMethod) then
      st.(query := st.query[p.0 := ValueText(p.1)])
    else
      st.(body := st.body[p.0 := p.1])
  }

  /** The loop run over `params` in order, starting from the path template;
      it specifies the method SortParams. */
  function SplitParams(httpMethod: string, path: string, params: seq<Param>): Split
    decreases |params|
  {
    if |params| == 0 then Split(path, [], map[], map[])
    else Step(SplitParams(httpMethod, path, params[..|params| - 1]), httpMethod, params[|params| - 1])
  }

  lemma PrefixStep(httpMethod: string, path: string, params: seq<Param>, n: nat)
    requires 0 < n <= |params|
    ensures SplitParams(httpMethod, path, params[..n]) ==
            Step(SplitParams(httpMethod, path, params[..n - 1]), httpMethod, params[n - 1])
  {
    assert params[..n][..n - 1] == params[..n - 1];
  }

  /** `st` uses exactly the keys `keys`, each in exactly one role (path
      substitution, query parameter or body field), and no path key twice. */
  predicate Roles(st: Split, keys: set<string>) {
    && SeqToSet(st.pathKeys) + st.query.Keys + st.body.Keys == keys
    && SeqToSet(st.pathKeys) !! st.query.Keys
    && SeqToSet(st.pathKeys) !! st.body.Keys
    && st.query.Keys !! st.body.Keys
    && NoDuplicates(st.pathKeys)
  }

  /** Every key takes exactly one role: path substitution, query parameter or
      body field; no key is used twice and nothing else appears. */
  lemma {:induction false} SplitRoles(httpMethod: string, path: string, params: seq<Param>)
    requires DistinctKeys(params)
    ensures Roles(SplitParams(httpMethod, path, params), KeySet(params))
    decreases |params|
  {
    if |params| > 0 {
      var n := |params|;
      var init := params[..n - 1];
      var last := params[n - 1];
      LastKeyIsNew(params);
      SplitRoles(httpMethod, path, init);
      StepRoles(SplitParams(httpMethod, path, init), httpMethod, last, KeySet(init));
      assert params == init + [last];
      KeySetSnoc(init, last);
    }
  }

  /** The prefix of a parameter list keeps its keys distinct, and the last
      key does not occur in it. */
  lemma LastKeyIsNew(params: seq<Param>)
    requires DistinctKeys(params) && |params| > 0
    ensures DistinctKeys(params[..|params| - 1])
    ensures params[|params| - 1].0 !in KeySet(params[..|params| - 1])
  {
    var init := params[..|params| - 1];
    forall j | 0 <= j < |init| ensures init[j].0 != params[|params| - 1].0 {
      assert init[j] == params[j];
    }
  }

  lemma KeySetSnoc(init: seq<Param>, last: Param)
    ensures KeySet(init + [last]) == KeySet(init) + {last.0}
  {
  }

  /** One turn for a new key adds exactly that key, in exactly one role. */
  lemma StepRoles(before: Split, httpMethod: string, p: Param, keys: set<string>)
    requires Roles(before, keys) && p.0 !in keys
    ensures Roles(Step(before, httpMethod, p), keys + {p.0})
  {
    var k := p.0;
    if Contains(before.path, Placeholder(k)) {
      assert SeqToSet(before.pathKeys + [k]) == SeqToSet(before.pathKeys) + {k};
      forall i | 0 <= i < |before.pathKeys| ensures before.pathKeys[i] != k {
        assert before.pathKeys[i] in SeqToSet(before.pathKeys);
      }
    }
  }

  /** For GET and DELETE the body stays empty; for every other method the query stays empty. */
  lemma {:induction false} SplitMethodRule(httpMethod: string, path: string, params: seq<Param>)
    ensures IsQueryMethod(httpMethod) ==> SplitParams(httpMethod, path, params).body == map[]
    ensures !IsQueryMethod(httpMethod) ==> SplitParams(httpMethod, path, params).query == map[]
    decreases |params|
  {
    if |params| > 0 {
      SplitMethodRule(httpMethod, path, params[..|params| - 1]);
    }
  }

  /** One step keeps the values of the other keys and records its own. */
  lemma StepValues(before: Split, httpMethod: string, p: Param)
    requires p.0 !in before.query && p.0 !in before.body
    ensures var st := Step(before, httpMethod, p);
      && (forall k :: k in st.query && k != p.0 ==> k in before.query && st.query[k] == before.query[k])
      && (forall k :: k in st.body && k != p.0 ==> k in before.body && st.body[k] == before.body[k])
      && (p.0 in st.query ==> st.query[p.0] == ValueText(p.1))
      && (p.0 in st.body ==> st.body[p.0] == p.1)
  {
  }

  /** A query parameter carries its value's text, a body field the value itself. */
  lemma {:induction false} SplitValues(httpMethod: string, path: string, params: seq<Param>)
    requires DistinctKeys(params)
    ensures var st := SplitParams(httpMethod, path, params);
      forall i :: 0 <= i < |params| && params[i].0 in st.query ==> st.query[params[i].0] == ValueText(params[i].1)
    ensures var st := SplitParams(httpMethod, path, params);
      forall i :: 0 <= i < |params| && params[i].0 in st.body ==> st.body[params[i].0] == params[i].1
    decreases |params|
  {
    if |params| > 0 {
      var n := |params|;
      var init := params[..n - 1];
      var last := params[n - 1];
      SplitValues(httpMethod, path, init);
      SplitRoles(httpMethod, path, init);
      var before := SplitParams(httpMethod, path, init);
      assert params == init + [last];
      assert last.0 !in KeySet(init);
      StepValues(before, httpMethod, last);
      var st := SplitParams(httpMethod, path, params);
      forall i | 0 <= i < n - 1
        ensures params[i].0 in st.query ==> st.query[params[i].0] == ValueText(params[i].1)
        ensures params[i].0 in st.body ==> st.body[params[i].0] == params[i].1
      {
        assert init[i] == params[i];
        assert params[i].0 != last.0;
      }
    }
  }

  /** A step for another key does not change the role recorded for `k`. */
  lemma StepKeepsRole(st: Split, httpMethod: string, p: Param, k: string)
    requires p.0 != k
    ensures var st' := Step(st, httpMethod, p);
      (k in st'.pathKeys <==> k in st.pathKeys) && (k in st'.query <==> k in st.query) &&
      (k in st'.body <==> k in st.body)
  {
  }

  lemma {:induction false} LaterStepsKeepRole(httpMethod: string, path: string, params: seq<Param>, i: nat, n: nat)
    requires i < n <= |params|
    requires forall j :: i < j < n ==> params[j].0 != params[i].0
    ensures var k := params[i].0;
      var st := SplitParams(httpMethod, path, params[..n]);
      var st1 := SplitParams(httpMethod, path, params[..i + 1]);
      (k in st.pathKeys <==> k in st1.pathKeys) && (k in st.query <==> k in st1.query) &&
      (k in st.body <==> k in st1.body)
    decreases n
  {
    if n > i + 1 {
      LaterStepsKeepRole(httpMethod, path, params, i, n - 1);
      PrefixStep(httpMethod, path, params, n);
      StepKeepsRole(SplitParams(httpMethod, path, params[..n - 1]), httpMethod, params[n - 1], params[i].0);
    }
  }

  /** The role of the i-th key is decided by the path built before its turn:
      a path substitution exactly when its placeholder occurs there; otherwise
      a query parameter for GET/DELETE and a body field for any other method. */
  lemma RoleOfKey(httpMethod: string, path: string, params: seq<Param>, i: nat)
    requires DistinctKeys(params)
    requires i < |params|
    ensures var k := params[i].0;
      var seen := Contains(SplitParams(httpMethod, path, params[..i]).path, Placeholder(k));
      var st := SplitParams(httpMethod, path, params);
      && (k in st.pathKeys <==> seen)
      && (k in st.query <==> !seen && IsQueryMethod(httpMethod))
      && (k in st.body <==> !seen && !IsQueryMethod(httpMethod))
  {
    var k := params[i].0;
    var init := params[..i];
    assert DistinctKeys(init);
    SplitRoles(httpMethod, path, init);
    var before := SplitParams(httpMethod, path, init);
    assert k !in KeySet(init);
    assert k !in before.pathKeys by {
      assert k !in SeqToSet(before.pathKeys);
    }
    PrefixStep(httpMethod, path, params, i + 1);
    assert params[..i + 1][..i] == init;
    assert forall j :: i < j < |params| ==> params[j].0 != params[i].0;
    LaterStepsKeepRole(httpMethod, path, params, i, |params|);
    assert params[..|params|] == params;
  }

  /** Parameters whose placeholders the template lacks leave the path untouched. */
  lemma {:induction false} SplitWithoutPlaceholders(httpMethod: string, path: string, params: seq<Param>)
    requires forall i :: 0 <= i < |params| ==> !Contains(path, Placeholder(params[i].0))
    ensures SplitParams(httpMethod, path, params).path == path
    ensures SplitParams(httpMethod, path, params).pathKeys == []
    decreases |params|
  {
    if |params| > 0 {
      SplitWithoutPlaceholders(httpMethod, path, params[..|params| - 1]);
    }
  }

  /** A substitution replaces every occurrence, for a key of any characters,
      when each '{' of the path built so far opens the key's placeholder and
      the value's text has no '{' (StepReplacesPlaceholder covers templates
      with several different placeholders). */
  lemma StepReplacesEveryOccurrence(st: Split, httpMethod: string, p: Param)
    requires Contains(st.path, Placeholder(p.0))
    requires Lacks(ValueText(p.1), '{')
    requires forall i :: 0 <= i < |st.path| && st.path[i] == '{' ==> StartsWith(st.path[i..], Placeholder(p.0))
    ensures Step(st, httpMethod, p).pathKeys == st.pathKeys + [p.0]
    ensures !Contains(Step(st, httpMethod, p).path, Placeholder(p.0))
  {
    assert Placeholder(p.0)[0] == '{';
    ReplaceAllRemovesEvery(st.path, Placeholder(p.0), ValueText(p.1));
  }

  /** The text after a '{' reaches a '}' before any further '{'. */
  predicate Closes(t: string)
    decreases |t|
  {
    |t| > 0 && (t[0] == '}' || (t[0] != '{' && Closes(t[1..])))
  }

  /** Where that '}' is: nothing before it is a brace. */
  function CloseIndex(t: string): (k: nat)
    requires Closes(t)
    ensures k < |t| && t[k] == '}'
    ensures forall m :: 0 <= m < k ==> t[m] != '{' && t[m] != '}'
    decreases |t|
  {
    if t[0] == '}' then 0 else 1 + CloseIndex(t[1..])
  }

  /** A '}' with no brace before it closes the text. */
  lemma {:induction false} ClosesAt(t: string, k: nat)
    requires k < |t| && t[k] == '}'
    requires forall m :: 0 <= m < k ==> t[m] != '{' && t[m] != '}'
    ensures Closes(t)
    decreases k
  {
    if k > 0 {
      ClosesAt(t[1..], k - 1);
    }
  }

  /** Every '{' of `s` is closed before the next one opens, as in a template
      such as `/users/{id}/posts/{postId}`. */
  predicate BracesClosed(s: string) {
    forall i :: 0 <= i < |s| && s[i] == '{' ==> Closes(s[i + 1..])
  }

  /** Right after a '{', the replacement starts with the text up to the first
      '}' unchanged; so the '{' followed by the result reads `{key}` only when
      it already did. */
  lemma OpenThenPlaceholder(s: string, key: string, rep: string)
    requires Lacks(key, '{') && Lacks(key, '}')
    requires |s| > 0 && s[0] == '{' && Closes(s[1..])
    ensures StartsWith([s[0]] + ReplaceAll(s[1..], Placeholder(key), rep), Placeholder(key)) ==>
            StartsWith(s, Placeholder(key))
  {
    var pat := Placeholder(key);
    var t := s[1..];
    var x := ReplaceAll(t, pat, rep);
    KeepsUpToClose(t, pat, rep);
    if StartsWith([s[0]] + x, pat) {
      assert ([s[0]] + x)[1..] == x;
      assert StartsWith(x, key + "}") by { assert pat[1..] == key + "}"; }
      KeyAtFirstClose(t, key, x);
      assert s[..|pat|] == [s[0]] + t[..|key| + 1];
    }
  }

  /** `replace` of a pattern opening with '{' copies a closed text up to
      and including its first '}'. */
  lemma KeepsUpToClose(t: string, pat: string, rep: string)
    requires Closes(t) && |pat| > 0 && pat[0] == '{'
    ensures |ReplaceAll(t, pat, rep)| > CloseIndex(t)
    ensures ReplaceAll(t, pat, rep)[..CloseIndex(t) + 1] == t[..CloseIndex(t) + 1]
  {
    var k := CloseIndex(t);
    assert Lacks(t[..k + 1], pat[0]);
    assert t == t[..k + 1] + t[k + 1..];
    ReplaceAllFreePrefix(t[..k + 1], t[k + 1..], pat, rep);
  }

  /** A text that agrees with `t` up to `t`'s first '}' and starts with `key}`
      for a key without '}' makes `t` start with `key}` too. */
  lemma KeyAtFirstClose(t: string, key: string, x: string)
    requires Lacks(key, '}') && Closes(t)
    requires |x| > CloseIndex(t) && x[..CloseIndex(t) + 1] == t[..CloseIndex(t) + 1]
    requires StartsWith(x, key + "}")
    ensures StartsWith(t, key + "}")
  {
    var k := CloseIndex(t);
    var q := key + "}";
    assert x[k] == t[k];
    assert x[..k] == t[..k];
    IndexOfIs(x, '}', k);
    assert x[|key|] == q[|key|];
    assert x[..|key|] == key;
    IndexOfIs(x, '}', |key|);
    assert t[..k + 1] == x[..k + 1] == q;
  }

  /** `str::replace` leaves no `{key}` behind, whatever other placeholders the
      template holds: it suffices that the key has no braces, the value's text
      no '{', and every '{' of the template is closed. */
  lemma {:induction false} ReplacePlaceholderEverywhere(s: string, key: string, rep: string)
    requires Lacks(key, '{') && Lacks(key, '}') && Lacks(rep, '{')
    requires BracesClosed(s)
    ensures !Contains(ReplaceAll(s, Placeholder(key), rep), Placeholder(key))
    decreases |s|
  {
    var pat := Placeholder(key);
    if |s| < |pat| {
      ContainsIff(s, pat);
    } else if s[..|pat|] == pat {
      var t := s[|pat|..];
      forall i | 0 <= i < |t| && t[i] == '{' ensures Closes(t[i + 1..]) {
        assert s[|pat| + i] == '{';
        assert t[i + 1..] == s[|pat| + i + 1..];
      }
      ReplacePlaceholderEverywhere(t, key, rep);
      assert ReplaceAll(s, pat, rep) == rep + ReplaceAll(t, pat, rep);
      ContainsPastFree(rep, ReplaceAll(t, pat, rep), pat);
    } else {
      var t := s[1..];
      forall i | 0 <= i < |t| && t[i] == '{' ensures Closes(t[i + 1..]) {
        assert s[1 + i] == '{';
        assert t[i + 1..] == s[1 + i + 1..];
      }
      ReplacePlaceholderEverywhere(t, key, rep);
      var r := [s[0]] + ReplaceAll(t, pat, rep);
      assert ReplaceAll(s, pat, rep) == r;
      if s[0] == '{' {
        OpenThenPlaceholder(s, key, rep);
      } else {
        assert !StartsWith(r, pat) by { assert r[0] == s[0]; }
      }
      assert r[1..] == ReplaceAll(t, pat, rep);
    }
  }

  /** A key's turn removes every occurrence of its placeholder from a template
      whose braces are closed, even one holding other placeholders. */
  lemma StepReplacesPlaceholder(st: Split, httpMethod: string, p: Param)
    requires Contains(st.path, Placeholder(p.0))
    requires Lacks(p.0, '{') && Lacks(p.0, '}') && Lacks(ValueText(p.1), '{')
    requires BracesClosed(st.path)
    ensures Step(st, httpMethod, p).pathKeys == st.pathKeys + [p.0]
    ensures !Contains(Step(st, httpMethod, p).path, Placeholder(p.0))
  {
    ReplacePlaceholderEverywhere(st.path, p.0, ValueText(p.1));
  }

  /** A closed '}' stays closed whatever follows it. */
  lemma {:induction false} ClosesExtend(t: string, u: string)
    requires Closes(t)
    ensures Closes(t + u)
    decreases |t|
  {
    if t[0] != '}' {
      ClosesExtend(t[1..], u);
      assert (t + u)[1..] == t[1..] + u;
    }
  }

  /** Templates built from closed pieces are closed. */
  lemma BracesClosedConcat(a: string, b: string)
    requires BracesClosed(a) && BracesClosed(b)
    ensures BracesClosed(a + b)
  {
    var s := a + b;
    forall i | 0 <= i < |s| && s[i] == '{' ensures Closes(s[i + 1..]) {
      if i < |a| {
        ClosesExtend(a[i + 1..], b);
        assert s[i + 1..] == a[i + 1..] + b;
      } else {
        assert s[i] == b[i - |a|];
        assert s[i + 1..] == b[i - |a| + 1..];
      }
    }
  }

  /** A placeholder of a brace-free key is closed. */
  lemma PlaceholderClosed(key: string)
    requires Lacks(key, '{') && Lacks(key, '}')
    ensures BracesClosed(Placeholder(key))
  {
    var s := Placeholder(key);
    forall i | 0 < i < |s| ensures s[i] != '{' {
      if i <= |key| {
        assert s[i] == key[i - 1];
      }
    }
    forall i | 0 <= i < |s| && s[i] == '{' ensures Closes(s[i + 1..]) {
      assert i == 0;
      assert s[1..] == key + "}";
      ClosesAt(key + "}", |key|);
    }
  }

  /** An ordinary template with two placeholders, such as
      `/users/{id}/posts/{postId}`, meets the conditions of
      StepReplacesPlaceholder for the first key. */
  lemma TwoPlaceholdersClosed(a: string, key: string, b: string, other: string)
    requires Lacks(a, '{') && Lacks(b, '{')
    requires Lacks(key, '{') && Lacks(key, '}') && Lacks(other, '{') && Lacks(other, '}')
    ensures BracesClosed(a + Placeholder(key) + b + Placeholder(other))
    ensures Contains(a + Placeholder(key) + b + Placeholder(other), Placeholder(key))
  {
    PlaceholderClosed(key);
    PlaceholderClosed(other);
    BracesClosedConcat(a, Placeholder(key));
    BracesClosedConcat(a + Placeholder(key), b);
    BracesClosedConcat(a + Placeholder(key) + b, Placeholder(other));
    assert a + Placeholder(key) + b + Placeholder(other) == a + Placeholder(key) + (b + Placeholder(other));
    ContainsAfterFreeStretch(a, Placeholder(key), b + Placeholder(other));
  }

  /** Method and path the request goes to. */
  datatype Target = Target(httpMethod: string, path: string)

  /** Method and path selection: from the endpoint the reference resolves to,
      or GET and the reference itself taken literally as the path. */
  function ResolveTarget(endpointId: string, descriptor: Option<SocketAgentDescriptor>): (r: Target)
    ensures descriptor.None? ==> r == Target("GET", endpointId)
    ensures descriptor.Some? && (forall j :: 0 <= j < |descriptor.value.endpoints| ==>
                                   !Matches(descriptor.value.endpoints[j], endpointId))
            ==> r == Target("GET", endpointId)
    ensures descriptor.Some? && GetEndpoint(descriptor.value, endpointId).Some? ==>
      var ep := GetEndpoint(descriptor.value, endpointId).value;
      && ep in descriptor.value.endpoints && Matches(ep, endpointId)
      && r == Target(ep.httpMethod.GetOr("GET"), ep.path)
  {
    var endpoint := if descriptor.Some? then GetEndpoint(descriptor.value, endpointId) else None;
    match endpoint
    case None => Target("GET", endpointId)
    case Some(ep) => Target(ep.httpMethod.GetOr("GET"), ep.path)
  }

  /** The request as reqwest would send it. Accept and User-Agent headers are
      constant; `jsonBody` present means a JSON body with its Content-Type header. */
  datatype Request = Request(
    httpMethod: string,
    url: string,
    query: map<string, string>,
    jsonBody: Option<map<string, Json>>)

  /** The request call_api assembles, as a function of its inputs; it
      specifies the method CallApi. */
  function BuildRequest(baseUrl: string, endpointId: string, params: seq<Param>,
                        descriptor: Option<SocketAgentDescriptor>): (r: Request)
    ensures r.httpMethod == ResolveTarget(endpointId, descriptor).httpMethod
    ensures StartsWith(r.url, TrimEnd(baseUrl, '/'))
    ensures r.jsonBody.Some? ==> |r.jsonBody.value| > 0 && !IsQueryMethod(r.httpMethod)
    ensures var t := ResolveTarget(endpointId, descriptor);
      var st := SplitParams(t.httpMethod, t.path, params);
      && r.url == TrimEnd(baseUrl, '/') + st.path
      && r.query == st.query
      && r.jsonBody == (if !IsQueryMethod(t.httpMethod) && |st.body| > 0 then Some(st.body) else None)
  {
    var target := ResolveTarget(endpointId, descriptor);
    var st := SplitParams(target.httpMethod, target.path, params);
    Request(target.httpMethod, TrimEnd(baseUrl, '/') + st.path, st.query,
            if !IsQueryMethod(target.httpMethod) && |st.body| > 0 then Some(st.body) else None)
  }

  /** A request carries query parameters or a JSON body, never both; GET and
      DELETE never carry a body. */
  lemma QueryOrBody(baseUrl: string, endpointId: string, params: seq<Param>,
                    descriptor: Option<SocketAgentDescriptor>)
    ensures var req := BuildRequest(baseUrl, endpointId, params, descriptor);
      req.query == map[] || req.jsonBody.None?
    ensures var req := BuildRequest(baseUrl, endpointId, params, descriptor);
      IsQueryMethod(req.httpMethod) ==> req.jsonBody.None?
  {
    var target := ResolveTarget(endpointId, descriptor);
    SplitMethodRule(target.httpMethod, target.path, params);
  }

  /** The desktop command always passes no descriptor: every call is a GET of
      the literal reference, with every parameter that is not a path
      substitution in the query string. */
  lemma CallFromDesktopCommand(baseUrl: string, endpointId: string, params: seq<Param>)
    requires DistinctKeys(params)
    ensures var req := BuildRequest(baseUrl, endpointId, params, None);
      var st := SplitParams("GET", endpointId, params);
      && req.httpMethod == "GET"
      && req.url == TrimEnd(baseUrl, '/') + st.path
      && req.jsonBody.None?
      && req.query.Keys + SeqToSet(st.pathKeys) == KeySet(params)
  {
    SplitMethodRule("GET", endpointId, params);
    SplitRoles("GET", endpointId, params);
  }

  /** The characters RFC 7230 (section 3.2.6) allows in a token such as a method name. */
  predicate IsTokenChar(c: char) {
    ('a' <= c <= 'z') || ('A' <= c <= 'Z') || ('0' <= c <= '9') ||
    c in {'!', '#', '$', '%', '&', '\'', '*', '+', '-', '.', '^', '_', '`', '|', '~'}
  }

  /** `Method::from_bytes` accepts a non-empty token. */
  predicate IsValidMethod(httpMethod: string) {
    |httpMethod| > 0 && forall i :: 0 <= i < |httpMethod| ==> IsTokenChar(httpMethod[i])
  }

  /** What came back for a sent request: nothing (connection failure, timeout),
      or a status with the body read as text (`None` when unreadable) and
      parsed as JSON (`None` when it is not JSON). */
  datatype Response =
    | SendFailed
    | Received(code: StatusCode, text: Option<string>, json: Option<Json>)

  datatype ApiError =
    | InvalidMethod
    | SendError
    | ClientError(code: StatusCode, text: string)
    | ServerError(code: StatusCode, text: string)
    | HttpError(code: StatusCode, text: string)
    | ParseError
  {
    function Message(): string {
      match this
      case InvalidMethod => "Invalid HTTP method"
      case SendError => "Failed to send request"
      case ClientError(code, text) => "Client error (" + NatToString(code) + "): " + text
      case ServerError(code, text) => "Server error (" + NatToString(code) + "): " + text
      case HttpError(code, text) => "HTTP " + NatToString(code) + ": " + text
      case ParseError => "Failed to parse API response"
    }
  }

  /** The error for a status outside 2xx, carrying the response text. */
  function StatusError(code: StatusCode, text: string): (e: ApiError)
    requires !IsSuccess(code)
    ensures e.ClientError? <==> 400 <= code <= 499
    ensures e.ServerError? <==> code >= 500
    ensures e.HttpError? <==> code < 200 || 300 <= code <= 399
    ensures e.ClientError? || e.ServerError? || e.HttpError?
    ensures e.code == code && e.text == text
  {
    if 400 <= code < 500 then ClientError(code, text)
    else if code >= 500 then ServerError(code, text)
    else HttpError(code, text)
  }

  /** The result call_api returns for a response. */
  function Outcome(resp: Response): (r: Result<Json, ApiError>)
    ensures resp.SendFailed? ==> r == Err(SendError)
    ensures resp.Received? && IsSuccess(resp.code) ==>
      r == (if resp.json.Some? then Ok(resp.json.value) else Err(ParseError))
    ensures resp.Received? && !IsSuccess(resp.code) ==>
      r == Err(StatusError(resp.code, resp.text.GetOr("Unknown error")))
    ensures r.Ok? <==> resp.Received? && IsSuccess(resp.code) && resp.json.Some?
  {
    match resp
    case SendFailed => Err(SendError)
    case Received(code, text, json) =>
      if !IsSuccess(code) then Err(StatusError(code, text.GetOr("Unknown error")))
      else if json.None? then Err(ParseError)
      else Ok(json.value)
  }

  /** The parameter loop of `call_api`, run over `params` in order: each key
      becomes a path substitution, a query parameter or a body field. */
  method SortParams(httpMethod: string, path: string, params: seq<Param>)
    returns (finalPath: string, queryParams: map<string, string>, bodyParams: map<string, Json>)
    ensures finalPath == SplitParams(httpMethod, path, params).path
    ensures queryParams == SplitParams(httpMethod, path, params).query
    ensures bodyParams == SplitParams(httpMethod, path, params).body
  {
    finalPath := path;
    queryParams := map[];
    bodyParams := map[];
    ghost var pathKeys: seq<string> := [];
    for i := 0 to |params|
      invariant Split(finalPath, pathKeys, queryParams, bodyParams) == SplitParams(httpMethod, path, params[..i])
    {
      PrefixStep(httpMethod, path, params, i + 1);
      var (key, value) := params[i];
      var placeholder := "{" + key + "}";
      if Contains(finalPath, placeholder) {
        finalPath := ReplaceAll(finalPath, placeholder, ValueText(value));
        pathKeys := pathKeys + [key];
      } else if httpMethod == "GET" || httpMethod == "DELETE" {
        queryParams := queryParams[key := ValueText(value)];
      } else {
        bodyParams := bodyParams[key := value];
      }
    }
    assert params[..|params|] == params;
  }

  /** `call_api`: the network is the `transport` parameter. The request is sent
      only when the method is a valid token; `sent` is what went out. */
  method CallApi(baseUrl: string, endpointId: string, params: seq<Param>,
                 descriptor: Option<SocketAgentDescriptor>, transport: Request -> Response)
    returns (sent: Option<Request>, r: Result<Json, ApiError>)
    ensures var req := BuildRequest(baseUrl, endpointId, params, descriptor);
      IsValidMethod(req.httpMethod) ==> sent == Some(req) && r == Outcome(transport(req))
    ensures var req := BuildRequest(baseUrl, endpointId, params, descriptor);
      !IsValidMethod(req.httpMethod) ==> sent == None && r == Err(InvalidMethod)
  {
    var httpMethod := "GET";
    var path := endpointId;
    var endpoint := if descriptor.Some? then GetEndpoint(descriptor.value, endpointId) else None;
    if endpoint.Some? {
      if endpoint.value.httpMethod.Some? {
        httpMethod := endpoint.value.httpMethod.value;
      }
      path := endpoint.value.path;
    }
    assert Target(httpMethod, path) == ResolveTarget(endpointId, descriptor);

    var finalPath, queryParams, bodyParams := SortParams(httpMethod, path, params);

    var url := TrimEnd(baseUrl, '/') + finalPath;
    if !IsValidMethod(httpMethod) {
      return None, Err(InvalidMethod);
    }
    var request := Request(httpMethod, url, queryParams, None);
    if httpMethod != "GET" && httpMethod != "DELETE" && |bodyParams| > 0 {
      request := request.(jsonBody := Some(bodyParams));
    }
    assert request == BuildRequest(baseUrl, endpointId, params, descriptor);
    sent := Some(request);
    r := Outcome(transport(request));
  }

  /** A placeholder parameter becomes a path substitution; the other one goes
      to the query string for GET and DELETE and to the body for any other method. */
  lemma PathThenOther(httpMethod: string, prefix: string, key: string, v: Json, other: string, w: Json)
    requires forall i :: 0 <= i < |prefix| ==> prefix[i] != '{'
    requires forall i :: 0 <= i < |ValueText(v)| ==> ValueText(v)[i] != '{'
    ensures var st := SplitParams(httpMethod, prefix + Placeholder(key), [(key, v), (other, w)]);
      && st.path == prefix + ValueText(v)
      && st.pathKeys == [key]
      && st.query == (if IsQueryMethod(httpMethod) then map[other := ValueText(w)] else map[])
      && st.body == (if IsQueryMethod(httpMethod) then map[] else map[other := w])
  {
    var params := [(key, v), (other, w)];
    var path := prefix + Placeholder(key);
    var p := Placeholder(key);
    assert p[0] == '{' && Placeholder(other)[0] == '{';
    assert params[..1] == [(key, v)] && params[..1][..0] == [];
    assert path == prefix + p + "";
    ContainsAfterFreeStretch(prefix, p, "");
    ReplaceAllAfterFreeStretch(prefix, p, "", ValueText(v));
    assert ReplaceAll("", p, ValueText(v)) == "";
    var s := prefix + ValueText(v);
    assert ReplaceAll(path, p, ValueText(v)) == s;
    var st1 := Split(s, [key], map[], map[]);
    assert SplitParams(httpMethod, path, params[..1]) == st1 by {
      assert SplitParams(httpMethod, path, params[..1][..0]) == Split(path, [], map[], map[]);
    }
    assert forall i :: 0 <= i < |s| ==> s[i] != '{' by {
      forall i | 0 <= i < |s| ensures s[i] != '{' {
        if i >= |prefix| { assert s[i] == ValueText(v)[i - |prefix|]; }
      }
    }
    AbsentFirstChar(s, Placeholder(other));
    assert SplitParams(httpMethod, path, params) == Step(st1, httpMethod, (other, w));
  }

  /** A GET without placeholders sends every parameter in the query string and
      the endpoint's path appended to the trimmed base URL. */
  lemma ResolvedGetWithoutPlaceholders(baseUrl: string, d: SocketAgentDescriptor, endpointId: string,
                                       key: string, v: Json)
    requires GetEndpoint(d, endpointId).Some?
    requires GetEndpoint(d, endpointId).value.httpMethod == Some("GET")
    requires forall i :: 0 <= i < |GetEndpoint(d, endpointId).value.path| ==>
      GetEndpoint(d, endpointId).value.path[i] != '{'
    ensures BuildRequest(baseUrl, endpointId, [(key, v)], Some(d)) ==
      Request("GET", TrimEnd(baseUrl, '/') + GetEndpoint(d, endpointId).value.path, map[key := ValueText(v)], None)
  {
    var params := [(key, v)];
    var ep := GetEndpoint(d, endpointId).value;
    assert ResolveTarget(endpointId, Some(d)) == Target(ep.httpMethod.value, ep.path);
    assert params[..0] == [];
    assert Placeholder(key)[0] == '{';
    AbsentFirstChar(ep.path, Placeholder(key));
    assert SplitParams(ep.httpMethod.value, ep.path, params) ==
      Step(Split(ep.path, [], map[], map[]), ep.httpMethod.value, (key, v));
  }

  /** The GET/DELETE test is case-sensitive: a declared method "get" sends its
      leftover parameter as a JSON body. */
  lemma LowerCaseGetSendsBody(baseUrl: string, d: SocketAgentDescriptor, endpointId: string,
                              key: string, v: Json)
    requires GetEndpoint(d, endpointId).Some?
    requires GetEndpoint(d, endpointId).value.httpMethod == Some("get")
    requires forall i :: 0 <= i < |GetEndpoint(d, endpointId).value.path| ==>
      GetEndpoint(d, endpointId).value.path[i] != '{'
    ensures BuildRequest(baseUrl, endpointId, [(key, v)], Some(d)) ==
      Request("get", TrimEnd(baseUrl, '/') + GetEndpoint(d, endpointId).value.path, map[], Some(map[key := v]))
  {
    var params := [(key, v)];
    var ep := GetEndpoint(d, endpointId).value;
    assert ResolveTarget(endpointId, Some(d)) == Target(ep.httpMethod.value, ep.path);
    assert params[..0] == [];
    assert Placeholder(key)[0] == '{';
    AbsentFirstChar(ep.path, Placeholder(key));
    assert SplitParams(ep.httpMethod.value, ep.path, params) ==
      Step(Split(ep.path, [], map[], map[]), ep.httpMethod.value, (key, v));
  }
}
