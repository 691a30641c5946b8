/**
 * The webapp's `apiFetch`: it routes a request under "/api" and gives a
 * supplied `init` a `Content-Type` header, then hands both to `fetchFn`.
 * `fetchFn` is abstracted: the model answers the two arguments it receives.
 */
module ApiFetch {
  import opened Wrappers

  /** A `RequestInfo`: a URL string, or a request object with a `url` and other properties. */
  datatype RequestInput =
    | UrlString(url: string)
    | RequestObject(url: string, properties: map<string, string>)

  /** A `RequestInit`: its own properties and an optional headers object. */
  datatype RequestInit = RequestInit(properties: map<string, string>, headers: Option<map<string, string>>)

  /** The arguments `fetchFn` is called with. */
  datatype FetchCall = FetchCall(input: RequestInput, init: Option<RequestInit>)

  const ApiPrefix := "/api"
  const ContentType := "Content-Type"
  const DefaultContentType := "application/json"

  predicate StartsWith(s: string, prefix: string) {
    |prefix| <= |s| && s[..|prefix|] == prefix
  }

  /** `url.startsWith("/api") ? url : "/api" + url` */
  function RewriteUrl(url: string): (r: string)
    ensures StartsWith(r, ApiPrefix)
    ensures r == url || r == ApiPrefix + url
  {
    if StartsWith(url, ApiPrefix) then url
    else
      assert (ApiPrefix + url)[..|ApiPrefix|] == ApiPrefix;
      ApiPrefix + url
  }

  /** The `Content-Type` `apiFetch` sends: a truthy (non-empty) existing value, else JSON. */
  function ContentTypeFor(headers: Option<map<string, string>>): (v: string)
    ensures v != ""
  {
    if headers.Some? && ContentType in headers.value && headers.value[ContentType] != "" then headers.value[ContentType]
    else DefaultContentType
  }

  /** `{...init, headers: {...init.headers, "Content-Type": ...}}`, or `undefined` when `init` is. */
  function RewriteInit(init: Option<RequestInit>): (r: Option<RequestInit>)
    ensures r.Some? <==> init.Some?
  {
    match init
    case None => None
    case Some(i) =>
      var existing := if i.headers.Some? then i.headers.value else map[];
      Some(RequestInit(i.properties, Some(existing[ContentType := ContentTypeFor(i.headers)])))
  }

  function ApiFetch(input: RequestInput, init: Option<RequestInit>): (call: FetchCall)
    ensures call.input.url == RewriteUrl(input.url)
    ensures call.init == RewriteInit(init)
  {
    match input
    case UrlString(url) => FetchCall(UrlString(RewriteUrl(url)), RewriteInit(init))
    case RequestObject(url, properties) => FetchCall(RequestObject(RewriteUrl(url), properties), RewriteInit(init))
  }

  /** The rewrite leaves a URL unchanged exactly when it already starts with "/api". */
  lemma RewriteRule(url: string)
    ensures RewriteUrl(url) == url <==> StartsWith(url, ApiPrefix)
  {
    if !StartsWith(url, ApiPrefix) {
      assert |RewriteUrl(url)| > |url|;
    }
  }

  /** Rewriting twice is rewriting once. */
  lemma RewriteIdempotent(url: string)
    ensures RewriteUrl(RewriteUrl(url)) == RewriteUrl(url)
  {
  }

  /** The original route always survives, as the tail of the rewritten URL. */
  lemma RewriteKeepsRoute(url: string)
    ensures var r := RewriteUrl(url); |url| <= |r| && r[|r| - |url|..] == url
  {
  }

  /** The prefix test is textual: a route that merely begins with the letters "/api" is not prefixed. */
  lemma PrefixTestIsTextual()
    ensures RewriteUrl("/apiary") == "/apiary"
  {
    assert StartsWith("/apiary", ApiPrefix);
  }

  /** The two input shapes are rewritten alike; a request object keeps all its other properties. */
  lemma ObjectInputKeepsProperties(url: string, properties: map<string, string>, init: Option<RequestInit>)
    ensures ApiFetch(RequestObject(url, properties), init).input == RequestObject(RewriteUrl(url), properties)
    ensures ApiFetch(UrlString(url), init).input == UrlString(RewriteUrl(url))
  {
  }

  /** An undefined `init` is passed through as undefined. */
  lemma UndefinedInitPassesThrough(input: RequestInput)
    ensures ApiFetch(input, None).init == None
  {
  }

  /**
   * A given `init` keeps its properties and every header; `Content-Type`
   * keeps a truthy value and is "application/json" otherwise.
   */
  lemma InitGetsContentType(input: RequestInput, i: RequestInit)
    ensures var sent := ApiFetch(input, Some(i)).init;
            && sent.Some? && sent.value.properties == i.properties && sent.value.headers.Some?
            && (forall h :: i.headers.Some? && h in i.headers.value && h != ContentType ==>
                  h in sent.value.headers.value && sent.value.headers.value[h] == i.headers.value[h])
            && ContentType in sent.value.headers.value
            && (i.headers.Some? && ContentType in i.headers.value && i.headers.value[ContentType] != "" ==>
                  sent.value.headers.value[ContentType] == i.headers.value[ContentType])
            && (i.headers.None? || ContentType !in i.headers.value || i.headers.value[ContentType] == "" ==>
                  sent.value.headers.value[ContentType] == "application/json")
  {
  }

  /** The routes of the unit test. */
  lemma RewriteExamples()
    ensures RewriteUrl("/route") == "/api/route"
    ensures RewriteUrl("/this/is/nested") == "/api/this/is/nested"
    ensures RewriteUrl("/api/somewhere") == "/api/somewhere"
    ensures RewriteUrl("/api") == "/api"
  {
    assert StartsWith("/api/somewhere", ApiPrefix);
    assert "/route"[..4][1] != ApiPrefix[1];
    assert "/this/is/nested"[..4][1] != ApiPrefix[1];
  }
}
