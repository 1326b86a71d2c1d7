/** The request-building part of `apiClient.get` and `apiClient.post`: the
    URL with its query string and the headers. The request itself (`fetch`,
    the response and its JSON) is not modelled; each method returns the
    request it would send. */
module ApiClient {
  import opened Wrappers
  import opened JsString
  import opened JsNumber
  import Cookies

  /** Every request goes through the proxy under this prefix. */
  const ApiUrl: string := "/api"

  /** A value in the `params` record, as far as the query cares. */
  datatype ParamValue = Undefined | Null | Text(s: string) | Number(n: int) | Boolean(b: bool)

  /** A key of the `params` record with its value; a record is its entries in
      `Object.keys` order. */
  type Param = (string, ParamValue)

  /** A value survives the filter unless it is undefined, null or ''. */
  predicate Kept(v: ParamValue)
  {
    v != Undefined && v != Null && v != Text("")
  }

  /** The text `URLSearchParams.append` stores for a value. */
  function Stringify(v: ParamValue): string
  {
    match v
    case Undefined => "undefined"
    case Null => "null"
    case Text(s) => s
    case Number(n) => IntToString(n)
    case Boolean(b) => if b then "true" else "false"
  }

  /** The key/value pairs appended to the search parameters, in order. */
  function QueryPairs(ps: seq<Param>): (q: seq<(string, string)>)
    ensures |q| <= |ps|
  {
    if |ps| == 0 then []
    else
      var last := ps[|ps| - 1];
      QueryPairs(ps[..|ps| - 1]) + (if Kept(last.1) then [(last.0, Stringify(last.1))] else [])
  }

  /** The filter keeps the order of the record: the pairs of two records in a
      row are the pairs of the first followed by those of the second. */
  lemma {:induction false} QueryPairsAppend(p: seq<Param>, q: seq<Param>)
    ensures QueryPairs(p + q) == QueryPairs(p) + QueryPairs(q)
    decreases |q|
  {
    if |q| == 0 {
      assert p + q == p;
    } else {
      assert (p + q)[..|p + q| - 1] == p + q[..|q| - 1];
      QueryPairsAppend(p, q[..|q| - 1]);
    }
  }

  /** When every value is kept, every key appears, in the record's order. */
  lemma {:induction false} QueryPairsAllKept(ps: seq<Param>)
    requires forall i :: 0 <= i < |ps| ==> Kept(ps[i].1)
    ensures |QueryPairs(ps)| == |ps|
    ensures forall i :: 0 <= i < |ps| ==> QueryPairs(ps)[i] == (ps[i].0, Stringify(ps[i].1))
  {
    if |ps| > 0 {
      QueryPairsAllKept(ps[..|ps| - 1]);
    }
  }

  /** When no value is kept, there are no pairs at all. */
  lemma {:induction false} QueryPairsNoneKept(ps: seq<Param>)
    requires forall i :: 0 <= i < |ps| ==> !Kept(ps[i].1)
    ensures QueryPairs(ps) == []
  {
    if |ps| > 0 {
      QueryPairsNoneKept(ps[..|ps| - 1]);
    }
  }

  /** `searchParams.toString()` without percent-encoding: `key=value` pairs
      joined by '&'. */
  function QueryString(pairs: seq<(string, string)>): string
  {
    Join(seq(|pairs|, i requires 0 <= i < |pairs| => pairs[i].0 + "=" + pairs[i].1), '&')
  }

  /** The query string is empty exactly when there are no pairs. */
  lemma QueryStringEmpty(pairs: seq<(string, string)>)
    ensures QueryString(pairs) == "" <==> |pairs| == 0
  {
    if |pairs| > 0 {
      var parts := seq(|pairs|, i requires 0 <= i < |pairs| => pairs[i].0 + "=" + pairs[i].1);
      assert |parts[0]| > 0;
      assert |Join(parts, '&')| >= |parts[0]|;
    }
  }

  /** The URL `get` requests: the endpoint under the prefix, followed by `?`
      and the query when the query is not empty. */
  function Url(endpoint: string, params: Option<seq<Param>>): string
  {
    var query := match params
      case None => ""
      case Some(ps) => QueryString(QueryPairs(ps));
    ApiUrl + endpoint + (if query == "" then "" else "?" + query)
  }

  /** No `?` is added when there are no params or none survives the filter. */
  lemma UrlWithoutQuery(endpoint: string, params: Option<seq<Param>>)
    requires params.None? || QueryPairs(params.value) == []
    ensures Url(endpoint, params) == ApiUrl + endpoint
  {
    if params.Some? {
      QueryStringEmpty(QueryPairs(params.value));
    }
  }

  /** Otherwise one `?` and the non-empty query follow the endpoint. */
  lemma UrlWithQuery(endpoint: string, ps: seq<Param>)
    requires QueryPairs(ps) != []
    ensures var q := QueryString(QueryPairs(ps));
      q != "" && Url(endpoint, Some(ps)) == ApiUrl + endpoint + "?" + q
  {
    QueryStringEmpty(QueryPairs(ps));
  }

  /** Lines 13-24 of `get`: start from the prefixed endpoint, append each kept
      param to the search parameters, then add `?` and their text if any. */
  method BuildUrl(endpoint: string, params: Option<seq<Param>>) returns (url: string)
    ensures url == Url(endpoint, params)
  {
    url := ApiUrl + endpoint;
    if params.Some? {
      var ps := params.value;
      var searchParams: seq<(string, string)> := [];
      for i := 0 to |ps|
        invariant searchParams == QueryPairs(ps[..i])
      {
        var (key, value) := ps[i];
        if value != Undefined && value != Null && value != Text("") {
          searchParams := searchParams + [(key, Stringify(value))];
        }
        assert ps[..i + 1][..i] == ps[..i];
      }
      assert ps[..|ps|] == ps;
      var query := QueryString(searchParams);
      if query != "" {
        url := url + "?" + query;
      }
    }
  }

  /** The JSON headers, with `Authorization: Bearer <token>` exactly when the
      token is truthy. */
  predicate HeadersFor(headers: map<string, string>, token: Option<string>)
  {
    && headers.Keys == {"Accept", "Content-Type"} + (if Cookies.Truthy(token) then {"Authorization"} else {})
    && headers["Accept"] == "application/json"
    && headers["Content-Type"] == "application/json"
    && (Cookies.Truthy(token) ==> headers["Authorization"] == "Bearer " + token.value)
  }

  /** The headers of both requests, built as `get` and `post` build them. */
  method BuildHeaders(token: Option<string>) returns (headers: map<string, string>)
    ensures HeadersFor(headers, token)
  {
    headers := map["Accept" := "application/json", "Content-Type" := "application/json"];
    if token.Some? && token.value != "" {
      headers := headers["Authorization" := "Bearer " + token.value];
    }
  }

  datatype Verb = GET | POST

  /** The request that would be handed to `fetch`. */
  datatype Request = Request(verb: Verb, url: string, headers: map<string, string>, body: Option<string>)

  /** `apiClient.get(endpoint, params)`: reads the token cookie and builds the
      request. */
  method Get(doc: Cookies.Document, endpoint: string, params: Option<seq<Param>>) returns (req: Request)
    ensures req.verb == GET && req.body.None?
    ensures req.url == Url(endpoint, params)
    ensures HeadersFor(req.headers, Cookies.CookieLookup(doc, "token"))
  {
    var token := Cookies.GetCookie(doc, "token");
    var url := BuildUrl(endpoint, params);
    var headers := BuildHeaders(token);
    req := Request(GET, url, headers, None);
  }

  /** `apiClient.post(endpoint, body)`: the URL has no query; `body` stands
      for the JSON text of the body. */
  method Post(doc: Cookies.Document, endpoint: string, body: string) returns (req: Request)
    ensures req.verb == POST && req.body == Some(body)
    ensures req.url == ApiUrl + endpoint
    ensures HeadersFor(req.headers, Cookies.CookieLookup(doc, "token"))
  {
    var token := Cookies.GetCookie(doc, "token");
    var headers := BuildHeaders(token);
    req := Request(POST, ApiUrl + endpoint, headers, Some(body));
  }
}
