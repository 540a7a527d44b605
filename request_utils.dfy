/**
 * The browser's request helper: a `Request` object holding the API base URL, whose `get`,
 * `post`, `put` and `delete` build the URL, the headers (JSON defaults, a bearer token from
 * local storage when there is one, custom headers winning) and the body, and hand them to
 * `fetch`. The call to `fetch` is returned as a description rather than performed.
 */
module RequestUtils {
  import opened Wrappers
  import opened JsValues
  import opened QueryString

  /** `localStorage` as the helper sees it: access may throw, and the `token` item may be absent. */
  datatype LocalStorage = Unavailable | Available(token: Option<string>)

  /** `_getAuthToken`: the stored token, or null when the storage cannot be read. */
  function AuthToken(storage: LocalStorage): (token: Option<string>)
    ensures storage.Unavailable? ==> token == None
    ensures storage.Available? ==> token == storage.token
  {
    match storage
    case Unavailable => None
    case Available(t) => t
  }

  /** `if (token)`: null and the empty string are falsy. */
  predicate HasToken(token: Option<string>) {
    token.Some? && token.value != ""
  }

  const Json: string := "application/json"

  /** The headers every request starts from. */
  const DefaultHeaders: Object := [("Accept", Str(Json)), ("Content-Type", Str(Json))]

  /**
   * What each header name reads after the merge: the custom value when given, otherwise JSON
   * for `Accept` and `Content-Type`, the bearer token for `Authorization` when there is a
   * token, and nothing for any other name.
   */
  function HeaderValue(token: Option<string>, custom: Object, name: string): Value {
    if Has(custom, name) then JsValues.Get(custom, name)
    else if name == "Accept" || name == "Content-Type" then Str(Json)
    else if name == "Authorization" && HasToken(token) then Str("Bearer " + token.value)
    else Undefined
  }

  /** The header names present after the merge. */
  predicate HeaderPresent(token: Option<string>, custom: Object, name: string) {
    Has(custom, name) || name == "Accept" || name == "Content-Type" || (name == "Authorization" && HasToken(token))
  }

  /** `headers` is the merge of the defaults, the token and `custom`, name by name. */
  ghost predicate HeadersFor(headers: Object, token: Option<string>, custom: Object) {
    && DistinctKeys(headers)
    && (forall name :: JsValues.Get(headers, name) == HeaderValue(token, custom, name))
    && (forall name :: Has(headers, name) <==> HeaderPresent(token, custom, name))
  }

  /** The `options` passed to `fetch` (`verb` is its `method`); `body` is the value `JSON.stringify` is applied to. */
  datatype Options = Options(verb: string, headers: Object, body: Option<Value>)

  /** A call `fetch(url, options)`. */
  datatype Fetch = Fetch(url: string, options: Options)

  class Request {
    var baseURL: string

    /** `VITE_BASE_URL` from the build environment; a missing one is written as "undefined" in URLs. */
    constructor (env: Option<string>)
      ensures baseURL == env.GetOr("undefined")
    {
      baseURL := env.GetOr("undefined");
    }

    /** `get`: the stringified parameters follow a `?` only when they are not empty; no body. */
    method Get(path: string, parameters: Object, customHeaders: Object, storage: LocalStorage) returns (f: Fetch)
      requires DistinctKeys(customHeaders)
      ensures Fields(parameters) == [] ==> f.url == baseURL + path
      ensures Fields(parameters) != [] ==> f.url == baseURL + path + "?" + Stringify(parameters)
      ensures f.options.verb == "GET" && f.options.body == None
      ensures HeadersFor(f.options.headers, AuthToken(storage), customHeaders)
    {
      var params := Stringify(parameters);
      var url := if params != "" then path + "?" + params else path;
      GetUrl(baseURL, path, parameters, url);
      f := MakeRequest("GET", url, Null, customHeaders, storage);
    }

    /** `post`. */
    method Post(path: string, data: Value, customHeaders: Object, storage: LocalStorage) returns (f: Fetch)
      requires DistinctKeys(customHeaders)
      ensures f.url == baseURL + path && f.options.verb == "POST"
      ensures f.options.body == if Truthy(data) then Some(data) else None
      ensures HeadersFor(f.options.headers, AuthToken(storage), customHeaders)
    {
      f := MakeRequest("POST", path, data, customHeaders, storage);
    }

    /** `put`. */
    method Put(path: string, data: Value, customHeaders: Object, storage: LocalStorage) returns (f: Fetch)
      requires DistinctKeys(customHeaders)
      ensures f.url == baseURL + path && f.options.verb == "PUT"
      ensures f.options.body == if Truthy(data) then Some(data) else None
      ensures HeadersFor(f.options.headers, AuthToken(storage), customHeaders)
    {
      f := MakeRequest("PUT", path, data, customHeaders, storage);
    }

    /** `delete`. */
    method Delete(path: string, data: Value, customHeaders: Object, storage: LocalStorage) returns (f: Fetch)
      requires DistinctKeys(customHeaders)
      ensures f.url == baseURL + path && f.options.verb == "DELETE"
      ensures f.options.body == if Truthy(data) then Some(data) else None
      ensures HeadersFor(f.options.headers, AuthToken(storage), customHeaders)
    {
      f := MakeRequest("DELETE", path, data, customHeaders, storage);
    }

    /** `_makeRequest`: a body only for truthy data on a method other than GET. */
    method MakeRequest(verb: string, path: string, data: Value, customHeaders: Object, storage: LocalStorage)
      returns (f: Fetch)
      requires DistinctKeys(customHeaders)
      ensures f.url == baseURL + path && f.options.verb == verb
      ensures f.options.body.Some? <==> Truthy(data) && verb != "GET"
      ensures f.options.body.Some? ==> f.options.body.value == data
      ensures HeadersFor(f.options.headers, AuthToken(storage), customHeaders)
    {
      var headers := BuildHeaders(customHeaders, storage);
      var options := Options(verb, headers, None);
      if Truthy(data) && verb != "GET" {
        options := options.(body := Some(data));
      }
      f := Send(path, options);
    }

    /**
     * `_buildHeaders`: the JSON defaults, `Authorization: Bearer <token>` added when a token is
     * stored, then the custom headers spread over them.
     */
    method BuildHeaders(customHeaders: Object, storage: LocalStorage) returns (headers: Object)
      requires DistinctKeys(customHeaders)
      ensures HeadersFor(headers, AuthToken(storage), customHeaders)
    {
      var defaultHeaders := DefaultHeaders;
      var token := AuthToken(storage);
      if HasToken(token) {
        defaultHeaders := JsValues.Put(defaultHeaders, "Authorization", Str("Bearer " + token.value));
      }
      headers := Spread(defaultHeaders, customHeaders);
      DefaultsRead(token, defaultHeaders);
      SpreadDistinct(defaultHeaders, customHeaders);
      forall name
        ensures JsValues.Get(headers, name) == HeaderValue(token, customHeaders, name)
        ensures Has(headers, name) <==> HeaderPresent(token, customHeaders, name)
      {
        SpreadGet(defaultHeaders, customHeaders, name);
      }
    }

    /** `_request` up to the call: the URL is the base URL followed by the path. */
    method Send(path: string, options: Options) returns (f: Fetch)
      ensures f.url == baseURL + path && f.options == options
    {
      f := Fetch(baseURL + path, options);
    }
  }

  /** The URL `get` requests: the query string follows a `?` exactly when there is a field. */
  lemma GetUrl(base: string, path: string, parameters: Object, url: string)
    requires url == if Stringify(parameters) != "" then path + "?" + Stringify(parameters) else path
    ensures Fields(parameters) == [] ==> base + url == base + path
    ensures Fields(parameters) != [] ==> base + url == base + path + "?" + Stringify(parameters)
  {
    StringifyEmpty(parameters);
    assert base + (path + "?" + Stringify(parameters)) == base + path + "?" + Stringify(parameters);
  }

  /** The defaults after the optional `Authorization` assignment, name by name. */
  lemma DefaultsRead(token: Option<string>, defaults: Object)
    requires defaults == if HasToken(token) then JsValues.Put(DefaultHeaders, "Authorization", Str("Bearer " + token.value)) else DefaultHeaders
    ensures DistinctKeys(defaults)
    ensures forall name :: JsValues.Get(defaults, name) == HeaderValue(token, [], name)
    ensures forall name :: Has(defaults, name) <==> HeaderPresent(token, [], name)
  {
    DefaultsDistinct();
    if HasToken(token) {
      PutDistinct(DefaultHeaders, "Authorization", Str("Bearer " + token.value));
    }
    forall name
      ensures JsValues.Get(defaults, name) == HeaderValue(token, [], name)
      ensures Has(defaults, name) <==> HeaderPresent(token, [], name)
    {
      DefaultsGet(name);
      if HasToken(token) {
        PutGet(DefaultHeaders, "Authorization", Str("Bearer " + token.value), name);
      }
    }
  }

  lemma DefaultsDistinct()
    ensures DistinctKeys(DefaultHeaders)
  {
    assert |DefaultHeaders[0].0| != |DefaultHeaders[1].0|;
  }

  /** The defaults read JSON for `Accept` and `Content-Type` and nothing else; `Authorization` is not among them. */
  lemma DefaultsGet(name: string)
    ensures JsValues.Get(DefaultHeaders, name) == if name == "Accept" || name == "Content-Type" then Str(Json) else Undefined
    ensures Has(DefaultHeaders, name) <==> name == "Accept" || name == "Content-Type"
    ensures "Authorization" != "Accept" && "Authorization" != "Content-Type"
  {
    var d := DefaultHeaders;
    assert d[1..] == [("Content-Type", Str(Json))];
    assert d[1..][1..] == [];
    assert Keys(d) == ["Accept", "Content-Type"];
    assert |"Authorization"| != |"Accept"| && |"Authorization"| != |"Content-Type"|;
  }
}
