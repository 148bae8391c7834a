/**
 * The request preparation inside runApiRequest, after the session keys are
 * known: the key check, the option defaults, the two URLs, and the headers.
 *
 * The order matters: the URL announced to onRequest is built from the
 * caller's parameter object before generateQueryUrl writes the oauth
 * entries into that same object; the request goes to the signed URL.
 */
module Pipeline {
  import opened Wrappers
  import opened Text
  import opened QueryUrl
  import AuthHeaders

  const MissingKeys: string := "ConsumerKey and ConsumerSecret should be specified in order to use SDK"

  /** The options runApiRequest reads; "" stands for a falsy method or path. */
  datatype Options = Options(httpMethod: string, path: string, isBinary: bool)

  /** The session fields runApiRequest reads. */
  datatype Client = Client(host: string, format: string, applicationName: string, apiVersion: string,
                           consumerKey: string, consumerSecret: string)

  /** A prepared request: its method, the URL onRequest is told, the signed URL it goes to, and its headers. */
  datatype Prepared = Prepared(httpMethod: string, url: string, queryUrl: string, headers: seq<AuthHeaders.Header>)

  /**
   * Rejects when either key is missing; otherwise builds the plain URL from
   * the parameters as given, then injects the oauth entries into the
   * caller's object (a fresh one when there is none) and builds the signed
   * URL and the headers from it.
   */
  method PrepareRequest(c: Client, opts: Options, getParams: ParamObject?, nonce: nat, timestamp: nat,
                        sign: (string, string) -> string) returns (r: Result<Prepared, string>)
    requires getParams != null ==> getParams.Valid()
    modifies getParams
    ensures c.consumerKey == "" || c.consumerSecret == "" ==>
              r == Err(MissingKeys) && (getParams != null ==> getParams.entries == old(getParams.entries))
    ensures c.consumerKey != "" && c.consumerSecret != "" ==>
              var given := if getParams == null then [] else old(getParams.entries);
              var injected := InjectOAuth(given, c.consumerKey, nonce, timestamp);
              var m := if opts.httpMethod != "" then opts.httpMethod else "GET";
              && r.Ok?
              && r.value.httpMethod == m
              && r.value.url == GenerateUrl(c.host, opts.path, opts.isBinary, c.format, Some(given))
              && r.value.queryUrl == GenerateUrl(c.host, opts.path, opts.isBinary, c.format, Some(injected))
              && (getParams != null ==> getParams.Valid() && getParams.entries == injected)
              && AuthHeaders.HeaderValue(r.value.headers, AuthHeaders.AuthorizationName)
                 == Some(AuthHeaders.AuthHeader(nonce, c.consumerKey, timestamp, sign(c.consumerSecret, r.value.queryUrl)))
              && AuthHeaders.HeaderValue(r.value.headers, AuthHeaders.ContentTypeName)
                 == (if m == "POST" then Some(AuthHeaders.FormContentType) else None)
              && AuthHeaders.HeaderValue(r.value.headers, AuthHeaders.AppNameName) == Some(c.applicationName)
              && AuthHeaders.HeaderValue(r.value.headers, AuthHeaders.ApiVersionName) == Some(c.apiVersion)
              && |r.value.headers| == (if m == "POST" then 4 else 3)
  {
    if c.consumerKey == "" || c.consumerSecret == "" {
      return Err(MissingKeys);
    }
    var httpMethod := if opts.httpMethod != "" then opts.httpMethod else "GET";
    var params := getParams;
    if params == null {
      params := new ParamObject([]);
    }
    var url := GenerateUrl(c.host, opts.path, opts.isBinary, c.format, Some(params.entries));
    var queryUrl := GenerateQueryUrl(params, c.host, opts.path, opts.isBinary, c.format, c.consumerKey, nonce, timestamp);
    var headers := AuthHeaders.GetRequestHeaders(httpMethod, c.applicationName, c.apiVersion, nonce, c.consumerKey,
                                                  timestamp, c.consumerSecret, queryUrl, sign);
    r := Ok(Prepared(httpMethod, url, queryUrl, headers));
  }

  /**
   * The announced URL carries no oauth parameter the caller did not supply:
   * when the caller's object has no oauth key and at least one value, the
   * signed URL's query is the plain URL's query followed by the five oauth
   * entries.
   */
  lemma SignedQueryExtendsPlain(host: string, path: string, isBinary: bool, format: string,
                                ps: seq<Param>, consumerKey: string, nonce: nat, timestamp: nat)
    requires forall i :: 0 <= i < |ps| ==> !IsOAuthKey(ps[i].key)
    requires |Present(ps)| > 0
    ensures GenerateUrl(host, path, isBinary, format, Some(InjectOAuth(ps, consumerKey, nonce, timestamp)))
         == GenerateUrl(host, path, isBinary, format, Some(ps)) + "&"
            + Join(Rendered(OAuthParams(consumerKey, nonce, timestamp)), '&')
  {
    InjectOAuthAppends(ps, consumerKey, nonce, timestamp);
    OAuthParamsPresent(consumerKey, nonce, timestamp);
    GenerateUrlAppend(host, path, isBinary, format, ps, OAuthParams(consumerKey, nonce, timestamp));
  }
}
