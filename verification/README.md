# Semantria SDK request layer (Node.js) in Dafny

This project models the request layer of the Semantria Node.js SDK
(`Node.js/api-request.js`). It covers:

- how the session obtains its consumer key and secret (`obtainSessionKeys`);
- how a request is prepared (`runApiRequest`):
  - the key check;
  - the option defaults;
  - the plain URL announced to `onRequest` (`generateUrl`);
  - the signed URL the request goes to (`generateQueryUrl`), with the oauth
    parameters written into the caller's parameter object;
  - the query string (`createQueryString`);
  - the headers (`getRequestHeaders`, `generateAuthHeader`);
- how a reply is normalised and the promise settled (`processResponse` and
  the status check in `runPromiseRequest`);
- the percent-escaping pair `Utils.escapeUtf8` / `Utils.unescapeUtf8`.

Modules, one file each:

- `Text` (`text.dfy`): join, split and decimal printing of numbers.
- `Utf8Escape` (`escape.dfy`): the escape and unescape functions, on UTF-16
  code units.
- `QueryUrl` (`query.dfy`):
  - parameter objects as ordered entry lists;
  - a `ParamObject` class that `generateQueryUrl` updates in place;
  - the query string and the two URL builders.
- `AuthHeaders` (`headers.dfy`): the OAuth header text and the header
  object.
- `Responses` (`responses.dfy`): `processResponse` with its hook calls
  recorded as events, and the settlement of the request promise.
- `Credentials` (`credentials.dfy`):
  - the promise chain of `obtainSessionKeys` as a state machine (`Step`,
    `Run`) over a `World`, which holds what the cache file and the two
    HTTP exchanges yield;
  - a `Session` class whose method runs the chain and updates its keys.
- `Pipeline` (`pipeline.dfy`): the request preparation inside
  `runApiRequest`.
- `Wrappers` (`wrappers.dfy`): `Option` and `Result`.

Conventions:

- An empty string stands for a JavaScript falsy value wherever the code tests
  truthiness (`||` defaults, `if (info.id)`).
- Text built by concatenation with a number uses that number's decimal
  rendering.
- The signature (`getQueryHash`: MD5 and HMAC-SHA1) is a function parameter
  `sign`. Nothing is assumed about it.
- JSON decoding of a reply body (`JSON.parse(Utils.decodeUtf8(...))`) is a
  function parameter `parse`. It yields `None` where
  `JSON.parse(Utils.decodeUtf8(...))` would throw: on malformed JSON, and
  also where `decodeURIComponent` rejects the text, as it does for the
  groups `escapeUtf8` writes for each half of a surrogate pair.

Behaviour of the code worth noting:

- A DELETE answered 200 fires `onError` (lines 277-285). `processResponse`
  then returns the response object, and `runPromiseRequest` resolves with
  it, because it checks only for 200 and 202 (lines 258-262).
- A rejection carries `result.message || result.data || 'unknown error'`
  (line 261):
  - the reply body, or "unknown error" when the body is empty;
  - the status passed as a second argument to `Error` is dropped.
- The login parses the reply before it checks the status (lines 358-363). A
  non-JSON body therefore rejects with a parse failure even on an error
  status.
- A refresh answered 200 whose body does not parse, or has no
  `custom_params`, rejects the whole call (lines 329-337). It does not fall
  back to the login.
- A 200 reply to a non-binary, non-DELETE request whose body does not parse
  rejects the call. `processResponse` throws at line 290, before `onAfterResponse` is
  reached.

## Model

The table lists the members whose contracts state the properties. The
functions that define the model (`Utf8Escape.Escape` and `Unescape`,
`QueryUrl.QueryString`, `GenerateUrl` and `InjectOAuth`,
`AuthHeaders.AuthHeader`, `Responses.IsDelete`) are covered through the
lemmas and methods about them.

| member | source | states |
|---|---|---|
| Text.DecimalRoundTrip | Node.js/api-request.js:181-183 | the decimal text written for the nonce and timestamp reads back to the same number |
| Text.DecimalInjective | Node.js/api-request.js:181-183 | different nonces (timestamps) give different texts |
| Utf8Escape.EscapeUnitShape | Node.js/api-request.js:219-224 | a code unit in `[*+.-9A-Z_a-z-]` is kept; any other becomes one, two or three upper-case `%XX` groups, below 128, below 2048 and otherwise |
| Utf8Escape.EscapeAlphabet | Node.js/api-request.js:219-224 | the escaped text holds only pass-through code units and `%` |
| Utf8Escape.EscapeGrows | Node.js/api-request.js:219-224 | escaping never shortens a string |
| Utf8Escape.EscapeIdentity | Node.js/api-request.js:219-224 | escaping leaves a string unchanged if and only if every code unit is in the pass-through class |
| Utf8Escape.MatchesEncoding | Node.js/api-request.js:219-229 | for a non-surrogate code unit, the unescape regex matches exactly the groups escapeUtf8 wrote, and the callback gives the code unit back |
| Utf8Escape.UnescapeUnit | Node.js/api-request.js:219-230 | unescaping the escape of one non-surrogate code unit, followed by any text, yields that code unit first and then unescapes the rest |
| Utf8Escape.RoundTrip | Node.js/api-request.js:219-230 | `unescapeUtf8(escapeUtf8(s)) == s` for every surrogate-free string, under the regex as written and as intended |
| Utf8Escape.UnescapeCopies | Node.js/api-request.js:225-230 | a prefix where the regex matches at no position is copied unchanged |
| Utf8Escape.NoPercentUntouched | Node.js/api-request.js:225-230 | text without `%` is returned unchanged |
| Utf8Escape.SurrogateEscapeSurvives | Node.js/api-request.js:219-230 | the nine code units escaping a surrogate are not matched and survive unescaping |
| Utf8Escape.SurrogateBreaksRoundTrip | Node.js/api-request.js:219-230 | the round trip fails on every lone surrogate |
| Utf8Escape.IntendedDecodesOnlyUtf8 | Node.js/api-request.js:225-230 | with the intended lead class, every replaced group is, up to hex-digit case, the UTF-8 percent-encoding of the code unit it yields, and that code unit is not a surrogate |
| Utf8Escape.AsWrittenDecodesStrayLead | Node.js/api-request.js:226-228 | as written, `%E:%80%80` is unescaped to U+000E, whose escape is not that text; the intended class leaves it unchanged |
| QueryUrl.Assigned | Node.js/api-request.js:118-122 | `obj[k] = v` keeps every existing key in place, changes no entry under another key, and appends `k` when it is new |
| QueryUrl.AssignedLookup | Node.js/api-request.js:118-122 | after `obj[k] = v`, `obj[k]` reads `v` and every other key reads as before |
| QueryUrl.AssignedDistinct | Node.js/api-request.js:118-122 | assignment keeps the keys distinct |
| QueryUrl.AssignAllKeeps | Node.js/api-request.js:118-122 | a run of assignments adds at most one entry per assignment, keeps existing keys in place, and leaves keys it does not name unchanged |
| QueryUrl.AssignAllLookup | Node.js/api-request.js:118-122 | after assignments to distinct keys, each key holds its assigned value |
| QueryUrl.AssignAllAppends | Node.js/api-request.js:118-122 | assignments to keys the object lacks append the entries in order |
| QueryUrl.InjectOAuthUnfolded | Node.js/api-request.js:118-122 | the injection is the five assignments in source order |
| QueryUrl.OAuthParamsKeys | Node.js/api-request.js:24-29 | the five oauth keys are distinct, and they are exactly the keys the injection writes |
| QueryUrl.InjectOAuthValues | Node.js/api-request.js:118-122 | afterwards the object maps the consumer key, nonce, "HMAC-SHA1", timestamp and "1.0" to the five oauth keys |
| QueryUrl.InjectOAuthKeepsOthers | Node.js/api-request.js:118-122 | caller entries under oauth keys are overwritten in place; all other entries, their order and their lookups are unchanged; at most five entries are added |
| QueryUrl.InjectOAuthAppends | Node.js/api-request.js:118-122 | when the caller used no oauth key, the five entries are appended in order |
| QueryUrl.CreateQueryString | Node.js/api-request.js:91-111 | the loop returns "" for a missing object, otherwise `?` and the `key=value` texts of the non-null entries joined by `&`, or "" if there are none |
| QueryUrl.PresentAppend | Node.js/api-request.js:98-104 | the entries kept from a concatenation are those kept from each part, in order |
| QueryUrl.RenderedAppend | Node.js/api-request.js:98-104 | the rendered texts of a concatenation are those of each part, in order |
| QueryUrl.QueryStringAppend | Node.js/api-request.js:106-108 | adding rendering entries to a non-empty query string extends it by `&` and their texts |
| QueryUrl.PresentEmpty | Node.js/api-request.js:98-104 | no entry is kept if and only if every value is null or undefined |
| QueryUrl.QueryStringEmpty | Node.js/api-request.js:91-111 | the query string is "" if and only if there is no object or every value is null or undefined |
| QueryUrl.QueryStringParses | Node.js/api-request.js:96-108 | for keys without `&`/`=` and values without `&`, reading the query string back gives exactly the non-null entries in order |
| QueryUrl.GenerateUrlAppend | Node.js/api-request.js:138-146 | adding rendering entries to an object that renders extends its URL by `&` and their texts |
| QueryUrl.GenerateUrlParses | Node.js/api-request.js:138-146 | a built URL splits at its first `?` into `host/path[.format]` and a query that reads back to the entries; with no entry there is no `?` |
| QueryUrl.ParamObject.constructor | Node.js/api-request.js:48 | a parameter object starts with the given distinct entries |
| QueryUrl.ParamObject.Put | Node.js/api-request.js:118 | `this[k] = v` updates the entries as `obj[k] = v` does and keeps keys distinct |
| QueryUrl.GenerateQueryUrl | Node.js/api-request.js:117-132 | the caller's object afterwards holds the injected entries, and the URL is generateUrl's URL for the updated object |
| AuthHeaders.GenerateAuthHeader | Node.js/api-request.js:173-197 | the loop's header is the comma-join of the pushed fields, which is `OAuth,oauth_version=1.0,oauth_signature_method=HMAC-SHA1,oauth_nonce="…",oauth_consumer_key="…",oauth_timestamp="…",oauth_signature="…"` with the signature computed from the secret and the signed URL |
| AuthHeaders.AuthHeaderText | Node.js/api-request.js:176-196 | the header text: only the scheme name is bare, and only nonce, consumer key, timestamp and signature are quoted |
| AuthHeaders.AuthFields | Node.js/api-request.js:178-194 | the seven pushed fields, in the order the keys were assigned |
| AuthHeaders.AuthHeaderFields | Node.js/api-request.js:186-196 | when neither the consumer key nor the signature holds a comma, splitting the header at commas gives the seven fields back |
| AuthHeaders.GetRequestHeaders | Node.js/api-request.js:153-166 | Authorization comes first and carries the auth header; Content-Type is the form type if and only if the method is exactly "POST"; x-app-name and x-api-version carry the session's values; names are distinct; there are 4 headers for POST, else 3 |
| Responses.ProcessResponse | Node.js/api-request.js:267-309 | onResponse fires first, once; DELETE returns 202 itself or fires onError and returns the response object; otherwise 200 returns the parsed body, or the raw body when binary, or throws on a parse failure, and passes the result to onAfterResponse only if asked; 202 returns itself; any other status fires onError once |
| Responses.RunPromiseRequest | Node.js/api-request.js:250-263 | the promise rejects if and only if the status is neither 200 nor 202, or a non-binary non-DELETE 200 body fails to parse; the message is the body, or "unknown error" when it is empty; the resolved values for 202, DELETE 200, binary and JSON replies; onResponse fires exactly once, and onError fires exactly once on every rejection with a message (and also on a DELETE that answers 200, which still resolves), never otherwise |
| Credentials.Step | Node.js/api-request.js:317-375 | each transition moves strictly down the order Start, Refreshing, LoggingIn, settled, and has at most two effects |
| Credentials.Run | Node.js/api-request.js:317-376 | the chain always settles: it resolves or rejects |
| Credentials.Session.ObtainSessionKeys | Node.js/api-request.js:317-376 | the requests and cache writes are the chain's trace; on resolution the session holds the resolved keys; on rejection it keeps its old keys and reports the chain's failure |
| Credentials.Session.RefreshSession | Node.js/api-request.js:321-339 | the refresh GET: a 200 reply with credentials sets the keys, another status hands over to the login with the keys unchanged, and a transport error or malformed 200 reply is a failure |
| Credentials.Session.LogIn | Node.js/api-request.js:346-374 | the login POST settles as the login transition does: it writes the cache on a parseable 200 reply and then sets the keys from it |
| Credentials.AlreadyHeld | Node.js/api-request.js:318-320 | a session holding both keys resolves at once with no effect |
| Credentials.CachedRefresh | Node.js/api-request.js:322-344 | a cached id whose refresh is answered 200 with credentials resolves with them after one GET, with no login and no cache write |
| Credentials.NoCacheLogsIn | Node.js/api-request.js:321-358 | without a usable cached id, the first effect is the login POST and no GET is ever sent |
| Credentials.LoginTrace | Node.js/api-request.js:358-374 | the login's effects are its POST, optionally followed by the cache write of the reply's id |
| Credentials.StaleCacheFallsBack | Node.js/api-request.js:329-358 | a refresh answered with a status other than 200 falls back to the login: the GET, then the POST, and the login's outcome |
| Credentials.LoginWritesCache | Node.js/api-request.js:358-374 | the login writes the cache if and only if it is answered 200 with a parseable body, and that write is its last effect |
| Credentials.TraceShape | Node.js/api-request.js:317-376 | every run has one of six traces: each request is sent at most once, the GET before the POST, and the cache is written at most once, last |
| Credentials.ResolvedKeysOrigin | Node.js/api-request.js:317-376 | a run resolves only with keys the session already held, or with the custom_params of a reply answered 200 |
| Pipeline.PrepareRequest | Node.js/api-request.js:14-53 | rejects with the SDK message, leaving the object untouched, when a key is missing; otherwise the method defaults to GET, the plain URL is built from the caller's parameters, the signed URL from the injected ones, the caller's object holds the injected entries, and the headers are exactly those of getRequestHeaders: the auth header for the signed URL, the form Content-Type only for POST, the session's application name and API version, four headers for POST and three otherwise |
| Pipeline.SignedQueryExtendsPlain | Node.js/api-request.js:51-52 | when the caller used no oauth key and has a non-null parameter, the signed URL is the announced URL followed by `&` and the five oauth entries |

## Left out

- getQueryHash (lines 203-208): MD5, HMAC-SHA1 and base64 are not modelled. The signature is the parameter `sign`.
- Utils.encodeUtf8 and Utils.decodeUtf8 (lines 211-217): `encodeURIComponent` and `decodeURIComponent` are not modelled. JSON parsing and serialisation are not modelled either: the reply decoding is the parameter `parse`.
- generateNonce and generateTimestamp (lines 73-82): `Math.random` and `Date` become the parameters `nonce` and `timestamp`, which may be any natural number. The source keeps the nonce below 9999999, and a Date timestamp is a millisecond count far below 10^21.
- Text.Decimal: JavaScript prints integers in this plain decimal form only below 10^21 (and exactly only up to 2^53); above that it uses exponent form, which is not modelled. The source's nonce and timestamp are far below either bound.
- The HTTP transport (`request`, `getRequestOptions`, lines 233-248) is not modelled. The replies are inputs: `status`, `body`, and the `World` of the credential chain.
- The file system is not modelled. What the cache read yields is an input. The cache write is an effect in the trace; a failed write, which the source ignores, is not modelled.
- The console.warn juggling (lines 5-7) is left out.
- The promise machinery and the `nodeify` callback (line 67) are left out.
- Pipeline.PrepareRequest: the JSON serialisation and escaping of `postParams` (lines 56-58) are not modelled. The `onRequest` call (lines 60-64) is represented only by the `url` field of the result.
- QueryUrl.CreateQueryString: entries are enumerated in insertion order. JavaScript enumerates integer-like keys first, in ascending order; that is not modelled.
- QueryUrl.Assigned: a value is the text string concatenation would make of it, or None for null and undefined. Other JavaScript types are not distinguished.
- AuthHeaders.GetRequestHeaders: an undefined application name or API version is modelled as a string value. In the source such a header has the value undefined.
- Responses.IsDelete: lower-casing is applied to ASCII letters only. No other character lower-cases to a letter of "delete", so the comparison is exact.
- Credentials.Run: `appkey` and the cached id are modelled as the text that URL concatenation makes of them.
- Credentials.Run: a reply that parses to `null` is treated as `NotJson`, because reading a property of it throws.

## Findings

| source | as written | input that shows it | evidently intended | confidence | as-written member | corrected member |
|---|---|---|---|---|---|---|
| Node.js/api-request.js:226 | the three-byte lead class `[1-CEF]` is a range from `1` to `C`, which also admits `:;<=>?@` | `%E:%80%80` is unescaped to U+000E, because `parseInt` stops at `:` | the hex digits `1`-`9`, `A`-`C`, plus `E` and `F`, so that only well-formed UTF-8 groups are decoded | not executed | Utf8Escape.AsWrittenDecodesStrayLead | Utf8Escape.IntendedDecodesOnlyUtf8 |
