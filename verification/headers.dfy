/**
 * The request headers: generateAuthHeader and getRequestHeaders.
 *
 * The signature is `getQueryHash(consumerSecret, queryUrl)`, an MD5 and
 * HMAC-SHA1 digest that this model does not compute: it is the parameter
 * `sign`, a function the caller supplies and about which nothing is assumed.
 */
module AuthHeaders {
  import opened Wrappers
  import opened Text
  import QueryUrl

  /** One entry of the `items` object: a key and the text stored under it. */
  datatype Item = Item(key: string, value: string)

  const AuthScheme: string := "OAuth"

  /** `"\"" + x + "\""`. */
  function Quoted(x: string): string
  {
    "\"" + x + "\""
  }

  /**
   * The `items` object in the order its keys are first assigned: the bare
   * scheme name, then the version, method, nonce, consumer key, timestamp
   * and signature. Its keys are distinct, so enumeration follows this order.
   */
  function AuthItems(nonce: nat, consumerKey: string, timestamp: nat, hash: string): seq<Item>
  {
    [ Item(AuthScheme, ""),
      Item(QueryUrl.VersionKey, QueryUrl.Version),
      Item(QueryUrl.SignatureMethodKey, QueryUrl.SignatureMethod),
      Item(QueryUrl.NonceKey, Quoted(Decimal(nonce))),
      Item(QueryUrl.ConsumerKeyKey, Quoted(consumerKey)),
      Item(QueryUrl.TimestampKey, Quoted(Decimal(timestamp))),
      Item(QueryUrl.SignatureKey, Quoted(hash)) ]
  }

  /** What the loop pushes for one item: `key=value`, or the bare key when the value is empty. */
  function Field(it: Item): string
  {
    if it.value != "" then it.key + "=" + it.value else it.key
  }

  function Fields(items: seq<Item>): seq<string>
  {
    seq(|items|, i requires 0 <= i < |items| => Field(items[i]))
  }

  /** The header text for these values: the pushed fields joined with commas. */
  function AuthHeader(nonce: nat, consumerKey: string, timestamp: nat, hash: string): string
  {
    Join(Fields(AuthItems(nonce, consumerKey, timestamp, hash)), ',')
  }

  /**
   * generateAuthHeader: signs the query URL, then walks the items and
   * joins what it pushed with commas. The result is the exact header text.
   */
  method GenerateAuthHeader(nonce: nat, consumerKey: string, timestamp: nat, consumerSecret: string,
                            queryUrl: string, sign: (string, string) -> string) returns (header: string)
    ensures header == AuthHeader(nonce, consumerKey, timestamp, sign(consumerSecret, queryUrl))
    ensures header == "OAuth,oauth_version=1.0,oauth_signature_method=HMAC-SHA1"
                      + ",oauth_nonce=" + Quoted(Decimal(nonce))
                      + ",oauth_consumer_key=" + Quoted(consumerKey)
                      + ",oauth_timestamp=" + Quoted(Decimal(timestamp))
                      + ",oauth_signature=" + Quoted(sign(consumerSecret, queryUrl))
  {
    var hash := sign(consumerSecret, queryUrl);
    var items := AuthItems(nonce, consumerKey, timestamp, hash);
    var parameters: seq<string> := [];
    var i := 0;
    while i < |items|
      invariant 0 <= i <= |items|
      invariant |parameters| == i
      invariant forall j :: 0 <= j < i ==> parameters[j] == Field(items[j])
    {
      if items[i].value != "" {
        parameters := parameters + [items[i].key + "=" + items[i].value];
      } else {
        parameters := parameters + [items[i].key];
      }
      i := i + 1;
    }
    assert parameters == Fields(items);
    header := Join(parameters, ',');
    AuthHeaderText(nonce, consumerKey, timestamp, hash);
  }

  /** The header written out: only the scheme name is bare, only nonce, key, timestamp and signature are quoted. */
  lemma AuthHeaderText(nonce: nat, consumerKey: string, timestamp: nat, hash: string)
    ensures AuthHeader(nonce, consumerKey, timestamp, hash)
         == "OAuth,oauth_version=1.0,oauth_signature_method=HMAC-SHA1"
            + ",oauth_nonce=" + Quoted(Decimal(nonce))
            + ",oauth_consumer_key=" + Quoted(consumerKey)
            + ",oauth_timestamp=" + Quoted(Decimal(timestamp))
            + ",oauth_signature=" + Quoted(hash)
  {
    var f0, f1, f2 := "OAuth", "oauth_version" + "=" + "1.0", "oauth_signature_method" + "=" + "HMAC-SHA1";
    var f3, f4 := "oauth_nonce" + "=" + Quoted(Decimal(nonce)), "oauth_consumer_key" + "=" + Quoted(consumerKey);
    var f5, f6 := "oauth_timestamp" + "=" + Quoted(Decimal(timestamp)), "oauth_signature" + "=" + Quoted(hash);
    AuthFields(nonce, consumerKey, timestamp, hash);
    HeaderPrefix();
    SeparatorTexts();
    var n, t := Quoted(Decimal(nonce)), Quoted(Decimal(timestamp));
    var p := "OAuth,oauth_version=1.0,oauth_signature_method=HMAC-SHA1";
    JoinSnoc([f0, f1, f2], f3, ',');
    JoinStepText(Join([f0, f1, f2], ','), "oauth_nonce", n);
    assert [f0, f1, f2] + [f3] == [f0, f1, f2, f3];
    var j3 := p + ",oauth_nonce=" + n;
    assert Join([f0, f1, f2, f3], ',') == j3;
    JoinSnoc([f0, f1, f2, f3], f4, ',');
    JoinStepText(j3, "oauth_consumer_key", Quoted(consumerKey));
    assert [f0, f1, f2, f3] + [f4] == [f0, f1, f2, f3, f4];
    var j4 := j3 + ",oauth_consumer_key=" + Quoted(consumerKey);
    assert Join([f0, f1, f2, f3, f4], ',') == j4;
    JoinSnoc([f0, f1, f2, f3, f4], f5, ',');
    JoinStepText(j4, "oauth_timestamp", t);
    assert [f0, f1, f2, f3, f4] + [f5] == [f0, f1, f2, f3, f4, f5];
    var j5 := j4 + ",oauth_timestamp=" + t;
    assert Join([f0, f1, f2, f3, f4, f5], ',') == j5;
    JoinSnoc([f0, f1, f2, f3, f4, f5], f6, ',');
    JoinStepText(j5, "oauth_signature", Quoted(hash));
    assert [f0, f1, f2, f3, f4, f5] + [f6] == [f0, f1, f2, f3, f4, f5, f6];
  }

  /** The seven texts the loop pushes. */
  lemma AuthFields(nonce: nat, consumerKey: string, timestamp: nat, hash: string)
    ensures Fields(AuthItems(nonce, consumerKey, timestamp, hash))
         == ["OAuth", "oauth_version" + "=" + "1.0", "oauth_signature_method" + "=" + "HMAC-SHA1",
             "oauth_nonce" + "=" + Quoted(Decimal(nonce)), "oauth_consumer_key" + "=" + Quoted(consumerKey),
             "oauth_timestamp" + "=" + Quoted(Decimal(timestamp)), "oauth_signature" + "=" + Quoted(hash)]
  {
  }

  /** The three unquoted fields joined. */
  lemma HeaderPrefix()
    ensures Join(["OAuth", "oauth_version" + "=" + "1.0", "oauth_signature_method" + "=" + "HMAC-SHA1"], ',')
         == "OAuth,oauth_version=1.0,oauth_signature_method=HMAC-SHA1"
  {
    JoinThree("OAuth", "oauth_version" + "=" + "1.0", "oauth_signature_method" + "=" + "HMAC-SHA1", ',');
    PrefixText();
  }

  // Solver aids: PrefixText down to JoinStepText only merge adjacent string
  // literals, so that the header text can be compared piece by piece.

  lemma PrefixText()
    ensures "OAuth" + [','] + ("oauth_version" + "=" + "1.0") + [','] + ("oauth_signature_method" + "=" + "HMAC-SHA1")
         == "OAuth,oauth_version=1.0,oauth_signature_method=HMAC-SHA1"
  {
    VersionText();
    MethodText();
    SchemeVersionText();
    assert "OAuth,oauth_version=1.0" + [','] == "OAuth,oauth_version=1.0,";
    PrefixMethodText();
  }

  lemma VersionText()
    ensures "oauth_version" + "=" + "1.0" == "oauth_version=1.0"
  {
  }

  lemma MethodText()
    ensures "oauth_signature_method" + "=" + "HMAC-SHA1" == "oauth_signature_method=HMAC-SHA1"
  {
  }

  lemma SchemeVersionText()
    ensures "OAuth" + [','] + "oauth_version=1.0" == "OAuth,oauth_version=1.0"
  {
    assert "OAuth" + [','] == "OAuth,";
  }

  lemma PrefixMethodText()
    ensures "OAuth,oauth_version=1.0," + "oauth_signature_method=HMAC-SHA1"
         == "OAuth,oauth_version=1.0,oauth_signature_method=HMAC-SHA1"
  {
  }

  lemma JoinThree(a: string, b: string, c: string, sep: char)
    ensures Join([a, b, c], sep) == a + [sep] + b + [sep] + c
  {
    JoinSnoc([a], b, sep);
    JoinSnoc([a, b], c, sep);
  }

  lemma SeparatorTexts()
    ensures "," + "oauth_nonce" + "=" == ",oauth_nonce="
    ensures "," + "oauth_consumer_key" + "=" == ",oauth_consumer_key="
    ensures "," + "oauth_timestamp" + "=" == ",oauth_timestamp="
    ensures "," + "oauth_signature" + "=" == ",oauth_signature="
  {
  }

  lemma JoinStepText(j: string, key: string, value: string)
    ensures j + [','] + (key + "=" + value) == j + ("," + key + "=") + value
  {
    assert "," == [','];
  }

  /** Joining one more element appends the separator and the element. */
  lemma {:induction false} JoinSnoc(xs: seq<string>, x: string, sep: char)
    requires |xs| >= 1
    ensures Join(xs + [x], sep) == Join(xs, sep) + [sep] + x
    decreases |xs|
  {
    if |xs| > 1 {
      assert (xs + [x])[1..] == xs[1..] + [x];
      JoinSnoc(xs[1..], x, sep);
    }
  }

  /**
   * When neither the consumer key nor the signature holds a comma, splitting
   * the header at commas gives back the seven pushed fields in order.
   */
  lemma AuthHeaderFields(nonce: nat, consumerKey: string, timestamp: nat, hash: string)
    requires Excludes(consumerKey, ',') && Excludes(hash, ',')
    ensures Split(AuthHeader(nonce, consumerKey, timestamp, hash), ',')
         == Fields(AuthItems(nonce, consumerKey, timestamp, hash))
  {
    var items := AuthItems(nonce, consumerKey, timestamp, hash);
    var fs := Fields(items);
    ItemsExclude(nonce, consumerKey, timestamp, hash);
    forall k | 0 <= k < |fs| ensures Excludes(fs[k], ',') {
      FieldExcludes(items[k]);
    }
    SplitJoin(fs, ',');
  }

  /** No key or value of the items holds a comma when the consumer key and signature hold none. */
  lemma ItemsExclude(nonce: nat, consumerKey: string, timestamp: nat, hash: string)
    requires Excludes(consumerKey, ',') && Excludes(hash, ',')
    ensures var items := AuthItems(nonce, consumerKey, timestamp, hash);
      forall k :: 0 <= k < |items| ==> Excludes(items[k].key, ',') && Excludes(items[k].value, ',')
  {
    var items := AuthItems(nonce, consumerKey, timestamp, hash);
    KeysExclude();
    QuotedExcludes(Decimal(nonce));
    QuotedExcludes(consumerKey);
    QuotedExcludes(Decimal(timestamp));
    QuotedExcludes(hash);
    forall k | 0 <= k < |items| ensures Excludes(items[k].key, ',') && Excludes(items[k].value, ',') {
      if k == 0 {
      } else if k == 1 {
      } else if k == 2 {
      } else if k == 3 {
      } else if k == 4 {
      } else if k == 5 {
      } else {
      }
    }
  }

  /** The fixed keys and values hold no comma. */
  lemma KeysExclude()
    ensures Excludes(AuthScheme, ',') && Excludes("", ',')
    ensures Excludes(QueryUrl.VersionKey, ',') && Excludes(QueryUrl.Version, ',')
    ensures Excludes(QueryUrl.SignatureMethodKey, ',') && Excludes(QueryUrl.SignatureMethod, ',')
    ensures Excludes(QueryUrl.NonceKey, ',') && Excludes(QueryUrl.ConsumerKeyKey, ',')
    ensures Excludes(QueryUrl.TimestampKey, ',') && Excludes(QueryUrl.SignatureKey, ',')
  {
  }

  lemma QuotedExcludes(x: string)
    requires Excludes(x, ',')
    ensures Excludes(Quoted(x), ',')
  {
  }

  lemma FieldExcludes(it: Item)
    requires Excludes(it.key, ',') && Excludes(it.value, ',')
    ensures Excludes(Field(it), ',')
  {
  }

  /** One header: its name and value. */
  datatype Header = Header(name: string, value: string)

  const AuthorizationName: string := "Authorization"
  const ContentTypeName: string := "Content-Type"
  const AppNameName: string := "x-app-name"
  const ApiVersionName: string := "x-api-version"
  const FormContentType: string := "application/x-www-form-urlencoded"

  /** `headers[name]`, None when the object has no such key. */
  function HeaderValue(headers: seq<Header>, name: string): Option<string>
  {
    if |headers| == 0 then None
    else if headers[0].name == name then Some(headers[0].value)
    else HeaderValue(headers[1..], name)
  }

  /**
   * getRequestHeaders: fills a headers object with Authorization, then
   * Content-Type only when the method is exactly "POST", then the
   * application name and the API version.
   */
  method GetRequestHeaders(httpMethod: string, applicationName: string, apiVersion: string,
                           nonce: nat, consumerKey: string, timestamp: nat, consumerSecret: string,
                           queryUrl: string, sign: (string, string) -> string) returns (headers: seq<Header>)
    ensures |headers| == if httpMethod == "POST" then 4 else 3
    ensures forall i, j :: 0 <= i < j < |headers| ==> headers[i].name != headers[j].name
    ensures headers[0].name == AuthorizationName
    ensures HeaderValue(headers, AuthorizationName)
         == Some(AuthHeader(nonce, consumerKey, timestamp, sign(consumerSecret, queryUrl)))
    ensures HeaderValue(headers, ContentTypeName) == if httpMethod == "POST" then Some(FormContentType) else None
    ensures HeaderValue(headers, AppNameName) == Some(applicationName)
    ensures HeaderValue(headers, ApiVersionName) == Some(apiVersion)
  {
    var auth := GenerateAuthHeader(nonce, consumerKey, timestamp, consumerSecret, queryUrl, sign);
    headers := [Header(AuthorizationName, auth)];
    if httpMethod == "POST" {
      headers := headers + [Header(ContentTypeName, FormContentType)];
    }
    headers := headers + [Header(AppNameName, applicationName)];
    headers := headers + [Header(ApiVersionName, apiVersion)];
    assert AuthorizationName[0] == 'A' && ContentTypeName[0] == 'C' && AppNameName[0] == 'x' && ApiVersionName[0] == 'x';
    assert AppNameName[2] == 'a' && ApiVersionName[2] == 'a' && AppNameName[4] != ApiVersionName[4];
    HeaderValueAt(headers, 0);
    HeaderValueAt(headers, |headers| - 2);
    HeaderValueAt(headers, |headers| - 1);
    if httpMethod == "POST" {
      HeaderValueAt(headers, 1);
    }
    if httpMethod != "POST" {
      HeaderValueAbsent(headers, ContentTypeName);
    }
  }

  /** In an object with distinct names, each header is found under its own name. */
  lemma {:induction false} HeaderValueAt(headers: seq<Header>, i: nat)
    requires forall a, b :: 0 <= a < b < |headers| ==> headers[a].name != headers[b].name
    requires i < |headers|
    ensures HeaderValue(headers, headers[i].name) == Some(headers[i].value)
  {
    if i > 0 {
      assert headers[0].name != headers[i].name;
      HeaderValueAt(headers[1..], i - 1);
    }
  }

  /** A name no header carries is not found. */
  lemma {:induction false} HeaderValueAbsent(headers: seq<Header>, name: string)
    requires forall a :: 0 <= a < |headers| ==> headers[a].name != name
    ensures HeaderValue(headers, name) == None
  {
    if |headers| > 0 {
      HeaderValueAbsent(headers[1..], name);
    }
  }
}
