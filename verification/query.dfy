/**
 * Query-string and URL construction: createQueryString, generateUrl and
 * generateQueryUrl.
 *
 * A JavaScript parameter object is a sequence of entries in enumeration
 * order; keys are distinct. A value is the text JavaScript concatenation
 * would produce from it, or None for `null` and `undefined`, which the
 * query string skips.
 */
module QueryUrl {
  import opened Wrappers
  import opened Text

  datatype Param = Param(key: string, value: Option<string>)

  predicate DistinctKeys(ps: seq<Param>)
  {
    forall i, j :: 0 <= i < j < |ps| ==> ps[i].key != ps[j].key
  }

  predicate HasKey(ps: seq<Param>, k: string)
  {
    exists i :: 0 <= i < |ps| && ps[i].key == k
  }

  /** The value stored under `k`, looked up the way `obj[k]` does. */
  function Lookup(ps: seq<Param>, k: string): Option<Option<string>>
  {
    if |ps| == 0 then None
    else if ps[0].key == k then Some(ps[0].value)
    else Lookup(ps[1..], k)
  }

  /**
   * `obj[k] = v`: an existing key keeps its place and takes the new value;
   * a new key is added at the end. No other entry changes.
   */
  function Assigned(ps: seq<Param>, k: string, v: Option<string>): (r: seq<Param>)
    ensures |r| == if HasKey(ps, k) then |ps| else |ps| + 1
    ensures forall i :: 0 <= i < |ps| ==> r[i].key == ps[i].key
    ensures forall i :: 0 <= i < |ps| && ps[i].key != k ==> r[i] == ps[i]
    ensures !HasKey(ps, k) ==> r == ps + [Param(k, v)]
  {
    if |ps| == 0 then [Param(k, v)]
    else if ps[0].key == k then [Param(k, v)] + ps[1..]
    else
      var rest := Assigned(ps[1..], k, v);
      assert HasKey(ps, k) <==> HasKey(ps[1..], k) by {
        if HasKey(ps, k) {
          var i :| 0 <= i < |ps| && ps[i].key == k;
          assert ps[1..][i - 1].key == k;
        }
        if HasKey(ps[1..], k) {
          var i :| 0 <= i < |ps[1..]| && ps[1..][i].key == k;
          assert ps[i + 1].key == k;
        }
      }
      [ps[0]] + rest
  }

  /** After `obj[k] = v`, `obj[k]` reads `v` and every other key reads as before. */
  lemma {:induction false} AssignedLookup(ps: seq<Param>, k: string, v: Option<string>)
    ensures Lookup(Assigned(ps, k, v), k) == Some(v)
    ensures forall k' :: k' != k ==> Lookup(Assigned(ps, k, v), k') == Lookup(ps, k')
  {
    if |ps| > 0 && ps[0].key != k {
      AssignedLookup(ps[1..], k, v);
    }
  }

  /** Assignment keeps the keys of an object distinct. */
  lemma AssignedDistinct(ps: seq<Param>, k: string, v: Option<string>)
    requires DistinctKeys(ps)
    ensures DistinctKeys(Assigned(ps, k, v))
  {
    var r := Assigned(ps, k, v);
    if !HasKey(ps, k) {
      forall i, j | 0 <= i < j < |r| ensures r[i].key != r[j].key {
        if j == |ps| {
          assert ps[i].key != k;
        }
      }
    }
  }

  const ConsumerKeyKey: string := "oauth_consumer_key"
  const NonceKey: string := "oauth_nonce"
  const SignatureMethodKey: string := "oauth_signature_method"
  const TimestampKey: string := "oauth_timestamp"
  const VersionKey: string := "oauth_version"
  const SignatureKey: string := "oauth_signature"
  const SignatureMethod: string := "HMAC-SHA1"
  const Version: string := "1.0"

  predicate IsOAuthKey(k: string)
  {
    k == ConsumerKeyKey || k == NonceKey || k == SignatureMethodKey || k == TimestampKey || k == VersionKey
  }

  /** The five entries generateQueryUrl writes, in the order it writes them. */
  function OAuthParams(consumerKey: string, nonce: nat, timestamp: nat): seq<Param>
  {
    [ Param(ConsumerKeyKey, Some(consumerKey)),
      Param(NonceKey, Some(Decimal(nonce))),
      Param(SignatureMethodKey, Some(SignatureMethod)),
      Param(TimestampKey, Some(Decimal(timestamp))),
      Param(VersionKey, Some(Version)) ]
  }

  /** Several assignments `obj[k] = v` in a row. */
  function AssignAll(ps: seq<Param>, kvs: seq<Param>): seq<Param>
    decreases |kvs|
  {
    if |kvs| == 0 then ps else AssignAll(Assigned(ps, kvs[0].key, kvs[0].value), kvs[1..])
  }

  lemma HasKeyTail(kvs: seq<Param>, k: string)
    requires |kvs| > 0
    ensures HasKey(kvs, k) <==> kvs[0].key == k || HasKey(kvs[1..], k)
  {
    if HasKey(kvs, k) && kvs[0].key != k {
      var j :| 0 <= j < |kvs| && kvs[j].key == k;
      assert kvs[1..][j - 1].key == k;
    }
    if HasKey(kvs[1..], k) {
      var j :| 0 <= j < |kvs[1..]| && kvs[1..][j].key == k;
      assert kvs[j + 1].key == k;
    }
  }

  /** Entries under keys that no assignment names are left as they were, in place. */
  lemma {:induction false} AssignAllKeeps(ps: seq<Param>, kvs: seq<Param>)
    ensures var r := AssignAll(ps, kvs);
      && |ps| <= |r| <= |ps| + |kvs|
      && (forall i :: 0 <= i < |ps| ==> r[i].key == ps[i].key)
      && (forall i :: 0 <= i < |ps| && !HasKey(kvs, ps[i].key) ==> r[i] == ps[i])
      && (forall k :: !HasKey(kvs, k) ==> Lookup(r, k) == Lookup(ps, k))
      && (DistinctKeys(ps) ==> DistinctKeys(r))
    decreases |kvs|
  {
    if |kvs| > 0 {
      var p1 := Assigned(ps, kvs[0].key, kvs[0].value);
      AssignedLookup(ps, kvs[0].key, kvs[0].value);
      if DistinctKeys(ps) {
        AssignedDistinct(ps, kvs[0].key, kvs[0].value);
      }
      AssignAllKeeps(p1, kvs[1..]);
      forall k ensures HasKey(kvs, k) <==> kvs[0].key == k || HasKey(kvs[1..], k) {
        HasKeyTail(kvs, k);
      }
    }
  }

  /** With distinct keys among the assignments, each key ends up holding its assigned value. */
  lemma {:induction false} AssignAllLookup(ps: seq<Param>, kvs: seq<Param>, j: nat)
    requires DistinctKeys(kvs) && j < |kvs|
    ensures Lookup(AssignAll(ps, kvs), kvs[j].key) == Some(kvs[j].value)
    decreases |kvs|
  {
    var p1 := Assigned(ps, kvs[0].key, kvs[0].value);
    if j == 0 {
      AssignedLookup(ps, kvs[0].key, kvs[0].value);
      AssignAllKeeps(p1, kvs[1..]);
      assert !HasKey(kvs[1..], kvs[0].key);
    } else {
      assert kvs[1..][j - 1] == kvs[j];
      AssignAllLookup(p1, kvs[1..], j - 1);
    }
  }

  lemma HasKeyAppended(ps: seq<Param>, p: Param, k: string)
    ensures HasKey(ps + [p], k) <==> HasKey(ps, k) || p.key == k
  {
    if HasKey(ps + [p], k) {
      var i :| 0 <= i < |ps| + 1 && (ps + [p])[i].key == k;
      if i < |ps| { assert ps[i].key == k; }
    }
    if HasKey(ps, k) {
      var i :| 0 <= i < |ps| && ps[i].key == k;
      assert (ps + [p])[i].key == k;
    }
    if p.key == k {
      assert (ps + [p])[|ps|].key == k;
    }
  }

  /** Assignments to keys the object does not have append the entries in order. */
  lemma {:induction false} AssignAllAppends(ps: seq<Param>, kvs: seq<Param>)
    requires DistinctKeys(kvs)
    requires forall j :: 0 <= j < |kvs| ==> !HasKey(ps, kvs[j].key)
    ensures AssignAll(ps, kvs) == ps + kvs
    decreases |kvs|
  {
    if |kvs| > 0 {
      var p1 := Assigned(ps, kvs[0].key, kvs[0].value);
      assert p1 == ps + [kvs[0]];
      forall j | 0 <= j < |kvs[1..]| ensures !HasKey(p1, kvs[1..][j].key) {
        assert kvs[1..][j] == kvs[j + 1];
        HasKeyAppended(ps, kvs[0], kvs[j + 1].key);
      }
      AssignAllAppends(p1, kvs[1..]);
      assert ps + [kvs[0]] + kvs[1..] == ps + kvs;
    }
  }

  /** The parameter object after generateQueryUrl's five assignments. */
  function InjectOAuth(ps: seq<Param>, consumerKey: string, nonce: nat, timestamp: nat): seq<Param>
  {
    AssignAll(ps, OAuthParams(consumerKey, nonce, timestamp))
  }

  /** The injection written out as the five assignments generateQueryUrl makes. */
  lemma InjectOAuthUnfolded(ps: seq<Param>, consumerKey: string, nonce: nat, timestamp: nat)
    ensures InjectOAuth(ps, consumerKey, nonce, timestamp)
         == var p1 := Assigned(ps, ConsumerKeyKey, Some(consumerKey));
            var p2 := Assigned(p1, NonceKey, Some(Decimal(nonce)));
            var p3 := Assigned(p2, SignatureMethodKey, Some(SignatureMethod));
            var p4 := Assigned(p3, TimestampKey, Some(Decimal(timestamp)));
            Assigned(p4, VersionKey, Some(Version))
  {
    var kvs := OAuthParams(consumerKey, nonce, timestamp);
    var p1 := Assigned(ps, ConsumerKeyKey, Some(consumerKey));
    var p2 := Assigned(p1, NonceKey, Some(Decimal(nonce)));
    var p3 := Assigned(p2, SignatureMethodKey, Some(SignatureMethod));
    var p4 := Assigned(p3, TimestampKey, Some(Decimal(timestamp)));
    var p5 := Assigned(p4, VersionKey, Some(Version));
    AssignAllStep(ps, kvs);
    AssignAllStep(p1, kvs[1..]);
    assert kvs[1..][1..] == kvs[2..];
    AssignAllStep(p2, kvs[2..]);
    assert kvs[2..][1..] == kvs[3..];
    AssignAllStep(p3, kvs[3..]);
    assert kvs[3..][1..] == kvs[4..];
    AssignAllStep(p4, kvs[4..]);
    assert kvs[4..][1..] == [];
    assert AssignAll(p5, []) == p5;
  }

  lemma AssignAllStep(ps: seq<Param>, kvs: seq<Param>)
    requires |kvs| > 0
    ensures AssignAll(ps, kvs) == AssignAll(Assigned(ps, kvs[0].key, kvs[0].value), kvs[1..])
  {
  }

  lemma OAuthParamsKeys(consumerKey: string, nonce: nat, timestamp: nat)
    ensures DistinctKeys(OAuthParams(consumerKey, nonce, timestamp))
    ensures forall k :: HasKey(OAuthParams(consumerKey, nonce, timestamp), k) <==> IsOAuthKey(k)
  {
    var kvs := OAuthParams(consumerKey, nonce, timestamp);
    assert |ConsumerKeyKey| == 18 && |NonceKey| == 11 && |SignatureMethodKey| == 22;
    assert |TimestampKey| == 15 && |VersionKey| == 13;
    forall k | IsOAuthKey(k) ensures HasKey(kvs, k) {
      if k == ConsumerKeyKey { assert kvs[0].key == k; }
      else if k == NonceKey { assert kvs[1].key == k; }
      else if k == SignatureMethodKey { assert kvs[2].key == k; }
      else if k == TimestampKey { assert kvs[3].key == k; }
      else { assert kvs[4].key == k; }
    }
  }

  /** After the injection the five oauth keys hold the consumer key, the nonce, "HMAC-SHA1", the timestamp and "1.0". */
  lemma InjectOAuthValues(ps: seq<Param>, consumerKey: string, nonce: nat, timestamp: nat)
    ensures var r := InjectOAuth(ps, consumerKey, nonce, timestamp);
      && Lookup(r, ConsumerKeyKey) == Some(Some(consumerKey))
      && Lookup(r, NonceKey) == Some(Some(Decimal(nonce)))
      && Lookup(r, SignatureMethodKey) == Some(Some(SignatureMethod))
      && Lookup(r, TimestampKey) == Some(Some(Decimal(timestamp)))
      && Lookup(r, VersionKey) == Some(Some(Version))
  {
    var kvs := OAuthParams(consumerKey, nonce, timestamp);
    OAuthParamsKeys(consumerKey, nonce, timestamp);
    AssignAllLookup(ps, kvs, 0);
    AssignAllLookup(ps, kvs, 1);
    AssignAllLookup(ps, kvs, 2);
    AssignAllLookup(ps, kvs, 3);
    AssignAllLookup(ps, kvs, 4);
  }

  /**
   * A caller entry under an oauth key is overwritten in place, every other
   * entry is unchanged and keeps its position, and keys stay distinct.
   */
  lemma InjectOAuthKeepsOthers(ps: seq<Param>, consumerKey: string, nonce: nat, timestamp: nat)
    ensures var r := InjectOAuth(ps, consumerKey, nonce, timestamp);
      && |ps| <= |r| <= |ps| + 5
      && (forall i :: 0 <= i < |ps| ==> r[i].key == ps[i].key)
      && (forall i :: 0 <= i < |ps| && !IsOAuthKey(ps[i].key) ==> r[i] == ps[i])
      && (forall k :: !IsOAuthKey(k) ==> Lookup(r, k) == Lookup(ps, k))
      && (DistinctKeys(ps) ==> DistinctKeys(r))
  {
    OAuthParamsKeys(consumerKey, nonce, timestamp);
    AssignAllKeeps(ps, OAuthParams(consumerKey, nonce, timestamp));
  }

  /** The five oauth entries all have values, so they always render. */
  lemma OAuthParamsPresent(consumerKey: string, nonce: nat, timestamp: nat)
    ensures |Present(OAuthParams(consumerKey, nonce, timestamp))| >= 1
  {
    var kvs := OAuthParams(consumerKey, nonce, timestamp);
    assert kvs[|kvs| - 1].value.Some?;
  }

  /** When the caller used none of the oauth keys, the five entries are appended in order. */
  lemma InjectOAuthAppends(ps: seq<Param>, consumerKey: string, nonce: nat, timestamp: nat)
    requires forall i :: 0 <= i < |ps| ==> !IsOAuthKey(ps[i].key)
    ensures InjectOAuth(ps, consumerKey, nonce, timestamp) == ps + OAuthParams(consumerKey, nonce, timestamp)
  {
    var kvs := OAuthParams(consumerKey, nonce, timestamp);
    OAuthParamsKeys(consumerKey, nonce, timestamp);
    forall j | 0 <= j < |kvs| ensures !HasKey(ps, kvs[j].key) {
      assert IsOAuthKey(kvs[j].key) by {
        assert HasKey(kvs, kvs[j].key);
      }
    }
    AssignAllAppends(ps, kvs);
  }

  // ---------------------------------------------------------------------
  // createQueryString

  /** The entries whose value is neither null nor undefined, as (key, value), in order. */
  function Present(ps: seq<Param>): seq<(string, string)>
  {
    if |ps| == 0 then []
    else
      var last := ps[|ps| - 1];
      Present(ps[..|ps| - 1]) + (if last.value.Some? then [(last.key, last.value.value)] else [])
  }

  /** `key + "=" + value` for each present entry. */
  function Rendered(ps: seq<Param>): seq<string>
  {
    var pairs := Present(ps);
    seq(|pairs|, i requires 0 <= i < |pairs| => pairs[i].0 + "=" + pairs[i].1)
  }

  /** The text createQueryString returns; None stands for a missing parameter object. */
  function QueryString(params: Option<seq<Param>>): string
  {
    match params
    case None => ""
    case Some(ps) => if |Rendered(ps)| > 0 then "?" + Join(Rendered(ps), '&') else ""
  }

  /** createQueryString: a loop that collects `key=value` texts and joins them. */
  method CreateQueryString(params: ParamObject?) returns (q: string)
    ensures q == QueryString(if params == null then None else Some(params.entries))
  {
    if params == null {
      return "";
    }
    var entries := params.entries;
    var result: seq<string> := [];
    var i := 0;
    while i < |entries|
      invariant 0 <= i <= |entries|
      invariant result == Rendered(entries[..i])
    {
      var e := entries[i];
      assert entries[..i + 1][..i] == entries[..i];
      if e.value.Some? {
        result := result + [e.key + "=" + e.value.value];
      }
      i := i + 1;
    }
    assert entries[..i] == entries;
    if |result| > 0 {
      q := "?" + Join(result, '&');
    } else {
      q := "";
    }
  }

  /** The entries present in a concatenation are those of each part, in order. */
  lemma {:induction false} PresentAppend(a: seq<Param>, b: seq<Param>)
    ensures Present(a + b) == Present(a) + Present(b)
    decreases |b|
  {
    if |b| == 0 {
      assert a + b == a;
    } else {
      var last := b[|b| - 1];
      assert (a + b)[..|a + b| - 1] == a + b[..|b| - 1];
      PresentAppend(a, b[..|b| - 1]);
    }
  }

  /** Rendering distributes over concatenation. */
  lemma RenderedAppend(a: seq<Param>, b: seq<Param>)
    ensures Rendered(a + b) == Rendered(a) + Rendered(b)
  {
    PresentAppend(a, b);
  }

  /** Appending entries that render extends a non-empty query string by `&` and their texts. */
  lemma QueryStringAppend(a: seq<Param>, b: seq<Param>)
    requires |Present(a)| > 0 && |Present(b)| > 0
    ensures QueryString(Some(a + b)) == QueryString(Some(a)) + "&" + Join(Rendered(b), '&')
  {
    var ra, rb := Rendered(a), Rendered(b);
    RenderedAppend(a, b);
    assert |ra| > 0 && |rb| > 0;
    JoinAppend(ra, rb, '&');
    var ja, jb := Join(ra, '&'), Join(rb, '&');
    assert QueryString(Some(a)) == "?" + ja;
    assert QueryString(Some(a + b)) == "?" + Join(ra + rb, '&');
    assert "&" == ['&'];
  }

  /** The query string is empty exactly when there is no object or every value is null or undefined. */
  lemma {:induction false} PresentEmpty(ps: seq<Param>)
    ensures |Present(ps)| == 0 <==> forall i :: 0 <= i < |ps| ==> ps[i].value.None?
  {
    if |ps| > 0 {
      PresentEmpty(ps[..|ps| - 1]);
      assert forall i :: 0 <= i < |ps| - 1 ==> ps[..|ps| - 1][i] == ps[i];
    }
  }

  lemma QueryStringEmpty(params: Option<seq<Param>>)
    ensures QueryString(params) == "" <==>
      (params.None? || forall i :: 0 <= i < |params.value| ==> params.value[i].value.None?)
  {
    if params.Some? {
      PresentEmpty(params.value);
    }
  }

  /** Keys without `&` or `=`, values without `&`: the shapes a query string can be read back from. */
  predicate Plain(ps: seq<Param>)
  {
    forall i :: 0 <= i < |ps| ==>
      Excludes(ps[i].key, '&') && Excludes(ps[i].key, '=') &&
      (ps[i].value.Some? ==> Excludes(ps[i].value.value, '&'))
  }

  lemma {:induction false} PresentPlain(ps: seq<Param>)
    requires Plain(ps)
    ensures forall j :: 0 <= j < |Present(ps)| ==>
      Excludes(Present(ps)[j].0, '&') && Excludes(Present(ps)[j].0, '=') && Excludes(Present(ps)[j].1, '&')
  {
    if |ps| > 0 {
      assert Plain(ps[..|ps| - 1]) by {
        forall i | 0 <= i < |ps| - 1 ensures ps[..|ps| - 1][i] == ps[i] { }
      }
      PresentPlain(ps[..|ps| - 1]);
    }
  }

  /** Reading a query string back: strip `?`, split on `&`, cut each part at its first `=`. */
  function ParseQuery(q: string): seq<(string, string)>
  {
    if |q| == 0 || q[0] != '?' then []
    else
      var parts := Split(q[1..], '&');
      seq(|parts|, i requires 0 <= i < |parts| => Cut(parts[i], '='))
  }

  /** createQueryString is read back to exactly the present entries, in order. */
  lemma QueryStringParses(ps: seq<Param>)
    requires Plain(ps)
    ensures ParseQuery(QueryString(Some(ps))) == Present(ps)
  {
    var pairs := Present(ps);
    var texts := Rendered(ps);
    if |texts| > 0 {
      PresentPlain(ps);
      forall j | 0 <= j < |texts| ensures Excludes(texts[j], '&') {
        assert texts[j] == pairs[j].0 + "=" + pairs[j].1;
      }
      SplitJoin(texts, '&');
      var q := QueryString(Some(ps));
      assert q[1..] == Join(texts, '&');
      forall j | 0 <= j < |texts| ensures Cut(texts[j], '=') == pairs[j] {
        assert texts[j] == pairs[j].0 + ['='] + pairs[j].1;
        CutAfter(pairs[j].0, '=', pairs[j].1);
      }
    }
  }

  // ---------------------------------------------------------------------
  // The two URL builders

  /** `API_HOST + "/" + path`, then `"." + format` unless binary. */
  function BaseUrl(host: string, path: string, isBinary: bool, format: string): string
  {
    host + "/" + path + (if isBinary then "" else "." + format)
  }

  /** generateUrl: the base URL followed by the query string of the parameter object. */
  function GenerateUrl(host: string, path: string, isBinary: bool, format: string, params: Option<seq<Param>>): string
  {
    BaseUrl(host, path, isBinary, format) + QueryString(params)
  }

  /** Appending entries that render to a parameter object that renders extends its URL by `&` and their texts. */
  lemma GenerateUrlAppend(host: string, path: string, isBinary: bool, format: string, a: seq<Param>, b: seq<Param>)
    requires |Present(a)| > 0 && |Present(b)| > 0
    ensures GenerateUrl(host, path, isBinary, format, Some(a + b))
         == GenerateUrl(host, path, isBinary, format, Some(a)) + "&" + Join(Rendered(b), '&')
  {
    QueryStringAppend(a, b);
    var base, q := BaseUrl(host, path, isBinary, format), QueryString(Some(a));
    assert base + (q + "&" + Join(Rendered(b), '&')) == base + q + "&" + Join(Rendered(b), '&');
  }

  /**
   * A built URL splits at its first `?` into the base URL and a query that
   * reads back to the present entries; with no present entry there is no `?`.
   */
  lemma GenerateUrlParses(host: string, path: string, isBinary: bool, format: string, ps: seq<Param>)
    requires Excludes(BaseUrl(host, path, isBinary, format), '?')
    requires Plain(ps)
    ensures var url, base := GenerateUrl(host, path, isBinary, format, Some(ps)), BaseUrl(host, path, isBinary, format);
      && (|Present(ps)| == 0 ==> url == base)
      && (|Present(ps)| > 0 ==>
            var (before, after) := Cut(url, '?');
            before == base && ParseQuery("?" + after) == Present(ps))
  {
    var base := BaseUrl(host, path, isBinary, format);
    var q := QueryString(Some(ps));
    QueryStringParses(ps);
    if |Present(ps)| > 0 {
      assert base + q == base + ['?'] + q[1..];
      CutAfter(base, '?', q[1..]);
      assert "?" + q[1..] == q;
    } else {
      assert base + q == base;
    }
  }

  /** A JavaScript object used as a parameter map, updated in place. */
  class ParamObject {
    var entries: seq<Param>

    ghost predicate Valid()
      reads this
    {
      DistinctKeys(entries)
    }

    constructor (entries: seq<Param>)
      requires DistinctKeys(entries)
      ensures Valid() && this.entries == entries
    {
      this.entries := entries;
    }

    /** `this[k] = v`. */
    method Put(k: string, v: Option<string>)
      requires Valid()
      modifies this
      ensures Valid() && entries == Assigned(old(entries), k, v)
    {
      AssignedDistinct(entries, k, v);
      entries := Assigned(entries, k, v);
    }
  }

  /**
   * generateQueryUrl: writes the five oauth entries into the caller's
   * parameter object, then builds the URL exactly as generateUrl does from
   * the updated object.
   */
  method GenerateQueryUrl(params: ParamObject, host: string, path: string, isBinary: bool, format: string,
                          consumerKey: string, nonce: nat, timestamp: nat) returns (url: string)
    requires params.Valid()
    modifies params
    ensures params.Valid()
    ensures params.entries == InjectOAuth(old(params.entries), consumerKey, nonce, timestamp)
    ensures url == GenerateUrl(host, path, isBinary, format, Some(params.entries))
  {
    InjectOAuthUnfolded(params.entries, consumerKey, nonce, timestamp);
    params.Put(ConsumerKeyKey, Some(consumerKey));
    params.Put(NonceKey, Some(Decimal(nonce)));
    params.Put(SignatureMethodKey, Some(SignatureMethod));
    params.Put(TimestampKey, Some(Decimal(timestamp)));
    params.Put(VersionKey, Some(Version));
    var queryStr := CreateQueryString(params);
    url := host + "/" + path;
    if !isBinary {
      url := url + "." + format;
    }
    assert url == BaseUrl(host, path, isBinary, format);
    url := url + queryStr;
  }
}
