/**
 * Credential resolution: obtainSessionKeys.
 *
 * The session either already holds a consumer key and secret, or obtains
 * them from the authentication service: first by refreshing the session id
 * cached in a file, then, if that is not possible or not accepted, by a
 * full login whose id is written back to the cache.
 *
 * The file system and the network are inputs: what reading the cache file
 * yields, and what each of the two HTTP exchanges answers. What the code
 * does to the outside world (the two requests and the cache write) is
 * recorded as a trace of effects. An empty string stands for any falsy
 * JavaScript value (undefined, null, "").
 */
module Credentials {
  import opened Wrappers

  const SessionKeyUrl: string := "https://semantria.com/auth/session"
  const DefaultSessionFile: string := "/tmp/semantria-session.dat"
  const Unspecified: string := "unspecified"

  /** What the cache file yields: no file, a file that cannot be read or parsed, or a record with its id. */
  datatype CacheRead = NoFile | Unreadable | Record(id: string)

  /** The `custom_params` of a service reply. */
  datatype Credentials = Credentials(key: string, secret: string)

  /**
   * A reply body: text JSON.parse rejects, or a parsed object with its `id`,
   * its `custom_params` (None when absent, so that reading `.key` throws)
   * and its `error_message`.
   */
  datatype ReplyBody = NotJson | Parsed(id: string, customParams: Option<Credentials>, errorMessage: string)

  /** One HTTP exchange: the request fails outright, or a status and body come back. */
  datatype Exchange = Unreachable | Replied(status: int, body: ReplyBody)

  /** Everything the outside world contributes to one call. */
  datatype World = World(cache: CacheRead, refresh: Exchange, login: Exchange)

  /** What the call does to the outside world, in order. */
  datatype Effect =
    | HttpGet(url: string)
    | HttpPost(url: string, username: string, password: string)
    | WriteCache(path: string, id: string)

  /** Why the returned promise rejects. */
  datatype Failure =
    | TransportError          // the request library reported an error
    | MalformedReply          // JSON.parse or a missing custom_params threw
    | Refused(message: string) // the login was answered with a status other than 200

  /** The session settings the call reads. */
  datatype Settings = Settings(appkey: string, sessionFile: string, username: string, password: string)

  function CacheFile(s: Settings): string
  {
    if s.sessionFile != "" then s.sessionFile else DefaultSessionFile
  }

  function RefreshUrl(id: string, appkey: string): string
  {
    SessionKeyUrl + "/" + id + ".json?appkey=" + appkey
  }

  function LoginUrl(appkey: string): string
  {
    SessionKeyUrl + ".json?appkey=" + appkey
  }

  function LoginUser(s: Settings): string
  {
    if s.username != "" then s.username else Unspecified
  }

  function LoginPassword(s: Settings): string
  {
    if s.password != "" then s.password else Unspecified
  }

  /** The states of the promise chain. */
  datatype Phase =
    | Start(key: string, secret: string)  // the keys the session holds on entry
    | Refreshing(id: string)              // a cached id is being refreshed
    | LoggingIn                           // a full login is under way
    | Resolved(key: string, secret: string)  // the promise resolves; the session holds these keys
    | Rejected(failure: Failure)          // the promise rejects; the session is unchanged

  predicate Terminal(p: Phase)
  {
    p.Resolved? || p.Rejected?
  }

  function Rank(p: Phase): nat
  {
    match p
    case Start(_, _) => 3
    case Refreshing(_) => 2
    case LoggingIn => 1
    case _ => 0
  }

  /** One transition of the chain and the effects it has. */
  function Step(p: Phase, s: Settings, w: World): (r: (Phase, seq<Effect>))
    requires !Terminal(p)
    ensures Rank(r.0) < Rank(p)
    ensures |r.1| <= 2
  {
    match p
    case Start(key, secret) =>
      if secret != "" && key != "" then (Resolved(key, secret), [])
      else if w.cache.Record? && w.cache.id != "" then (Refreshing(w.cache.id), [])
      else (LoggingIn, [])
    case Refreshing(id) =>
      var get := [HttpGet(RefreshUrl(id, s.appkey))];
      (match w.refresh
       case Unreachable => (Rejected(TransportError), get)
       case Replied(status, body) =>
         if status != 200 then (LoggingIn, get)
         else if body.NotJson? || body.customParams.None? then (Rejected(MalformedReply), get)
         else (Resolved(body.customParams.value.key, body.customParams.value.secret), get))
    case LoggingIn =>
      var post := [HttpPost(LoginUrl(s.appkey), LoginUser(s), LoginPassword(s))];
      match w.login
      case Unreachable => (Rejected(TransportError), post)
      case Replied(status, body) =>
        if body.NotJson? then (Rejected(MalformedReply), post)
        else if status != 200 then (Rejected(Refused(body.errorMessage)), post)
        else
          var written := post + [WriteCache(CacheFile(s), body.id)];
          if body.customParams.None? then (Rejected(MalformedReply), written)
          else (Resolved(body.customParams.value.key, body.customParams.value.secret), written)
  }

  /** The chain run to its end: the final phase and all effects in order. */
  function Run(p: Phase, s: Settings, w: World): (r: (Phase, seq<Effect>))
    ensures Terminal(r.0)
    decreases Rank(p)
  {
    if Terminal(p) then (p, [])
    else
      var (next, effects) := Step(p, s, w);
      var (last, more) := Run(next, s, w);
      (last, effects + more)
  }

  /** A login is the last step: the run from LoggingIn is that one step. */
  lemma RunLoggingIn(s: Settings, w: World)
    ensures Run(LoggingIn, s, w) == Step(LoggingIn, s, w)
  {
    var (next, effects) := Step(LoggingIn, s, w);
    assert Run(next, s, w) == (next, []);
    assert effects + [] == effects;
  }

  /** A refresh either ends the run or hands over to the login, after its GET. */
  lemma RunRefreshing(id: string, s: Settings, w: World)
    ensures var (next, effects) := Step(Refreshing(id), s, w);
      Run(Refreshing(id), s, w)
        == if next == LoggingIn then (Run(LoggingIn, s, w).0, effects + Run(LoggingIn, s, w).1) else (next, effects)
  {
    var (next, effects) := Step(Refreshing(id), s, w);
    if next != LoggingIn {
      assert Run(next, s, w) == (next, []);
      assert effects + [] == effects;
    }
  }

  /** The start only decides where to go; it has no effect of its own. */
  lemma RunStart(key: string, secret: string, s: Settings, w: World)
    ensures var next := Step(Start(key, secret), s, w).0;
      Run(Start(key, secret), s, w) == if Terminal(next) then (next, []) else Run(next, s, w)
  {
    var (next, effects) := Step(Start(key, secret), s, w);
    assert effects == [];
    assert [] + Run(next, s, w).1 == Run(next, s, w).1;
  }

  /** A session object whose keys obtainSessionKeys fills in. */
  class Session {
    var consumerKey: string
    var consumerSecret: string
    const settings: Settings

    constructor (consumerKey: string, consumerSecret: string, settings: Settings)
      ensures this.consumerKey == consumerKey && this.consumerSecret == consumerSecret
      ensures this.settings == settings
    {
      this.consumerKey := consumerKey;
      this.consumerSecret := consumerSecret;
      this.settings := settings;
    }

    /**
     * obtainSessionKeys: follows the chain. On success the session holds the
     * final keys and the promise resolves with it; on failure the keys are
     * untouched and the promise rejects.
     */
    method ObtainSessionKeys(w: World) returns (outcome: Result<(), Failure>, effects: seq<Effect>)
      modifies this
      ensures effects == Run(Start(old(consumerKey), old(consumerSecret)), settings, w).1
      ensures Settles(Run(Start(old(consumerKey), old(consumerSecret)), settings, w).0,
                      outcome, old(consumerKey), old(consumerSecret), consumerKey, consumerSecret)
    {
      ghost var start := Start(consumerKey, consumerSecret);
      RunStart(consumerKey, consumerSecret, settings, w);
      if consumerSecret != "" && consumerKey != "" {
        return Ok(()), [];
      }
      var sessionFile := if settings.sessionFile != "" then settings.sessionFile else DefaultSessionFile;
      RunLoggingIn(settings, w);
      if w.cache.Record? && w.cache.id != "" {
        assert Run(start, settings, w) == Run(Refreshing(w.cache.id), settings, w);
        RunRefreshing(w.cache.id, settings, w);
        var worked, failure, get := RefreshSession(w.cache.id, w);
        if failure.Some? {
          return Err(failure.value), get;
        }
        if worked {
          return Ok(()), get;
        }
        var login;
        outcome, login := LogIn(sessionFile, w);
        effects := get + login;
      } else {
        assert Run(start, settings, w) == Step(LoggingIn, settings, w);
        outcome, effects := LogIn(sessionFile, w);
      }
    }

    /**
     * The refresh of a cached id: a GET; a 200 reply sets the keys
     * (`worked`), another status leaves them for the login, and a transport
     * error or a malformed 200 reply is a failure.
     */
    method RefreshSession(id: string, w: World) returns (worked: bool, failure: Option<Failure>, effects: seq<Effect>)
      modifies this
      ensures var (next, e) := Step(Refreshing(id), settings, w);
        && effects == e
        && (next == LoggingIn ==> !worked && failure.None?
                                  && consumerKey == old(consumerKey) && consumerSecret == old(consumerSecret))
        && (next.Resolved? ==> worked && failure.None? && consumerKey == next.key && consumerSecret == next.secret)
        && (next.Rejected? ==> failure == Some(next.failure)
                               && consumerKey == old(consumerKey) && consumerSecret == old(consumerSecret))
    {
      effects := [HttpGet(SessionKeyUrl + "/" + id + ".json?appkey=" + settings.appkey)];
      worked, failure := false, None;
      match w.refresh {
        case Unreachable =>
          failure := Some(TransportError);
        case Replied(status, body) =>
          if status == 200 {
            if body.NotJson? || body.customParams.None? {
              failure := Some(MalformedReply);
            } else {
              consumerKey := body.customParams.value.key;
              consumerSecret := body.customParams.value.secret;
              worked := true;
            }
          }
      }
    }

    /**
     * The login: a POST with the user name and password; a parseable 200
     * reply is cached under its id and sets the keys.
     */
    method LogIn(sessionFile: string, w: World) returns (outcome: Result<(), Failure>, effects: seq<Effect>)
      requires sessionFile == CacheFile(settings)
      modifies this
      ensures var (next, e) := Step(LoggingIn, settings, w);
        effects == e && Settles(next, outcome, old(consumerKey), old(consumerSecret), consumerKey, consumerSecret)
    {
      var username := if settings.username != "" then settings.username else Unspecified;
      var password := if settings.password != "" then settings.password else Unspecified;
      effects := [HttpPost(SessionKeyUrl + ".json?appkey=" + settings.appkey, username, password)];
      match w.login {
        case Unreachable =>
          return Err(TransportError), effects;
        case Replied(status, body) =>
          if body.NotJson? {
            return Err(MalformedReply), effects;
          }
          if status != 200 {
            return Err(Refused(body.errorMessage)), effects;
          }
          effects := effects + [WriteCache(sessionFile, body.id)];
          if body.customParams.None? {
            return Err(MalformedReply), effects;
          }
          consumerKey := body.customParams.value.key;
          consumerSecret := body.customParams.value.secret;
          outcome := Ok(());
      }
    }
  }

  /**
   * How a final phase shows in the call's result and the session: resolved
   * with the keys now held, or rejected with the failure and the keys as they were.
   */
  predicate Settles(last: Phase, outcome: Result<(), Failure>, oldKey: string, oldSecret: string,
                    key: string, secret: string)
  {
    && (last.Resolved? ==> outcome.Ok? && key == last.key && secret == last.secret)
    && (last.Rejected? ==> outcome == Err(last.failure) && key == oldKey && secret == oldSecret)
  }

  /** A session that already holds both keys resolves at once, touching nothing. */
  lemma AlreadyHeld(key: string, secret: string, s: Settings, w: World)
    requires key != "" && secret != ""
    ensures Run(Start(key, secret), s, w) == (Resolved(key, secret), [])
  {
    RunStart(key, secret, s, w);
  }

  /**
   * With a usable cached id whose refresh is answered 200 with credentials,
   * the keys come from that reply: one GET, no login and no cache write.
   */
  lemma CachedRefresh(key: string, secret: string, s: Settings, w: World)
    requires key == "" || secret == ""
    requires w.cache.Record? && w.cache.id != ""
    requires w.refresh.Replied? && w.refresh.status == 200
    requires w.refresh.body.Parsed? && w.refresh.body.customParams.Some?
    ensures Run(Start(key, secret), s, w)
         == (Resolved(w.refresh.body.customParams.value.key, w.refresh.body.customParams.value.secret),
             [HttpGet(RefreshUrl(w.cache.id, s.appkey))])
  {
    RunStart(key, secret, s, w);
    RunRefreshing(w.cache.id, s, w);
  }

  /** Without a usable cached id, the first thing done is the login POST; no GET is ever sent. */
  lemma NoCacheLogsIn(key: string, secret: string, s: Settings, w: World)
    requires key == "" || secret == ""
    requires !(w.cache.Record? && w.cache.id != "")
    ensures var effects := Run(Start(key, secret), s, w).1;
      && |effects| >= 1
      && effects[0] == HttpPost(LoginUrl(s.appkey), LoginUser(s), LoginPassword(s))
      && forall i :: 0 <= i < |effects| ==> !effects[i].HttpGet?
  {
    RunStart(key, secret, s, w);
    assert Run(Start(key, secret), s, w) == Run(LoggingIn, s, w);
    LoginTrace(s, w);
  }

  /** The login's effects: its POST, then the cache write when the reply is parseable and 200. */
  lemma LoginTrace(s: Settings, w: World)
    ensures var effects := Run(LoggingIn, s, w).1;
      var post := HttpPost(LoginUrl(s.appkey), LoginUser(s), LoginPassword(s));
      || effects == [post]
      || (w.login.Replied? && w.login.body.Parsed? && effects == [post, WriteCache(CacheFile(s), w.login.body.id)])
  {
    RunLoggingIn(s, w);
  }

  /**
   * A cached id whose refresh is answered with another status than 200 is
   * stale: the call falls back to the login, after the GET.
   */
  lemma StaleCacheFallsBack(key: string, secret: string, s: Settings, w: World)
    requires key == "" || secret == ""
    requires w.cache.Record? && w.cache.id != ""
    requires w.refresh.Replied? && w.refresh.status != 200
    ensures var (last, effects) := Run(Start(key, secret), s, w);
      && |effects| >= 2
      && effects[0] == HttpGet(RefreshUrl(w.cache.id, s.appkey))
      && effects[1] == HttpPost(LoginUrl(s.appkey), LoginUser(s), LoginPassword(s))
      && last == Run(LoggingIn, s, w).0
  {
    var get := HttpGet(RefreshUrl(w.cache.id, s.appkey));
    RunStart(key, secret, s, w);
    assert Run(Start(key, secret), s, w) == Run(Refreshing(w.cache.id), s, w);
    assert Step(Refreshing(w.cache.id), s, w) == (LoggingIn, [get]);
    RunRefreshing(w.cache.id, s, w);
    assert Run(Start(key, secret), s, w) == (Run(LoggingIn, s, w).0, [get] + Run(LoggingIn, s, w).1);
    LoginTrace(s, w);
  }

  /**
   * The login writes `{id}` to the cache file exactly when it is answered
   * 200 with a parseable body, and that write is the last effect.
   */
  lemma LoginWritesCache(s: Settings, w: World)
    ensures var effects := Run(LoggingIn, s, w).1;
      (exists i :: 0 <= i < |effects| && effects[i].WriteCache?) <==>
        w.login.Replied? && w.login.status == 200 && w.login.body.Parsed?
    ensures var effects := Run(LoggingIn, s, w).1;
      w.login.Replied? && w.login.status == 200 && w.login.body.Parsed? ==>
        |effects| == 2 && effects[1] == WriteCache(CacheFile(s), w.login.body.id)
  {
    RunLoggingIn(s, w);
    var effects := Run(LoggingIn, s, w).1;
    if w.login.Replied? && w.login.status == 200 && w.login.body.Parsed? {
      assert effects[1].WriteCache?;
    } else {
      assert effects == [HttpPost(LoginUrl(s.appkey), LoginUser(s), LoginPassword(s))];
    }
  }

  /**
   * Every run has one of six traces: nothing; the refresh GET alone; the GET
   * then the login POST; those then the cache write; or the same without
   * the GET. So each request is sent at most once, the GET before the POST,
   * and the cache is written at most once, last.
   */
  lemma TraceShape(key: string, secret: string, s: Settings, w: World)
    ensures var effects := Run(Start(key, secret), s, w).1;
      var get := HttpGet(RefreshUrl(if w.cache.Record? then w.cache.id else "", s.appkey));
      var post := HttpPost(LoginUrl(s.appkey), LoginUser(s), LoginPassword(s));
      var write := WriteCache(CacheFile(s), if w.login.Replied? && w.login.body.Parsed? then w.login.body.id else "");
      effects in {[], [get], [get, post], [get, post, write], [post], [post, write]}
  {
    RunStart(key, secret, s, w);
    if w.cache.Record? {
      RunRefreshing(w.cache.id, s, w);
    }
    RunLoggingIn(s, w);
    var get := HttpGet(RefreshUrl(if w.cache.Record? then w.cache.id else "", s.appkey));
    var post := HttpPost(LoginUrl(s.appkey), LoginUser(s), LoginPassword(s));
    var write := WriteCache(CacheFile(s), if w.login.Replied? && w.login.body.Parsed? then w.login.body.id else "");
    var login := Run(LoggingIn, s, w).1;
    assert login == [post] || login == [post, write];
    var effects := Run(Start(key, secret), s, w).1;
    if key != "" && secret != "" {
      assert effects == [];
    } else if w.cache.Record? && w.cache.id != "" {
      assert effects == [get] || effects == [get] + login;
      if effects != [get] {
        if login == [post] {
          assert effects == [get, post];
        } else {
          assert effects == [get, post, write];
        }
      }
    } else {
      assert effects == login;
    }
  }

  /**
   * A run resolves only with the keys the session already held (both set)
   * or with the custom_params of a reply answered 200.
   */
  lemma ResolvedKeysOrigin(key: string, secret: string, s: Settings, w: World)
    ensures var last := Run(Start(key, secret), s, w).0;
      last.Resolved? ==>
        (key != "" && secret != "" && last == Resolved(key, secret))
        || (w.refresh.Replied? && w.refresh.status == 200 && w.refresh.body.Parsed?
            && w.refresh.body.customParams == Some(Credentials(last.key, last.secret)))
        || (w.login.Replied? && w.login.status == 200 && w.login.body.Parsed?
            && w.login.body.customParams == Some(Credentials(last.key, last.secret)))
  {
    RunStart(key, secret, s, w);
    if w.cache.Record? {
      RunRefreshing(w.cache.id, s, w);
    }
    RunLoggingIn(s, w);
  }
}
