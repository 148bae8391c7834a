/**
 * Response normalisation: processResponse and the accept/reject decision
 * of runPromiseRequest.
 *
 * The hooks the session carries (onResponse, onError, onAfterResponse) are
 * recorded as the sequence of events they are called with. Decoding the
 * body (`JSON.parse(Utils.decodeUtf8(body))`) is the parameter `parse`,
 * which yields None where that expression would throw (malformed JSON, or
 * text decodeURIComponent rejects); the parsed value has the abstract type
 * `J`.
 */
module Responses {
  import opened Wrappers

  /** A hook call, with the argument the hook receives. */
  datatype HookEvent<J> =
    | OnResponse(status: int, message: string)
    | OnError(status: int, message: string)
    | OnAfterResponse(result: Value<J>)

  /** What processResponse returns. */
  datatype Value<J> =
    | Json(json: J)                       // the decoded body of a 200 reply
    | Body(body: string)                  // the raw body of a binary 200 reply
    | StatusCode(code: int)               // the status 202 itself
    | ResponseObject(status: int, data: string)  // the `{status, data}` object it was given

  /** processResponse either returns a value or lets JSON.parse's exception escape. */
  datatype Outcome<J> = Returned(value: Value<J>) | ParseThrew

  /** `c.toLowerCase()` restricted to ASCII letters; other characters are kept. */
  function LowerAscii(c: char): char
  {
    if 'A' <= c <= 'Z' then (c as int + 32) as char else c
  }

  /**
   * `method.toLowerCase() === "delete"`. Full Unicode lower-casing maps no
   * non-ASCII character onto one of the letters of "delete", so the ASCII
   * rule decides this comparison exactly.
   */
  predicate IsDelete(httpMethod: string)
  {
    |httpMethod| == 6 && forall i :: 0 <= i < 6 ==> LowerAscii(httpMethod[i]) == "delete"[i]
  }

  /**
   * processResponse: announces the reply to onResponse, then
   *  - for DELETE, returns 202 itself, and otherwise fires onError;
   *  - for other methods, returns the decoded body on 200 (the raw body when
   *    binary) and passes it to onAfterResponse when asked to, returns 202
   *    itself, and otherwise fires onError;
   * and in the onError cases returns the response object it was given.
   */
  method ProcessResponse<J>(httpMethod: string, isBinary: bool, callAfterResponseHook: bool,
                            status: int, body: string, parse: string -> Option<J>)
    returns (outcome: Outcome<J>, events: seq<HookEvent<J>>)
    ensures |events| >= 1 && events[0] == OnResponse(status, body)
    ensures IsDelete(httpMethod) && status == 202 ==> outcome == Returned(StatusCode(202)) && |events| == 1
    ensures IsDelete(httpMethod) && status != 202 ==>
              outcome == Returned(ResponseObject(status, body)) && events[1..] == [OnError(status, body)]
    ensures !IsDelete(httpMethod) && status == 200 ==>
              && (isBinary ==> outcome == Returned(Body(body)))
              && (!isBinary && parse(body).Some? ==> outcome == Returned(Json(parse(body).value)))
              && (!isBinary && parse(body).None? ==> outcome == ParseThrew)
              && events[1..] == if callAfterResponseHook && outcome.Returned? then [OnAfterResponse(outcome.value)] else []
    ensures !IsDelete(httpMethod) && status == 202 ==> outcome == Returned(StatusCode(202)) && |events| == 1
    ensures !IsDelete(httpMethod) && status != 200 && status != 202 ==>
              outcome == Returned(ResponseObject(status, body)) && events[1..] == [OnError(status, body)]
    ensures ResponseCount(events) == 1
    ensures ErrorCount(events) == (if IsDelete(httpMethod) then (if status != 202 then 1 else 0)
                                   else (if status != 200 && status != 202 then 1 else 0))
    ensures forall i :: 0 <= i < |events| && events[i].OnAfterResponse? ==>
              status == 200 && !IsDelete(httpMethod) && callAfterResponseHook
  {
    events := [OnResponse(status, body)];
    if IsDelete(httpMethod) {
      if status == 202 {
        return Returned(StatusCode(status)), events;
      }
      CountsAppend(events, [OnError(status, body)]);
      events := events + [OnError(status, body)];
    } else {
      if status == 200 {
        var result: Value<J> := Body(body);
        if !isBinary {
          var parsed := parse(body);
          if parsed.None? {
            return ParseThrew, events;
          }
          result := Json(parsed.value);
        }
        if callAfterResponseHook {
          CountsAppend(events, [OnAfterResponse(result)]);
          events := events + [OnAfterResponse(result)];
        }
        return Returned(result), events;
      }
      if status == 202 {
        return Returned(StatusCode(status)), events;
      }
      CountsAppend(events, [OnError(status, body)]);
      events := events + [OnError(status, body)];
    }
    outcome := Returned(ResponseObject(status, body));
  }

  /** How the request's promise settles. */
  datatype Settled<J> = Resolved(value: Value<J>) | Rejected(reason: Reason)

  /** The rejection reason: an Error carrying a message, or the exception JSON.parse threw. */
  datatype Reason = ErrorMessage(message: string) | ParseError

  /**
   * The callback runPromiseRequest attaches to the HTTP reply: normalise the
   * reply, then resolve with the result on 200 and 202 and reject otherwise,
   * with the body as the message (or "unknown error" when it is empty).
   */
  method RunPromiseRequest<J>(httpMethod: string, isBinary: bool, callAfterResponseHook: bool,
                              status: int, body: string, parse: string -> Option<J>)
    returns (settled: Settled<J>, events: seq<HookEvent<J>>)
    ensures settled.Rejected? <==>
              (status != 200 && status != 202)
              || (status == 200 && !IsDelete(httpMethod) && !isBinary && parse(body).None?)
    ensures settled.Rejected? && settled.reason.ErrorMessage? ==>
              settled.reason.message == (if body != "" then body else "unknown error")
    ensures settled.Rejected? && settled.reason.ParseError? ==> status == 200
    ensures status == 202 ==> settled == Resolved(StatusCode(202))
    ensures status == 200 && IsDelete(httpMethod) ==> settled == Resolved(ResponseObject(200, body))
    ensures status == 200 && !IsDelete(httpMethod) && isBinary ==> settled == Resolved(Body(body))
    ensures status == 200 && !IsDelete(httpMethod) && !isBinary && parse(body).Some? ==>
              settled == Resolved(Json(parse(body).value))
    ensures |events| >= 1 && events[0] == OnResponse(status, body)
    ensures ResponseCount(events) == 1
    ensures ErrorCount(events) == (if IsDelete(httpMethod) then (if status != 202 then 1 else 0)
                                   else (if status != 200 && status != 202 then 1 else 0))
    ensures settled.Rejected? && settled.reason.ErrorMessage? ==> ErrorCount(events) == 1
  {
    var outcome;
    outcome, events := ProcessResponse(httpMethod, isBinary, callAfterResponseHook, status, body, parse);
    if outcome.ParseThrew? {
      return Rejected(ParseError), events;
    }
    var result := outcome.value;
    if status == 200 || status == 202 {
      settled := Resolved(result);
    } else {
      // Only the onError paths reach here, and they return the response
      // object, which has no `message` field.
      match result
      case ResponseObject(_, data) =>
        settled := Rejected(ErrorMessage(if data != "" then data else "unknown error"));
      case _ =>
        assert false;
    }
  }

  /** Number of onError calls in a trace. */
  function ErrorCount<J>(events: seq<HookEvent<J>>): nat
  {
    if |events| == 0 then 0
    else (if events[0].OnError? then 1 else 0) + ErrorCount(events[1..])
  }

  /** Number of onResponse calls in a trace. */
  function ResponseCount<J>(events: seq<HookEvent<J>>): nat
  {
    if |events| == 0 then 0
    else (if events[0].OnResponse? then 1 else 0) + ResponseCount(events[1..])
  }

  lemma {:induction false} CountsAppend<J>(a: seq<HookEvent<J>>, b: seq<HookEvent<J>>)
    ensures ErrorCount(a + b) == ErrorCount(a) + ErrorCount(b)
    ensures ResponseCount(a + b) == ResponseCount(a) + ResponseCount(b)
    decreases |a|
  {
    if |a| == 0 {
      assert a + b == b;
    } else {
      assert (a + b)[1..] == a[1..] + b;
      CountsAppend(a[1..], b);
    }
  }
}
