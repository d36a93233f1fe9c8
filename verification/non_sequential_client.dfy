/** The any-order strategy: every call is recorded under its endpoint and is
    answered by the last configured entry whose key matches it, or by a
    synthetic 404 when none does. Verification counts the recorded calls. */
module NonSequentialClient {
  import opened Wrappers
  import opened Http
  import opened MockClient

  /** executeAny's bookkeeping: computeIfPresent appends the call to an existing
      list, computeIfAbsent creates a list holding only the call. */
  function Record(requests: map<Endpoint, seq<Request>>, e: Endpoint, req: Request)
    : (r: map<Endpoint, seq<Request>>)
    ensures r.Keys == requests.Keys + {e}
    ensures e in requests ==> r[e] == requests[e] + [req]
    ensures e !in requests ==> r[e] == [req]
    ensures forall e' :: e' in requests && e' != e ==> r[e'] == requests[e']
  {
    if e in requests then requests[e := requests[e] + [req]] else requests[e := [req]]
  }

  /** The configured entries whose key extended-equals the call's key, in
      registration order (the stream filter). */
  function Matching(entries: seq<Entry>, key: RequestKey, ext: Matcher): seq<Entry>
    decreases |entries|
  {
    if |entries| == 0 then []
    else
      var last := entries[|entries| - 1];
      Matching(entries[..|entries| - 1], key, ext) + (if ext(last.key, key) then [last] else [])
  }

  /** The stream reduction that keeps the last element, if there is one. */
  function Last(s: seq<Entry>): Option<Entry>
  {
    if |s| == 0 then None else Some(s[|s| - 1])
  }

  /** Entry i matches the call and no later entry does. */
  predicate IsLastMatch(entries: seq<Entry>, key: RequestKey, ext: Matcher, i: int)
  {
    && 0 <= i < |entries|
    && ext(entries[i].key, key)
    && forall j :: i < j < |entries| ==> !ext(entries[j].key, key)
  }

  /** No configured entry matches the call. */
  predicate NoMatch(entries: seq<Entry>, key: RequestKey, ext: Matcher)
  {
    forall j :: 0 <= j < |entries| ==> !ext(entries[j].key, key)
  }

  /** One more entry extends the filtered sequence by itself when it matches. */
  lemma MatchingStep(entries: seq<Entry>, key: RequestKey, ext: Matcher)
    requires |entries| > 0
    ensures var n := |entries| - 1;
            Last(Matching(entries, key, ext))
            == if ext(entries[n].key, key) then Some(entries[n]) else Last(Matching(entries[..n], key, ext))
  {
  }

  /** The filtered sequence is empty exactly when nothing matches. */
  lemma {:induction false} MatchingEmptyIffNoMatch(entries: seq<Entry>, key: RequestKey, ext: Matcher)
    ensures Last(Matching(entries, key, ext)).None? <==> NoMatch(entries, key, ext)
    decreases |entries|
  {
    if |entries| > 0 {
      var n := |entries| - 1;
      MatchingStep(entries, key, ext);
      MatchingEmptyIffNoMatch(entries[..n], key, ext);
      if !ext(entries[n].key, key) && NoMatch(entries[..n], key, ext) {
        forall j | 0 <= j < |entries| ensures !ext(entries[j].key, key) {
          if j < n { assert entries[j] == entries[..n][j]; }
        }
      }
      if NoMatch(entries, key, ext) {
        forall j | 0 <= j < n ensures !ext(entries[..n][j].key, key) {
          assert entries[..n][j] == entries[j];
        }
      }
    }
  }

  /** The filtered sequence ends with the last-registered matching entry. */
  lemma {:induction false} MatchingEndsWithLastMatch(entries: seq<Entry>, key: RequestKey, ext: Matcher, i: int)
    requires IsLastMatch(entries, key, ext, i)
    ensures Last(Matching(entries, key, ext)) == Some(entries[i])
    decreases |entries|
  {
    var n := |entries| - 1;
    MatchingStep(entries, key, ext);
    if i < n {
      assert !ext(entries[n].key, key);
      assert IsLastMatch(entries[..n], key, ext, i);
      MatchingEndsWithLastMatch(entries[..n], key, ext, i);
    }
  }

  /** When something matches, some entry is the last match. */
  lemma {:induction false} LastMatchExists(entries: seq<Entry>, key: RequestKey, ext: Matcher)
    requires !NoMatch(entries, key, ext)
    ensures exists i :: IsLastMatch(entries, key, ext, i)
    decreases |entries|
  {
    var n := |entries| - 1;
    if ext(entries[n].key, key) {
      assert IsLastMatch(entries, key, ext, n);
    } else {
      var j :| 0 <= j < |entries| && ext(entries[j].key, key);
      assert j < n && entries[..n][j] == entries[j];
      LastMatchExists(entries[..n], key, ext);
      var i :| IsLastMatch(entries[..n], key, ext, i);
      assert IsLastMatch(entries, key, ext, i);
    }
  }

  /** Filtering and keeping the last element picks the last-registered match. */
  lemma LastOfMatchingIsLastMatch(entries: seq<Entry>, key: RequestKey, ext: Matcher)
    ensures Last(Matching(entries, key, ext)).None? <==> NoMatch(entries, key, ext)
    ensures forall i :: IsLastMatch(entries, key, ext, i) ==>
              Last(Matching(entries, key, ext)) == Some(entries[i])
    ensures !NoMatch(entries, key, ext) ==> exists i :: IsLastMatch(entries, key, ext, i)
  {
    MatchingEmptyIffNoMatch(entries, key, ext);
    forall i | IsLastMatch(entries, key, ext, i) ensures Last(Matching(entries, key, ext)) == Some(entries[i]) {
      MatchingEndsWithLastMatch(entries, key, ext, i);
    }
    if !NoMatch(entries, key, ext) {
      LastMatchExists(entries, key, ext);
    }
  }

  /** The 404 answered to a call no entry matches: reason "Not mocker", the
      request's own headers, no body. */
  function NotFound(req: Request): Template
  {
    Template(HttpNotFound, "Not mocker", req.headers, None)
  }

  /** getResponseBuilder: the template of the last matching entry, else the 404. */
  function GetResponseBuilder(entries: seq<Entry>, req: Request, key: RequestKey, ext: Matcher): (r: Template)
    ensures NoMatch(entries, key, ext) ==> r == Template(404, "Not mocker", req.headers, None)
    ensures forall i :: IsLastMatch(entries, key, ext, i) ==> r == entries[i].template
  {
    LastOfMatchingIsLastMatch(entries, key, ext);
    match Last(Matching(entries, key, ext))
    case Some(e) => e.template
    case None => NotFound(req)
  }

  /** execute(request, options): record the call, then answer it. Never throws. */
  function Execute(c: Client, call: Call, ext: Matcher): (d: Dispatch)
    ensures d.result.Success? && d.result.value.request == call.request
    ensures NoMatch(c.responses, call.key, ext) ==>
              d.result.value.template == Template(404, "Not mocker", call.request.headers, None)
    ensures forall i :: IsLastMatch(c.responses, call.key, ext, i) ==>
              d.result.value.template == c.responses[i].template
    ensures Recorded(d.client, call.key.Identity()) == Recorded(c, call.key.Identity()) + [call.request]
    ensures Count(d.client, call.key.Identity()) == Count(c, call.key.Identity()) + 1
    ensures forall e :: e != call.key.Identity() ==> Recorded(d.client, e) == Recorded(c, e)
    ensures d.client.responses == c.responses && d.client.cursor == c.cursor
    ensures Valid(c) ==> Valid(d.client)
  {
    var client := c.(requests := Record(c.requests, call.key.Identity(), call.request));
    var template := GetResponseBuilder(c.responses, call.request, call.key, ext);
    Dispatch(client, Success(Response(template, call.request)))
  }

  /** verifyNever(method, url): throws when any call was recorded under the endpoint. */
  function VerifyNever(c: Client, m: HttpMethod, url: string): (r: Result<(), Error>)
    ensures r.Success? <==> Endpoint(m, url) !in c.requests
    ensures r.Failure? ==> r.error == Verification(NotWanted(RequestKey(m, url, None, None, None)))
    ensures Valid(c) ==> (r.Success? <==> Count(c, Endpoint(m, url)) == 0)
  {
    var key := KeyOf(m, url);
    if key.Identity() in c.requests then Failure(Verification(NotWanted(key))) else Success(())
  }

  /** verifyTimes(method, url, times): the recorded calls, when exactly `times`
      were recorded; a negative count is rejected before anything is looked up. */
  function VerifyTimes(c: Client, m: HttpMethod, url: string, times: int): (r: Result<seq<Request>, Error>)
    ensures times < 0 ==> r == Failure(IllegalArgument)
    ensures times == 0 ==> (r.Success? <==> VerifyNever(c, m, url).Success?)
    ensures times == 0 && r.Failure? ==> r.error == VerifyNever(c, m, url).error
    ensures times > 0 && Endpoint(m, url) !in c.requests ==>
              r == Failure(Verification(NeverInvoked(RequestKey(m, url, None, None, None))))
    ensures times > 0 && Endpoint(m, url) in c.requests && |c.requests[Endpoint(m, url)]| != times ==>
              r == Failure(Verification(WrongCount(RequestKey(m, url, None, None, None), times, Count(c, Endpoint(m, url)))))
    ensures times > 0 && Count(c, Endpoint(m, url)) == times ==> r == Success(Recorded(c, Endpoint(m, url)))
    ensures r.Success? ==> r.value == Recorded(c, Endpoint(m, url)) && |r.value| == times
  {
    if times < 0 then Failure(IllegalArgument)
    else if times == 0 then
      match VerifyNever(c, m, url)
      case Success(_) => Success([])
      case Failure(err) => Failure(err)
    else
      var key := KeyOf(m, url);
      if key.Identity() !in c.requests then Failure(Verification(NeverInvoked(key)))
      else
        var result := c.requests[key.Identity()];
        if |result| != times then Failure(Verification(WrongCount(key, times, |result|)))
        else Success(result)
  }

  /** verifyOne(method, url): the one recorded call, when there is exactly one. */
  function VerifyOne(c: Client, m: HttpMethod, url: string): (r: Result<Request, Error>)
    ensures r.Success? <==> Count(c, Endpoint(m, url)) == 1
    ensures r.Success? ==> r.value == Recorded(c, Endpoint(m, url))[0]
    ensures r.Failure? ==> VerifyTimes(c, m, url, 1).Failure? && r.error == VerifyTimes(c, m, url, 1).error
  {
    match VerifyTimes(c, m, url, 1)
    case Success(list) => Success(list[0])
    case Failure(err) => Failure(err)
  }

  /** verifyStatus(): this strategy has no notion of completion. */
  function VerifyStatus(c: Client): (r: Result<(), Error>)
    ensures r.Failure? && r.error == UnsupportedOperation
  {
    Failure(UnsupportedOperation)
  }

  /** resetRequests(): forget the recorded calls; the configured entries stay. */
  function ResetRequests(c: Client): (r: Client)
    ensures r.responses == c.responses && r.cursor == c.cursor
    ensures forall e :: Count(r, e) == 0
    ensures |r.requests| == 0
    ensures Valid(c) ==> Valid(r)
  {
    c.(requests := map[])
  }

  /** Resetting twice is resetting once. */
  lemma ResetIdempotent(c: Client)
    ensures ResetRequests(ResetRequests(c)) == ResetRequests(c)
  {
  }

  /** In any reachable state, verifyTimes succeeds exactly when the endpoint saw
      `times` calls. */
  lemma VerifyTimesIffCount(c: Client, m: HttpMethod, url: string, times: int)
    requires Valid(c) && times >= 0
    ensures VerifyTimes(c, m, url, times).Success? <==> Count(c, Endpoint(m, url)) == times
  {
  }

  /** The calls in `calls` made to endpoint e, in order. */
  function CallsTo(calls: seq<Call>, e: Endpoint): seq<Request>
    decreases |calls|
  {
    if |calls| == 0 then []
    else (if calls[0].key.Identity() == e then [calls[0].request] else []) + CallsTo(calls[1..], e)
  }

  /** Dispatches the calls one after another. */
  function RunAll(c: Client, calls: seq<Call>, ext: Matcher): Client
    decreases |calls|
  {
    if |calls| == 0 then c
    else RunAll(Execute(c, calls[0], ext).client, calls[1..], ext)
  }

  /** Sequence concatenation regroups freely; a separate lemma because the same
      assertion inline in RunAllRecords is too costly for the solver there. */
  lemma AppendAssoc<T>(a: seq<T>, b: seq<T>, d: seq<T>)
    ensures a + b + d == a + (b + d)
  {
  }

  /** Each endpoint's list grows by exactly the calls made to it, in arrival
      order. */
  lemma {:induction false} RunAllRecords(c: Client, calls: seq<Call>, ext: Matcher, e: Endpoint)
    ensures Recorded(RunAll(c, calls, ext), e) == Recorded(c, e) + CallsTo(calls, e)
    decreases |calls|
  {
    if |calls| > 0 {
      var c1 := Execute(c, calls[0], ext).client;
      RunAllRecords(c1, calls[1..], ext, e);
      var here := if calls[0].key.Identity() == e then [calls[0].request] else [];
      ExecuteRecords(c, calls[0], ext, e);
      AppendAssoc(Recorded(c, e), here, CallsTo(calls[1..], e));
    }
  }

  /** One dispatch adds the call to its own endpoint's list only. */
  lemma ExecuteRecords(c: Client, call: Call, ext: Matcher, e: Endpoint)
    ensures Recorded(Execute(c, call, ext).client, e)
         == Recorded(c, e) + (if call.key.Identity() == e then [call.request] else [])
  {
  }

  /** Dispatch never touches the configured entries and keeps the invariant. */
  lemma {:induction false} RunAllKeepsEntries(c: Client, calls: seq<Call>, ext: Matcher)
    ensures RunAll(c, calls, ext).responses == c.responses
    ensures Valid(c) ==> Valid(RunAll(c, calls, ext))
    decreases |calls|
  {
    if |calls| > 0 {
      RunAllKeepsEntries(Execute(c, calls[0], ext).client, calls[1..], ext);
    }
  }

  /** On a new client, verifyTimes after a run returns exactly the calls made to
      the endpoint, and succeeds exactly when their number is `times`. */
  lemma VerifyTimesAfterRun(calls: seq<Call>, ext: Matcher, m: HttpMethod, url: string, times: int)
    requires times >= 0
    ensures var r := VerifyTimes(RunAll(Create(), calls, ext), m, url, times);
            && (r.Success? <==> |CallsTo(calls, Endpoint(m, url))| == times)
            && (r.Success? && times > 0 ==> r.value == CallsTo(calls, Endpoint(m, url)))
  {
    RunAllRecords(Create(), calls, ext, Endpoint(m, url));
    RunAllKeepsEntries(Create(), calls, ext);
    VerifyTimesIffCount(RunAll(Create(), calls, ext), m, url, times);
  }

  /** Last registration wins: a new entry matching the call answers it. */
  lemma LastRegistrationWins(c: Client, key: RequestKey, template: Template, req: Request, callKey: RequestKey, ext: Matcher)
    requires ext(key, callKey)
    ensures GetResponseBuilder(Add(c, key, template).responses, req, callKey, ext) == template
  {
    assert IsLastMatch(Add(c, key, template).responses, callKey, ext, |c.responses|);
  }

  /** An entry that does not match the call leaves its answer unchanged. */
  lemma NonMatchingRegistrationIrrelevant(c: Client, key: RequestKey, template: Template, req: Request, callKey: RequestKey, ext: Matcher)
    requires !ext(key, callKey)
    ensures GetResponseBuilder(Add(c, key, template).responses, req, callKey, ext)
         == GetResponseBuilder(c.responses, req, callKey, ext)
  {
    var before, after := c.responses, Add(c, key, template).responses;
    LastOfMatchingIsLastMatch(before, callKey, ext);
    if NoMatch(before, callKey, ext) {
      assert NoMatch(after, callKey, ext) by {
        forall j | 0 <= j < |after| ensures !ext(after[j].key, callKey) {
          if j < |before| { assert after[j] == before[j]; }
        }
      }
    } else {
      var i :| IsLastMatch(before, callKey, ext, i);
      assert after[i] == before[i];
      assert IsLastMatch(after, callKey, ext, i);
    }
  }

  /** A stub for GET /items answering "[]"; one call to it and one unrelated
      call: verifyOne finds exactly the first call. */
  lemma OneCallAmongOthers(items: Call, other: Call, ext: Matcher)
    requires items.key.Identity() == Endpoint(GET, "/items")
    requires other.key.Identity() == Endpoint(GET, "/other")
    ensures var c0 := OkAt(Create(), GET, "/items", Some([0x5B, 0x5D]));
            var c1 := Execute(c0, items, ext).client;
            var c2 := Execute(c1, other, ext).client;
            && VerifyOne(c2, GET, "/items") == Success(items.request)
            && VerifyOne(c2, GET, "/other") == Success(other.request)
            && VerifyNever(c2, POST, "/items").Success?
  {
    var c0 := OkAt(Create(), GET, "/items", Some([0x5B, 0x5D]));
    var c1 := Execute(c0, items, ext).client;
    var c2 := Execute(c1, other, ext).client;
    assert Recorded(c2, Endpoint(GET, "/items")) == [items.request];
    assert Recorded(c2, Endpoint(GET, "/other")) == [other.request];
  }
}
