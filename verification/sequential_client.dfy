/** The strict-order strategy: an iterator over the configured entries, opened
    by the first call, hands out one entry per call; the call must match it.
    Recorded calls are never kept; verifyStatus checks that every entry was
    consumed. */
module SequentialClient {
  import opened Wrappers
  import opened Http
  import opened MockClient

  /** How many entries the iterator has handed out; 0 before it is opened. */
  function Position(c: Client): nat
  {
    match c.cursor
    case Unopened => 0
    case Open(next, _) => next
  }

  /** The entry list has not been modified under an open iterator. */
  predicate Intact(c: Client)
  {
    c.cursor.Unopened? || !c.cursor.stale
  }

  /** execute(request, options) / executeSequential: open the iterator on first
      use; an exhausted iterator rejects the call as excessive; otherwise the next
      entry is consumed and must match the call. */
  function Execute(c: Client, call: Call, ext: Matcher): (d: Dispatch)
    requires CursorInBounds(c)
    ensures d.client.responses == c.responses && d.client.requests == c.requests
    ensures d.client.cursor.Open?
    ensures CursorInBounds(d.client) && (Valid(c) ==> Valid(d.client))
    ensures Position(c) == |c.responses| ==>
              && d.result == Failure(Verification(Excessive(call.key)))
              && Position(d.client) == Position(c)
              && Intact(d.client) == Intact(c)
    ensures Position(c) != |c.responses| && !Intact(c) ==>
              d == Dispatch(c, Failure(ConcurrentModification))
    ensures Position(c) != |c.responses| && Intact(c) ==>
              && Position(c) < |c.responses|
              && d.client.cursor == Open(Position(c) + 1, false)
              && (ext(c.responses[Position(c)].key, call.key) ==>
                    d.result == Success(Response(c.responses[Position(c)].template, call.request)))
              && (!ext(c.responses[Position(c)].key, call.key) ==>
                    d.result == Failure(Verification(Mismatch(c.responses[Position(c)].key, call.key))))
    ensures d.result.Success? <==>
              Position(c) < |c.responses| && Intact(c) && ext(c.responses[Position(c)].key, call.key)
  {
    var it := if c.cursor.Unopened? then Open(0, false) else c.cursor;
    var started := c.(cursor := it);
    if it.next == |c.responses| then
      Dispatch(started, Failure(Verification(Excessive(call.key))))
    else if it.stale then
      Dispatch(started, Failure(ConcurrentModification))
    else
      var expected := c.responses[it.next];
      var advanced := c.(cursor := Open(it.next + 1, false));
      if !ext(expected.key, call.key) then
        Dispatch(advanced, Failure(Verification(Mismatch(expected.key, call.key))))
      else
        Dispatch(advanced, Success(Response(expected.template, call.request)))
  }

  /** verifyStatus() as written: an unopened iterator with entries pending, or an
      open one with entries left, is incomplete; an unopened iterator with no
      entries is dereferenced while null. */
  function VerifyStatus(c: Client): (r: Result<(), Error>)
    ensures r.Success? <==> c.cursor.Open? && c.cursor.next == |c.responses|
    ensures c.cursor.Unopened? && |c.responses| == 0 ==> r == Failure(NullPointer)
    ensures r.Failure? && r.error != NullPointer ==> r.error == Verification(MoreExpected)
  {
    var unopenedIterator := c.cursor.Unopened? && |c.responses| > 0;
    if unopenedIterator then Failure(Verification(MoreExpected))
    else if c.cursor.Unopened? then Failure(NullPointer)
    else if c.cursor.next != |c.responses| then Failure(Verification(MoreExpected))
    else Success(())
  }

  /** verifyStatus() as evidently intended: complete exactly when every
      configured entry has been handed out, including when there were none. */
  function VerifyStatusIntended(c: Client): (r: Result<(), Error>)
    ensures r.Success? <==> Position(c) == |c.responses|
    ensures r.Failure? ==> r.error == Verification(MoreExpected)
  {
    var unopenedIterator := c.cursor.Unopened? && |c.responses| > 0;
    if unopenedIterator then Failure(Verification(MoreExpected))
    else if c.cursor.Unopened? then Success(())
    else if c.cursor.next != |c.responses| then Failure(Verification(MoreExpected))
    else Success(())
  }

  /** On a new client with nothing configured, verifyStatus throws where the
      intended check passes. */
  lemma VerifyStatusFreshEmptyClient()
    ensures VerifyStatus(Create()) == Failure(NullPointer)
    ensures VerifyStatusIntended(Create()) == Success(())
  {
  }

  /** The two checks agree whenever the iterator was opened or entries exist. */
  lemma VerifyStatusAgreesElsewhere(c: Client)
    requires c.cursor.Open? || |c.responses| > 0
    ensures VerifyStatus(c) == VerifyStatusIntended(c)
  {
  }

  /** verifyOne(method, url): unsupported by this strategy. */
  function VerifyOne(c: Client, m: HttpMethod, url: string): (r: Result<Request, Error>)
    ensures r.Failure? && r.error == UnsupportedOperation
  {
    Failure(UnsupportedOperation)
  }

  /** verifyTimes(method, url, times): unsupported, whatever `times` is. */
  function VerifyTimes(c: Client, m: HttpMethod, url: string, times: int): (r: Result<seq<Request>, Error>)
    ensures r.Failure? && r.error == UnsupportedOperation
  {
    Failure(UnsupportedOperation)
  }

  /** verifyNever(method, url): unsupported by this strategy. */
  function VerifyNever(c: Client, m: HttpMethod, url: string): (r: Result<(), Error>)
    ensures r.Failure? && r.error == UnsupportedOperation
  {
    Failure(UnsupportedOperation)
  }

  /** resetRequests(): clears the configured entries, not any recorded calls;
      the iterator field is left as it is. */
  function ResetRequests(c: Client): (r: Client)
    ensures |r.responses| == 0
    ensures r.requests == c.requests
    ensures r.cursor.Open? == c.cursor.Open? && Position(r) == Position(c)
    ensures Valid(c) ==> Valid(r)
  {
    c.(responses := [], cursor := Invalidate(c.cursor))
  }

  /** Resetting twice is resetting once. */
  lemma ResetIdempotent(c: Client)
    ensures ResetRequests(ResetRequests(c)) == ResetRequests(c)
  {
  }

  /** Dispatches the calls one after another, collecting each outcome. */
  function Run(c: Client, calls: seq<Call>, ext: Matcher): (r: (Client, seq<Result<Response, Error>>))
    requires CursorInBounds(c)
    ensures CursorInBounds(r.0) && |r.1| == |calls|
    decreases |calls|
  {
    if |calls| == 0 then (c, [])
    else
      var d := Execute(c, calls[0], ext);
      var rest := Run(d.client, calls[1..], ext);
      (rest.0, [d.result] + rest.1)
  }

  /** Calls that match the pending entries one for one are each answered with
      that entry's template, and advance the iterator by one each. */
  lemma {:induction false} RunInOrder(c: Client, calls: seq<Call>, ext: Matcher)
    requires CursorInBounds(c) && Intact(c)
    requires Position(c) + |calls| <= |c.responses|
    requires forall i :: 0 <= i < |calls| ==> ext(c.responses[Position(c) + i].key, calls[i].key)
    ensures var r := Run(c, calls, ext);
            && |r.1| == |calls|
            && (forall i :: 0 <= i < |calls| ==>
                  r.1[i] == Success(Response(c.responses[Position(c) + i].template, calls[i].request)))
            && Position(r.0) == Position(c) + |calls|
            && Intact(r.0)
            && r.0.responses == c.responses && r.0.requests == c.requests
            && (|calls| > 0 ==> r.0.cursor.Open?)
            && (|calls| == 0 ==> r.0 == c)
    decreases |calls|
  {
    if |calls| > 0 {
      var d := Execute(c, calls[0], ext);
      var p := Position(c);
      assert Position(d.client) == p + 1;
      forall i | 0 <= i < |calls[1..]|
        ensures ext(d.client.responses[Position(d.client) + i].key, calls[1..][i].key)
      {
        assert calls[1..][i] == calls[i + 1];
      }
      RunInOrder(d.client, calls[1..], ext);
      var rest := Run(d.client, calls[1..], ext);
      forall i | 0 <= i < |calls|
        ensures Run(c, calls, ext).1[i] == Success(Response(c.responses[p + i].template, calls[i].request))
      {
        if i > 0 {
          assert Run(c, calls, ext).1[i] == rest.1[i - 1];
          assert calls[1..][i - 1] == calls[i];
        }
      }
    }
  }

  /** A sequence of calls matching the registered entries in order is answered
      entry by entry, and leaves every entry consumed. */
  lemma SequenceCompletes(entries: seq<Entry>, calls: seq<Call>, ext: Matcher)
    requires |calls| == |entries|
    requires forall i :: 0 <= i < |calls| ==> ext(entries[i].key, calls[i].key)
    ensures var r := Run(RegisterAll(Create(), entries), calls, ext);
            && (forall i :: 0 <= i < |calls| ==> r.1[i] == Success(Response(entries[i].template, calls[i].request)))
            && VerifyStatusIntended(r.0) == Success(())
            && (|entries| > 0 ==> VerifyStatus(r.0) == Success(()))
            && (|entries| == 0 ==> VerifyStatus(r.0) == Failure(NullPointer))
  {
    var c := RegisterAll(Create(), entries);
    RegisterAllAppends(Create(), entries);
    assert c.responses == entries;
    RunInOrder(c, calls, ext);
  }

  /** Fewer calls than entries leave the sequence incomplete. */
  lemma MissingCallsDetected(c: Client, calls: seq<Call>, ext: Matcher)
    requires CursorInBounds(c) && Intact(c)
    requires Position(c) + |calls| < |c.responses|
    requires forall i :: 0 <= i < |calls| ==> ext(c.responses[Position(c) + i].key, calls[i].key)
    ensures VerifyStatus(Run(c, calls, ext).0) == Failure(Verification(MoreExpected))
    ensures VerifyStatusIntended(Run(c, calls, ext).0) == Failure(Verification(MoreExpected))
  {
    RunInOrder(c, calls, ext);
  }

  /** A call after every entry was consumed fails as excessive. */
  lemma ExtraCallRejected(c: Client, calls: seq<Call>, extra: Call, ext: Matcher)
    requires CursorInBounds(c) && Intact(c)
    requires Position(c) + |calls| == |c.responses|
    requires forall i :: 0 <= i < |calls| ==> ext(c.responses[Position(c) + i].key, calls[i].key)
    ensures Execute(Run(c, calls, ext).0, extra, ext).result == Failure(Verification(Excessive(extra.key)))
  {
    RunInOrder(c, calls, ext);
  }

  /** After a matching prefix, a call that does not match the next entry fails
      naming both keys. */
  lemma DeviationRejected(c: Client, calls: seq<Call>, wrong: Call, ext: Matcher)
    requires CursorInBounds(c) && Intact(c)
    requires Position(c) + |calls| < |c.responses|
    requires forall i :: 0 <= i < |calls| ==> ext(c.responses[Position(c) + i].key, calls[i].key)
    requires !ext(c.responses[Position(c) + |calls|].key, wrong.key)
    ensures Execute(Run(c, calls, ext).0, wrong, ext).result
         == Failure(Verification(Mismatch(c.responses[Position(c) + |calls|].key, wrong.key)))
  {
    RunInOrder(c, calls, ext);
  }

  /** GET /a then POST /b configured; a first call that does not match GET /a
      fails naming GET /a as expected and the call's key as actual, and the
      GET /a entry is consumed. */
  lemma OutOfOrderCallRejected(first: Call, ext: Matcher)
    requires !ext(KeyOf(GET, "/a"), first.key)
    ensures var c := AddAtNoBody(AddAtNoBody(Create(), GET, "/a", 200), POST, "/b", 201);
            var d := Execute(c, first, ext);
            && d.result == Failure(Verification(Mismatch(RequestKey(GET, "/a", None, None, None), first.key)))
            && Position(d.client) == 1
  {
  }
}
