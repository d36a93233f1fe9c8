/** The state both dispatch strategies share (the abstract MockClient): the
    ordered configured entries, the recorded calls grouped by endpoint, and the
    sequential strategy's iterator; plus every registration overload. */
module MockClient {
  import opened Wrappers
  import opened RequestHeaders
  import opened Http

  /** A configured entry (RequestResponse): the key a call must match and the
      template answered to it. */
  datatype Entry = Entry(key: RequestKey, template: Template)

  /** The sequential strategy's iterator over the configured entries, null until
      the first dispatch. `next` is the index next() returns; `stale` records that
      the entry list was structurally modified after the iterator was opened,
      which the list's fail-fast iterator reports on its next next(). */
  datatype Cursor = Unopened | Open(next: nat, stale: bool)

  datatype Client = Client(
    responses: seq<Entry>,
    requests: map<Endpoint, seq<Request>>,
    cursor: Cursor)

  /** The VerificationAssertionError cases, with the values their messages name. */
  datatype VerificationError =
    | NeverInvoked(key: RequestKey)
    | WrongCount(key: RequestKey, wanted: int, got: nat)
    | NotWanted(key: RequestKey)
    | Excessive(key: RequestKey)
    | Mismatch(expected: RequestKey, actual: RequestKey)
    | MoreExpected

  /** What an operation of the mock can throw. */
  datatype Error =
    | Verification(failure: VerificationError)
    | IllegalArgument
    | UnsupportedOperation
    | NullPointer
    | ConcurrentModification

  /** The outcome of a dispatch: the state afterwards, and the response or the
      error thrown. The state changes even when the call throws. */
  datatype Dispatch = Dispatch(client: Client, result: Result<Response, Error>)

  /** The reason phrase of every status-and-body registration. */
  const MockedReason: string := "Mocked"

  /** The calls recorded under an endpoint, in arrival order; none if absent. */
  function Recorded(c: Client, e: Endpoint): seq<Request>
  {
    if e in c.requests then c.requests[e] else []
  }

  /** How many calls were recorded under an endpoint. */
  function Count(c: Client, e: Endpoint): nat
  {
    |Recorded(c, e)|
  }

  /** A recorded list is only ever created holding the call that created it. */
  predicate RecordsNonEmpty(c: Client)
  {
    forall e :: e in c.requests ==> |c.requests[e]| > 0
  }

  /** An iterator over an unmodified list never passes the list's end. */
  predicate CursorInBounds(c: Client)
  {
    c.cursor.Open? && !c.cursor.stale ==> c.cursor.next <= |c.responses|
  }

  /** The invariant of every reachable client. */
  predicate Valid(c: Client)
  {
    RecordsNonEmpty(c) && CursorInBounds(c)
  }

  /** NonSequentialClient.create() and SequentialClient.create(). */
  function Create(): (c: Client)
    ensures |c.responses| == 0
    ensures forall e :: Count(c, e) == 0
    ensures c.cursor.Unopened?
    ensures Valid(c)
  {
    Client([], map[], Unopened)
  }

  /** An open iterator notices any structural change of the list it walks. */
  function Invalidate(cursor: Cursor): (r: Cursor)
    ensures r.Unopened? <==> cursor.Unopened?
    ensures r.Open? ==> r.next == cursor.next && r.stale
  {
    if cursor.Open? then Open(cursor.next, true) else Unopened
  }

  /** `r` is `c` with exactly `e` appended to the configured entries. */
  predicate Registered(c: Client, r: Client, e: Entry)
  {
    && r.responses == c.responses + [e]
    && r.requests == c.requests
    && r.cursor == Invalidate(c.cursor)
  }

  /** add(requestKey, responseBuilder): the one registration all overloads reach. */
  function Add(c: Client, key: RequestKey, template: Template): (r: Client)
    ensures |r.responses| == |c.responses| + 1
    ensures r.responses[|c.responses|] == Entry(key, template)
    ensures r.responses[..|c.responses|] == c.responses
    ensures r.requests == c.requests
    ensures r.cursor.Unopened? <==> c.cursor.Unopened?
    ensures r.cursor.Open? ==> r.cursor.stale && r.cursor.next == c.cursor.next
    ensures Valid(c) ==> Valid(r)
  {
    c.(responses := c.responses + [Entry(key, template)], cursor := Invalidate(c.cursor))
  }

  /** add(requestKey, status, byte[] body): reason "Mocked", no headers. */
  function AddStatus(c: Client, key: RequestKey, status: int, body: Option<Bytes>): (r: Client)
    ensures Registered(c, r, Entry(key, Template(status, "Mocked", map[], body)))
  {
    Add(c, key, Template(status, MockedReason, RequestHeaders.Empty, body))
  }

  /** add(requestKey, status): as above with a null body. */
  function AddStatusNoBody(c: Client, key: RequestKey, status: int): (r: Client)
    ensures Registered(c, r, Entry(key, Template(status, "Mocked", map[], None)))
  {
    AddStatus(c, key, status, None)
  }

  /** ok(requestKey, byte[] body): status 200. */
  function Ok(c: Client, key: RequestKey, body: Option<Bytes>): (r: Client)
    ensures Registered(c, r, Entry(key, Template(200, "Mocked", map[], body)))
  {
    AddStatus(c, key, HttpOk, body)
  }

  /** ok(requestKey): status 200 with a null body. */
  function OkNoBody(c: Client, key: RequestKey): (r: Client)
    ensures Registered(c, r, Entry(key, Template(200, "Mocked", map[], None)))
  {
    Ok(c, key, None)
  }

  /** add(method, url, status, byte[] body). */
  function AddAt(c: Client, m: HttpMethod, url: string, status: int, body: Option<Bytes>): (r: Client)
    ensures Registered(c, r, Entry(RequestKey(m, url, None, None, None), Template(status, "Mocked", map[], body)))
  {
    AddStatus(c, KeyOf(m, url), status, body)
  }

  /** add(method, url, status): a null body. */
  function AddAtNoBody(c: Client, m: HttpMethod, url: string, status: int): (r: Client)
    ensures Registered(c, r, Entry(RequestKey(m, url, None, None, None), Template(status, "Mocked", map[], None)))
  {
    AddStatusNoBody(c, KeyOf(m, url), status)
  }

  /** add(method, url, responseBuilder): the template as given. */
  function AddTemplateAt(c: Client, m: HttpMethod, url: string, template: Template): (r: Client)
    ensures Registered(c, r, Entry(RequestKey(m, url, None, None, None), template))
  {
    Add(c, KeyOf(m, url), template)
  }

  /** add(method, url, response): the response turned back into its template. */
  function AddResponseAt(c: Client, m: HttpMethod, url: string, response: Response): (r: Client)
    ensures Registered(c, r, Entry(RequestKey(m, url, None, None, None), response.template))
  {
    AddTemplateAt(c, m, url, response.template)
  }

  /** ok(method, url, byte[] body). */
  function OkAt(c: Client, m: HttpMethod, url: string, body: Option<Bytes>): (r: Client)
    ensures Registered(c, r, Entry(RequestKey(m, url, None, None, None), Template(200, "Mocked", map[], body)))
  {
    Ok(c, KeyOf(m, url), body)
  }

  /** ok(method, url): status 200, a null body. */
  function OkAtNoBody(c: Client, m: HttpMethod, url: string): (r: Client)
    ensures Registered(c, r, Entry(RequestKey(m, url, None, None, None), Template(200, "Mocked", map[], None)))
  {
    OkNoBody(c, KeyOf(m, url))
  }

  /** noContent(method, url): status 204, a null body. */
  function NoContent(c: Client, m: HttpMethod, url: string): (r: Client)
    ensures Registered(c, r, Entry(RequestKey(m, url, None, None, None), Template(204, "Mocked", map[], None)))
  {
    AddAtNoBody(c, m, url, HttpNoContent)
  }

  /** Registers the entries one after another. */
  function RegisterAll(c: Client, entries: seq<Entry>): (r: Client)
    ensures Valid(c) ==> Valid(r)
    ensures c.cursor.Unopened? ==> r.cursor.Unopened?
    decreases |entries|
  {
    if |entries| == 0 then c
    else RegisterAll(Add(c, entries[0].key, entries[0].template), entries[1..])
  }

  /** Registration appends in order and leaves the recorded calls alone. */
  lemma {:induction false} RegisterAllAppends(c: Client, entries: seq<Entry>)
    ensures RegisterAll(c, entries).responses == c.responses + entries
    ensures RegisterAll(c, entries).requests == c.requests
    decreases |entries|
  {
    if |entries| > 0 {
      var c1 := Add(c, entries[0].key, entries[0].template);
      RegisterAllAppends(c1, entries[1..]);
      assert c1.responses == c.responses + [entries[0]];
      assert c.responses + [entries[0]] + entries[1..] == c.responses + entries;
    }
  }

  /** After n registrations on a new client, entry i is the i-th pair registered. */
  lemma RegistrationOrder(entries: seq<Entry>)
    ensures |RegisterAll(Create(), entries).responses| == |entries|
    ensures forall i :: 0 <= i < |entries| ==> RegisterAll(Create(), entries).responses[i] == entries[i]
  {
    RegisterAllAppends(Create(), entries);
  }
}
