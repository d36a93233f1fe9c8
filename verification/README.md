# Feign mock HTTP client — a Dafny model

This project models the mock transport of Feign's `mock` module: a test double
that stands in for a real HTTP client. A test registers (request key, response
template) pairs on a `MockClient`, the code under test sends calls through it,
and the test then verifies which calls happened. Two dispatch strategies share
the registration surface:

- `NonSequentialClient` records every call under its endpoint (method and url)
  and answers it with the template of the *last* registered entry whose key
  matches, or with a synthetic 404 when none does. Verification counts calls
  (`verifyTimes`, `verifyOne`, `verifyNever`).
- `SequentialClient` walks the registered entries with an iterator that the
  first call opens. A call made while entries remain consumes the next one and
  must match it; a call after the last entry fails as excessive, and a call on
  a list changed since the iterator opened fails without consuming anything.
  `verifyStatus` checks at the end of a test that every entry was consumed.

Everything is a pure function over an immutable `MockClient.Client` record.
That record holds the configured entries (`responses`), the recorded calls
grouped by endpoint (`requests`) and the sequential iterator (`cursor`).
Operations that throw in Java return a `Result`. Its error separates
verification failures, which carry the keys and counts their messages name,
from invalid arguments, unsupported operations, the null dereference and the
fail-fast iterator error. A dispatch returns the new state together with its
outcome, because a sequential call changes the iterator even when it throws.

Files:

- `wrappers.dfy` defines `Option` and `Result`.
- `request_headers.dfy` defines the multi-valued header map.
- `http.dfy` defines the HTTP values: method, request, request key, endpoint,
  response template and response.
- `mock_client.dfy` defines the shared state and every registration overload.
- `non_sequential_client.dfy` and `sequential_client.dfy` hold the two strategies.

Modelling choices:

- `RequestKey` itself is outside this model. Its `equals` is taken to compare
  method and url only. That identity is `Http.Endpoint`, and the recorded calls
  are keyed by it.
- `equalsExtended` is the parameter `ext: Matcher`, applied as
  `ext(configuredKey, callKey)`. No relation between it and `Endpoint` is assumed.
- `RequestKey.create(request)` is outside this model. A dispatch therefore
  receives the call as an `Http.Call(request, key)`.
- The Java `ArrayList` iterator used by the sequential strategy fails fast when
  the list changes after the iterator is opened. The model keeps this as a
  `stale` flag on the open cursor. Registration and `resetRequests` set the flag.
  A later `next()` on a stale cursor fails with `ConcurrentModification`, and
  `hasNext()` still compares the position with the list size.

## Model

| member | source | states |
|---|---|---|
| `RequestHeaders.Add` | mock/src/main/java/feign/mock/RequestHeaders.java:42-49 | Adds one value under a name. The value goes at the end of the name's existing sequence, or becomes a one-element sequence for a new name. The name's size grows by one and every other name is unchanged. |
| `RequestHeaders.AddAll` | mock/src/main/java/feign/mock/RequestHeaders.java:33-40 | Adds a collection under a name. The values are appended in order to an existing name, or stored as the name's sequence when the name is new. The size grows by the number of values and other names are unchanged. |
| `RequestHeaders.AddAllIsRepeatedAdd` | mock/src/main/java/feign/mock/RequestHeaders.java:33-49 | Adding a collection equals adding its values one by one, provided the name already exists or the collection is non-empty. A new name given an empty collection is still stored. |
| `RequestHeaders.AddSize` | mock/src/main/java/feign/mock/RequestHeaders.java:33-40 | The number of distinct names grows by one exactly when the added name is new. |
| `RequestHeaders.SizeOf` | mock/src/main/java/feign/mock/RequestHeaders.java:81-83 | Returns the number of values stored under the name, and 0 for an absent name. |
| `RequestHeaders.Size` | mock/src/main/java/feign/mock/RequestHeaders.java:77-79 | Returns the number of distinct header names. |
| `RequestHeaders.Fetch` | mock/src/main/java/feign/mock/RequestHeaders.java:85-87 | Returns the name's value sequence when the name is present, and absent (null) otherwise. |
| `RequestHeaders.Equals` | mock/src/main/java/feign/mock/RequestHeaders.java:89-102 | Equal exactly when the other object is a header set and every name fetches the same values from both. Null and objects of other classes are unequal. |
| `RequestHeaders.EqualsIsEquivalence` | mock/src/main/java/feign/mock/RequestHeaders.java:89-102 | Equality is reflexive and symmetric, and it coincides with structural equality of the maps. |
| `RequestHeaders.ToString` | mock/src/main/java/feign/mock/RequestHeaders.java:104-111 | The text is "no" exactly when there are no header names. |
| `MockClient.Create` | mock/src/main/java/feign/mock/client/MockClient.java:51-55 | A new client has no entries, no recorded calls and an unopened iterator, and it satisfies the client invariant. |
| `MockClient.Add` | mock/src/main/java/feign/mock/client/MockClient.java:140-143 | Appends exactly one entry, the given (key, template) pair, at the end of `responses`. Earlier entries and the recorded calls are unchanged, an open iterator is marked stale and an unopened one stays unopened, and the client invariant is kept. |
| `MockClient.AddStatus` | mock/src/main/java/feign/mock/client/MockClient.java:130-134 | Registers a template with the given status, reason "Mocked", empty headers and the given body. |
| `MockClient.AddStatusNoBody` | mock/src/main/java/feign/mock/client/MockClient.java:136-138 | Registers the same template as `AddStatus`, with a null body. |
| `MockClient.Ok` | mock/src/main/java/feign/mock/client/MockClient.java:85-87 | Registers status 200, reason "Mocked", no headers and the given body. |
| `MockClient.OkNoBody` | mock/src/main/java/feign/mock/client/MockClient.java:89-91 | Registers status 200 with a null body. |
| `MockClient.AddAt` | mock/src/main/java/feign/mock/client/MockClient.java:93-104 | Same as `AddStatus` applied to the key built from (method, url), which has no optional attributes. |
| `MockClient.AddAtNoBody` | mock/src/main/java/feign/mock/client/MockClient.java:106-108 | Same as `AddStatusNoBody` applied to the key built from (method, url). |
| `MockClient.AddTemplateAt` | mock/src/main/java/feign/mock/client/MockClient.java:117-119 | Registers the template exactly as given under the key built from (method, url). |
| `MockClient.AddResponseAt` | mock/src/main/java/feign/mock/client/MockClient.java:145-147 | Registers the template of the given response under the key built from (method, url). |
| `MockClient.OkAt` | mock/src/main/java/feign/mock/client/MockClient.java:61-71 | Same as `Ok` applied to the key built from (method, url). |
| `MockClient.OkAtNoBody` | mock/src/main/java/feign/mock/client/MockClient.java:73-75 | Same as `OkNoBody` applied to the key built from (method, url). |
| `MockClient.NoContent` | mock/src/main/java/feign/mock/client/MockClient.java:149-151 | Registers status 204 with a null body under the key built from (method, url). |
| `MockClient.RegisterAll` | mock/src/main/java/feign/mock/client/MockClient.java:140-143 | Any sequence of registrations keeps the client invariant and never opens the iterator. |
| `MockClient.RegisterAllAppends` | mock/src/main/java/feign/mock/client/MockClient.java:140-143 | Registering entries appends exactly them, in order, and leaves the recorded calls unchanged. |
| `MockClient.RegistrationOrder` | mock/src/main/java/feign/mock/client/MockClient.java:51-143 | After n registrations on a new client, entry i is the i-th registered pair. |
| `NonSequentialClient.Record` | mock/src/main/java/feign/mock/client/NonSequentialClient.java:79-104 | Appends the call to its endpoint's list, or creates a one-element list for a new endpoint. Other endpoints are unchanged. |
| `NonSequentialClient.LastOfMatchingIsLastMatch` | mock/src/main/java/feign/mock/client/NonSequentialClient.java:85-90 | Filtering by the extended match and keeping the last element gives the last-registered matching entry. The result is empty exactly when no entry matches. |
| `NonSequentialClient.GetResponseBuilder` | mock/src/main/java/feign/mock/client/NonSequentialClient.java:85-92 | Returns the template of the last-registered entry whose key extended-matches the call. When no entry matches, it returns status 404, reason "Not mocker", the request's headers and no body. |
| `NonSequentialClient.Execute` | mock/src/main/java/feign/mock/client/NonSequentialClient.java:24-92 | Dispatch never fails. It records the call under its endpoint: that count rises by one, the call goes at the end and other endpoints are unchanged. The configured entries are untouched, the invariant is kept, and the answer is the last match or the 404. |
| `NonSequentialClient.VerifyNever` | mock/src/main/java/feign/mock/client/NonSequentialClient.java:40-46 | Fails with "not wanted" exactly when calls are recorded under the endpoint. In a reachable state that means the count is not 0. |
| `NonSequentialClient.VerifyTimes` | mock/src/main/java/feign/mock/client/NonSequentialClient.java:53-77 | A negative count fails with invalid-argument. A count of 0 behaves as `VerifyNever` and returns an empty list. Otherwise it fails as "never invoked" for an absent endpoint, fails with a count mismatch carrying both counts, and returns the recorded calls in arrival order exactly when their number equals the count. |
| `NonSequentialClient.VerifyTimesIffCount` | mock/src/main/java/feign/mock/client/NonSequentialClient.java:53-77 | In a reachable state, `verifyTimes(m, u, n)` with n >= 0 succeeds exactly when n calls were recorded under the endpoint. |
| `NonSequentialClient.VerifyOne` | mock/src/main/java/feign/mock/client/NonSequentialClient.java:48-51 | Succeeds exactly when one call was recorded and returns it. Otherwise it fails with the error of `verifyTimes(…, 1)`. |
| `NonSequentialClient.VerifyStatus` | mock/src/main/java/feign/mock/client/NonSequentialClient.java:30-33 | Fails as unsupported in every state. |
| `NonSequentialClient.ResetRequests` | mock/src/main/java/feign/mock/client/NonSequentialClient.java:35-38 | Empties the recorded calls and keeps the configured entries. |
| `NonSequentialClient.ExecuteRecords` | mock/src/main/java/feign/mock/client/NonSequentialClient.java:79-81 | One dispatch adds the call to its own endpoint's list and to no other list. |
| `NonSequentialClient.RunAllRecords` | mock/src/main/java/feign/mock/client/NonSequentialClient.java:79-83 | Over any run of calls, each endpoint's list grows by exactly the calls made to it, in arrival order. |
| `NonSequentialClient.RunAllKeepsEntries` | mock/src/main/java/feign/mock/client/NonSequentialClient.java:85-92 | No run of dispatches changes the configured entries, and every run keeps the client invariant. |
| `NonSequentialClient.VerifyTimesAfterRun` | mock/src/main/java/feign/mock/client/NonSequentialClient.java:53-83 | On a new client, `verifyTimes` after a run succeeds exactly when that many calls went to the endpoint, and it returns those calls. |
| `NonSequentialClient.OneCallAmongOthers` | mock/src/main/java/feign/mock/client/NonSequentialClient.java:40-83 | With a stub for GET /items, one call to it and one call to GET /other: `verifyOne(GET, "/items")` returns exactly the first call, the other call is counted under its own endpoint, and `verifyNever(POST, "/items")` passes. |
| `NonSequentialClient.LastRegistrationWins` | mock/src/main/java/feign/mock/client/NonSequentialClient.java:85-90 | A newly registered entry that matches the call becomes its answer. |
| `NonSequentialClient.NonMatchingRegistrationIrrelevant` | mock/src/main/java/feign/mock/client/NonSequentialClient.java:85-92 | Registering an entry that does not match the call leaves the call's answer unchanged. |
| `SequentialClient.Execute` | mock/src/main/java/feign/mock/client/SequentialClient.java:21-83 | The first call opens the cursor at 0. At the end of the entries, the call fails as excessive and the cursor stays where it is. On a list modified since the cursor opened, the call fails with a concurrent-modification error and nothing moves. Otherwise the call consumes one entry and the cursor advances by one; a match returns that entry's template, and a non-match fails naming both keys. The recorded calls are never touched. |
| `SequentialClient.VerifyStatus` | mock/src/main/java/feign/mock/client/SequentialClient.java:53-58 | Succeeds exactly when the iterator is open and fully consumed. An unopened iterator with no entries is a null dereference. Every other failure is "More executions were expected". |
| `SequentialClient.VerifyStatusFreshEmptyClient` | mock/src/main/java/feign/mock/client/SequentialClient.java:55-56 | On a new client with no entries, the as-written check throws while the intended check succeeds. |
| `SequentialClient.VerifyStatusIntended` | mock/src/main/java/feign/mock/client/SequentialClient.java:53-58 | Succeeds exactly when the cursor position equals the number of entries. For an entry list left unmodified since the cursor opened, that means every entry was consumed. Otherwise it fails with "More executions were expected". |
| `SequentialClient.VerifyOne` | mock/src/main/java/feign/mock/client/SequentialClient.java:27-30 | Fails as unsupported in every state. |
| `SequentialClient.VerifyTimes` | mock/src/main/java/feign/mock/client/SequentialClient.java:32-35 | Fails as unsupported in every state, for any count including negative ones. |
| `SequentialClient.VerifyNever` | mock/src/main/java/feign/mock/client/SequentialClient.java:37-40 | Fails as unsupported in every state. |
| `SequentialClient.ResetRequests` | mock/src/main/java/feign/mock/client/SequentialClient.java:61-63 | Clears the configured entries only. The recorded calls and the cursor position stay as they are. |
| `SequentialClient.Run` | mock/src/main/java/feign/mock/client/SequentialClient.java:67-83 | A run of calls produces one outcome per call and keeps the cursor within bounds. |
| `SequentialClient.RunInOrder` | mock/src/main/java/feign/mock/client/SequentialClient.java:67-83 | Calls that match the pending entries one for one each get that entry's template. Each advances the cursor by one. |
| `SequentialClient.SequenceCompletes` | mock/src/main/java/feign/mock/client/SequentialClient.java:53-83 | When the registered entries are matched in order by exactly as many calls, every call gets its entry's template. Then `verifyStatus` passes if there was at least one entry, and the intended check always passes. |
| `SequentialClient.MissingCallsDetected` | mock/src/main/java/feign/mock/client/SequentialClient.java:53-58 | Fewer matching calls than entries make `verifyStatus` fail with "More executions were expected". |
| `SequentialClient.ExtraCallRejected` | mock/src/main/java/feign/mock/client/SequentialClient.java:71-73 | A call made after every entry was consumed fails as excessive. |
| `SequentialClient.OutOfOrderCallRejected` | mock/src/main/java/feign/mock/client/SequentialClient.java:67-80 | GET /a then POST /b are configured. A first call that does not match GET /a fails with a mismatch naming GET /a and the call's key, and the GET /a entry is consumed. |
| `SequentialClient.DeviationRejected` | mock/src/main/java/feign/mock/client/SequentialClient.java:75-80 | After a matching prefix, a call that does not match the next entry fails with a mismatch naming the expected key and the actual key. |

## Left out

- The `InputStream` overloads (`MockClient.java` lines 61-63, 77-79, 93-96 and 121-124) are not modelled separately. They read the stream through a library call into the byte-array overloads, so `OkAt`, `Ok`, `AddAt` and `AddStatus` model them.
- The `String` body overloads (`MockClient.java` lines 65-67, 81-83, 98-100 and 126-128) are not modelled separately either. They encode through a UTF-8 library call into the byte-array overloads, and the body here is an opaque byte sequence. Their null-string failure is not modelled.
- `RequestKey` (`create`, `equals`, `hashCode`, `equalsExtended`) is not part of this model. Its strict identity is taken as method and url, and the extended match is a parameter.
- `Request`, `Response`, `Response.Builder` and `build()` are feign core types. The template is a plain record, and a built response is that template paired with the request.
- The status-defaults-to-0 behaviour of a bare `Response.Builder` is not modelled. It lives in code outside this model.
- The `synchronized` lock on `execute` is not modelled. The model has a single caller.
- The builder and the built `RequestHeaders` share one map, and the `add(name, values)` overload keeps the caller's collection. This aliasing is not modelled, because values are immutable sequences here.
- NonSequentialClient.VerifyTimes: returns a copy of the recorded calls, not the map's own live list. In Java, later dispatches extend the list the test already holds. A caller that clears that list leaves a present endpoint with zero calls, which breaks `RecordsNonEmpty` and makes `verifyNever` fail at count 0. The model has no such mutation.
- RequestHeaders.Fetch: returns the stored values as an immutable sequence. In Java it returns the stored collection itself, and changes made through it change the headers.
- RequestHeaders.Add and RequestHeaders.AddAll: always append to an existing name. In Java, if the stored collection is one the caller passed to `add(name, values)` and it is fixed-size (for example from `Arrays.asList`), the merge throws UnsupportedOperationException (RequestHeaders.java lines 35 and 44).
- SequentialClient.VerifyStatusIntended: "every entry was consumed" is promised only for an unmodified entry list. After a reset and a new registration under an open cursor, the position can equal the new entry count while the new entries were never consumed; both checks then pass, as the Java iterator's `hasNext()` does.
- `RequestHeaders.ToString` takes the map's iteration order as a parameter. The exact messages of `VerificationAssertionError` are not reproduced: errors carry their kind and the keys and counts the messages name.
- `RequestHeaders.builder()`, `build()`, `of(map)` and `EMPTY` are identity steps on the immutable map. `Empty` stands for `EMPTY`.

## Findings

| source | as written | input that shows it | evidently intended | confidence | as-written member | corrected member |
|---|---|---|---|---|---|---|
| mock/src/main/java/feign/mock/client/SequentialClient.java:55-56 | `unopenedIterator` is false when no entries are registered, so `responseIterator.hasNext()` is called on a null iterator | a new `SequentialClient` with no entries and no calls, then `verifyStatus()`: NullPointerException | nothing was expected and nothing happened, so the end-of-test check passes | not executed; high from reading the code | `SequentialClient.VerifyStatus` (shown by `SequentialClient.VerifyStatusFreshEmptyClient`) | `SequentialClient.VerifyStatusIntended` (proved "passes exactly when the cursor position equals the entry count", which for an unmodified entry list means every entry was consumed; used by `SequentialClient.SequenceCompletes`) |
