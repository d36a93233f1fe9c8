/** The HTTP values the mock client reads and produces. Request, Response and
    RequestKey belong to code outside this model; they appear here as plain
    records carrying only what the mock client looks at. */
module Http {
  import opened Wrappers
  import opened RequestHeaders

  datatype HttpMethod = GET | HEAD | POST | PUT | DELETE | CONNECT | OPTIONS | TRACE | PATCH

  type Bytes = seq<bv8>

  /** Status codes the mock uses, as HttpURLConnection names them. */
  const HttpOk: int := 200
  const HttpNoContent: int := 204
  const HttpNotFound: int := 404

  /** A call that reached the transport. */
  datatype Request = Request(httpMethod: HttpMethod, url: string, headers: Headers, body: Option<Bytes>)

  /** What RequestKey.equals compares: the method and the url. Recorded calls
      are grouped under this identity. */
  datatype Endpoint = Endpoint(httpMethod: HttpMethod, url: string)

  /** A request key: method and url, plus the optional attributes that only the
      extended comparison looks at. */
  datatype RequestKey = RequestKey(
    httpMethod: HttpMethod,
    url: string,
    headers: Option<Headers>,
    charset: Option<string>,
    body: Option<Bytes>)
  {
    /** The strict identity of this key. */
    function Identity(): Endpoint
    {
      Endpoint(httpMethod, url)
    }
  }

  /** RequestKey.builder(method, url).build(): a key with no optional attributes. */
  function KeyOf(httpMethod: HttpMethod, url: string): (k: RequestKey)
    ensures k.Identity() == Endpoint(httpMethod, url)
    ensures k.headers.None? && k.charset.None? && k.body.None?
  {
    RequestKey(httpMethod, url, None, None, None)
  }

  /** RequestKey.equalsExtended, applied as configured.equalsExtended(call). It is
      not part of this model, so every operation takes it as a parameter. */
  type Matcher = (RequestKey, RequestKey) -> bool

  /** A response template (a Response.Builder): status, reason, headers, body. */
  datatype Template = Template(status: int, reason: string, headers: Headers, body: Option<Bytes>)

  /** A built response: the template with the request that produced it attached. */
  datatype Response = Response(template: Template, request: Request)

  /** A call reaching the transport together with RequestKey.create of it. */
  datatype Call = Call(request: Request, key: RequestKey)
}
