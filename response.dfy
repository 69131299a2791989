/**
 * pkg/utils/response.go: the response envelope and the table of canned
 * message bodies. A Go `map[string]string` is a reference, so it is a class
 * here, and a nil map is `null`.
 */
module Http {
  import opened Wrappers

  /** A Go `map[string]string`: callers and callees share and mutate the same map. */
  class StringMap {
    var entries: map<string, string>

    constructor ()
      ensures entries == map[]
    {
      entries := map[];
    }
  }

  /** `events.APIGatewayProxyResponse`, reduced to what the core sets. */
  datatype Response = Response(statusCode: int, headers: StringMap?, body: string)

  const ContentType: string := "Content-Type"
  const JsonMediaType: string := "application/json"
  const InternalErrorBody: string := "{\"message\": \"Internal Server Error\"}"
  const MessageKey: string := "message"

  /** The canned bodies `Responses` (response.go:9-43): each code's message. */
  const Responses: map<int, map<string, string>> := map[
    201 := map[MessageKey := "Created"],
    204 := map[MessageKey := "No Content"],
    400 := map[MessageKey := "Bad Request"],
    401 := map[MessageKey := "Unauthorized"],
    403 := map[MessageKey := "Forbidden"],
    404 := map[MessageKey := "Not Found"],
    405 := map[MessageKey := "Method Not Allowed"],
    500 := map[MessageKey := "Internal Server Error"],
    502 := map[MessageKey := "Bad Gateway"],
    503 := map[MessageKey := "Service Unavailable"],
    504 := map[MessageKey := "Gateway Timeout"]
  ]

  /**
   * The reason phrases that section 15 of RFC 9110 gives the status codes it
   * defines. 306 and 418 are listed there as "(Unused)" and have none here.
   */
  function ReasonPhrase(code: int): Option<string>
  {
    match code
    case 100 => Some("Continue")
    case 101 => Some("Switching Protocols")
    case 200 => Some("OK")
    case 201 => Some("Created")
    case 202 => Some("Accepted")
    case 203 => Some("Non-Authoritative Information")
    case 204 => Some("No Content")
    case 205 => Some("Reset Content")
    case 206 => Some("Partial Content")
    case 300 => Some("Multiple Choices")
    case 301 => Some("Moved Permanently")
    case 302 => Some("Found")
    case 303 => Some("See Other")
    case 304 => Some("Not Modified")
    case 305 => Some("Use Proxy")
    case 307 => Some("Temporary Redirect")
    case 308 => Some("Permanent Redirect")
    case 400 => Some("Bad Request")
    case 401 => Some("Unauthorized")
    case 402 => Some("Payment Required")
    case 403 => Some("Forbidden")
    case 404 => Some("Not Found")
    case 405 => Some("Method Not Allowed")
    case 406 => Some("Not Acceptable")
    case 407 => Some("Proxy Authentication Required")
    case 408 => Some("Request Timeout")
    case 409 => Some("Conflict")
    case 410 => Some("Gone")
    case 411 => Some("Length Required")
    case 412 => Some("Precondition Failed")
    case 413 => Some("Content Too Large")
    case 414 => Some("URI Too Long")
    case 415 => Some("Unsupported Media Type")
    case 416 => Some("Range Not Satisfiable")
    case 417 => Some("Expectation Failed")
    case 421 => Some("Misdirected Request")
    case 422 => Some("Unprocessable Content")
    case 426 => Some("Upgrade Required")
    case 500 => Some("Internal Server Error")
    case 501 => Some("Not Implemented")
    case 502 => Some("Bad Gateway")
    case 503 => Some("Service Unavailable")
    case 504 => Some("Gateway Timeout")
    case 505 => Some("HTTP Version Not Supported")
    case _ => None
  }

  /** The status codes that have a canned body. */
  const CannedCodes: set<int> := {201, 204, 400, 401, 403, 404, 405, 500, 502, 503, 504}

  /** Every canned body is `{"message": <the RFC 9110 reason phrase of its code>}`. */
  lemma ResponsesAreReasonPhrases()
    ensures Responses.Keys == CannedCodes
    ensures forall code :: code in Responses ==>
      ReasonPhrase(code).Some? && Responses[code] == map[MessageKey := ReasonPhrase(code).value]
  {
    CannedKeys();
    forall code | code in Responses
      ensures ReasonPhrase(code).Some? && Responses[code] == map[MessageKey := ReasonPhrase(code).value]
    {
      CannedBody(code);
    }
  }

  lemma CannedKeys()
    ensures Responses.Keys == CannedCodes
  {
  }

  lemma CannedBody(code: int)
    requires code in Responses
    ensures ReasonPhrase(code).Some? && Responses[code] == map[MessageKey := ReasonPhrase(code).value]
  {
    CannedKeys();
    assert code in CannedCodes;
    if code < 402 {
      CannedSuccessBodies(code);
    } else if code < 500 {
      CannedClientErrorBodies(code);
    } else {
      CannedServerErrorBodies(code);
    }
  }

  lemma CannedSuccessBodies(code: int)
    requires code in {201, 204, 400, 401}
    ensures ReasonPhrase(code).Some? && Responses[code] == map[MessageKey := ReasonPhrase(code).value]
  {
    SuccessAndClientPhrases();
  }

  lemma CannedClientErrorBodies(code: int)
    requires code in {403, 404, 405}
    ensures ReasonPhrase(code).Some? && Responses[code] == map[MessageKey := ReasonPhrase(code).value]
  {
    SuccessAndClientPhrases();
  }

  lemma CannedServerErrorBodies(code: int)
    requires code in {500, 502, 503, 504}
    ensures ReasonPhrase(code).Some? && Responses[code] == map[MessageKey := ReasonPhrase(code).value]
  {
    ServerPhrases();
  }

  lemma SuccessAndClientPhrases()
    ensures ReasonPhrase(201) == Some("Created") && ReasonPhrase(204) == Some("No Content")
    ensures ReasonPhrase(400) == Some("Bad Request") && ReasonPhrase(401) == Some("Unauthorized")
    ensures ReasonPhrase(403) == Some("Forbidden") && ReasonPhrase(404) == Some("Not Found")
    ensures ReasonPhrase(405) == Some("Method Not Allowed")
  {
  }

  lemma ServerPhrases()
    ensures ReasonPhrase(500) == Some("Internal Server Error") && ReasonPhrase(502) == Some("Bad Gateway")
    ensures ReasonPhrase(503) == Some("Service Unavailable") && ReasonPhrase(504) == Some("Gateway Timeout")
  {
  }

  /** Reading a Go map: a missing key reads as the empty string. */
  function Get(m: map<string, string>, key: string): string
  {
    if key in m then m[key] else ""
  }

  /**
   * Header defaulting (response.go:50-52): `Content-Type` becomes
   * "application/json" when it is missing or empty, and nothing else changes.
   */
  function WithDefaultContentType(h: map<string, string>): (r: map<string, string>)
    ensures ContentType in r
    ensures r[ContentType] == if Get(h, ContentType) == "" then JsonMediaType else h[ContentType]
    ensures forall k :: k != ContentType ==> (k in r <==> k in h)
    ensures forall k :: k != ContentType && k in h ==> r[k] == h[k]
  {
    if Get(h, ContentType) == "" then h[ContentType := JsonMediaType] else h
  }

  /** Defaulting twice is defaulting once. */
  lemma DefaultContentTypeIdempotent(h: map<string, string>)
    ensures WithDefaultContentType(WithDefaultContentType(h)) == WithDefaultContentType(h)
  {
  }

  /**
   * Status and body of a prepared response: the given status and the JSON text
   * when marshalling succeeded, else 500 and the fixed internal-error body.
   */
  ghost predicate Prepared(r: Response, statusCode: int, json: Option<string>)
  {
    match json
    case Some(text) => r.statusCode == statusCode && r.body == text
    case None => r.statusCode == 500 && r.body == InternalErrorBody
  }

  /**
   * `PrepareResponse` (response.go:45-65). `marshal` stands for `json.Marshal`
   * of the body; `None` is its error. A nil header map is replaced by a new
   * one; a caller's map is completed in place and returned.
   */
  method PrepareResponse<B>(statusCode: int, headers: StringMap?, body: B, marshal: B -> Option<string>)
    returns (r: Response)
    modifies headers
    ensures r.headers != null
    ensures headers != null ==> r.headers == headers
    ensures headers == null ==> fresh(r.headers)
    ensures r.headers.entries == WithDefaultContentType(if headers == null then map[] else old(headers.entries))
    ensures Prepared(r, statusCode, marshal(body))
  {
    var h := headers;
    if h == null {
      h := new StringMap();
    }
    if Get(h.entries, ContentType) == "" {
      h.entries := h.entries[ContentType := JsonMediaType];
    }
    var code := statusCode;
    var bodyJson := marshal(body);
    var text: string;
    if bodyJson.None? {
      text := InternalErrorBody;
      code := 500;
    } else {
      text := bodyJson.value;
    }
    r := Response(code, h, text);
  }
}
