/** The JSON-RPC 2.0 request envelope a poll sends, and the HTTP status rule
    by which a reply is accepted. The marshalled filter is opaque text here. */
module JsonRpc {
  import opened GoTypes

  /** `JsonrpcMessage`; the raw-JSON fields are kept as the raw text they hold.
      A nil `Error` pointer is `None`, a nil `Result` the empty text. */
  datatype JsonRpcMessage = JsonRpcMessage(
    version: GoString,
    id: GoString,
    rpcMethod: GoString,
    params: GoString,
    error: Option<GoString>,
    result: GoString)

  /** `2.0`, the protocol version of section 4 of the JSON-RPC 2.0 Specification. */
  const Version: GoString := Ascii("2.0")
  /** The request id, the JSON number `1`. */
  const RequestId: GoString := Ascii("1")
  const GetLogs: GoString := Ascii("eth_getLogs")
  const OpenBracket: byte := 91   // '['
  const CloseBracket: byte := 93  // ']'

  /** The single element of a `params` array written as `[` element `]`. */
  function SingleParam(params: GoString): Option<GoString>
  {
    if |params| >= 2 && params[0] == OpenBracket && params[|params| - 1] == CloseBracket
    then Some(params[1..|params| - 1])
    else None
  }

  /** The envelope built in each poll around the marshalled filter: version
      `2.0`, id `1`, method `eth_getLogs`, no error and no result, and params
      that give back exactly the filter text. */
  function GetLogsRequest(filterBytes: GoString): (msg: JsonRpcMessage)
    ensures msg.version == Version && msg.id == RequestId && msg.rpcMethod == GetLogs
    ensures msg.error == None && msg.result == []
    ensures SingleParam(msg.params) == Some(filterBytes)
  {
    var msg := JsonRpcMessage(Version, RequestId, [], [], None, []);
    var msg := msg.(rpcMethod := GetLogs);
    var p := [OpenBracket] + filterBytes + [CloseBracket];
    assert p[1..|p| - 1] == filterBytes;
    msg.(params := p)
  }

  /** Different filters give different requests. */
  lemma GetLogsRequestInjective(f: GoString, g: GoString)
    ensures GetLogsRequest(f) == GetLogsRequest(g) <==> f == g
  {
  }

  /** Why `sendPostRequest` gives up on a reply. */
  datatype PostError = UnexpectedStatusCode

  /** The status class of section 15 of RFC 9110: the first digit of the code. */
  function StatusClass(statusCode: int): int
  {
    statusCode / 100
  }

  /** The status check of `sendPostRequest`: a reply is read only when its
      status is neither below 200 nor 400 or above. Of the codes RFC 9110
      defines (100 to 599), exactly the classes 2xx (successful) and 3xx
      (redirection) are accepted, and then the body is passed on unchanged;
      every code outside that range is refused. */
  function CheckStatus(statusCode: int, body: GoString): (r: Result<GoString, PostError>)
    ensures 100 <= statusCode <= 599 ==> (r.Ok? <==> StatusClass(statusCode) == 2 || StatusClass(statusCode) == 3)
    ensures r.Ok? ==> r.value == body
    ensures !(100 <= statusCode <= 599) ==> r == Err(UnexpectedStatusCode)
  {
    if statusCode < 200 || statusCode >= 400 then Err(UnexpectedStatusCode) else Ok(body)
  }
}
