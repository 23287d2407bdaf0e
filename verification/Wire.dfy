/** What travels over a node socket, as far as the relay is concerned. */
module Wire {
  import opened Bytes

  datatype Request = Request(method_: string, path: string, headers: map<string, string>)

  /** A control message, or one binary message carrying the bytes of frames. */
  datatype Message =
    | RelayRequest(channel: int, request: Request, contentLength: nat)
    | RelayWsOpen(channel: int, path: string, headers: map<string, string>)
    | RelayWsClose(channel: int)
    | Binary(bytes: seq<byte>)

  /** What the agent answers: a control message, or one binary message carrying the bytes of frames. */
  datatype Reply =
    | RelayResponse(channel: int, status: int, headers: map<string, string>)
    | RelayEnd(channel: int)
    | RelayWsOpenOk(channel: int)
    | RelayWsClosed(channel: int, code: int)
    | Bytes(bytes: seq<byte>)

  const BINARY := 1
  const TEXT := 2
}
