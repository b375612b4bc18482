/** The panel's wire records (api/vpnboard/model.go), as values that the
    abstract transport has already decoded from JSON. */
module Model {
  import opened GoInt

  /** The node-info payload found under `data` for the node-info endpoint. */
  datatype NodeInfoResponse = NodeInfoResponse(
    name: string,
    remarks: string,
    address: string,
    port: int64,
    nodeOrder: int64,
    nodeSpeedLimit: int64,   // Mbps
    nodeType: string,
    enableTls: bool,
    path: string,
    transportProtocol: string,
    host: string,
    serviceName: string,
    enableVless: bool,
    cipherMethod: string,   // JSON "method"
    serverKey: string)

  /** One entry of the user-list payload. */
  datatype UserListResponseItem = UserListResponseItem(
    uid: int64,
    uuid: string,
    userName: string,
    speedLimit: uint64,      // Mbps
    deviceLimit: int64)

  /** The user-list payload: an ordered list under `list`. */
  datatype UserListResponse = UserListResponse(list: seq<UserListResponseItem>)

  /** The `data` member of an envelope: opaque JSON that either decodes to
      the resource's payload type `T` or does not (the raw text is kept). */
  datatype Payload<T> = Decoded(value: T) | Undecodable(raw: string)

  /** The panel's common envelope. The panel signals success solely through
      `code == 0`; `data` is decoded per resource. */
  datatype Envelope<T> = Envelope(code: int64, msg: string, data: Payload<T>)

  /** The zero envelope: what the result record holds when nothing was decoded
      into it (`Code` 0, empty `Msg`, nil `Data`, which does not decode). */
  function ZeroEnvelope<T>(): (e: Envelope<T>)
    ensures e.code == 0 && e.data.Undecodable?
  {
    Envelope(0, "", Undecodable(""))
  }
}
