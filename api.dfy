/** The host's canonical records that the adapter produces and consumes
    (the `api` package of the host). Only the fields the adapter reads or
    writes are kept. */
module Api {
  import opened GoInt

  /** The adapter's configuration, given once at construction. */
  datatype Config = Config(
    apiHost: string,
    nodeId: int64,
    key: string,
    nodeType: string,
    enableVless: bool,
    vlessFlow: string,
    speedLimit: real,        // Mbps; Go float64
    deviceLimit: int64,
    ruleListPath: string,
    disableCustomConfig: bool)

  /** Canonical node configuration; `speedLimit` is in bytes per second. */
  datatype NodeInfo = NodeInfo(
    nodeType: string,
    nodeId: int64,
    port: uint32,
    speedLimit: nat,
    transportProtocol: string,
    host: string,
    path: string,
    enableTls: bool,
    enableVless: bool,
    vlessFlow: string,
    serviceName: string,
    cypherMethod: string,
    serverKey: string)

  /** Canonical user record; `speedLimit` is in bytes per second and
      `passwd` is empty unless the node type sets it. */
  datatype UserInfo = UserInfo(
    uid: int64,
    uuid: string,
    email: string,
    passwd: string,
    speedLimit: nat,
    deviceLimit: int64)

  /** A detection rule; `pattern` is the regular expression's source text. */
  datatype DetectRule = DetectRule(id: int, pattern: string)

  /** The diagnostic snapshot returned by `Describe`. */
  datatype ClientInfo = ClientInfo(apiHost: string, nodeId: int64, key: string, nodeType: string)
}
