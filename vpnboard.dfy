/** The VPNBoard panel adapter: conditional fetch of the node configuration
    and the user list with per-resource ETag tokens, validation of the
    panel's envelope, normalisation of the panel records into the host's
    canonical records, and loading of the local detection rules. */
module VpnBoard {
  import opened GoInt
  import opened Model
  import opened Api
  import opened Email

  datatype Option<T> = None | Some(value: T)

  /** The adapter's failures. */
  datatype ApiError =
    | TransportError(cause: string)              // the transport's own error, returned unchanged
    | RequestFailed(url: string, cause: string)  // a transport error seen by the envelope check
    | RemoteFailure(url: string, body: string)   // HTTP status above 400
    | InvalidEnvelope(code: int64, msg: string)  // the panel's own error code
    | NodeNotModified                            // 304 on the node resource
    | UserNotModified                            // 304 on the user resource
    | UnsupportedNodeType(nodeType: string)
    | UnmarshalFailed(target: string)            // `data` does not decode into `target`

  datatype Result<T> = Ok(value: T) | Err(error: ApiError)

  const NODE_INFO_PATH := "/api/public/xrayr/node/info"
  const USER_LIST_PATH := "/api/public/xrayr/user/list"
  const NODE_INFO_TARGET := "NodeInfoResponse"
  const USER_LIST_TARGET := "UserListResponse"
  const NODE_TAG := "node"
  const USERS_TAG := "users"
  const LOCAL_RULE_ID := -1
  const PLACEHOLDER_DOMAIN := "@vpnboard.user"
  const SHADOWSOCKS := "Shadowsocks"

  /** What the adapter sends: a POST to `path` with body `{"node_id": nodeId}`
      and header `If-None-Match: ifNoneMatch`. */
  datatype Request = Request(path: string, nodeId: uint64, ifNoneMatch: string)

  /** What the transport hands back for one request: its own error if the
      exchange failed, otherwise the HTTP status, the `ETag` header (empty if
      absent), the raw body, and the envelope it decoded into the result
      record. The transport decodes only 2xx bodies; for any other status
      `envelope` is `ZeroEnvelope()`. */
  datatype Reply<T> = Reply(
    transportError: Option<string>,
    status: int,
    etag: string,
    body: string,
    envelope: Envelope<T>)

  /** The replies the transport can produce: it decodes the body into the
      result record only for a 2xx status, and otherwise leaves it as the
      zero envelope: code 0 and a `data` that does not decode. */
  predicate TransportReply<T>(reply: Reply<T>) {
    !(200 <= reply.status < 300) ==> reply.envelope.code == 0 && reply.envelope.data.Undecodable?
  }

  // ---------------------------------------------------------------------
  // Conditional-fetch tokens

  /** The token for `key`, as a Go map read gives it: empty when absent. */
  function Token(tags: map<string, string>, key: string): string {
    if key in tags then tags[key] else ""
  }

  /** Only the two resource keys are ever stored, and never with an empty token. */
  ghost predicate TokensWellFormed(tags: map<string, string>) {
    && tags.Keys <= {NODE_TAG, USERS_TAG}
    && forall k :: k in tags ==> tags[k] != ""
  }

  /** The token update after a response that is not 304: a non-empty
      header that differs from the stored token replaces it. */
  function StoreToken(tags: map<string, string>, key: string, header: string): (r: map<string, string>)
    ensures Token(r, key) == if header != "" then header else Token(tags, key)
    ensures header == "" ==> r == tags
    ensures forall k :: k != key ==> (k in r <==> k in tags)
    ensures forall k :: k != key && k in tags ==> r[k] == tags[k]
    ensures r.Keys <= tags.Keys + {key}
  {
    if header != "" && header != Token(tags, key) then tags[key := header] else tags
  }

  /** Storing a resource's token keeps the token map well formed. */
  lemma StoreTokenWellFormed(tags: map<string, string>, key: string, header: string)
    requires TokensWellFormed(tags)
    requires key == NODE_TAG || key == USERS_TAG
    ensures TokensWellFormed(StoreToken(tags, key, header))
  {
  }

  /** Seeing the same header twice changes nothing the second time. */
  lemma {:induction false} StoreTokenIdempotent(tags: map<string, string>, key: string, header: string)
    ensures StoreToken(StoreToken(tags, key, header), key, header) == StoreToken(tags, key, header)
  {
    var once := StoreToken(tags, key, header);
    if header != "" {
      assert Token(once, key) == header;
    }
  }

  // ---------------------------------------------------------------------
  // Envelope validation

  function AssembleUrl(apiHost: string, path: string): (url: string)
    ensures |url| == |apiHost| + |path|
    ensures url[..|apiHost|] == apiHost && url[|apiHost|..] == path
  {
    apiHost + path
  }

  /** The ordered envelope checks: a transport error fails first; then a
      status above 400; then a non-zero envelope code; otherwise the
      envelope is returned. */
  function ParseResponse<T>(apiHost: string, path: string, reply: Reply<T>, err: Option<string>): (r: Result<Envelope<T>>)
    ensures r.Ok? <==> err.None? && reply.status <= 400 && reply.envelope.code == 0
    ensures r.Ok? ==> r.value == reply.envelope
    ensures err.Some? ==> r == Err(RequestFailed(AssembleUrl(apiHost, path), err.value))
    ensures err.None? && reply.status > 400 ==> r == Err(RemoteFailure(AssembleUrl(apiHost, path), reply.body))
    ensures err.None? && reply.status <= 400 && reply.envelope.code != 0 ==>
              r == Err(InvalidEnvelope(reply.envelope.code, reply.envelope.msg))
  {
    if err.Some? then
      Err(RequestFailed(AssembleUrl(apiHost, path), err.value))
    else if reply.status > 400 then
      Err(RemoteFailure(AssembleUrl(apiHost, path), reply.body))
    else if reply.envelope.code != 0 then
      Err(InvalidEnvelope(reply.envelope.code, reply.envelope.msg))
    else
      Ok(reply.envelope)
  }

  /** Decoding of the envelope's `data` into the resource's payload type. */
  function DecodeData<T>(parsed: Result<Envelope<T>>, target: string): Result<T> {
    match parsed
    case Err(e) => Err(e)
    case Ok(envelope) =>
      match envelope.data
      case Decoded(payload) => Ok(payload)
      case Undecodable(_) => Err(UnmarshalFailed(target))
  }

  /** Status 400 is not rejected by the status check: with the zero envelope
      the transport leaves for non-2xx replies, the failure surfaces only
      when `data` is decoded. */
  lemma Status400FallsThrough<T>(apiHost: string, path: string, reply: Reply<T>, target: string)
    requires reply.status == 400 && TransportReply(reply)
    ensures ParseResponse(apiHost, path, reply, None) == Ok(reply.envelope)
    ensures DecodeData(ParseResponse(apiHost, path, reply, None), target) == Err(UnmarshalFailed(target))
  {
  }

  // ---------------------------------------------------------------------
  // Speed-limit conversions (Mbps to bytes per second)

  /** The configured override `uint64(mbps * 1000000 / 8)`, for a positive
      override: the conversion truncates the fractional part. */
  function OverrideRate(mbps: real): (r: nat)
    requires mbps > 0.0
    ensures r as real <= mbps * 125000.0 < r as real + 1.0
  {
    (mbps * 1000000.0 / 8.0).Floor
  }

  lemma OverrideRateExamples()
    ensures OverrideRate(1.5) == 187500
    ensures OverrideRate(0.00001) == 1
    ensures OverrideRate(0.000001) == 0
  {
    assert 1.5 * 1000000.0 / 8.0 == 187500.0;
    assert 0.00001 * 1000000.0 / 8.0 == 1.25;
    assert 0.000001 * 1000000.0 / 8.0 == 0.125;
  }

  /** The node fallback `uint64((NodeSpeedLimit * 1000000) / 8)` in int64
      arithmetic: the product wraps, `/` truncates toward zero, and the
      conversion reinterprets the bits. */
  function NodePanelRate(mbps: int64): uint64 {
    WrapUint64(Quo(WrapInt64(mbps * 1000000), 8))
  }

  /** Without overflow, a non-negative panel node limit converts exactly. */
  lemma NodePanelRateExact(mbps: int64)
    requires 0 <= mbps && mbps * 1000000 < TWO_63
    ensures NodePanelRate(mbps) == mbps * 125000
  {
    assert mbps * 1000000 == (mbps * 125000) * 8;
    QuoExact8(mbps * 125000);
  }

  /** Without overflow, a negative panel node limit becomes a rate just
      below 2^64 bytes per second. */
  lemma NodePanelRateNegative(mbps: int64)
    requires mbps < 0 && -TWO_63 <= mbps * 1000000
    ensures NodePanelRate(mbps) == TWO_64 + mbps * 125000
  {
    assert mbps * 1000000 == (mbps * 125000) * 8;
    QuoExact8(mbps * 125000);
  }

  /** The user fallback `SpeedLimit * 1000000 / 8` in uint64 arithmetic:
      the product wraps modulo 2^64. */
  function UserPanelRate(mbps: uint64): uint64 {
    WrapUint64(mbps * 1000000) / 8
  }

  /** Without overflow, a panel user limit converts exactly. */
  lemma UserPanelRateExact(mbps: uint64)
    requires mbps * 1000000 < TWO_64
    ensures UserPanelRate(mbps) == mbps * 125000
  {
    assert WrapUint64(mbps * 1000000) == (mbps * 125000) * 8;
  }

  /** The first panel user limit whose product overflows wraps to a small rate. */
  lemma UserPanelRateOverflow()
    ensures 18446744073709 * 1000000 < TWO_64
    ensures 18446744073710 * 1000000 >= TWO_64
    ensures UserPanelRate(18446744073710) == 56048
  {
    assert WrapUint64(18446744073710 * 1000000) == 448384;
  }

  // ---------------------------------------------------------------------
  // Node normalisation

  /** The canonical node record: speed-limit precedence, node id and flow
      from the configuration, everything else copied from the panel. */
  function ParseNodeInfo(nodeId: int64, vlessFlow: string, speedLimit: real, panel: NodeInfoResponse): (n: NodeInfo)
    ensures n.speedLimit == if speedLimit > 0.0 then OverrideRate(speedLimit) else NodePanelRate(panel.nodeSpeedLimit)
    ensures n.nodeId == nodeId && n.vlessFlow == vlessFlow
    ensures n.port == ToUint32(panel.port)
    ensures && n.nodeType == panel.nodeType
            && n.transportProtocol == panel.transportProtocol
            && n.host == panel.host
            && n.path == panel.path
            && n.enableTls == panel.enableTls
            && n.enableVless == panel.enableVless
            && n.serviceName == panel.serviceName
            && n.cypherMethod == panel.cipherMethod
            && n.serverKey == panel.serverKey
  {
    var rate := if speedLimit > 0.0 then OverrideRate(speedLimit) else NodePanelRate(panel.nodeSpeedLimit);
    NodeInfo(
      nodeType := panel.nodeType,
      nodeId := nodeId,
      port := ToUint32(panel.port),
      speedLimit := rate,
      transportProtocol := panel.transportProtocol,
      host := panel.host,
      path := panel.path,
      enableTls := panel.enableTls,
      enableVless := panel.enableVless,
      vlessFlow := vlessFlow,
      serviceName := panel.serviceName,
      cypherMethod := panel.cipherMethod,
      serverKey := panel.serverKey)
  }

  /** The node's speed limit in bytes per second: the positive override,
      truncated, whatever the panel says; otherwise the panel's value. */
  lemma NodeSpeedLimitPrecedence(nodeId: int64, vlessFlow: string, speedLimit: real, panel: NodeInfoResponse, other: NodeInfoResponse)
    ensures var n := ParseNodeInfo(nodeId, vlessFlow, speedLimit, panel);
            && (speedLimit > 0.0 ==>
                  && n.speedLimit as real <= speedLimit * 125000.0 < n.speedLimit as real + 1.0
                  && n.speedLimit == ParseNodeInfo(nodeId, vlessFlow, speedLimit, other).speedLimit)
            && (speedLimit <= 0.0 && 0 <= panel.nodeSpeedLimit && panel.nodeSpeedLimit * 1000000 < TWO_63 ==>
                  n.speedLimit == panel.nodeSpeedLimit * 125000)
            && (speedLimit <= 0.0 && panel.nodeSpeedLimit < 0 && -TWO_63 <= panel.nodeSpeedLimit * 1000000 ==>
                  n.speedLimit == TWO_64 + panel.nodeSpeedLimit * 125000)
  {
    if speedLimit <= 0.0 {
      if 0 <= panel.nodeSpeedLimit && panel.nodeSpeedLimit * 1000000 < TWO_63 {
        NodePanelRateExact(panel.nodeSpeedLimit);
      }
      if panel.nodeSpeedLimit < 0 && -TWO_63 <= panel.nodeSpeedLimit * 1000000 {
        NodePanelRateNegative(panel.nodeSpeedLimit);
      }
    }
  }

  /** The narrowing of the panel's int64 port to uint32. */
  lemma PortNarrowing(port: int64)
    ensures 0 <= port < TWO_32 ==> ToUint32(port) == port
    ensures ToUint32(-1) == TWO_32 - 1
    ensures ToUint32(TWO_32 + 443) == 443
  {
  }

  // ---------------------------------------------------------------------
  // User normalisation

  /** The user's identity: the user name itself when it is an email
      address, otherwise the user name under the placeholder domain. */
  function UserEmail(userName: string): (e: string)
    ensures MatchesEmailPattern(userName) ==> e == userName
    ensures !MatchesEmailPattern(userName) ==> e == userName + PLACEHOLDER_DOMAIN
  {
    EmailFormatIsPattern(userName);
    if IsEmailFormat(userName) then userName else userName + PLACEHOLDER_DOMAIN
  }

  lemma UserEmailKept()
    ensures UserEmail("a@b.com") == "a@b.com"
  {
    assert EmailSplit("a@b.com", 1, 3);
  }

  /** A user name without '@' always gets the placeholder domain. */
  lemma NoAtIdentity(userName: string)
    requires '@' !in userName
    ensures UserEmail(userName) == userName + PLACEHOLDER_DOMAIN
  {
    NoAtNotEmail(userName);
    EmailFormatIsPattern(userName);
  }

  lemma UserEmailSynthesized()
    ensures UserEmail("plainuser") == "plainuser" + "@vpnboard.user"
  {
    EmailRejected();
    EmailFormatIsPattern("plainuser");
  }

  /** The placeholder domain is '@', a domain label, '.', and a top-level label. */
  lemma PlaceholderShape()
    ensures |PLACEHOLDER_DOMAIN| == 14
    ensures PLACEHOLDER_DOMAIN[0] == '@' && PLACEHOLDER_DOMAIN[9] == '.'
    ensures AllDomain(PLACEHOLDER_DOMAIN[1..9]) && AllLetters(PLACEHOLDER_DOMAIN[10..])
  {
    assert PLACEHOLDER_DOMAIN[1..9] == "vpnboard";
    assert PLACEHOLDER_DOMAIN[10..] == "user";
  }

  /** A non-empty user name of local-part characters always yields an
      identity that is itself an email address. */
  lemma SynthesizedIdentityIsEmail(userName: string)
    requires userName != [] && AllLocal(userName)
    ensures MatchesEmailPattern(UserEmail(userName))
  {
    if !MatchesEmailPattern(userName) {
      var e := userName + PLACEHOLDER_DOMAIN;
      var at := |userName|;
      PlaceholderShape();
      assert e[..at] == userName;
      assert e[at..] == PLACEHOLDER_DOMAIN;
      assert e[at + 1..at + 9] == PLACEHOLDER_DOMAIN[1..9];
      assert e[at + 10..] == PLACEHOLDER_DOMAIN[10..];
      assert EmailSplit(e, at, at + 9);
    }
  }

  /** One canonical user record from one panel entry. */
  function NormalizeUser(speedLimit: real, deviceLimit: int64, nodeType: string, item: UserListResponseItem): (u: UserInfo)
    ensures u.uid == item.uid && u.uuid == item.uuid
    ensures u.speedLimit == if speedLimit > 0.0 then OverrideRate(speedLimit) else UserPanelRate(item.speedLimit)
    ensures u.deviceLimit == if deviceLimit > 0 then deviceLimit else item.deviceLimit
    ensures u.email == UserEmail(item.userName)
    ensures u.email == item.userName <==> MatchesEmailPattern(item.userName)
    ensures u.passwd == if nodeType == SHADOWSOCKS then item.uuid else ""
  {
    var rate := if speedLimit > 0.0 then OverrideRate(speedLimit) else UserPanelRate(item.speedLimit);
    var devices := if deviceLimit > 0 then deviceLimit else item.deviceLimit;
    var passwd := if nodeType == SHADOWSOCKS then item.uuid else "";
    UserInfo(item.uid, item.uuid, UserEmail(item.userName), passwd, rate, devices)
  }

  /** The user's limits: a positive override wins whatever the panel says;
      otherwise the panel's speed converts exactly (below the overflow
      bound) and the panel's device count is kept verbatim. */
  lemma UserLimitPrecedence(speedLimit: real, deviceLimit: int64, nodeType: string, item: UserListResponseItem, other: UserListResponseItem)
    ensures var u := NormalizeUser(speedLimit, deviceLimit, nodeType, item);
            var v := NormalizeUser(speedLimit, deviceLimit, nodeType, other);
            && (speedLimit > 0.0 ==>
                  u.speedLimit == v.speedLimit && u.speedLimit as real <= speedLimit * 125000.0 < u.speedLimit as real + 1.0)
            && (speedLimit <= 0.0 && item.speedLimit * 1000000 < TWO_64 ==> u.speedLimit == item.speedLimit * 125000)
            && (deviceLimit > 0 ==> u.deviceLimit == v.deviceLimit == deviceLimit)
            && (deviceLimit <= 0 ==> u.deviceLimit == item.deviceLimit)
  {
    if speedLimit <= 0.0 && item.speedLimit * 1000000 < TWO_64 {
      UserPanelRateExact(item.speedLimit);
    }
  }

  /** The per-user loop: fills a list as long as the panel's, entry by
      entry, in the panel's order. */
  method NormalizeUserList(speedLimit: real, deviceLimit: int64, nodeType: string, users: seq<UserListResponseItem>)
    returns (userList: seq<UserInfo>)
    ensures |userList| == |users|
    ensures forall i :: 0 <= i < |users| ==> userList[i] == NormalizeUser(speedLimit, deviceLimit, nodeType, users[i])
  {
    var a := new UserInfo[|users|];
    for i := 0 to |users|
      invariant forall j :: 0 <= j < i ==> a[j] == NormalizeUser(speedLimit, deviceLimit, nodeType, users[j])
    {
      a[i] := NormalizeUser(speedLimit, deviceLimit, nodeType, users[i]);
    }
    userList := a[..];
  }

  predicate SupportedNodeType(nodeType: string) {
    nodeType in {"V2ray", "Trojan", "Shadowsocks", "Vmess", "Vless"}
  }

  // ---------------------------------------------------------------------
  // Local rule list

  /** The rule file at the configured path, as the file system gives it:
      it could not be opened, or it was scanned into these lines. */
  datatype RuleFile = OpenFailed(reason: string) | Lines(lines: seq<string>)

  /** An empty path or an unopenable file gives no rules; otherwise every
      scanned line, blank ones included, becomes a local rule, in order. */
  method ReadLocalRuleList(path: string, file: RuleFile) returns (rules: seq<DetectRule>)
    ensures path == "" || file.OpenFailed? ==> rules == []
    ensures path != "" && file.Lines? ==>
              && |rules| == |file.lines|
              && forall i :: 0 <= i < |rules| ==> rules[i] == DetectRule(LOCAL_RULE_ID, file.lines[i])
  {
    rules := [];
    if path != "" {
      match file
      case OpenFailed(_) =>
        return;
      case Lines(lines) =>
        var i := 0;
        while i < |lines|
          invariant 0 <= i <= |lines|
          invariant |rules| == i
          invariant forall j :: 0 <= j < i ==> rules[j] == DetectRule(LOCAL_RULE_ID, lines[j])
        {
          rules := rules + [DetectRule(LOCAL_RULE_ID, lines[i])];
          i := i + 1;
        }
    }
  }

  // ---------------------------------------------------------------------
  // The client

  class APIClient {
    const apiHost: string
    const nodeId: int64
    const key: string
    const nodeType: string
    const enableVless: bool
    const vlessFlow: string
    const speedLimit: real
    const deviceLimit: int64
    const disableCustomConfig: bool
    const localRuleList: seq<DetectRule>
    var eTags: map<string, string>

    ghost predicate Valid()
      reads this
    {
      && TokensWellFormed(eTags)
      && forall i :: 0 <= i < |localRuleList| ==> localRuleList[i].id == LOCAL_RULE_ID
    }

    /** `New`: copies the configuration, loads the local rules, and starts
        with no tokens. */
    constructor (config: Config, ruleFile: RuleFile)
      ensures Valid()
      ensures && apiHost == config.apiHost && nodeId == config.nodeId && key == config.key
              && nodeType == config.nodeType && enableVless == config.enableVless
              && vlessFlow == config.vlessFlow && speedLimit == config.speedLimit
              && deviceLimit == config.deviceLimit && disableCustomConfig == config.disableCustomConfig
      ensures eTags == map[]
      ensures config.ruleListPath == "" || ruleFile.OpenFailed? ==> localRuleList == []
      ensures config.ruleListPath != "" && ruleFile.Lines? ==>
                && |localRuleList| == |ruleFile.lines|
                && forall i :: 0 <= i < |localRuleList| ==> localRuleList[i] == DetectRule(LOCAL_RULE_ID, ruleFile.lines[i])
    {
      var rules := ReadLocalRuleList(config.ruleListPath, ruleFile);
      apiHost := config.apiHost;
      nodeId := config.nodeId;
      key := config.key;
      nodeType := config.nodeType;
      enableVless := config.enableVless;
      vlessFlow := config.vlessFlow;
      speedLimit := config.speedLimit;
      deviceLimit := config.deviceLimit;
      disableCustomConfig := config.disableCustomConfig;
      localRuleList := rules;
      eTags := map[];
    }

    /** The node-info request, carrying the stored node token. */
    function NodeInfoRequest(): Request
      reads this
    {
      Request(NODE_INFO_PATH, WrapUint64(nodeId), Token(eTags, NODE_TAG))
    }

    /** The user-list request, carrying the stored users token. */
    function UserListRequest(): Request
      reads this
    {
      Request(USER_LIST_PATH, WrapUint64(nodeId), Token(eTags, USERS_TAG))
    }

    /** Fetches the node configuration through `transport`. A transport
        error or a 304 leaves the tokens alone; any other reply first
        stores its node token, which stays stored even when the envelope
        or the payload is then rejected. */
    method GetNodeInfo(transport: Request -> Reply<NodeInfoResponse>) returns (sent: Request, r: Result<NodeInfo>)
      requires Valid()
      modifies this
      ensures Valid()
      ensures sent == old(NodeInfoRequest())
      ensures var reply := transport(sent);
              reply.transportError.Some? ==> r == Err(TransportError(reply.transportError.value)) && eTags == old(eTags)
      ensures var reply := transport(sent);
              reply.transportError.None? && reply.status == 304 ==> r == Err(NodeNotModified) && eTags == old(eTags)
      ensures var reply := transport(sent);
              reply.transportError.None? && reply.status != 304 ==>
                && eTags == StoreToken(old(eTags), NODE_TAG, reply.etag)
                && match DecodeData(ParseResponse(apiHost, NODE_INFO_PATH, reply, None), NODE_INFO_TARGET)
                   case Err(e) => r == Err(e)
                   case Ok(panel) => r == Ok(ParseNodeInfo(nodeId, vlessFlow, speedLimit, panel))
    {
      sent := NodeInfoRequest();
      var reply := transport(sent);
      if reply.transportError.Some? {
        return sent, Err(TransportError(reply.transportError.value));
      }
      if reply.status == 304 {
        return sent, Err(NodeNotModified);
      }
      StoreTokenWellFormed(eTags, NODE_TAG, reply.etag);
      if reply.etag != "" && reply.etag != Token(eTags, NODE_TAG) {
        eTags := eTags[NODE_TAG := reply.etag];
      }
      var parsed := ParseResponse(apiHost, NODE_INFO_PATH, reply, None);
      if parsed.Err? {
        return sent, Err(parsed.error);
      }
      match parsed.value.data
      case Undecodable(_) =>
        r := Err(UnmarshalFailed(NODE_INFO_TARGET));
      case Decoded(panel) =>
        r := Ok(ParseNodeInfo(nodeId, vlessFlow, speedLimit, panel));
    }

    /** Fetches the user list through `transport`. An unsupported node type
        fails before any request is sent (`sent == None`); otherwise the
        token handling is that of `GetNodeInfo` on the users token, and a
        successful reply gives one canonical record per panel entry, in the
        panel's order. */
    method GetUserList(transport: Request -> Reply<UserListResponse>) returns (sent: Option<Request>, r: Result<seq<UserInfo>>)
      requires Valid()
      modifies this
      ensures Valid()
      ensures !SupportedNodeType(nodeType) ==>
                sent == None && r == Err(UnsupportedNodeType(nodeType)) && eTags == old(eTags)
      ensures SupportedNodeType(nodeType) ==> sent == Some(old(UserListRequest()))
      ensures sent.Some? ==>
                var reply := transport(sent.value);
                reply.transportError.Some? ==> r == Err(TransportError(reply.transportError.value)) && eTags == old(eTags)
      ensures sent.Some? ==>
                var reply := transport(sent.value);
                reply.transportError.None? && reply.status == 304 ==> r == Err(UserNotModified) && eTags == old(eTags)
      ensures sent.Some? ==>
                var reply := transport(sent.value);
                reply.transportError.None? && reply.status != 304 ==>
                  && eTags == StoreToken(old(eTags), USERS_TAG, reply.etag)
                  && match DecodeData(ParseResponse(apiHost, USER_LIST_PATH, reply, None), USER_LIST_TARGET)
                     case Err(e) => r == Err(e)
                     case Ok(payload) =>
                       && r.Ok?
                       && |r.value| == |payload.list|
                       && forall i :: 0 <= i < |payload.list| ==>
                            r.value[i] == NormalizeUser(speedLimit, deviceLimit, nodeType, payload.list[i])
    {
      if !SupportedNodeType(nodeType) {
        return None, Err(UnsupportedNodeType(nodeType));
      }
      var request := UserListRequest();
      sent := Some(request);
      var reply := transport(request);
      if reply.transportError.Some? {
        return sent, Err(TransportError(reply.transportError.value));
      }
      if reply.status == 304 {
        return sent, Err(UserNotModified);
      }
      StoreTokenWellFormed(eTags, USERS_TAG, reply.etag);
      if reply.etag != "" && reply.etag != Token(eTags, USERS_TAG) {
        eTags := eTags[USERS_TAG := reply.etag];
      }
      var parsed := ParseResponse(apiHost, USER_LIST_PATH, reply, None);
      if parsed.Err? {
        return sent, Err(parsed.error);
      }
      match parsed.value.data
      case Undecodable(_) =>
        r := Err(UnmarshalFailed(USER_LIST_TARGET));
      case Decoded(payload) =>
        var userList := NormalizeUserList(speedLimit, deviceLimit, nodeType, payload.list);
        r := Ok(userList);
    }

    /** The rules loaded at construction; every one is a local rule. */
    function GetNodeRule(): (rules: seq<DetectRule>)
      requires Valid()
      reads this
      ensures rules == localRuleList
      ensures forall i :: 0 <= i < |rules| ==> rules[i].id == LOCAL_RULE_ID
    {
      localRuleList
    }

    /** The diagnostic snapshot of the client's identity. */
    function Describe(): (info: ClientInfo)
      ensures info.apiHost == apiHost && info.nodeId == nodeId && info.key == key && info.nodeType == nodeType
    {
      ClientInfo(apiHost, nodeId, key, nodeType)
    }
  }
}
