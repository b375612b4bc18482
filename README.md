# VPNBoard panel adapter — a Dafny model

This project models the VPNBoard adapter of XrayR: the client through which a
proxy node fetches its configuration and its authorised users from a VPNBoard
panel. Four pieces are modelled and proved:

- **Conditional fetch.** The client keeps one ETag token per resource (`node`,
  `users`), sends it as `If-None-Match`, turns a 304 into a "not modified"
  error, and otherwise stores a non-empty, changed `ETag` header. The token is
  stored before the envelope is checked, so it stays stored when the reply is
  then rejected.
- **Envelope validation.** The checks run in order: transport error, then
  status above 400, then a non-zero envelope `code`. Status 400 itself passes
  the status check.
- **Normalisation.** Panel node and user records become the host's records.
  A positive configured override always wins over the panel's speed or
  device limit. Mbps become bytes per second through `* 1000000 / 8`. Node id
  and flow come from the configuration. A user name becomes the identity:
  kept when it is an email address, otherwise given the placeholder domain
  `@vpnboard.user`. Shadowsocks users get their UUID as password.
- **Local rules.** Every scanned line of the rule file becomes a rule with id
  -1, in file order. An empty path or an unopenable file gives no rules.

Files and modules:

- `goint.dfy` (`GoInt`): Go's `int64`, `uint64` and `uint32`. Covers
  wrap-around, Go's truncating `/`, and the `uint64(...)`/`uint32(...)`
  conversions.
- `model.dfy` (`Model`): the panel's wire records from `api/vpnboard/model.go`.
  The transport hands them over already decoded.
- `api.dfy` (`Api`): the host's configuration and canonical records. Only
  the fields the adapter touches are kept.
- `email.dfy` (`Email`): the email regular expression written as character
  classes. A structural definition (`MatchesEmailPattern`) and a scanning
  decision procedure (`IsEmailFormat`) are proved equal.
- `vpnboard.dfy` (`VpnBoard`): errors, token bookkeeping, envelope checks,
  rate conversions, the normalisers, the rule loader and the `APIClient`
  class.

How the outside world is modelled:

- The HTTP transport is a function parameter `transport: Request -> Reply<T>`.
- A `Request` holds the path, the `node_id` body (`uint(NodeID)`, wrapped
  modulo 2^64) and the `If-None-Match` token.
- A `Reply` holds the transport's own error, the status, the `ETag` header
  (Go's header lookup folds case, so `"ETag"` and `"Etag"` name the same
  header), the body, and the envelope the transport decoded.
- The transport decodes only 2xx bodies. For any other status the envelope is
  the zero envelope (`TransportReply`). So a 400 reply passes the status check and then fails
  when `data` is decoded (`Status400FallsThrough`).
- `GetUserList` returns the request it sent as an `Option`. `None` means no
  request was made.
- The rule file is a parameter `RuleFile`: either it could not be opened, or
  it was scanned into these lines.

Where the code and the design description differ, the model follows the
code:

- Blank lines of the rule file become rules; they are not skipped.
- The token is updated before the envelope is checked, not after
  normalisation.
- The status failure carries the URL and the body, not the status.
- The transport's own error is returned unwrapped before the 304 check. So
  the fetch methods always call `ParseResponse` with no error: its first rule
  is modelled but never taken from them.

## Model

| member | source | states |
|---|---|---|
| `VpnBoard.StoreToken` | api/vpnboard/vpnboard.go:133-135 | after a non-304 reply, the resource's token equals the header when the header is non-empty, and is unchanged when it is empty; no other key appears, disappears or changes |
| `VpnBoard.StoreTokenWellFormed` | api/vpnboard/vpnboard.go:183-185 | storing into the `node` or `users` key keeps tokens confined to those two keys and never stores an empty token |
| `VpnBoard.StoreTokenIdempotent` | api/vpnboard/vpnboard.go:133-135 | receiving the same header again leaves the tokens as they are |
| `VpnBoard.AssembleUrl` | api/vpnboard/vpnboard.go:264-266 | the reported URL is the host followed by the path |
| `VpnBoard.ParseResponse` | api/vpnboard/vpnboard.go:268-284 | success exactly when there is no transport error, the status is at most 400 and the envelope code is 0, and then the envelope is returned; otherwise the first failing rule in the order transport error, status > 400, code != 0 decides the error |
| `Model.ZeroEnvelope` | api/vpnboard/model.go:35-40 | an envelope nothing was decoded into has code 0 and a `data` that does not decode |
| `VpnBoard.Status400FallsThrough` | api/vpnboard/vpnboard.go:273-283 | a 400 reply as the transport produces it (zero envelope, since only 2xx bodies are decoded) passes the status and code checks, and fails only when its `data` is decoded |
| `VpnBoard.OverrideRate` | api/vpnboard/vpnboard.go:288-289 | a positive override in Mbps is `floor(mbps * 1000000 / 8)` bytes per second |
| `VpnBoard.OverrideRateExamples` | api/vpnboard/vpnboard.go:289 | 1.5 Mbps gives 187500; fractional results 1.25 and 0.125 truncate to 1 and 0 |
| `GoInt.QuoExact8` | api/vpnboard/vpnboard.go:291 | Go's truncating division divides a multiple of 8 by 8 exactly, for either sign |
| `VpnBoard.NodePanelRateExact` | api/vpnboard/vpnboard.go:291 | with no int64 overflow, a non-negative panel node limit `n` gives exactly `n * 125000` bytes per second |
| `VpnBoard.NodePanelRateNegative` | api/vpnboard/model.go:11 | with no int64 overflow, a negative panel node limit `n` is reinterpreted as the uint64 `2^64 + n * 125000` |
| `VpnBoard.UserPanelRateExact` | api/vpnboard/vpnboard.go:210 | below the uint64 overflow bound, a panel user limit `s` gives exactly `s * 125000` bytes per second |
| `VpnBoard.UserPanelRateOverflow` | api/vpnboard/model.go:31 | 18446744073710 Mbps is the smallest user limit whose product overflows (18446744073709 does not), and it wraps to 56048 bytes per second |
| `VpnBoard.ParseNodeInfo` | api/vpnboard/vpnboard.go:286-309 | the speed limit is the converted override when positive, else the converted panel value; node id and flow always come from the configuration; the port is narrowed to uint32; type, protocol, host, path, TLS, vless, service name, method and server key are copied from the panel |
| `VpnBoard.NodeSpeedLimitPrecedence` | api/vpnboard/vpnboard.go:287-292 | a positive override gives the truncated override and ignores the panel value, whatever it is; otherwise the panel value converts exactly, or wraps when negative |
| `VpnBoard.PortNarrowing` | api/vpnboard/vpnboard.go:296 | ports in uint32 range are kept; others keep their low 32 bits (-1 becomes 4294967295) |
| `Email.EmailFormatIsPattern` | api/vpnboard/vpnboard.go:311-315 | the scanning check accepts a string exactly when it matches `^[a-zA-Z0-9._%+-]+@[a-zA-Z0-9.-]+\.[a-zA-Z]{2,}$`, split into local part, `@`, domain, `.` and a label of two or more letters |
| `Email.NoAtNotEmail` | api/vpnboard/vpnboard.go:311-315 | a string with no `@` is never an email address |
| `Email.EmailAccepted` | api/vpnboard/vpnboard.go:311-315 | "a@b.com" is an email address |
| `Email.EmailRejected` | api/vpnboard/vpnboard.go:311-315 | "plainuser" is not an email address |
| `VpnBoard.UserEmail` | api/vpnboard/vpnboard.go:219-223 | the identity is the user name when it matches the email pattern, otherwise the user name followed by `@vpnboard.user` |
| `VpnBoard.UserEmailKept` | api/vpnboard/vpnboard.go:219-220 | "a@b.com" is kept as it is |
| `VpnBoard.NoAtIdentity` | api/vpnboard/vpnboard.go:219-223 | a user name with no `@` always gets the placeholder domain appended |
| `VpnBoard.UserEmailSynthesized` | api/vpnboard/vpnboard.go:221-222 | "plainuser" becomes "plainuser@vpnboard.user" |
| `VpnBoard.SynthesizedIdentityIsEmail` | api/vpnboard/vpnboard.go:219-223 | for a non-empty user name made of local-part characters, the identity is always an email address |
| `VpnBoard.NormalizeUser` | api/vpnboard/vpnboard.go:202-228 | uid and uuid are copied; the speed limit is the converted override when positive, else the converted panel value; the device limit is the override when positive, else the panel value; the identity equals the user name exactly when it matches the email pattern; the password is the uuid for Shadowsocks and empty otherwise |
| `VpnBoard.UserLimitPrecedence` | api/vpnboard/vpnboard.go:207-217 | a positive override gives every user the same speed or device limit, whatever their panel values; otherwise the panel speed converts exactly and the panel device count is kept verbatim |
| `VpnBoard.NormalizeUserList` | api/vpnboard/vpnboard.go:198-229 | the output has the panel list's length, and entry i is the normalised panel entry i: order kept, nothing sorted, merged or dropped |
| `VpnBoard.ReadLocalRuleList` | api/vpnboard/vpnboard.go:79-114 | an empty path or an unopenable file gives no rules; otherwise one rule per scanned line, blank lines included, with id -1 and that line as pattern, in file order |
| `VpnBoard.APIClient.constructor` | api/vpnboard/vpnboard.go:38-76 | the configuration is copied, the local rules are those `ReadLocalRuleList` gives for the configured path, and no token is stored |
| `VpnBoard.APIClient.GetNodeInfo` | api/vpnboard/vpnboard.go:116-156 | sends the stored node token. A transport error or a 304 leaves the tokens unchanged and returns that error or `NodeNotModified`. Otherwise the node token is stored first, even if the reply is then rejected; the result is the envelope check, the payload decoding and `ParseNodeInfo` in turn |
| `VpnBoard.APIClient.GetUserList` | api/vpnboard/vpnboard.go:158-234 | a node type outside V2ray, Trojan, Shadowsocks, Vmess and Vless fails with `UnsupportedNodeType`, sends nothing and leaves the tokens unchanged. Otherwise token handling is as for the node, on the users token; success gives one `NormalizeUser` record per panel entry, in order |
| `VpnBoard.APIClient.GetNodeRule` | api/vpnboard/vpnboard.go:252-254 | returns the rules loaded at construction, each with the local id -1 |
| `VpnBoard.APIClient.Describe` | api/vpnboard/vpnboard.go:248-250 | the snapshot carries the host, node id, key and node type of the client |

## Left out

- HTTP transport: the resty client, its retry count of 3, its timeout
  (configured or 5 seconds), its error-logging hook, base URL and `Post`
  calls are not modelled. The transport is a function parameter.
- JSON: encoding and decoding are not modelled. Payloads arrive decoded or
  marked undecodable. Error messages are constructors rather than formatted
  text: the envelope error carries the code and message, not the serialized
  envelope, and the status error leaves out the always-nil error it prints.
- The "parse node info failed" branch of `GetNodeInfo` is not modelled.
  `parseNodeInfo` never returns an error, so that branch is dead.
- File I/O in `readLocalRuleList` is not modelled: opening, scanning,
  closing, the log output, the scanner's line-length limit and the
  `log.Fatalf` that ends the process on a read error.
- Regular-expression compilation is not modelled. A malformed pattern makes
  `regexp.MustCompile` panic; here rules keep their pattern as text.
- `Email.IsEmailFormat` works on Dafny characters (Unicode scalar values).
  Go's handling of invalid UTF-8 in user names is not modelled.
- `VpnBoard.OverrideRate` uses exact real arithmetic for the float64
  override, so Go's float64 rounding is not reproduced. A NaN override is
  not modelled either: a Dafny `real` cannot be NaN. In Go, `SpeedLimit > 0`
  is false for NaN, so the panel's value is used. Overrides whose
  byte rate does not fit a uint64 are not modelled: the result is an
  unbounded `nat`, while Go's out-of-range conversion is
  implementation-specific.
- Go's `int` is taken to be 64 bits wide (`int64`) for node ids, uids and
  device limits.
- The host's `api` package (its `Config`, `NodeInfo`, `UserInfo`,
  `DetectRule`, `ClientInfo` and its not-modified messages) is not part of
  this model. Its records are rebuilt from how the adapter uses them, with
  only the fields the adapter sets.
- The mutex field is not modelled: it is never locked. `LastReportOnline`
  is not modelled either: `New` sets it to an empty map and nothing reads
  it. `version` is not modelled: it is declared but never set or read.
- The client's `EnableVless` and `DisableCustomConfig` are copied from the
  configuration and kept as fields, but nothing else reads them.
- `VpnBoard.APIClient.GetNodeRule`: Go returns `&c.LocalRuleList`, a pointer
  to the client's own slice. A caller can change the client's rules through
  that pointer. The model returns an immutable copy, so it does not capture
  this aliasing.
- The reporting operations are not modelled: `ReportNodeStatus`,
  `ReportNodeOnlineUsers`, `ReportUserTraffic` and `ReportIllegal` only
  return nil.
- `Debug` (transport debug output) and the `fmt.Println` of the user list
  are output only and are not modelled.
- The test file `api/vpnboard/vpnboard_test.go` is not modelled. Its tests
  need a live panel and check nothing beyond the absence of an error.
