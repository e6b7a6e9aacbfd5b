# sohop in Dafny

sohop is an authenticating reverse proxy. Each upstream service is reached
on a subdomain of one configured domain, and an upstream can require a
login, either through GitHub organisation membership or a Google account
whose verified email matches a pattern. The gateway also has a health
endpoint, which probes every upstream and checks the TLS certificate's
expiry.

This project models the decision and rewriting logic of the gateway and
proves its contracts:

- `health.dfy`: the health engine of `health.go`.
  - The sequential join of the upstream probes.
  - The certificate classifier with its 72-hour warning window.
  - The published report, as a class whose fields `PerformCheck` rewrites.
  - The 200/503 choice of the health handler.
- `proxy.dfy`: the upstream table and the request dispatcher of `proxy.go`.
  - `createUpstreams`, as nested loops over the configuration.
  - Header templating, as an in-place delete-then-append on the request's header multimap.
  - The "Websocket" to "WebSocket" renaming of header names.
  - The choice between the WebSocket proxy, the HTTP proxy and not-found.
  - The fail-closed `requiresAuth` matcher.
- `auth.dfy`: the Google authorizer of `auth/google.go`.
  - Restoring base64url padding.
  - Picking the claims segment out of a JWS compact serialization (section 7.1 of RFC 7515).
  - The final decision: the email must be verified and match the pattern.
- `base64.dfy`: the URL-safe base64 of section 5 of RFC 4648, which the
  authorizer decodes with. It holds the padded and unpadded encoders and
  the padded decoder, with the round trip proved.
- `sohop.dfy`: the top level of `sohop.go`.
  - The exactly-one-authorizer rule.
  - The `_s<digits>` session cookie name.
  - The cookie options, with a one-day max age.
  - The router, whose routes are tried first-match in registration order.
- `strings.dfy`, `wrappers.dfy`, `durations.dfy` and `config.dfy`: support.
  - `strings.Split`, `strings.Contains`, `strings.Replace` and `%d` formatting.
  - Option and Result.
  - Go's duration constants in nanoseconds.
  - The configuration records.

Everything outside the gateway's own logic is passed in as a value or as
an oracle function:

- a probe's outcome
- the certificate's validity period
- the OAuth exchange's result
- the random draw
- `url.Parse`
- template parsing and rendering
- JSON encoding and decoding
- the regular-expression test
- `wsutil.IsWebSocketRequest`

Go ranges over maps in no fixed order. The loops that do so pick the next
key with `:|`, so their contracts hold for every order.

## Model

| member | source | states |
|---|---|---|
| Health.ProbeAll | health.go:43-76 | Every configured upstream gets exactly one entry, under its own name. The entry is the status line or the transport error text of the probe of its health-check URL, or of its URL when no health-check URL is set. `allOk` holds iff every probe answered without a transport error and with status 200. The result is the same for every visiting order. |
| Health.ClassifyCert | health.go:84-112 | The certificate passes iff `notBefore < now` and `now + 72h < notAfter`, and then no error is set. At `now <= notBefore` it is "not yet valid" with `valid_at`. Otherwise, at `notAfter <= now`, it is "expired". Otherwise, within 72 hours of expiry, it is "expires soon" with the remaining time. `expires_at` is set whenever the validity was read. A read or parse failure gives ok=false with its error text and nothing else. |
| Health.HealthReport.constructor | health.go:33-37 | Before the first check the report is empty and not ok. |
| Health.HealthReport.PerformCheck | health.go:39-135 | The stored flag is true iff every probe passed, the certificate passed and the report serialized. The stored body is the serialized report of all entries and the certificate verdict, or "internal server error" when serialization fails. |
| Health.HealthReport.Serve | health.go:140-151 | The status is 200 iff the stored flag is set, and 503 otherwise. The body is always the stored body, with the JSON content type. |
| Health.UnreachableUpstreamFails | health.go:68-76 | An upstream that cannot be reached fails the whole check, and its entry carries the error text. |
| Proxy.AppendTemplates | proxy.go:53-56 | One header's templates: succeeds iff each parses. On success the header's list holds them in order, and an empty list adds no entry. A failure names a template of that header that does not parse. |
| Proxy.CompileHeaders | proxy.go:51-57 | Succeeds iff every template parses. A failure names a template that does not parse. On success there is one list per header with at least one template, holding the templates in configured order. |
| Proxy.NewUpstream | proxy.go:32-58 | One upstream is built iff its URL and WebSocket URL parse when set and all its templates parse. The result is the upstream its spec describes, and a failure is a fault of that spec. |
| Proxy.CreateUpstreams | proxy.go:25-63 | Succeeds iff every upstream's URL, WebSocket URL and templates parse. A failure is a fault of some upstream. On success the table has exactly the configured names. The HTTP proxy is present iff `URL` is non-empty, and then targets it. The WebSocket proxy is present iff `WebSocket` is non-empty, and then targets it. |
| Proxy.Request.Del | proxy.go:82 | `Header.Del` removes the name and nothing else. |
| Proxy.Request.Add | proxy.go:90 | `Header.Add` appends the value to the name's list and changes nothing else. |
| Proxy.RenderHeader | proxy.go:81-90 | One templated header: the client's values are deleted and the rendered values appended in template order. A render failure reports that template's error. No other header changes. |
| Proxy.ApplyTemplates | proxy.go:79-93 | Succeeds iff every template renders. On success each templated header holds exactly its rendered values in template order, and every other header is as before. A failure carries the error of a template that failed. Headers without templates are never touched. |
| Proxy.TemplatingEnd | proxy.go:79-93 | Once every templated header is rendered, all templates rendered and the header is the templated one. |
| Proxy.TemplatedIgnoresClient | proxy.go:79-93 | A templated header's final values do not depend on what the client sent. |
| Proxy.RespelledKeepsPrefix | proxy.go:98-99 | The replacement creates no 'W', so a 'W'-free prefix of the result was a prefix of the input. |
| Proxy.RespelledIsClean | proxy.go:98-99 | After `strings.Replace(k, "Websocket", "WebSocket", -1)`, the name contains no "Websocket". |
| Proxy.RespelledKeepsClean | proxy.go:98-99 | A name without "Websocket" is left as it is. |
| Proxy.RespellingCleans | proxy.go:98-99 | The respelling cleans every misspelled name and fixes every clean one. |
| Proxy.RespelledKeepsValues | proxy.go:97-102 | When no two names respell to the same name, every name's values are found under its respelled name. |
| Proxy.RespellWebSocketKeys | proxy.go:95-103 | Afterwards no header name contains "Websocket". Every name is present under its respelled form. Every value belongs to a name that respells to its key. A name that a misspelled name respells to holds the value of a misspelled name, even when it was already in the header. |
| Proxy.RespelledOverridesClean | proxy.go:97-102 | When only one misspelled name respells to a name, that name ends up with its value, even if the client also sent the name already spelled "WebSocket". |
| Proxy.RenameStart | proxy.go:97-102 | The rename loop's invariant holds before the first name is visited. |
| Proxy.RenameStep | proxy.go:97-102 | Visiting one name, renaming it if it is flagged, keeps the invariant. |
| Proxy.RenameStepOrigins | proxy.go:97-102 | Renaming one flagged name keeps every value traceable to a name that respells to its key. |
| Proxy.RenameStepBadOrigins | proxy.go:97-102 | Moving a flagged name's value to its new name overrides what that name held, so every visited flagged name's new name holds a flagged name's value. |
| Proxy.RenameEnd | proxy.go:97-102 | Once every name is visited, the invariant gives the renamed header. |
| Proxy.ServeProxy | proxy.go:71-115 | An unknown subdomain gives not-found and leaves the header alone. A render failure gives an internal error, and only then. Otherwise the header is templated. The request goes to the WebSocket proxy iff one is configured and the templated request is an upgrade, with the header names respelled. Otherwise it goes to the HTTP proxy iff one is configured, and otherwise to not-found. |
| Proxy.RequiresAuth | proxy.go:118-127 | No authentication is required only when the first label of the host is a configured upstream whose `Auth` is false. An unknown label requires it (fail closed). |
| Proxy.RequiresAuthByLabel | proxy.go:120-124 | For a host `name.rest`, the answer is decided by `name` alone: its `Auth` flag, or true when it is unknown. |
| Strings.Split | auth/google.go:90 | `strings.Split` gives at least one part. There is exactly one part iff the separator is absent, and no part contains the separator. |
| Strings.JoinSplit | proxy.go:120 | Joining the parts with the separator gives the string back. |
| Strings.SplitWithoutSeparator | auth/google.go:90-93 | A string without the separator splits into itself alone. |
| Strings.SplitAtFirst | proxy.go:120 | The first part is the text before the first separator, and the rest splits on its own. |
| Strings.ReplaceAllAbsent | proxy.go:98-99 | Replacing a pattern that does not occur changes nothing. |
| Strings.DigitChar | sohop.go:45 | A digit value prints as a decimal digit. |
| Strings.Decimal | sohop.go:45 | `%d` prints at least one digit, only digits, and no leading zero. |
| Strings.DigitValue | sohop.go:45 | A digit character reads back as the value that prints as it. |
| Strings.ParseDecimalInverse | sohop.go:45 | Decimal printing can be read back, so it is injective. |
| Strings.DecimalLength | sohop.go:41-45 | A number below 10^k prints with at most k digits. |
| Base64.Char | auth/google.go:114 | No character of the URL-safe alphabet is the padding character '=' or the JWS separator '.'. |
| Base64.CharValue | auth/google.go:114 | Each 6-bit value's character in the URL-safe alphabet decodes back to that value. |
| Base64.Value | auth/google.go:114 | Alphabet characters give 6-bit values, and the padding character is not one of them. |
| Base64.EncodeLength | auth/google.go:114 | Padded encoding emits whole 4-character quanta, 4 for every 3 bytes or part of 3. |
| Base64.EncodeRaw | auth/google.go:104-114 | Unpadded encoding contains neither '=' nor '.'. |
| Base64.DecodeEncode | auth/google.go:114 | `URLEncoding.DecodeString` recovers the bytes of any padded encoding. |
| Base64.DecodeLeadingQuad | auth/google.go:114 | When the bytes after the first three round-trip, so does the whole sequence: the first quantum decodes to the first three bytes. |
| Base64.EncodeRawIsUnpadded | auth/google.go:104-114 | Unpadded encoding is padded encoding without its trailing '=' characters, of which there are fewer than three. |
| Base64.DecodeRejectsOneCharQuantum | auth/google.go:106-108 | A final quantum with three padding characters is rejected. |
| Auth.PadBase64 | auth/google.go:104-113 | Padding adds "===", "==", "=" or nothing for a length of 1, 2, 3 or 0 mod 4. The result's length is a multiple of four, it starts with the input, and the rest is '='. |
| Auth.Base64Decode | auth/google.go:103-115 | Text whose length is 1 mod 4 is rejected: it is padded with "===", and no base64 quantum ends in three padding characters. |
| Auth.PadRestoresEncoding | auth/google.go:103-114 | Padding an unpadded encoding gives the canonical padded encoding of the same bytes. |
| Auth.Base64DecodeRaw | auth/google.go:103-114 | `base64Decode` recovers the bytes of any unpadded base64url text. |
| Auth.DecodeJWS | auth/google.go:88-101 | Fails with "jws: invalid token received" iff the payload has no '.', that is, fewer than two segments. |
| Auth.DecodeJWSSegment | auth/google.go:88-101 | For a dot-free header and claims segment, the result is the claims segment's `base64Decode` handed to the JSON decoder: a corrupt segment fails, and a JSON error is returned, whatever the header and the signature. |
| Auth.SecondSegment | auth/google.go:90-93 | The second '.'-separated segment of `header.body...` is `body` when neither holds a dot. |
| Auth.DecodeJWSReadsClaims | auth/google.go:88-101 | Only the second segment is decoded. Whatever the header and the signature, the result is what the JSON decoder makes of the claims. |
| Auth.Authorize | auth/google.go:66-85 | An exchange error is returned as it is, with its own text. A decode error is returned as it is. A decoded token whose email is verified and matches the pattern is authorized under that email. "unauthorized" is returned iff the claims decoded but the email is unverified or does not match. Any success comes from such a token. |
| Auth.AuthorizeSignedToken | auth/google.go:66-101 | For a well-formed ID token, the user is authorized, under their email, iff the claims decode, the email is verified and it matches the pattern. |
| Sohop.SelectAuthorizer | sohop.go:49-60 | The configuration is fatal iff GitHub and Google are both configured or both absent, each with its own message. Otherwise the authorizer is the configured one. |
| Sohop.SessionID | sohop.go:40-47 | The cookie name is "_s" followed by the draw's decimal digits, with no leading zero. A failed draw is fatal with its error. |
| Sohop.SessionIDReadsBack | sohop.go:40-46 | The digits read back as the draw, so distinct draws give distinct names. A draw below MaxInt64 gives a name of at most 21 characters. |
| Sohop.Dispatch | sohop.go:68-92 | For a request whose path is already clean, a request that no route accepts reaches the not-found handler. Otherwise it reaches the target of a route that accepts it and has no accepting route before it. |
| Sohop.FirstMatch | sohop.go:68-89 | The router picks the first registered route that accepts the request. |
| Sohop.Router.constructor | sohop.go:68 | A new router has no routes. |
| Sohop.Router.Handle | sohop.go:72-89 | Registering a route puts it after all the existing ones. |
| Sohop.Handler | sohop.go:62-92 | The cookie is HttpOnly and Secure, its Domain is the configured domain, and its MaxAge is 86400 seconds. An authorizer error is fatal. Otherwise the handler fails iff some upstream is faulty, with that upstream's fault. On success the router holds, in order: oauth `/authorized`, oauth `/session`, health `/check`, the proxy behind authentication for `requiresAuth`, and the plain proxy for every path. |
| Sohop.OAuthRoutesFirst | sohop.go:71-76 | `oauth.<domain>/authorized` reaches the OAuth callback and `/session` the session page, ahead of the `[a-z]+` proxy pattern. |
| Sohop.HealthRouteFirst | sohop.go:78-79 | `health.<domain>/check` reaches the health check, ahead of the proxy pattern. |
| Sohop.ProxyRoutes | sohop.go:81-89 | Any other request with a clean path for `name.<domain>`, with `name` in `[a-z]+`, goes through authentication iff `requiresAuth` holds for `name`, and straight to the proxy otherwise. |
| Sohop.FixedRoutesMiss | sohop.go:71-79 | The oauth and health routes do not take a request for `name.<domain>` on any path other than theirs. |
| Sohop.LabelHost | sohop.go:81-89 | `name.<domain>` matches the proxy host pattern, and it is the oauth or health host only when `name` is that label. |
| Sohop.DispatchAt | sohop.go:68-89 | A route that matches, with none before it matching, serves the request. |
| Sohop.OAuthHostOtherPath | sohop.go:71-89 | Every clean path on `oauth.<domain>` other than `/authorized` and `/session` falls through to the proxy routes, where an unconfigured "oauth" requires authentication. |
| Sohop.ForeignHostNotFound | sohop.go:69-81 | A request with a clean path for a host that is not a lower-case label under the domain reaches the not-found handler. |

## Left out

- Network I/O is left out: the health probes, the reverse proxies' forwarding, the OAuth code exchange and the certificate file read. Their outcomes are inputs.
- Goroutines, the `WaitGroup`, and the mutexes of `performCheck` and `HealthHandler` are left out. The probes are joined sequentially, and only the published snapshot is modelled.
- `time.Now`, the latency measurement and `Duration.String` are left out. Instants and durations are integer nanoseconds, and `expires_in` is the remaining duration rather than its text.
- `certValidity` is not part of this model. The certificate's validity period, or the error of reading or parsing it, is an input.
- Library internals are oracle parameters: `url.Parse`, `text/template` parsing and execution, JSON marshalling and unmarshalling, the regular-expression engine, `crypto/rand`, `securecookie`, gorilla sessions, and `wsutil.IsWebSocketRequest`.
- `auth.Handler`, `auth.Middleware`, `logging`, `notFound`, `health(conf)`, the GitHub authorizer and the `Server` type are not part of this model. They appear only as route targets.
- Header name canonicalisation by `Header.Del` and `Header.Add` is left out. Configured header names are taken to be canonical already.
- Sohop.Dispatch: the path cleaning of gorilla/mux's router is not modelled. Before matching, mux cleans the request path with `path.Clean`, keeping a trailing slash, and answers 301 with the cleaned path when cleaning changes it (`//x`, `/a/../authorized`, `/a/./b`). No route or not-found handler runs for that response. `Dispatch` and the routing lemmas built on it (`ProxyRoutes`, `ForeignHostNotFound`, `OAuthHostOtherPath`) describe requests whose path is already clean.
- The port in the `Host` header is left out. Hosts are matched without a port.
- The `id_token` type assertion is left out. The exchange result is the raw token string, so the panic on a missing or non-string `id_token` is not modelled.
- `base64.URLEncoding.DecodeString` is modelled only in part. It skips CR and LF, which the model does not, and its error carries a byte offset, which the model's single `CorruptInput` does not.
- A panic in `template.Must` is modelled as the `BadTemplate` error of the table build. In the source it stops the process.
- `log.Fatal` is modelled as an error result carrying its message, and `log.Print` is left out.
- The package-level initialisation of the cookie store and of the session name is left out. `SessionID` models the name, and `Handler` takes the store's options as an object.
- Proxy.ServeProxy: does not state the header after a template fails to render. The source answers 500 and never forwards that request.
- Proxy.RespellWebSocketKeys: when two misspelled names respell to the same name, which of their values survives depends on the map's iteration order. The contract states only that it is one of theirs, and `RespelledKeepsValues` gives the exact value when no two names collide. A collision with a name already spelled "WebSocket" does not depend on the order: the misspelled name's value wins, as `RespelledOverridesClean` states.
- Proxy.CreateUpstreams: when several upstreams are faulty, which fault is reported depends on the map's iteration order. The contract states that it is a fault of some upstream, and the same holds for Sohop.Handler.
