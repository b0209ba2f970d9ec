# smtp2graph in Dafny

smtp2graph is an SMTP submission gateway. It accepts mail from clients that
log in with SASL PLAIN against one configured mailbox. It reconciles each
message's headers with the SMTP envelope and relays the raw MIME message to
the Microsoft Graph `sendMail` endpoint of that mailbox, using a cached
OAuth bearer token. This project models the core of the gateway:

- the per-connection SMTP session, a state machine over AUTH, MAIL, RCPT,
  DATA, RSET and QUIT (`smtp.dfy`). The SASL PLAIN message format is in
  `plain.dfy`;
- envelope reconciliation and the fallback message that DATA builds for
  input that does not parse (`reconcile.dfy`);
- the relay handler: the token cache with its 60-second refresh margin,
  encoding the message (`wire.dfy`), the send request and the three relay
  stages (`graph.dfy`);
- configuration from the environment, with defaults and the required
  variables (`config.dfy`).

Supporting modules:

- `wrappers.dfy` holds `Option` and `Result`.
- `goint.dfy` holds Go's int64 wrap-around.
- `text.dfy` holds join and split on a separator.
- `netmail.dfy` holds the parts of Go's `net/mail` the core relies on.

Several things outside the program become parameters of the model:

- **Address and message parsing** (`mail.ParseAddress`,
  `mail.ParseAddressList`, `Address.String` and `mail.ReadMessage`) is
  carried in a `MailParsers` record. The predicate `NetMail.Faithful` lists
  the general facts the proofs assume about it:
  - the empty text is not an address list;
  - every address `ParseAddress` returns renders to a text that parses
    back to exactly that address;
  - joining two parseable lists with ", " parses to their concatenation.

  The round-trip fact is assumed only for addresses the parser produced.
  The concatenation fact is assumed for any two texts the list parser
  accepts, whoever wrote them.
  `NetMail.FaithfulIsConsistent` shows that the assumptions can all hold
  at once, and not only vacuously: a small library that reads one address
  per 'a' in a list meets them, and its address round-trips, so the
  recipient lemmas apply to it. A few lemmas assume more, in their own `requires`:
  - `Smtp.DataDeliversFallback` assumes that `ReadMessage` reads the
    fallback text back as the fallback message;
  - `Reconcile.RecipientsCovered` and `Smtp.DataCoversEnvelope` assume
    that the message's first Bcc value is empty or parseable;
  - `Reconcile.UnreadableBccStaysUnread` assumes that a list whose first
    element does not parse is rejected.
- **Go's map iteration order** becomes an `order` parameter that visits
  every header key exactly once. The encoding is proved independent of that
  order, up to the order of its lines.
- **The clock, the token source, base64 encoding, the HTTP client and
  `time.ParseDuration`** are values or functions passed in.

A DATA command that relays successfully does not clear the envelope: `Data` leaves
the session as it was. The session only returns to "authenticated, no
envelope" through `Reset`, which the protocol library calls after every
DATA. `Smtp.StepKeepsValid` states this: DATA never changes the session.

## Model

| member | source | states |
|---|---|---|
| Smtp.AuthMechanisms | session.go:33-36 | PLAIN is the only advertised mechanism. |
| Smtp.Auth | session.go:38-49 | Success iff the PLAIN response has three fields and the authentication identity and password both equal the configured sender's. The authorization identity is ignored. Success only sets `auth`; a malformed response or wrong credentials leave the session unchanged. |
| Smtp.Mail | session.go:51-75 | Errors in precedence order: 530 5.7.0 unauthenticated, 503 5.5.1 sender already set, 503 5.5.1 MAIL after RCPT, 550 5.1.7 unparseable address. Succeeds exactly when none applies and then sets only the sender to the parsed address. On failure the session is unchanged. |
| Smtp.Rcpt | session.go:77-98 | Errors in precedence order: 530 5.7.0, then 503 5.5.1 RCPT before MAIL, then 550 5.1.3 unparseable address. Success appends exactly the parsed recipient at the end and keeps the earlier ones in order. On failure the session is unchanged. |
| Smtp.Data | session.go:100-199 | 530, then 503 "sender not specified", then 503 "no recipients specified", all without delivering anything. Input that parses neither directly nor through the fallback gives 550 5.6.0 and reaches no handler. Otherwise the handler gets the reconciled message exactly once, and its error becomes 554 5.3.0 carrying the error text verbatim. A successful reply implies a delivery the handler accepted. |
| Smtp.Reset | session.go:201-204 | RSET clears sender and recipients and keeps authentication. |
| Smtp.InitialValid | main.go:119-126 | A new session satisfies the session invariant and holds no address. |
| Smtp.StepKeepsValid | session.go:51-204 | Every command keeps the invariant: nothing is set before authentication, and there are no recipients without a sender. Authentication is never lost, and DATA leaves the session unchanged. |
| Smtp.RunKeepsValid | session.go:51-204 | Any sequence of commands from a valid session ends valid, and authentication, once gained, persists. |
| Smtp.StepFollowsOrdering | session.go:51-112 | Every accepted command moves the session along the RFC 5321 command ordering, with AUTH required first. Every rejected command leaves the session unchanged. |
| Smtp.StepKeepsRoundTrips | session.go:67-95 | The session only stores addresses returned by ParseAddress, so with faithful parsers every envelope address round-trips after any command. |
| Smtp.RunKeepsRoundTrips | session.go:51-204 | The same holds for any sequence of commands. |
| Smtp.DataCoversEnvelope | session.go:144-192 | The message handed to the relay names every envelope recipient in To, Cc or Bcc and the sender in From, provided its first Bcc value was empty or parseable. |
| Smtp.Step | session.go:38-208 | Dispatch of one command. AUTH, MAIL and RCPT give exactly the reply and next session of `Smtp.Auth`, `Smtp.Mail` and `Smtp.Rcpt`, and DATA replies what `Smtp.Data` replies. Each command touches only its own part of the session: AUTH only `auth`, MAIL only the sender, RCPT only the recipients. DATA changes nothing, RSET clears the envelope and succeeds, and QUIT (Logout) succeeds and changes nothing. |
| Smtp.SubmissionAccepted | session.go:38-98 | From a new connection, AUTH PLAIN with the configured login, then MAIL FROM and RCPT TO with parseable addresses, are each accepted. They leave an authenticated session whose sender is the parsed MAIL address and whose only recipient is the parsed RCPT address. |
| Smtp.Parsed | session.go:119-142 | DATA goes on iff the input parses or the fallback text parses. Parseable input is used as it is. Otherwise the message is what `ReadMessage` makes of the fallback header's lines, a blank line and the input; `Smtp.DataDeliversFallback` states what is then delivered. |
| Smtp.PlainLogin | session.go:38-49 | The configured identity's PLAIN login succeeds, with any authorization identity, iff the password is the configured one. |
| Smtp.DataDeliversFallback | session.go:119-142 | For input that does not parse, the message handed on is exactly the fallback message, with no reconciliation patch applied. This assumes `ReadMessage` reads the fallback text back as the fallback message. |
| SaslPlain.DecodePlain | session.go:39 | A decoded PLAIN response has NUL-free fields, and re-encoding them gives back the response. |
| SaslPlain.DecodeEncodePlain | session.go:39 | Decoding recovers every message with NUL-free fields that a client encodes. |
| Reconcile.Present | session.go:144-153 | The present set is exactly the bare addresses listed in the first value of To, Cc or Bcc; a missing or unparseable field contributes nothing. |
| Reconcile.PresentReadsDestinations | session.go:146-147 | Present depends only on the first values of To, Cc and Bcc. |
| Reconcile.Missing | session.go:154-160 | The missing recipients are exactly the envelope recipients whose bare address is in none of To, Cc, Bcc, with their multiplicity and order kept. |
| Reconcile.MissingAppend | session.go:156-160 | The missing list of a concatenation is the concatenation of the missing lists. |
| Reconcile.AbsentIsMissing | session.go:155-160 | A recipient whose address is absent from the headers is in the missing list. |
| Reconcile.NoneMissing | session.go:154-161 | When every recipient is present, nothing is missing. |
| Reconcile.PatchBcc | session.go:161-172 | Only Bcc changes. Nothing missing leaves the header unchanged; otherwise Bcc becomes one value. |
| Reconcile.BccListsMissing | session.go:161-172 | When the previous Bcc was empty or parseable, the patched Bcc parses to the previous Bcc list followed by the missing recipients. |
| Reconcile.PatchFrom | session.go:174-190 | Only From changes. A From that already lists the sender is kept; otherwise From becomes exactly the rendered sender. |
| Reconcile.PatchFromKeepsPresent | session.go:174-190 | Patching From does not remove any address from To, Cc or Bcc. |
| Reconcile.Reconciled | session.go:144-190 | Reconciliation keeps the body and every header field except Bcc and From. |
| Reconcile.UnreadableBccStaysUnread | session.go:161-167 | When the first Bcc value is non-empty and unparseable, and the library rejects the concatenated list, the patched Bcc still does not parse. Every missing recipient then stays absent from To, Cc and Bcc. |
| Reconcile.CoveredByListing | session.go:144-172 | When some recipient is missing and the previous Bcc was empty or parseable, each envelope recipient is named in To, Cc or Bcc after the Bcc patch. |
| Reconcile.PatchBccCoversOne | session.go:144-172 | After the Bcc patch, each envelope recipient is named in To, Cc or Bcc. |
| Reconcile.RecipientsCovered | session.go:144-190 | After reconciliation every envelope recipient's bare address is named in To, Cc or Bcc, provided the previous Bcc was empty or parseable. |
| Reconcile.SenderCovered | session.go:174-190 | After reconciliation, From always lists the envelope sender. |
| Reconcile.FallbackText | session.go:123-136 | The fallback text is the fallback header's four lines in write order, a blank line, then the raw input. `Reconcile.FallbackTextIsEncoding` shows that this is the relay's encoding of the fallback message. |
| Reconcile.FallbackHeaderLines | session.go:130-134 | The fallback header, visited From, To, Subject, Content-Type, yields exactly the four lines the session writes. |
| Reconcile.FallbackTextIsEncoding | session.go:129-136 | The fallback text equals the relay's encoding of the fallback message. |
| Reconcile.RenderedFieldLists | session.go:176 | A field holding a rendered non-empty address list parses back to that list. |
| Reconcile.FallbackMissesNone | session.go:123-160 | The fallback's To names every envelope recipient, so none is missing. |
| Reconcile.FallbackListsSender | session.go:123-185 | The fallback's From lists the envelope sender. |
| Reconcile.FallbackNeedsNoPatch | session.go:119-190 | Reconciling the fallback message leaves it unchanged. |
| NetMail.Get | session.go:162 | `Header.Get` gives the first value of a key, or "" when there is none. |
| NetMail.AddressList | session.go:147 | `Header.AddressList` parses only the key's first value. A missing key or an empty first value gives no list; otherwise the result is the parse of that value. |
| NetMail.AddressListIgnoresLaterValues | session.go:176 | Values after the first never affect AddressList. |
| NetMail.BareAddresses | session.go:145-153 | The address set of a parsed list holds exactly the bare addresses in it; an unparseable field contributes nothing. |
| NetMail.Rendered | session.go:124-127 | One rendered string per address, in order. |
| NetMail.JoinRenderedAppend | session.go:164-167 | Rendering a concatenated list equals joining the two rendered lists with ", ". |
| NetMail.JoinRenderedSingle | session.go:188 | A one-address list renders as that address. |
| NetMail.JoinRenderedParses | session.go:124-128 | A non-empty list of parsed addresses, rendered and joined with ", ", parses back to exactly that list. |
| NetMail.JoinRenderedNotEmpty | session.go:161-171 | A non-empty rendered list of parsed addresses is a non-empty string. |
| Wire.KeyLines | graphmailhandler.go:94-99 | One `Key: value` line per value of a key, in value order. |
| Wire.Encode | graphmailhandler.go:90-112 | Encoding fails exactly when reading the body fails, with that error. Otherwise the result is the header lines, a blank line, then the body; a nil body writes nothing. |
| Wire.HeaderLines | graphmailhandler.go:93-100 | The header-writing loop for one visiting order of the map. Its meaning is stated by `Wire.HeaderLinesPermutation` and `Wire.EncodeOrderIndependent` (every order gives the same lines), `Wire.LineCount` (one line per value) and `Wire.LinesAreTheValues` (lines and values correspond). |
| Wire.HeaderLinesAppend | graphmailhandler.go:93-100 | Visiting keys in two stretches writes the two stretches' lines one after another. |
| Wire.HeaderLinesPermutation | graphmailhandler.go:93-100 | Permuting the key order permutes the lines. |
| Wire.LinesAround | graphmailhandler.go:93-100 | One key's lines can be moved from the middle of the order to the front without changing the multiset of lines. |
| Wire.EncodeOrderIndependent | graphmailhandler.go:93-100 | Any two iteration orders of the same map give the same multiset of header lines. |
| Wire.HeaderLinesAgree | graphmailhandler.go:93-100 | The lines depend only on the values of the visited keys. |
| Wire.DropKey | graphmailhandler.go:93 | Removing one key from an iteration order leaves an iteration order of the map without that key. |
| Wire.LinesWithoutKey | graphmailhandler.go:93-100 | A map's lines are, as a multiset, one key's lines plus the lines of the map without that key; the lengths add up the same way. |
| Wire.LineCount | graphmailhandler.go:93-100 | The encoding writes exactly one line per header value, counted without any order. |
| Wire.LineOfValue | graphmailhandler.go:94-99 | The line of each value of a visited key is written. |
| Wire.LinesAreTheValues | graphmailhandler.go:93-100 | Every header value is written as its own line, and every written line is some key's value. |
| Wire.LineFromSomeKey | graphmailhandler.go:93-100 | Every written line comes from some key and one of its values. |
| Wire.SingleValueLines | graphmailhandler.go:94-99 | A key with one value contributes exactly one line. |
| GoInt.WrapInt64 | graphmailhandler.go:76 | Go int64 arithmetic: identity inside the int64 range, and otherwise congruent modulo 2^64. |
| Graph.NeedsRefresh | graphmailhandler.go:76 | A refresh is due when there is no token. Otherwise it is due iff `now` is past `tokenExp - 60`, computed in int64: an expiry within a minute of the int64 minimum wraps 2^64 later. |
| Graph.NeedsRefreshWithoutWrap | graphmailhandler.go:74-76 | When `tokenExp - 60` does not wrap, a refresh is due iff there is no token or less than a minute of validity is left. |
| Graph.GetCachedToken | graphmailhandler.go:70-87 | The source is asked iff a refresh is due. A valid cached token is returned with the cache untouched. A successful refresh stores the new token and expiry and returns the token. A failed refresh keeps the old cache and returns "GetToken: " followed by the error. |
| Graph.FirstCallAsks | graphmailhandler.go:42-47 | A new handler has no token, so its first call asks the token source and caches a successful answer. |
| Graph.ValidTokenIgnoresSource | graphmailhandler.go:76-86 | With a valid token, the token source's answer is irrelevant. |
| Graph.FailedRefreshRetries | graphmailhandler.go:76-82 | A failed refresh leaves the cache stale, so the next call asks again. |
| Graph.TwoCallsAskAtMostOnce | graphmailhandler.go:70-87 | If the first call leaves a token valid at the second call's time, the second call does not ask and returns the same token. |
| Graph.ValidBefore | graphmailhandler.go:76 | A token valid at some time is valid at every earlier time. |
| Graph.UserOfUrl | graphmailhandler.go:120 | The mailbox recovered from a send-mail URL rebuilds that URL. |
| Graph.UserOfSendMailUrl | graphmailhandler.go:120 | The send-mail URL names exactly the mailbox it was built for. |
| Graph.SendRawMimeMail | graphmailhandler.go:119-140 | The request is a POST to the mailbox's send-mail URL, with a Bearer authorization, content type text/plain and the base64 message as body. Success iff the transport answers 202. A transport error becomes "http.Do: " followed by the error. Any other answer becomes "sendMail failed: ", the status text, a newline and the response body. |
| Graph.RejectionCarriesBody | graphmailhandler.go:135-138 | A non-202 error starts with "sendMail failed: ", carries the status text, then a newline, and ends with the whole response body. Its length is exactly the sum of those parts. |
| Graph.RelayMessage | graphmailhandler.go:51-67 | Stages run in order: encode, then token, then send. An encoding failure asks for no token and sends nothing. A token failure keeps the cache and sends nothing. The errors are prefixed "encodeMailMessage: ", "getCachedToken: " or "sendRawMimeMail: " after the failing stage. A sent request is exactly the one sendRawMimeMail builds from the fetched token, the sender's mailbox and the encoded message. Success iff the send is answered 202. |
| Graph.RelayWithValidToken | graphmailhandler.go:51-86 | With a valid cached token, relaying a readable message keeps the cache and sends a POST of type text/plain that carries the cached token. |
| EnvConfig.Getenv | config.go:83-88 | A non-empty value is returned as is, and an unset or empty one gives the default. |
| EnvConfig.ParseUint | config.go:109 | A value is accepted iff it is one or more decimal digits whose value fits in 64 bits, and the result is that value. |
| EnvConfig.DecimalValueOfDecimal | config.go:109 | Reading back the decimal form of a number gives the number. |
| EnvConfig.ParseDecimal | config.go:109 | The decimal form of every 64-bit unsigned number is accepted. |
| EnvConfig.GetenvInt64AsWritten | config.go:104-114 | An unset, empty, unparseable or zero value gives the default. A positive parsed value u gives `int64(u)`, which wraps modulo 2^64. |
| EnvConfig.GetenvIntAsWritten | config.go:91-101 | The same rule, with the 64-bit `int(u)`. |
| EnvConfig.AsWrittenGoesNegative | config.go:91-114 | Every value u from 2^63 to 2^64-1 comes out as u - 2^64, which is negative, whatever the default; 2^63 gives the most negative int64. |
| EnvConfig.WrapsOnce | config.go:113 | A value in [2^63, 2^64) converted to int64 is itself minus 2^64. |
| EnvConfig.GetenvInt64 | config.go:104-114 | The result is the default or a positive parsed value; a positive default gives a positive result; a positive int64 value is taken as is. |
| EnvConfig.GetenvInt | config.go:91-101 | The same as GetenvInt64 for the 64-bit `int`. |
| EnvConfig.CorrectedAgreesBelowWrap | config.go:104-114 | The corrected and as-written lookups agree wherever the conversion does not wrap. |
| EnvConfig.GetenvDuration | config.go:117-127 | An unset, empty or unparseable value gives the default. Otherwise the result is the default or a positive parsed duration; a positive default gives a positive result; a positive duration is taken as is. |
| EnvConfig.LoadConfig | config.go:46-80 | The corrected load, with the lookups of the Findings table. Loading fails iff some required variable is empty, and the error names exactly those variables. On success every setting comes from its own variable: the address from SMTP_SERVER_ADDR, the domain from SMTP_SERVER_DOMAIN, the size from SMTP_MAX_MESSAGE_BYTES, the recipient limit from SMTP_MAX_RECIPIENTS, the write and read timeouts from SMTP_WRITE_TIMEOUT and SMTP_READ_TIMEOUT, and the credentials and DSN from theirs. The required fields are non-empty, and the address, domain, sizes and timeouts are non-empty or positive. |
| EnvConfig.LoadConfigAsWritten | config.go:46-80 | The load as written: it fails in the same cases with the same error. On success every setting comes from its own variable, as for `EnvConfig.LoadConfig`, with the size and recipient limits read by the as-written lookups. |
| EnvConfig.LoadConfigsAgree | config.go:46-80 | The two loads fail alike with the same error. On success they agree on every setting except the two integer ones, and on those too when neither value reaches 2^63. |
| EnvConfig.AsWrittenLoadGoesNegative | config.go:50 | With the required variables set and a message-size value u from 2^63 up, the load as written succeeds with size u - 2^64 < 0, while the corrected load keeps 10485760. |
| EnvConfig.DefaultsWhenUnset | config.go:47-60 | With no optional variable set, the settings are :1025, localhost, 10485760 bytes, 50 recipients, 10-second timeouts and no Sentry DSN. |
| EnvConfig.OptionalNeverFails | config.go:62-78 | Setting any optional variable never changes whether loading fails. |

## Findings

| source | as written | input that shows it | evidently intended | confidence | as-written member | corrected member |
|---|---|---|---|---|---|---|
| config.go:96-100 | `int(u)` of a parsed unsigned value wraps to a negative number for values of 2^63 and above | SMTP_MAX_RECIPIENTS=9223372036854775808 gives -9223372036854775808 | positive values that do not fit fall back to the default of 50 | not executed | EnvConfig.GetenvIntAsWritten, EnvConfig.AsWrittenGoesNegative | EnvConfig.GetenvInt |
| config.go:109-113 | `int64(u)` of a parsed unsigned value wraps to a negative number for values of 2^63 and above | SMTP_MAX_MESSAGE_BYTES=9223372036854775808 gives -9223372036854775808 | positive values that do not fit fall back to the default of 10485760 | not executed | EnvConfig.GetenvInt64AsWritten, EnvConfig.AsWrittenGoesNegative, EnvConfig.LoadConfigAsWritten, EnvConfig.AsWrittenLoadGoesNegative | EnvConfig.GetenvInt64, EnvConfig.LoadConfig |

`LoadConfig` uses the corrected lookups, so every numeric setting is positive. `LoadConfigAsWritten` is the configuration as config.go computes it, and `EnvConfig.LoadConfigsAgree` relates the two.

## Left out

- Reading the DATA stream: an I/O error while reading it is returned as is. The model receives the input as a complete string.
- Error reporting to Sentry (`ReportError`, `newSMTPError`'s reporting, sentry.go): it has no effect on replies or state.
- main.go and version.go: server wiring, listener options, size and recipient limits enforced by the protocol library, and the version string. None of this belongs to the session or the relay logic.
- The token mutex: the model is sequential, so each `GetCachedToken` call is atomic.
- Constant-time comparison of credentials: modelled as plain equality. Timing is not modelled.
- The SASL PLAIN server's handling of an empty initial response and its challenge round trip: the library that implements it is not part of this model. The model decodes a complete response.
- `http.NewRequestWithContext` failing: it can only fail on an invalid URL or method, which the fixed prefix and POST exclude unless the mailbox name is malformed. The model never fails there.
- Reading the response body can fail; the source ignores that error and the model uses the whole body.
- EnvConfig.LoadConfig: the error is the set of missing variable names, not the formatted message. The source lists the names in map iteration order, which is unspecified. The same holds for EnvConfig.LoadConfigAsWritten. Its positivity clause holds for the corrected lookups only; the load as written is EnvConfig.LoadConfigAsWritten.
- EnvConfig.GetenvInt: `int` is taken to be 64 bits wide. On 32-bit platforms `ParseUint(val, 10, 0)` would reject values above 2^32-1.
- `time.ParseDuration` is a parameter. Its grammar is not modelled, only what getenvDuration does with its result.
- `NewGraphMailHandler` and acquiring the credential: the token source is a parameter.
- `Logout` is QUIT in the model: it always succeeds and changes nothing.
- The address and message parsers of `net/mail` are parameters. Only the facts in `NetMail.Faithful` are assumed about them, plus the `requires` of the few lemmas named above.
- DataDeliversFallback: it assumes what `ReadMessage` returns for the fallback text. The model does not implement the message parser, so it cannot derive this.
- RecipientsCovered: recipient coverage is only promised when the first Bcc value is empty or parseable. Otherwise the patched Bcc begins with the same unparseable text; Reconcile.UnreadableBccStaysUnread states what then happens.
