# Verified models of the Coder backend's protocol cores

This project models the small protocols and state machines at the heart of the
Coder backend and proves what they promise over every input, every run and every
interleaving. Code that computes values is modelled by functions and lemmas; code
that changes state in place is modelled by classes, arrays and loops proved
against a specification function; concurrent code is modelled as a step machine
whose steps are the source's await points and critical sections.

| module | what it covers |
|---|---|
| `DrpcWire` | varints, frames, multi-frame reassembly, `read_packet` |
| `DrpcServer` | one RPC: prelude, routing, unary and server-stream drivers |
| `DrpcBidi` | the bidi driver: reader pump, handler, writer pump, two bounded queues |
| `OAuth2Grants` | authorization codes and refresh tokens under concurrent requests |
| `OAuth2Requests` | the outcome of one exchange, refresh or revocation alone on the store |
| `ApiKeys` | the API keys behind token records, and when one is orphaned |
| `DerpForwarders` | any number of mesh links sharing one forwarding table |
| `DerpWatch` | client and watcher tables, bounded notification channels, one mesh link |
| `AuditSink` | recorders, closers, timer and flush task of the batched audit sink |
| `CircuitBreaker` | the timed breaker, calls admitted and finished in separate sections |
| `ProxyRouter` | the proxy list that carries breaker objects across refreshes |
| `SessionCache` | the TTL cache and its agreement with the session store |
| `SessionOverlap` | authenticate and logout calls that overlap |
| `SourceStripper` | the in-place lexer of the parity tool |
| `SourceTokens` | where that lexer lets each kind of token begin and end |
| `BodyExtractor` | the brace matchers that rely on it |
| `Common` | optional values, machine integers, flattening |

`dafny verify dfyconfig.toml` checks the whole project. Lemmas carry
`{:induction false}` wherever Dafny would set up an induction of its own, so every
induction in a proof is one that is written out.

## Main results

- A packet cut into any number of fragments is read back unchanged if and only if
  it fits the cap and, for Cancel, Close and Error, came as one frame
  (`DrpcWire.FragmentRoundTrip`); streams never influence each other
  (`DrpcWire.NonInterference`); a stream that breaks off at any byte is never
  misread (`DrpcWire.BrokenOffIsPrefix`, `DrpcWire.BrokenOffExactly`); the buffer
  may be thrown away between packets if and only if it is empty
  (`DrpcWire.DiscardHarmlessIff`), as it always is on a single stream id
  (`DrpcWire.FreshReassemblerSuffices`).
- Whatever the client sends and the handlers do, and wherever the transport fails,
  a response is nothing, or Messages and one Close or Error numbered from 1, or
  the part of it that got out (`DrpcServer.EveryResponseIsWellFormed`,
  `DrpcServer.ClientReadsPrefix`), and the client decodes exactly what the handler
  answered to that method, metadata and body (`DrpcServer.UnaryCall`,
  `DrpcServer.StreamCall`); the bidi driver keeps the same promise in every
  interleaving (`DrpcBidi.EveryRunKeepsPromises`, `DrpcBidi.BidiEndToEnd`), and can
  always get everything through (`DrpcBidi.AllRequestsCanArrive`,
  `DrpcBidi.WholeResponseCanBeWritten`).
- Each authorization code accounts for at most one of: itself stored, one token
  pair in the making, one live token (`OAuth2Grants.CodesAreLinear`), and every
  live token is traced back to a proper redemption
  (`OAuth2Grants.LiveTokensAreJustified`).
- Alone on the store, an exchange or refresh creates a token if and only if it
  passes every check on a stored row, provided no two rows share the key it looks
  up (`OAuth2Requests.ExchangeCreatesIff`, `OAuth2Requests.RefreshCreatesIff`);
  every outcome is spelled out for the row that was found
  (`OAuth2Requests.ExchangeOutcome`, `OAuth2Requests.ExchangeSucceedsIff`,
  `OAuth2Requests.RefreshOutcome`, `OAuth2Requests.RefreshSucceedsIff`), every
  request can run to its end (`OAuth2Requests.CanComplete`), and a minted code is
  redeemed by whoever meets its conditions (`OAuth2Requests.MintedCodeIsRedeemed`).
- A stored API key has a record or a request that deals with it as long as no step
  lets go of one that nobody else looks after (`ApiKeys.OwnedKeptIff`,
  `ApiKeys.EveryKeyIsOwned`).
- No forwarder entry outlives its link (`DerpForwarders.NoStaleForwarders`); peers
  stay routable if and only if no link drops a route another needs
  (`DerpForwarders.RoutableThroughoutIff`); and a link's forwarders follow the
  watched server's clients however the server's calls overlap, under an exact
  condition (`DerpWatch.SyncKeptIff`, `DerpWatch.ForwardersTrackClients`).
- Recorded audit events are neither lost, duplicated nor reordered
  (`AuditSink.NothingLostNothingReordered`, `AuditSink.CloseFlushesEverything`), and
  the sink can always drain and close (`AuditSink.CanDrain`,
  `AuditSink.CloseCanReturn`).
- The breaker's counters mean what they say, it opens, half-opens and closes exactly
  when they say so, and every rejection is due
  (`CircuitBreaker.CountersMeanWhatTheySay`, `CircuitBreaker.ModeAfterSuccess`,
  `CircuitBreaker.ModeAfterFailure`, `CircuitBreaker.RejectedIffRecentlyOpened`); the router is a map from proxy id to
  such a breaker (`ProxyRouter.HealthIsOwnHistory`, `ProxyRouter.RunAll`).
- Sweeping the session cache is invisible (`SessionCache.LookupIsHistory`).
- Stripping source text is idempotent on every byte string and keeps every offset
  (`SourceStripper.StripIsIdempotent`, `SourceStripper.StripKeepsOffsets`); each token
  ends where its bytes say it does, and code is exactly what begins none
  (`SourceTokens`).

## Where the code does less than its comments say

The model follows the code. For each case below a lemma shows what the code does
there and, where a condition for the expected property exists, another states it.

- `push` hands Cancel, Close and Error frames on at once, whatever their `done`
  bit (crates/coder-agent-rpc/src/wire.rs:178-181), so such a packet in several
  frames is read as its first fragment: `DrpcWire.TerminalFragments`; the exact
  condition is in `DrpcWire.FragmentRoundTrip`.
- `read_varint` accepts padded encodings and drops the bits of byte ten above bit
  63 (crates/coder-agent-rpc/src/wire.rs:349-361): `DrpcWire.VarintNotCanonical`;
  `DrpcWire.CanonicalIff` says exactly which bytes are the encoding of what they
  decode to.
- `read_packet` drops partial packets of other streams when a packet completes:
  `DrpcWire.FreshReassemblerLosesPartials`. That is harmless on every continuation
  if and only if the buffer is empty, `DrpcWire.DiscardHarmlessIff`, and a run in
  which it always is loses nothing: `DrpcWire.NothingHeldSuffices`.
- `read_packet` reports `Closed` when a stream ends inside a packet but between two
  frames: `DrpcWire.ClosedIff`, `DrpcWire.PartialReportedClosed`; the report is right
  if and only if the stream had nothing more in it: `DrpcWire.ClosedIsCleanIff`.
- A link that hangs up removes forwarders another link still relies on
  (crates/coder-connectivity/src/derp.rs:1038-1042):
  `DerpForwarders.CleanupDropsOthersRoute`, `DerpForwarders.RoutableKeptIff`.
- Watcher notifications are dropped when the channel is full
  (crates/coder-connectivity/src/derp.rs:712-718), and a client accepted between
  the snapshot and the registration of a watcher is never announced
  (crates/coder-connectivity/src/derp.rs:661-672): `DerpWatch.MissedClient`,
  `DerpWatch.MissedClientIsReachable`, `DerpWatch.SyncKeptIff`.
- A `close()` cancelled while it waits loses the task handle, and the next `close()`
  returns while events are unflushed: `AuditSink.HandleCanBeLost`,
  `AuditSink.LostHandleReturnsEarly`, `AuditSink.HandleKeptIff`.
- `call` enforces no limit on half-open probes
  (crates/coder-core/src/circuit_breaker.rs:222-226), and results of calls admitted
  while Closed may arrive while Open: `CircuitBreaker.ProbesAreUnlimited`,
  `CircuitBreaker.ClosedCallFinishesOpen`. The counters keep their meaning in all
  of these runs: `CircuitBreaker.CountersMeanWhatTheySay`.
- A token record created between the listing and the deletion of `revoke_tokens`
  loses its record and keeps its key (crates/coder-auth/src/lib.rs:3018-3032), and
  so does a record that expires: `ApiKeys.RevocationRaceOrphans`,
  `ApiKeys.RaceIsReachable`, `ApiKeys.OwnedKeptIff`.
- Codes are looked up by the first eight bytes (crates/coder-auth/src/lib.rs:2747-2760).
  When two stored codes share them, an exchange may be handed the wrong one, gets no
  token and uses it up: `OAuth2Requests.SharedPrefixDenies`,
  `OAuth2Requests.ExchangeCreatesIff`.
- A logout between an authenticate's store read and its cache insert is undone for
  one time-to-live: `SessionOverlap.OverlappingLogoutIsUndone`,
  `SessionOverlap.UndoneLogoutIsReachable`, `SessionOverlap.CurrentKeptIff`.
- `br"…"` openers are closed with one hash too many
  (apps/coder-parity/src/main.rs:763-766), and an escaped quote closes its own char
  literal (apps/coder-parity/src/main.rs:882-892):
  `SourceStripper.ByteRawRunsOn`, `SourceStripper.CodeAfterByteRawIsBlanked` and, for
  the exact condition, `SourceStripper.RawBlankedIff`;
  `SourceStripper.EscapedQuoteClosesEarly` and `SourceStripper.EscapeBlankedIff`.

## Model

| member | source | states |
|---|---|---|
| `DrpcWire.VarintRoundTrip` | crates/coder-agent-rpc/src/wire.rs:349-369 | decoding undoes encoding for every u64, whatever bytes follow |
| `DrpcWire.VarintNotCanonical` | crates/coder-agent-rpc/src/wire.rs:349-361 | the converse fails: padded encodings and overflowing tenth bytes also decode |
| `DrpcWire.DecodedIsValue` | crates/coder-agent-rpc/src/wire.rs:349-361 | what is read is at most ten digits, little-endian to base 128, and the result their value modulo 2^64 |
| `DrpcWire.CanonicalIff` | crates/coder-agent-rpc/src/wire.rs:349-369 | the bytes a number was read from are its encoding iff the last digit is not idle and a tenth digit is at most one |
| `DrpcWire.EncodeVarint` | crates/coder-agent-rpc/src/wire.rs:363-369 | the shifting loop appends the base-128 digits of the value |
| `DrpcWire.ReadVarint` | crates/coder-agent-rpc/src/wire.rs:349-361 | the accumulating loop computes the digit-by-digit decoding modulo 2^64, with the same errors and the same bytes consumed |
| `DrpcWire.FieldsRoundTrip` | crates/coder-agent-rpc/src/wire.rs:246-283 | consecutive varints are read back as the list written |
| `DrpcWire.FrameRoundTrip` | crates/coder-agent-rpc/src/wire.rs:246-324 | a frame is read back unchanged, leaving exactly what follows, when it fits the cap, and refused otherwise |
| `DrpcWire.FrameLayout` | crates/coder-agent-rpc/src/wire.rs:312-324 | header, stream id, message id, length and data, in that order; the header holds the kind's number and the done bit |
| `DrpcWire.HeaderBit7` | crates/coder-agent-rpc/src/wire.rs:253-255 | bit 7 of a header does not matter |
| `DrpcWire.KindNumbers` | crates/coder-agent-rpc/src/wire.rs:64-89 | the kinds are numbered 1 to 7 and no other number is one |
| `DrpcWire.WriteFrame` | crates/coder-agent-rpc/src/wire.rs:312-324 | appends the encoded frame |
| `DrpcWire.ReadFrame` | crates/coder-agent-rpc/src/wire.rs:246-283 | reads byte by byte what the frame decoding specifies, errors included |
| `DrpcWire.PacketReassembler.Push` | crates/coder-agent-rpc/src/wire.rs:165-227 | the answer and the buffer left behind for every frame, refusals and terminal kinds included |
| `DrpcWire.PushCases` | crates/coder-agent-rpc/src/wire.rs:165-227 | which frames are handed on at once, refused, held or complete a packet, under which id, and what stays buffered |
| `DrpcWire.NonInterference` | crates/coder-agent-rpc/src/wire.rs:165-227 | in any interleaving one stream's frames get the answers they would get alone |
| `DrpcWire.NextPacket` | crates/coder-agent-rpc/src/wire.rs:285-293 | the loop terminates on every finite stream and reads the specified packet, of at most the cap, consuming at least four bytes |
| `DrpcWire.ReadPacketFrom` | crates/coder-agent-rpc/src/wire.rs:285-293 | a packet read never exceeds the cap and costs at least four bytes |
| `DrpcWire.FragmentRoundTrip` | crates/coder-agent-rpc/src/wire.rs:165-324 | fragments are read back as the packet if and only if it fits and a terminal kind came as one frame |
| `DrpcWire.DataFragments` | crates/coder-agent-rpc/src/wire.rs:182-227 | a data packet in several fragments is joined, or refused when the sum exceeds the cap |
| `DrpcWire.TerminalFragments` | crates/coder-agent-rpc/src/wire.rs:178-181 | a fragmented Cancel, Close or Error is read as its first fragment alone |
| `DrpcWire.DiscardHarmlessIff` | crates/coder-agent-rpc/src/wire.rs:285-293 | throwing the buffer away goes unnoticed on every continuation of the stream iff it is empty |
| `DrpcWire.NothingHeldSuffices` | crates/coder-agent-rpc/src/wire.rs:285-293 | on a stream that never completes a packet while another is buffered, a fresh reassembler per packet reads what a lasting one would |
| `DrpcWire.FreshReassemblerSuffices` | crates/coder-agent-rpc/src/wire.rs:285-293 | in particular on one stream id |
| `DrpcWire.FreshReassemblerLosesPartials` | crates/coder-agent-rpc/src/wire.rs:285-293 | where a packet completes while another stream is buffered, the partial is lost and its rest read as a packet |
| `DrpcWire.WrittenIsRead` | crates/coder-agent-rpc/src/wire.rs:285-324 | a peer reads back exactly the packets written, then a clean close |
| `DrpcWire.ClosedIff` | crates/coder-agent-rpc/src/wire.rs:246-293 | a clean close is reported iff the stream ends between frames and none completed a packet, whatever is buffered |
| `DrpcWire.ClosedIsCleanIff` | crates/coder-agent-rpc/src/wire.rs:246-293 | a reader told of a clean close is left with nothing buffered iff the stream had nothing more in it |
| `DrpcWire.PartialReportedClosed` | crates/coder-agent-rpc/src/wire.rs:247-293 | an unfinished packet at the end of the stream is dropped and reported as a clean close |
| `DrpcWire.TruncatedFrame` | crates/coder-agent-rpc/src/wire.rs:246-283 | no proper prefix of a frame is read as a frame |
| `DrpcWire.BrokenOffIsPrefix` | crates/coder-agent-rpc/src/wire.rs:246-324 | a stream broken off at any byte reads as a prefix of what was written |
| `DrpcWire.BrokenOffExactly` | crates/coder-agent-rpc/src/wire.rs:246-324 | exactly the packets that arrived whole, then Closed on a boundary and an I/O error elsewhere |
| `DrpcServer.ResponseMeaning` | crates/coder-agent-rpc/src/server.rs:292-371 | a response carries the handler's payloads in order, then Close or its first error, on one stream id numbered from 1 |
| `DrpcServer.RepliesFrom` | crates/coder-agent-rpc/src/server.rs:250-285 | every packet of a response, position by position |
| `DrpcServer.PreludeMeaning` | crates/coder-agent-rpc/src/server.rs:163-187 | an RPC starts iff at most sixteen metadata packets precede an Invoke; they reach the context in arrival order |
| `DrpcServer.EveryResponseIsWellFormed` | crates/coder-agent-rpc/src/server.rs:163-371 | for all inputs, handlers, endless or silent ones included, and failures at any byte or flush: nothing, a complete response, or the part of one that got out |
| `DrpcServer.ClientReadsPrefix` | crates/coder-agent-rpc/src/server.rs:163-371 | what the client reads is always a prefix of one complete response |
| `DrpcServer.SentIsPrefix` | crates/coder-agent-rpc/src/wire.rs:296-324 | what a failing transport lets out is a prefix of the bytes to be sent, all of them otherwise |
| `DrpcServer.BidiContext` | crates/coder-agent-rpc/src/server.rs:190-198 | a bidi call starts with nothing written and the prelude's context, of at most sixteen metadata payloads |
| `DrpcServer.CallEndToEnd` | crates/coder-agent-rpc/src/server.rs:163-371 | whatever follows the request, the answered bytes decode at the client to what the routed handler produced |
| `DrpcServer.UnaryCall` | crates/coder-agent-rpc/src/server.rs:215-285 | the unary handler is asked with the method and the request's body; the client decodes one Message and a Close, or one Error with code and text |
| `DrpcServer.StreamCall` | crates/coder-agent-rpc/src/server.rs:292-371 | the stream handler is asked with method, metadata and body; the client decodes nothing as yet, one Error, or the items in order with Close or the first error |
| `DrpcServer.NotARequest` | crates/coder-agent-rpc/src/server.rs:230-245 | Cancel or Close in place of the request ends the call in silence, anything else is a protocol error |
| `DrpcServer.NoRequest` | crates/coder-agent-rpc/src/server.rs:229-245 | a stream that ends behind the Invoke fails with the error that ended it |
| `DrpcServer.MethodRouting` | crates/coder-agent-rpc/src/server.rs:185-198 | a method name that is not UTF-8 is a protocol error, a bidi method goes to the bidi driver first |
| `DrpcServer.NoInvoke` | crates/coder-agent-rpc/src/server.rs:163-184 | without an Invoke in its place the server writes nothing and fails, and why |
| `DrpcServer.Connection.WritePacket` | crates/coder-agent-rpc/src/wire.rs:296-324 | the frame gets out whole or in part, then the flush succeeds or fails |
| `DrpcServer.DriveUnary` | crates/coder-agent-rpc/src/server.rs:215-285 | reads one request and answers with what the handler makes of it; early ends write nothing |
| `DrpcServer.SendReply` | crates/coder-agent-rpc/src/server.rs:250-285 | Message and Close, or Error, as far as they get through |
| `DrpcServer.SendItems` | crates/coder-agent-rpc/src/server.rs:339-371 | the response loop sends the specified packets, or as many as get through |
| `DrpcServer.DriveServerStream` | crates/coder-agent-rpc/src/server.rs:292-371 | the same for a stream of responses or a refusal |
| `DrpcServer.ServeStream` | crates/coder-agent-rpc/src/server.rs:151-210 | collects metadata, checks the method name, routes bidi before server-stream before unary |
| `DrpcBidi.Invariant` | crates/coder-agent-rpc/src/server.rs:379-498 | what reader, handler and writer keep at every step |
| `DrpcBidi.EveryRunKeepsPromises` | crates/coder-agent-rpc/src/server.rs:379-498 | requests are a prefix in wire order up to the terminator and complete once drained; the wire carries accepted sends in order; Close only after all of them; queues stay within 32 |
| `DrpcBidi.OutboundPromise` | crates/coder-agent-rpc/src/server.rs:443-485 | what is written is a prefix of the full response to the accepted sends, all of it once ended by Close or Error |
| `DrpcBidi.OnlyGrows` | crates/coder-agent-rpc/src/server.rs:379-498 | nothing written or received is ever taken back |
| `DrpcBidi.QueuesMove` | crates/coder-agent-rpc/src/server.rs:394-437 | when each queue takes a message and gives one out, both holding up to 32 |
| `DrpcBidi.AllRequestsCanArrive` | crates/coder-agent-rpc/src/server.rs:406-440 | whatever arrives, some run hands all its requests to the handler |
| `DrpcBidi.WholeResponseCanBeWritten` | crates/coder-agent-rpc/src/server.rs:443-485 | whatever the handler sends, some run writes the whole response |
| `DrpcBidi.BidiEndToEnd` | crates/coder-agent-rpc/src/server.rs:151-498 | from the bytes received to the bytes read by the client: requests are a prefix of the payloads after the Invoke, responses a prefix of the accepted sends, all of them once ended |
| `OAuth2Grants.Invariant` | crates/coder-auth/src/lib.rs:2674-3134 | linearity, store consistency and provenance after any steps |
| `OAuth2Grants.CodesAreLinear` | crates/coder-auth/src/lib.rs:2729-3134 | stored code + generations in flight + live tokens is at most one per code, in every interleaving |
| `OAuth2Grants.LiveTokensAreJustified` | crates/coder-auth/src/lib.rs:2743-3002 | a live token has user, resource and app of its code, which was redeemed with the code, the app's secret, the bound resource and the PKCE preimage before expiry |
| `OAuth2Grants.ChallengesAreS256` | crates/coder-auth/src/lib.rs:2382-2396 | every minted code with a challenge is checked by the S256 branch only |
| `OAuth2Grants.RedemptionIsFinal` | crates/coder-auth/src/lib.rs:2877-2887 | a consumed code never returns and its redemption never changes |
| `OAuth2Grants.CodeConsumed` | crates/coder-auth/src/lib.rs:2877-2896 | the single-use delete hands the code's one hold to the request that found the row |
| `OAuth2Grants.TokenConsumed` | crates/coder-auth/src/lib.rs:2977-3002 | the refresh delete hands the token's one hold to the request that found the row |
| `OAuth2Grants.RecordCreated` | crates/coder-auth/src/lib.rs:3038-3134 | the new record carries the grant's secret, user and audience and takes over its hold |
| `OAuth2Requests.ExchangeOutcome` | crates/coder-auth/src/lib.rs:2729-2899 | alone on the store: a new token when every check passes; failed checks use the code up, a wrong resource does not |
| `OAuth2Requests.ExchangeSucceedsIff` | crates/coder-auth/src/lib.rs:2729-2899 | a token comes into being iff every check passes, and the code survives iff the resource alone is wrong |
| `OAuth2Requests.ExchangeMiss` | crates/coder-auth/src/lib.rs:2743-2765 | an exchange that finds no row changes nothing, and no stored code has its prefix |
| `OAuth2Requests.ExchangeCreatesIff` | crates/coder-auth/src/lib.rs:2729-2899 | for any exchange, found or not, with no two codes under its first eight bytes: a token comes into being iff some stored code has its hash, time, client, challenge, resource and app secret met |
| `OAuth2Requests.SharedPrefixDenies` | crates/coder-auth/src/lib.rs:2747-2788 | with two codes under one prefix a passing exchange may be refused and use up the other code |
| `OAuth2Requests.RefreshOutcome` | crates/coder-auth/src/lib.rs:2904-3005 | the record is replaced by a new one when every check passes, deleted when expired, left alone otherwise |
| `OAuth2Requests.RefreshSucceedsIff` | crates/coder-auth/src/lib.rs:2904-3005 | a successor comes into being iff every check passes, and the old record survives iff it has not expired and a check fails |
| `OAuth2Requests.RefreshMiss` | crates/coder-auth/src/lib.rs:2917-2928 | a refresh that finds no record changes nothing, and none has its digest |
| `OAuth2Requests.RefreshCreatesIff` | crates/coder-auth/src/lib.rs:2904-3005 | for any refresh, found or not, with no two records of its digest: a token comes into being iff some stored record is in time and has its app, audience and app secret met |
| `OAuth2Requests.RevocationOutcome` | crates/coder-auth/src/lib.rs:3011-3035 | a revocation removes exactly that user's tokens under that app |
| `OAuth2Requests.SecretDeletion` | crates/coder-auth/src/lib.rs:2646-2668 | deleting a secret takes its tokens along and nothing else |
| `OAuth2Requests.AppDeletion` | crates/coder-auth/src/lib.rs:2583-2588 | deleting an app takes its secrets, codes and tokens along and nothing of another app |
| `OAuth2Requests.MintOutcome` | crates/coder-auth/src/lib.rs:2674-2724 | a new code may be minted iff it has no challenge or an S256 one, and what is stored for it |
| `OAuth2Requests.MintedCodeIsRedeemed` | crates/coder-auth/src/lib.rs:2674-2899 | a code just minted is exchanged by whoever meets its conditions within ten minutes |
| `OAuth2Requests.CanComplete` | crates/coder-auth/src/lib.rs:2729-3134 | from every reachable state every request can run to its end on a working store |
| `OAuth2Requests.Minted` | crates/coder-auth/src/lib.rs:3038-3134 | one generation creates exactly one record, never seen before and cut for its grant |
| `ApiKeys.OwnedKeptIff` | crates/coder-auth/src/lib.rs:2933-3134 | a step keeps every stored key looked after iff it does not let go of one that no other record or request looks after |
| `ApiKeys.EveryKeyIsOwned` | crates/coder-auth/src/lib.rs:2904-3134 | in runs without such a step, dropped requests included, every stored key has a record or a request that will still deal with it |
| `ApiKeys.RevocationRaceOrphans` | crates/coder-auth/src/lib.rs:3018-3032 | a record created between the listing and the deletion of a revocation leaves its key behind |
| `ApiKeys.RaceIsReachable` | crates/coder-auth/src/lib.rs:3018-3032 | one revocation and one exchange of the same user are enough |
| `ApiKeys.RequestsBegin` | crates/coder-auth/src/lib.rs:2877-3021 | exchanges, refreshes and revocations begin at any time, and where each begins |
| `DerpForwarders.NoStaleForwarders` | crates/coder-connectivity/src/derp.rs:986-1047 | an entry points at an unfinished link that still owes its removal, in every interleaving |
| `DerpForwarders.FinishedLinksLeaveNothing` | crates/coder-connectivity/src/derp.rs:1038-1047 | no entry survives a finished link |
| `DerpForwarders.RoutableKeptIff` | crates/coder-connectivity/src/derp.rs:682-691 | a step keeps every peer of every live link routable iff it removes no entry of a key another live link serves |
| `DerpForwarders.RoutableThroughoutIff` | crates/coder-connectivity/src/derp.rs:986-1047 | over whole runs, peers stay routable throughout iff no step drops such a route |
| `DerpForwarders.CoverageKeptIff` | crates/coder-connectivity/src/derp.rs:682-691 | a step keeps every peer routed through each link that serves it iff it touches no key another live link serves |
| `DerpForwarders.DisjointLinksStayCovered` | crates/coder-connectivity/src/derp.rs:986-1047 | runs without such a step keep every registered peer routed through its own link |
| `DerpForwarders.CleanupDropsOthersRoute` | crates/coder-connectivity/src/derp.rs:1038-1042 | with overlapping keys a cleanup removes another link's route |
| `DerpForwarders.OverlapIsReachable` | crates/coder-connectivity/src/derp.rs:1011-1018 | a state with overlapping keys, every peer routable, is reached as soon as two links announce the same key |
| `DerpForwarders.PresentHandled` | crates/coder-connectivity/src/derp.rs:1012-1018 | a PeerPresent, handled, leaves the link as the key's forwarder with the key among its peers |
| `DerpForwarders.GoneHandled` | crates/coder-connectivity/src/derp.rs:1020-1025 | a PeerGone, handled, leaves the key in neither table nor peers, and every other key as it was |
| `DerpForwarders.CleanupRuns` | crates/coder-connectivity/src/derp.rs:1038-1042 | a link that has hung up removes the entry of every peer it had, and no other |
| `DerpWatch.DerpServer.NotifyWatchers` | crates/coder-connectivity/src/derp.rs:712-718 | every watcher's channel takes the note or drops it when full; other channels are untouched |
| `DerpWatch.DerpServer.AcceptClient` | crates/coder-connectivity/src/derp.rs:565-585 | the client is listed and its presence announced |
| `DerpWatch.DerpServer.RemoveClient` | crates/coder-connectivity/src/derp.rs:588-602 | client and watcher of that key are gone, its own channel is untouched, the other watchers are told as far as there is room |
| `DerpWatch.DerpServer.WatchConns` | crates/coder-connectivity/src/derp.rs:658-676 | a new channel holds the snapshot of the clients in some order, as far as it fits |
| `DerpWatch.SnapshotIs` | crates/coder-connectivity/src/derp.rs:661-667 | the snapshot is the first 64 clients of the listing |
| `DerpWatch.AnnounceIff` | crates/coder-connectivity/src/derp.rs:712-718 | an announcement leaves the link in step iff another of its key is still to come, or it is true and finds room, or it is dropped and what the link believes is true anyway |
| `DerpWatch.RegisterIff` | crates/coder-connectivity/src/derp.rs:658-676 | a subscription starts in step iff its snapshot is complete and still current when it registers |
| `DerpWatch.MissedClient` | crates/coder-connectivity/src/derp.rs:661-672 | a client accepted between snapshot and registration is listed and never announced |
| `DerpWatch.MissedClientIsReachable` | crates/coder-connectivity/src/derp.rs:661-672 | one subscription and one accept are enough |
| `DerpWatch.SyncKeptIff` | crates/coder-connectivity/src/derp.rs:565-718 | however the server's calls overlap between their critical sections, a step keeps the link in step iff it fits |
| `DerpWatch.SectionsCompose` | crates/coder-connectivity/src/derp.rs:565-676 | with nothing coming between their sections the calls are the server's operations |
| `DerpWatch.ForwardersTrackClients` | crates/coder-connectivity/src/derp.rs:1003-1036 | in every state of a run of fitting steps, forwarders plus notes in flight are the watched clients, save announcements still to come |
| `DerpWatch.OrderlyFits` | crates/coder-connectivity/src/derp.rs:565-718 | a step fits when calls on one key do not overlap, nobody comes or goes during the subscription and no channel is full |
| `DerpWatch.OrderlyRunsTrackClients` | crates/coder-connectivity/src/derp.rs:565-718 | so in every orderly run the link is in step whenever it is registered |
| `AuditSink.Invariant` | crates/coder-audit/src/batched_sink.rs:74-193 | conservation, batch sizes and the whereabouts of the task handle after any steps |
| `AuditSink.NothingLostNothingReordered` | crates/coder-audit/src/batched_sink.rs:74-193 | flushed batches, batch in hand and queue are the recorded events in order; batches hold 1 to max(1, max_batch_size) |
| `AuditSink.AcceptedIsRecorded` | crates/coder-audit/src/batched_sink.rs:74-84 | what the channel took is exactly what was recorded while the sink was open and the task alive |
| `AuditSink.BatchesAreCutFor` | crates/coder-audit/src/batched_sink.rs:110-177 | a batch is handed on only when full, on the timer, or when the closed sink has nothing left |
| `AuditSink.CanDrain` | crates/coder-audit/src/batched_sink.rs:110-177 | from every reachable state short of a panic the task can flush everything recorded |
| `AuditSink.CloseCanReturn` | crates/coder-audit/src/batched_sink.rs:90-106 | and a close can return with everything flushed |
| `AuditSink.CloseFlushesEverything` | crates/coder-audit/src/batched_sink.rs:90-106 | when a close returns everything recorded has been flushed once, unless a close was cancelled while it waited for the unfinished task or the inner sink panicked |
| `AuditSink.CloseWaits` | crates/coder-audit/src/batched_sink.rs:90-106 | no close returns before the flush task is over, under that proviso |
| `AuditSink.HandleKeptIff` | crates/coder-audit/src/batched_sink.rs:90-106 | the task handle stays accounted for iff no close is cancelled while it waits for a task that is not over |
| `AuditSink.LostHandleReturnsEarly` | crates/coder-audit/src/batched_sink.rs:101-105 | once the handle is lost the next close returns with the task alive |
| `AuditSink.HandleCanBeLost` | crates/coder-audit/src/batched_sink.rs:101-105 | a run that loses the handle with an event unflushed |
| `CircuitBreaker.Breaker.MaybeHalfOpen` | crates/coder-core/src/circuit_breaker.rs:307-316 | an open breaker becomes half-open once the timeout has passed since the failure that opened it |
| `CircuitBreaker.Breaker.State` | crates/coder-core/src/circuit_breaker.rs:170-174 | reports the state after that transition |
| `CircuitBreaker.Breaker.Admit` | crates/coder-core/src/circuit_breaker.rs:189-200 | admits unless still open after that transition |
| `CircuitBreaker.Breaker.RecordSuccess` | crates/coder-core/src/circuit_breaker.rs:247-277 | the success transition in each state |
| `CircuitBreaker.Breaker.RecordFailure` | crates/coder-core/src/circuit_breaker.rs:280-302 | the failure transition in each state; none while open |
| `CircuitBreaker.CountersMeanWhatTheySay` | crates/coder-core/src/circuit_breaker.rs:182-302 | in every run the counters are the trailing failures and the successes since half-open, within their limits |
| `CircuitBreaker.ModeAfterSuccess` | crates/coder-core/src/circuit_breaker.rs:247-277 | a success closes the breaker iff the successes since half-open have become as many as asked for, and leaves it half-open otherwise |
| `CircuitBreaker.ModeAfterFailure` | crates/coder-core/src/circuit_breaker.rs:280-302 | a failure opens a closed breaker iff the run of failures has reached the threshold, and a half-open one always |
| `CircuitBreaker.ModeAfterPoll` | crates/coder-core/src/circuit_breaker.rs:307-316 | asking and admitting only ever take it from open to half-open |
| `CircuitBreaker.EventsHappen` | crates/coder-core/src/circuit_breaker.rs:182-245 | which calls begin, finish and are logged, and when |
| `CircuitBreaker.OpenHasCause` | crates/coder-core/src/circuit_breaker.rs:280-302 | an open breaker was opened by a recorded failure and has been open since |
| `CircuitBreaker.RejectedIffRecentlyOpened` | crates/coder-core/src/circuit_breaker.rs:189-316 | a call is rejected iff such a failure lies less than the timeout back |
| `CircuitBreaker.ProbesAreUnlimited` | crates/coder-core/src/circuit_breaker.rs:182-226 | for every configuration and every n a run ends half-open with n calls running |
| `CircuitBreaker.ClosedCallFinishesOpen` | crates/coder-core/src/circuit_breaker.rs:203-277 | a call admitted while Closed can finish while Open, and its success then takes the breaker out of Open |
| `ProxyRouter.HealthIsOwnHistory` | crates/coder-connectivity/src/proxy_routing.rs:63-154 | a proxy's breaker is a fresh one taken through that proxy's own history since it was last newly listed |
| `ProxyRouter.Router.RefreshFrom` | crates/coder-connectivity/src/proxy_routing.rs:63-93 | kept proxies in order, known ones with their breaker object, new ones with a fresh one; no sharing between ids |
| `ProxyRouter.Router.Index` | crates/coder-connectivity/src/proxy_routing.rs:66-70 | breakers by id, the last entry of an id winning |
| `ProxyRouter.Router.RecordOutcome` | crates/coder-connectivity/src/proxy_routing.rs:127-154 | only the breaker of the first entry of that id moves; an unknown id changes nothing |
| `ProxyRouter.Router.SelectHealthy` | crates/coder-connectivity/src/proxy_routing.rs:111-124 | the entries that are not open, in order; every breaker polled |
| `ProxyRouter.NotOpenIsFilter` | crates/coder-connectivity/src/proxy_routing.rs:111-124 | the selection is every entry that is not open, each once, in the order of the list |
| `ProxyRouter.KeptIsFilter` | crates/coder-connectivity/src/proxy_routing.rs:72-76 | a refresh keeps every record that is not deleted, each once, in the order given |
| `ProxyRouter.LastOfIsLast` | crates/coder-connectivity/src/proxy_routing.rs:66-70 | of several entries of one id the last gives the breaker |
| `ProxyRouter.RunAll` | crates/coder-connectivity/src/proxy_routing.rs:63-154 | over any run with distinct ids the entries carry the abstract router's breakers, none shared |
| `SessionCache.Store.Get` | crates/coder-auth/src/session_cache.rs:83-97 | the cached user if younger than the time-to-live |
| `SessionCache.Store.Put` | crates/coder-auth/src/session_cache.rs:105-128 | sweeps when due, then stores the entry |
| `SessionCache.SweepsWhenDue` | crates/coder-auth/src/session_cache.rs:105-128 | every hundredth insert, and every one into ten thousand entries, leaves nothing expired behind |
| `SessionCache.Store.Retain` | crates/coder-auth/src/session_cache.rs:111-119 | drops exactly the expired entries |
| `SessionCache.Store.Evict` | crates/coder-auth/src/session_cache.rs:132-137 | removes that hash only |
| `SessionCache.Store.EvictUser` | crates/coder-auth/src/session_cache.rs:141-149 | removes exactly that user's entries |
| `SessionCache.CacheAgrees` | crates/coder-auth/src/session_cache.rs:83-149 | the cache is a never-swept table minus expired entries |
| `SessionCache.PlainIsHistory` | crates/coder-auth/src/session_cache.rs:83-149 | that table holds exactly the inserts that still stand |
| `SessionCache.LookupIsHistory` | crates/coder-auth/src/session_cache.rs:83-149 | a lookup finds u iff the latest insert was u, within the time-to-live and not evicted since |
| `SessionCache.AuthService.Authenticate` | crates/coder-auth/src/lib.rs:302-344 | cached or not, the answer is the store's; a user found is cached then, and a hit changes nothing |
| `SessionCache.AuthService.Logout` | crates/coder-auth/src/lib.rs:458-465 | the session is gone from store and cache |
| `SessionOverlap.NeverSomeoneElse` | crates/coder-auth/src/lib.rs:302-344 | however calls overlap, a token is only ever answered with the user it was issued to |
| `SessionOverlap.EvictAllEvicts` | crates/coder-auth/src/session_cache.rs:141-149 | a password change leaves nothing of that user in the cache, and everything else |
| `SessionOverlap.CurrentKeptIff` | crates/coder-auth/src/lib.rs:302-465 | a step keeps rows read and cached current iff it is not a logout inside an authenticate of the same session |
| `SessionOverlap.HitsAreCurrent` | crates/coder-auth/src/lib.rs:302-465 | in runs without such a step a cache hit is the store's answer, except while that session is being logged out |
| `SessionOverlap.OverlappingLogoutIsUndone` | crates/coder-auth/src/lib.rs:458-465 | with such a step the session authenticates again for exactly one time-to-live |
| `SessionOverlap.UndoneLogoutIsReachable` | crates/coder-auth/src/lib.rs:302-465 | one sign-in, one authenticate and one logout are enough |
| `SourceStripper.StripIsIdempotent` | apps/coder-parity/src/main.rs:713-847 | stripping twice is stripping once, on every byte string |
| `SourceStripper.NothingLeft` | apps/coder-parity/src/main.rs:713-925 | no quote, comment opener or char literal remains for a second pass |
| `SourceStripper.StripKeepsOffsets` | apps/coder-parity/src/main.rs:706-713 | same length, each byte unchanged or a space, newlines in place |
| `SourceStripper.StripAt` | apps/coder-parity/src/main.rs:713-847 | a byte is kept exactly when the scan reaches it as code |
| `SourceStripper.StripRustCodeNoise` | apps/coder-parity/src/main.rs:713-847 | the in-place scan computes the stripped text |
| `SourceStripper.NextToken` | apps/coder-parity/src/main.rs:717-846 | one turn of the scan extends the part that is right by a token or a byte |
| `SourceStripper.LineComment` | apps/coder-parity/src/main.rs:720-727 | blanks to the end of the line and nothing else |
| `SourceStripper.BlockComment` | apps/coder-parity/src/main.rs:729-757 | blanks a nested block comment, newlines spared |
| `SourceStripper.RawString` | apps/coder-parity/src/main.rs:759-798 | blanks a raw string up to its closing delimiter |
| `SourceStripper.StringLiteral` | apps/coder-parity/src/main.rs:800-826 | blanks a string up to its first unescaped quote |
| `SourceStripper.CharLiteral` | apps/coder-parity/src/main.rs:828-842 | blanks exactly the char literal, newlines spared |
| `SourceStripper.RawStringPrefixLen` | apps/coder-parity/src/main.rs:852-869 | the length of a raw-string opener, None without one |
| `SourceStripper.CharLiteralClose` | apps/coder-parity/src/main.rs:873-902 | the closing quote of a char literal, None for a lifetime |
| `SourceStripper.HashCountExact` | apps/coder-parity/src/main.rs:763-766 | the hash count is right iff the opener has no `b`, and one too large otherwise |
| `SourceStripper.RawBlankedIff` | apps/coder-parity/src/main.rs:759-798 | a raw string is blanked to its own end iff it has no `b` or ends with the text |
| `SourceStripper.ByteRawRunsOn` | apps/coder-parity/src/main.rs:759-798 | a `br` literal whose longer delimiter never comes takes everything behind it along |
| `SourceStripper.CodeAfterByteRawIsBlanked` | apps/coder-parity/src/main.rs:759-798 | code behind a `br` literal is blanked |
| `SourceStripper.EscapeBlankedIff` | apps/coder-parity/src/main.rs:882-892 | an escaped char literal is blanked whole iff the escaped byte is not a quote and the literal has at most twelve bytes |
| `SourceStripper.EscapedQuoteClosesEarly` | apps/coder-parity/src/main.rs:882-892 | in any text an escaped quote closes its own literal and the scan goes on behind it |
| `SourceTokens.LineCommentIff` | apps/coder-parity/src/main.rs:720-727 | a line comment ends at the first newline |
| `SourceTokens.BlockCommentIff` | apps/coder-parity/src/main.rs:729-757 | a block comment ends where openers and closers first balance, nesting counted |
| `SourceTokens.StringIff` | apps/coder-parity/src/main.rs:800-826 | a string ends at the first quote with an even run of backslashes before it |
| `SourceTokens.RawStringIff` | apps/coder-parity/src/main.rs:759-798 | a raw string ends at the first quote with as many hashes as its opener, one more behind a `b` |
| `SourceTokens.RawOpenIff` | apps/coder-parity/src/main.rs:852-869 | a raw string opens at an `r`, hashes and a quote, behind a `b` or not, and nowhere else |
| `SourceTokens.PlainCharIff` | apps/coder-parity/src/main.rs:894-925 | a char literal without escape is one scalar between two quotes |
| `SourceTokens.EscapedCharIff` | apps/coder-parity/src/main.rs:882-892 | one with an escape ends at the next quote, within twelve bytes |
| `SourceTokens.CodeIff` | apps/coder-parity/src/main.rs:713-847 | code is exactly what begins none of these tokens |
| `BodyExtractor.ExtractFnBody` | apps/coder-parity/src/main.rs:662-704 | the slice from the first brace outside parentheses to its match, None exactly when there is none |
| `BodyExtractor.MatchBrace` | apps/coder-parity/src/main.rs:688-703 | where the brace depth first returns to zero, None when it never does |
| `BodyExtractor.ExtractBuildRouterBody` | apps/coder-parity/src/main.rs:490-514 | the same from the first brace after the first declaration |
| `BodyExtractor.MatchIsUnique` | apps/coder-parity/src/main.rs:688-703 | a brace has at most one match |
| `BodyExtractor.OpeningIsUnique` | apps/coder-parity/src/main.rs:673-687 | a signature has at most one body opening |
| `BodyExtractor.OpensMeans` | apps/coder-parity/src/main.rs:673-687 | a body opens at the first brace up to which as many parentheses were closed as opened, no semicolon coming first in such a place |
| `BodyExtractor.MatchedMeans` | apps/coder-parity/src/main.rs:688-703 | a brace is matched where as many braces have been closed as opened for the first time |
| `BodyExtractor.DeclarationText` | apps/coder-parity/src/main.rs:491-492 | the declaration that is looked for, letter by letter |
| `BodyExtractor.MatchedPiece` | apps/coder-parity/src/main.rs:688-703 | the matched piece ends in its own closing brace |

## Left out

- Transport: sockets, WebSocket and yamux are a byte sequence to read and a number of bytes and flushes that succeed; the only transport errors are end of input, a failed write and a failed flush.
- Scheduling: tokio tasks, locks and channels are atomic steps over queues; fairness and liveness are not stated.
- Text: error messages are the rendered text, without the prefixes the source formats in front of it; UTF-8 validity of a method name is a parameter.
- Protobuf coding and the unary method table of `dispatch`: the unary handler is a function parameter.
- Handlers run to a point at which they have ended or are still owed for; what they do in between is not modelled.
- `PacketReassembler::has_partial` and `clear_stream`: one-line accessors.
- Cryptography: SHA-256 and base64 are function parameters about which nothing is assumed; random ids are fresh because the store refuses an id twice.
- OAuth2Grants: the app lookup before minting a code and the text of errors, API keys being in ApiKeys; a request that is dropped is one that takes no further step, its grant staying in flight.
- The remaining OAuth2 and login code of crates/coder-auth: straight-line field updates over the network.
- DERP frame coding, `send_packet`, preferred flags, `set_addresses` and reconnect backoff: easy next to the tables and links.
- DerpWatch: a client key stands for its connection, so a replaced connection is not told apart; the subscription of the link ends before the link reads from its channel.
- DrpcBidi: a packet that a failed write cut short counts as not written; a failed flush behind a whole packet is a step of its own.
- AuditSink: the timer may fire at any moment after the first drain; the actor and logging are dropped.
- CircuitBreaker: names, the registry and status rendering; time is an ideal monotone clock.
- ProxyRouter: record fields other than id and deleted, breaker names, and the refresh interval; router calls do not overlap, and one selection reads the clock once.
- SessionCache: one sweep reads the clock once; in the store, user records do not change and a failed store call has no effect.
- SourceStripper and BodyExtractor: text is bytes and depth counters are unbounded rather than 32-bit.
- Route scanning, reports and the command line of the parity tool, and the HTTP server itself.
