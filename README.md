# TURN/STUN reachability prober, modelled in Dafny

The prober (js/main.js of minimal-turn-tester) opens one WebRTC peer
connection per TURN/STUN server, each configured with exactly that one ICE
server, lets the browser gather ICE candidates, and when gathering is
complete classifies the server by the candidate types it saw:

- a TURN-over-UDP server (`turn:` scheme, no `?transport=tcp`) is
  "Connection Complete" when a relay candidate appeared, "Authentication
  failed?" when only a server-reflexive (srflx) one did, and "Not
  reachable?" when neither did;
- every other server is reported "Connection Complete".

Each verdict is pushed as the line `<uri>: <verdict>`. The file also
defines `formatPriority`, which decodes an ICE candidate priority into its
three fields (section 4.1.2.1 of RFC 5245, section 5.1.2.1 of RFC 8445);
nothing in js/main.js calls it.

The model has six modules:

- `Wrappers` (wrappers.dfy): the `Option` type the parsers and the
  candidate events use.
- `JsStrings` (jsstrings.dfy): `String.prototype.indexOf` and
  `Array.prototype.indexOf`, with JavaScript's first-match-or-minus-one
  result.
- `Classifier` (classifier.dfy): `getFinalResult`, the candidate-type
  heuristic, and the lines it produces.
- `JsNumbers` (jsnumbers.dfy): the ToInt32 conversion, `>>` and `&` with
  a low-bit mask, and the decimal rendering of integral numbers.
- `Priority` (priority.dfy): `formatPriority`, the RFC priority formula it
  inverts, and a parser that reads the rendered line back.
- `Session` (session.dfy): the event handlers as a `Prober` class holding
  the open connection's configuration, the open-session flag
  (`pc !== null`), the server URI, the `candidates` buffer and the result
  list. It also holds the per-server configuration loop of
  `gatherCandidates`.

How the source was read:

- `getFinalResult` reads `server.urls[0]` and `urls[0]`, and the handlers
  push onto `result`. None of these names is in scope at those points: the
  file declares neither `server` nor `urls`, and `result` is local to
  `gatherCandidates`. The model reads both as the first URI of the open
  connection's only ICE server (`Session.ServerUri`), and gives the
  classifier that URI as a parameter. It keeps the result list as a field
  of the `Prober` object, next to the buffer.
- The code has no "Connection failed." verdict: for STUN and TURN/TCP
  servers it always reports "Connection Complete", whatever was gathered.
  `Classifier.NonTurnUdpAlwaysComplete` and `Classifier.TableStunNothing`
  state it.
- `gatherCandidates` starts every server's session inside one loop, and
  all of them share the module-level `pc` and `candidates` slots. The model
  runs the sessions one after another on one `Prober`.

## Model

| member | source | states |
|---|---|---|
| `JsStrings.IndexOf` | js/main.js:150-151 | -1 exactly when the pattern does not occur; otherwise the position of a match with no earlier match |
| `JsStrings.IndexOfZeroIsPrefix` | js/main.js:150 | `indexOf(p) === 0` holds exactly when the string starts with `p` |
| `JsStrings.IndexOfElement` | js/main.js:152-153 | -1 exactly when the element is absent; otherwise the first position holding it |
| `Classifier.TurnUdpTest` | js/main.js:150-151 | the two `indexOf` tests hold exactly for URIs that start with `turn:` and do not contain `?transport=tcp` |
| `Classifier.Types` | js/main.js:137-139 | the mapped list has one entry per candidate |
| `Classifier.TypesKinds` | js/main.js:137-139 | the i-th entry of the mapped list is the i-th candidate's type |
| `Classifier.TypesHas` | js/main.js:137-153 | a type occurs in the mapped list exactly when some gathered candidate has that type |
| `Classifier.Classify` | js/main.js:133-161 | Connection Complete iff the URI is not TURN/UDP or a relay candidate was gathered; Authentication failed? iff TURN/UDP, no relay and some srflx; Not reachable? iff TURN/UDP with neither |
| `Classifier.GetFinalResult` | js/main.js:133-165 | the line is the URI, ": " and a verdict text, and reading the verdict back out of it for that URI yields the classification |
| `Classifier.VerdictLineNamesServer` | js/main.js:163 | every verdict line starts with its URI followed by ": " |
| `Classifier.FinalResultDependsOnlyOnRelayAndSrflx` | js/main.js:137-161 | two candidate lists that agree on whether a relay and whether a srflx candidate occur give the same line |
| `Classifier.FinalResultIgnoresOrder` | js/main.js:137-153 | two candidate lists holding the same candidates in any order give the same line |
| `Classifier.RelayAndSrflxKeeps` | js/main.js:152-153 | keeping only relay and srflx candidates keeps exactly the relay and srflx types that were gathered |
| `Classifier.FinalResultIgnoresHostAndPrflx` | js/main.js:141-161 | dropping every host and prflx candidate never changes the line |
| `Classifier.NonTurnUdpAlwaysComplete` | js/main.js:133-151 | for any URI that is not TURN/UDP the line is `<uri>: Connection Complete`, whatever was gathered |
| `Classifier.TurnUdpExample` | js/main.js:150-151 | `turn:1.2.3.4:443` is TURN/UDP |
| `Classifier.NotTurnUdpExamples` | js/main.js:150-151 | `turn:…?transport=tcp`, `stun:` and `turns:` URIs are not TURN/UDP |
| `Classifier.TableTurnUdpRelay` | js/main.js:150-152 | `turn:1.2.3.4:443` with a host and a relay candidate is classified Connection Complete |
| `Classifier.TableTurnUdpSrflx` | js/main.js:152-155 | `turn:1.2.3.4:443` with only a srflx candidate is classified Authentication failed? |
| `Classifier.TableTurnUdpNothing` | js/main.js:156-158 | `turn:1.2.3.4:443` with no candidate is classified Not reachable? |
| `Classifier.TableTurnTcpNothing` | js/main.js:150-151 | `turn:1.2.3.4:443?transport=tcp` with no candidate is classified Connection Complete |
| `Classifier.TableStunNothing` | js/main.js:150 | `stun:1.2.3.4:443` with no candidate is classified Connection Complete |
| `JsNumbers.ToInt32` | js/main.js:191-193 | the operand of a bitwise operator lies in [-2^31, 2^31), agrees with the number modulo 2^32, and is the number itself when that is already in range |
| `JsNumbers.ShiftRight` | js/main.js:191-192 | `x >> n` is the floor of the 32-bit value divided by 2^n |
| `JsNumbers.AndLowMask` | js/main.js:192-193 | `x & (2^k - 1)` lies in [0, 2^k) and agrees with the 32-bit value modulo 2^k; together with `x >> k` times 2^k it makes up the 32-bit value |
| `JsNumbers.Show` | js/main.js:194 | the rendering of a number, as `join` converts it, is non-empty, all digits after an optional leading '-'; `ParseIntOfShow` states that it reads back |
| `JsNumbers.ParseIntOfShow` | js/main.js:190-194 | reading back the decimal rendering of an integer yields that integer |
| `Priority.PriorityFields` | js/main.js:189-195 | local preference < 65536, component field < 256, type preference in [-128, 128); type*2^24 + local*2^8 + component equals the 32-bit value of the priority, which for 0 <= p < 2^31 is p itself; for 2^31 <= p < 2^32 the type preference is negative |
| `Priority.RfcPriority` | js/main.js:186-188 | a priority built from type preference <= 126, local preference < 65536 and component ID 1..256 lies in [0, 2^31) |
| `Priority.PriorityFieldsOfRfcPriority` | js/main.js:186-193 | decoding a priority built by the RFC formula returns its type preference, local preference and 256 minus the component ID |
| `Priority.FormatPriority` | js/main.js:189-195 | the line has exactly three '\|'-separated pieces: the rendered type preference, local preference and component field of the decoded priority, with the spaces " \| " puts around them |
| `Priority.SplitThree` | js/main.js:194 | joining three '\|'-free pieces with " \| " and splitting on '\|' gives the pieces back, with the spaces around them |
| `Priority.ParseFormatPriority` | js/main.js:189-195 | the line "type \| local \| component" parses back to exactly the decoded fields |
| `Priority.FormatPriorityInjective` | js/main.js:189-195 | two priorities render the same line exactly when they agree as 32-bit values |
| `Priority.HostPriorityExample` | js/main.js:186-188 | the host priority for local preference 32252 and component 1 is 2122185983, which decodes to 126, 32252 and 255 |
| `Session.NonEmpty` | js/main.js:115-121 | the kept candidates are no more than the events, and none has empty candidate text |
| `Session.NonEmptyKeeps` | js/main.js:115-121 | a candidate is kept exactly when it arrived with non-empty candidate text |
| `Session.NonEmptyIgnoresMarkers` | js/main.js:116-119 | inserting an empty end-of-round marker anywhere leaves the kept candidates unchanged |
| `Session.Prober.constructor` | js/main.js:11-13 | no session open, empty buffer (the source leaves `candidates` undefined until `gotDescription`), empty result list |
| `Session.Prober.Open` | js/main.js:100 | a session opens on the configuration, for its first ICE server's first URI; buffer and results unchanged |
| `Session.Prober.GotDescription` | js/main.js:176-180 | the buffer is emptied and nothing else changes |
| `Session.Prober.Finalise` | js/main.js:171-173 | exactly one line, the verdict for the server and buffer, is appended, and the session is closed |
| `Session.Prober.IceCallback` | js/main.js:113-129 | a non-empty candidate is appended; an empty one changes nothing and does not finalise; a null one changes nothing, except on a browser without the gathering-state event, where it finalises |
| `Session.Prober.GatheringStateChange` | js/main.js:167-174 | nothing changes unless the state is "complete" on an open session; then exactly one verdict line is appended and the session closes |
| `Session.DriveSession` | js/main.js:100-129 | one complete session on a configuration appends exactly the line for its server URI and its non-empty candidates, and leaves the session closed |
| `Session.ServerUri` | js/main.js:150-163 | the URI `server.urls[0]` and `urls[0]` stand for: the first URI of the connection's first ICE server; for a configuration built by `ConfigFor` it is that server (`ConfigFor`'s contract) |
| `Session.ConfigFor` | js/main.js:79-93 | the configuration has exactly one ICE server, whose only URI is the server and whose username and credential are the shared credentials, with policy "all" and pool size 10 |
| `Session.RunLines` | js/main.js:78-111 | the lines of a run, one per server in input order; `RunLinesAt` gives each |
| `Session.RunLinesAt` | js/main.js:78-111 | the i-th line of a run is the classification line for the i-th server and its candidates, and starts with that server's URI |
| `Session.GatherCandidates` | js/main.js:74-111 | one line per server, in input order: line i is the classification line for server i and its non-empty candidates, and starts with server i's URI |

## Left out

- Fetching the credentials over `XMLHttpRequest` and the promise wiring
  around it are network I/O. Credentials are a parameter of
  `GatherCandidates`.
- The browser's ICE engine is not modelled: `RTCPeerConnection`,
  `createOffer`, `setLocalDescription` and `pc.close()`. Its events are
  method calls on `Prober`. What it reports for each server is a parameter
  of `GatherCandidates`. The offer options (`offerToReceiveAudio: 1`) only
  make the engine gather, and are not modelled.
- `noDescription` only logs. A failed offer never calls `gotDescription`,
  so the model has no separate path for it.
- Elapsed-time measurement through `window.performance.now()` is clock
  access and float formatting.
- DOM rendering and logging are not modelled: `setDefaultServer`,
  `appendCell`, the error banner of `iceCandidateError` and the permission
  check.
- The credential service in utils/cred-gen/bin/index.js is not part of this
  model. It is HMAC-SHA1 from Node's crypto, the clock and an Express
  server.
- Session.GatherCandidates: the source's `gatherCandidates` returns
  nothing. Its `result` list is local and the lines reach it from callbacks
  that run after the function has returned; the model returns the list the
  sessions produce.
- Session.GatherCandidates: a rejected `createOffer` (`noDescription`)
  leaves its server without a "complete" event, so the source pushes no
  line for it. The model assumes every offer succeeds: `gathered` cannot
  express a failed offer, and the contract's one line per server holds only
  under that assumption.
- Session.GatherCandidates: the source starts all sessions inside one loop,
  and they share the module-level `pc` and `candidates` slots. The model
  runs each session to completion before the next. It does not capture how
  overlapping sessions' events would interleave on the shared slots. Its
  contract does not list the configurations it builds: each session is
  opened on `ConfigFor(servers[i], creds)`, whose shape `ConfigFor`'s own
  contract states and which `DriveSession` leaves in the prober's `config`
  field.
- Session.Prober.constructor: the source declares `candidates` without a
  value, and an `iceCallback` arriving before `gotDescription` would fail on
  `undefined.push`. The model starts from an empty buffer and buffers such a
  candidate instead.
- `formatPriority` is modelled on integral numbers. A fractional or
  non-finite priority, which ToInt32 would truncate or map to 0, is not
  modelled.
- There is no timeout and no "Connection failed." verdict, because the
  code has neither.
