# UniClipboard: verified models

Dafny models of the event-driven protocols and the self-contained algorithms of UniClipboard's TypeScript
and JavaScript code, with proofs of what they are for. `dafny verify dfyconfig.toml` checks everything.

Code that changes state in place is a class whose methods change the same fields in the same order; each
method's `ensures` ties the new state to a specification function (`Next`, `Copied`, `Merge`, `Greedy`, ...)
and the lemmas prove, about those functions, what the code promises over every input or every run. Expression-shaped
code is a function. Whatever the outside world does (clocks, timers, sockets, answers of the daemon) is a
step that may happen whenever it is possible, in any order.

## The modules

- `Redaction`: the memoised copy of an arbitrary object graph, on a heap of `Node` objects with a `WeakMap`
  object. The result is related to the input by following paths in both graphs, so cycles and sharing are covered.
- `ConnectUri` over `Json`, `Utf8`, `Base64Url` and `Decimal`: the connect link, printer and parser, with all
  layers written out (RFC 8259 section 7, RFC 3629 section 3, RFC 4648 sections 3.2 and 5).
- `ClipboardEvents` over `Throttle`: the reducer and the two timers that drive it, with a clock that never goes
  back and timers that never fire early. A log per channel records arrivals and batches.
- `SetupStore`: the setup store, with refreshes and synchronisation split into start and finish.
- `DaemonWs` and `DaemonWsClient`: the WebSocket client. The first module holds the state machine and its
  properties, the second the class, proved to make exactly the machine's steps.
- `LiveSearch`: the patched result list against running the query again, arrivals being delivered as they happen.
- `LiveBatches`: the same behind the coalescer, which delivers a batch in the order of first arrival.
- `ImageWall`: greedy packing of tiles into columns, over `real`.
- `Hotkeys`: the canonical form of key sequences, the resolution of shortcuts, and the conflict report.
- `SettingQueue`: the serial queue of settings tasks and the merge of shortcut edits.
- `ResendLocks`: the locks of resends in flight, shared by all callers.
- `Versions`: parsing, printing, ordering, selecting and bumping version numbers.
- `JsString`: the string operations the others share.

## Where the code and what is said about it differ

The model follows the code.

- `src/lib/mobileSyncConnectUri.ts:387` says a byte order mark is kept when decoding; the decoder, constructed
  without `ignoreBOM`, drops a leading one. `Utf8.RoundTrip` states it. Payloads start with `{`, so links are not affected.
- `src/lib/mobileSyncConnectUri.ts:227` says only non-empty strings go into `o`; the code keeps empty ones, and
  they come back (`ConnectUri.RoundTrip`).
- `docs/architecture/mobile-sync-connect-uri.md:146-147` wants encoders to drop repeated addresses and to stop at
  20; `buildConnectUri` does neither, and `ConnectUri.RoundTrip` returns the list unchanged.
- `src/lib/daemon-ws.ts:92-96` describes "connected once" as counted since the last `connect()` or `disconnect()`; only
  `disconnect` and `reset` clear it, which is what `DaemonWs.ReconnectFiresExactly` uses.
- `src/lib/daemon-ws.ts:402` gives the delay as one second times two to the attempt; the exponent in the code is
  one less, so the first retry comes after about a second (`DaemonWs.DelayNearBase`).

Properties one might expect and that fail; each has a concrete run or input and the exact condition:

- The answer to the initial request of the setup synchronisation is applied without a look at the revision, so it
  takes down a summary merged in the meantime (`SetupStore.InitialLoadForgetsSummary`; exactly when a step keeps a
  summary: `SetupStore.SummaryKeptExactly`).
- The revision protects summaries, not invitations: a refresh answered before a new invitation was issued puts the
  older one back (run: `SetupStore.OlderInvitationReturns`; condition: `SetupStore.InvitationKeptExactly` for an
  answer, `SetupStore.InvitationShownExactly` for a run).
- One reconnect timer at a time needs more than not calling `connect` during a backoff: a `connect` while a session
  refresh is in flight or a socket is still opening also leads to two (run: `DaemonWs.TwoConnectsTwoTimers`, two
  `connect` calls in a row; condition: `DaemonWs.OneTimerExactly`).
- The live list is in the order of the query only if the matching entries of a batch arrive for the last time in the
  order in which they arrive for the first: `a`, `b` and `a` again within the throttle are shown as `b`, `a` (run:
  `LiveBatches.BatchOutOfOrder`). More than fifty new entries in one batch leave a gap in a list that shows anything
  (`LiveBatches.LargeBatchLeavesGap`), since the reload lists only the newest fifty. The condition, for all batches
  and for whatever arrives until the reload is answered: `LiveBatches.RunBatchKeepsPrefixExactly`.
- A live list that was cut off at the cap and loses an entry stays one short (input: `LiveSearch.DeletionLeavesGap`;
  condition: `LiveSearch.DeletionKeepsComplete`), and an entry that stops matching when copied again stays on screen
  (input: `LiveSearch.StaleFavoriteStays`; condition: `LiveSearch.ArrivalKeepsPrefix`).
- Normalising a key sequence twice can change it, exactly when one of its two segments consists of separators only
  (input: `Hotkeys.NotStable`; condition: `Hotkeys.NormalizingTwice`).
- A patch bump of a stable version into a prerelease channel goes down, and it is the only one that does (input:
  `Versions.PatchBumpGoesDown`; condition: `Versions.BumpGoesUpExactly`).

## Model

| member | source | states |
|---|---|---|
| Redaction.RedactSensitiveArgs | src/observability/redaction.ts:3-5 | On every closed finite graph, cycles included: it terminates, changes no existing node, and its result is the redacted copy in the sense of `Redacts` (an injective memo from reachable containers to fresh ones; same kinds, lengths, keys and order; the marker under sensitive keys, images elsewhere) |
| Redaction.RedactValue | src/observability/redaction.ts:7-45 | The recursive step: whatever is memoised beforehand stays, and everything memoised by the call is reachable and completely copied when it returns, except containers still being filled further up |
| Redaction.CopySlots | src/observability/redaction.ts:13-44 | The loops fill the copy slot by slot in order, while the memo grows under them |
| Redaction.RedactSlot | src/observability/redaction.ts:35-42 | A value under a sensitive key becomes the marker without being visited; any other value becomes its image |
| Redaction.SensitiveExactly | src/observability/redaction.ts:1-38 | A key is sensitive iff one of the words password, passphrase, pass1, pass2, secret, token, auth, apikey and api_key is spelt somewhere in it, each letter in either case |
| Redaction.ContentIsOrdinary | src/observability/redaction.ts:1-38 | The key "content" is not sensitive |
| Redaction.WalksMirrored | src/observability/redaction.ts:7-45 | Following the same path in the original and in the copy gives corresponding values for as long as no sensitive key is passed, at any depth and through cycles |
| Redaction.NothingLeaks | src/observability/redaction.ts:7-45 | Whatever path leads from the result to a container, under each of its sensitive keys is the marker and nothing else |
| Redaction.SecretsHiddenExactly | src/observability/redaction.ts:33-42 | Following a path without sensitive keys to an object and then one of its keys, the copy has the text [REDACTED] there iff a word of the pattern is spelt in that key, and the image of the value otherwise |
| Redaction.CopiedExactly | src/observability/redaction.ts:7-50 | Arrays and objects whose prototype is Object.prototype or null are copied, with their keys and as many slots; everything else is returned as it is |
| Redaction.SharingKept | src/observability/redaction.ts:9-31 | Two visible paths end in the same container of the copy iff they end in the same container of the original |
| Redaction.VisitedExactly | src/observability/redaction.ts:7-45 | The memo holds exactly the containers that can be reached without passing a sensitive key |
| Redaction.RedactedIsClosed | src/observability/redaction.ts:7-45 | The result is itself a complete graph, to which redaction can be applied |
| Redaction.RedactingTwice | src/observability/redaction.ts:7-50 | Redacting the result gives an exact copy of it: redaction is idempotent up to the identity of containers |
| Utf8.StrictRoundTrip | src/lib/mobileSyncConnectUri.ts:383-390 | Decoding inverts encoding on every string of Unicode scalar values |
| Utf8.OnlyEncodingsAccepted | src/lib/mobileSyncConnectUri.ts:387-390 | The strict decoder accepts nothing but encodings: overlong forms, surrogates and truncated sequences are refused (RFC 3629 section 3) |
| Utf8.EncodedForm | src/lib/mobileSyncConnectUri.ts:383-385 | Number and ranges of the bytes of every character, and that their payload bits are its number (the table of RFC 3629 section 3) |
| Utf8.RoundTrip | src/lib/mobileSyncConnectUri.ts:383-390 | Through the decoder as constructed, a string comes back, less a leading byte order mark |
| Base64Url.BytesToBase64Url | src/lib/mobileSyncConnectUri.ts:399-411 | The encoder that works in chunks of 32768 bytes equals the unchunked encoding |
| Base64Url.Base64UrlToBytes | src/lib/mobileSyncConnectUri.ts:422-431 | The decoding loop returns the bytes of the padded standard form, or fails exactly when that is not base64 |
| Base64Url.EncodedShape | src/lib/mobileSyncConnectUri.ts:399-411 | The encoding of n bytes has ceil(4n/3) characters, all of the URL-safe alphabet: no plus, slash or equals sign |
| Base64Url.EncodedDigits | src/lib/mobileSyncConnectUri.ts:399-411 | Every three bytes, as a number of 24 bits, are written as its four digits in the alphabet of RFC 4648 section 5, of an incomplete group only those that carry bits |
| Base64Url.DecodesExactly | src/lib/mobileSyncConnectUri.ts:422-431 | A text without white space and padding is refused iff its length is one more than a multiple of four or it has a character of neither alphabet |
| Base64Url.RoundTrip | src/lib/mobileSyncConnectUri.ts:399-431 | Decoding inverts encoding on every byte sequence |
| Json.StringParses | src/lib/mobileSyncConnectUri.ts:214-214 | A quoted string reads back as the string, whatever characters it holds and whatever follows (RFC 8259 section 7) |
| Json.EscapedExactly | src/lib/mobileSyncConnectUri.ts:214-214 | Which characters are escaped in the text, and how, for every character |
| Json.EscapesRead | src/lib/mobileSyncConnectUri.ts:299-303 | All escapes of JSON are read, also those the writer does not use, in small and capital digits |
| Json.ValueParses | src/lib/mobileSyncConnectUri.ts:299-306 | The text of any value, followed by anything that may follow a value, parses as that value and leaves the rest |
| Json.RoundTrip | src/lib/mobileSyncConnectUri.ts:214-306 | Parsing inverts printing on every JSON value with integer numbers |
| ConnectUri.BuildOtherMap | src/lib/mobileSyncConnectUri.ts:229-243 | The map holds exactly the fields that are given, empty strings included, in key order |
| ConnectUri.OtherEntriesSorted | src/lib/mobileSyncConnectUri.ts:235-240 | The entries are already in strict key order, so the sort before insertion changes nothing and the bytes are stable |
| ConnectUri.BuildOutcome | src/lib/mobileSyncConnectUri.ts:176-222 | Which inputs are refused for which reason, as equivalences in order of precedence; otherwise the link is built iff the payload has at most 1466 bytes, and has 45 + ceil(4n/3) characters |
| ConnectUri.HttpAccepted | src/lib/mobileSyncConnectUri.ts:193-195 | Whatever follows `http://` or `https://`, the address is not refused as invalid |
| ConnectUri.PayloadLayout | src/lib/mobileSyncConnectUri.ts:197-216 | The payload's bytes are those of this text: the fields in the fixed order, without white space, the list of addresses only if there are several, `o` only if it has an entry |
| ConnectUri.EnvelopeOutcome | src/lib/mobileSyncConnectUri.ts:259-288 | For every scheme, host and list of parameters: refused for the scheme (in any case) or host, the first `v`, the first `svc`, or a missing `p`, in this order; else judged by the payload alone |
| ConnectUri.NoSchemeRefused | src/lib/mobileSyncConnectUri.ts:263-267 | A text without a colon is refused for its scheme |
| ConnectUri.EnvelopeParses | src/lib/mobileSyncConnectUri.ts:259-297 | The scheme, the host and the three parameters are found again in every link, so that only the payload decides |
| ConnectUri.StringMembersAre | src/lib/mobileSyncConnectUri.ts:352-357 | Of whatever object arrives as `o`, exactly the keys whose (last) value is a string are kept, unknown ones included |
| ConnectUri.OtherCoerced | src/lib/mobileSyncConnectUri.ts:229-359 | Writing and reading `o` gives exactly the supplied fields |
| ConnectUri.PayloadCoerced | src/lib/mobileSyncConnectUri.ts:199-374 | Reading the payload object gives back version, addresses, user and password; the list is there iff there was more than one candidate |
| ConnectUri.AnyPayloadRead | src/lib/mobileSyncConnectUri.ts:259-327 | For every JSON value, whatever its members: a link that carries its compact text, with the parameters in the order in which build writes them, is accepted or refused on that value alone |
| ConnectUri.UndecodableExactly | src/lib/mobileSyncConnectUri.ts:286-341 | A payload is refused as undecodable iff it is not base64url of UTF-8 of JSON of an object or array |
| ConnectUri.KeptExactly | src/lib/mobileSyncConnectUri.ts:352-357 | Of any value of `o` exactly the strings are kept: of an object by its keys, of an array by its indices, of anything else nothing |
| ConnectUri.PayloadOutcome | src/lib/mobileSyncConnectUri.ts:308-374 | Which payload objects are refused with which error, as equivalences in order of precedence, and which are accepted with which fields |
| ConnectUri.UnknownMembersIgnored | docs/architecture/mobile-sync-connect-uri.md:143-144 | A member the parser does not know, inserted anywhere, changes nothing |
| ConnectUri.MemberOrderIgnored | docs/architecture/mobile-sync-connect-uri.md:193-195 | The parser does not depend on the order of the members |
| ConnectUri.RoundTrip | src/lib/mobileSyncConnectUri.ts:176-374 | For every input that is accepted, the link, in whatever white space, parses to the first address, the whole list iff there are several, the same user and password, and exactly the supplied fields of `o` |
| ConnectUri.LinksAreTrimmed | src/lib/mobileSyncConnectUri.ts:217-260 | A link has no white space at its ends, so it also reads back as it is |
| ConnectUri.SurroundedLinkParses | src/lib/mobileSyncConnectUri.ts:260-264 | A built link with any white space around it is read back completely |
| ConnectUri.ParsedIsChecked | src/lib/mobileSyncConnectUri.ts:310-326 | Whatever text is accepted, the payload has version 1, an http or https address, a user and a password |
| ClipboardEvents.Reducer.Reduce | src/hooks/clipboardEventReducer.ts:118-193 | The closure's method: the captured state moves as the pure reducer says |
| ClipboardEvents.Reducer.FlushLocal | src/hooks/clipboardEventReducer.ts:195-210 | Takes everything pending and clears the scheduled flag |
| ClipboardEvents.Reducer.FlushRemote | src/hooks/clipboardEventReducer.ts:212-225 | Emits one invalidation and clears its flag |
| ClipboardEvents.EventStream.ApplyAll | src/hooks/useClipboardEventStream.ts:69-106 | The loop over the effects moves timers and logs as the effects say, one after the other |
| ClipboardEvents.EventStream.Handle | src/hooks/useClipboardEventStream.ts:108-117 | An event is one `Receive` step of the transition system |
| ClipboardEvents.EventStream.LocalTimer | src/hooks/useClipboardEventStream.ts:80-92 | The local timer's callback is one step of the transition system |
| ClipboardEvents.EventStream.RemoteTimer | src/hooks/useClipboardEventStream.ts:94-104 | The remote timer's callback is one step of the transition system |
| ClipboardEvents.StepKeepsInv | src/hooks/clipboardEventReducer.ts:227-289 | Every step keeps the invariant, also when a late timer races an event that takes the immediate path |
| ClipboardEvents.RunKeepsInv | src/hooks/clipboardEventReducer.ts:118-289 | The invariant holds after every run with a clock that does not go back and timers that do not fire early |
| ClipboardEvents.FlagTimerAndPendingAgree | src/hooks/clipboardEventReducer.ts:195-259 | In every reachable state the flag is set iff the local timer is armed iff ids are pending; pending ids are distinct |
| ClipboardEvents.LogsAreFaithful | src/hooks/clipboardEventReducer.ts:146-193 | The logs record exactly the arrivals that were delivered, per channel and in order |
| ClipboardEvents.EveryArrivalServed | src/hooks/useClipboardEventStream.ts:69-104 | If timers are at most `late` late, every arrival is in a batch within the throttle plus `late`, or still waits for an armed timer due within the throttle of it |
| ClipboardEvents.ServedAtOnceExactly | src/hooks/clipboardEventReducer.ts:195-289 | In every run an arrival is served in the same moment iff all batches of its channel are at least the throttle ago; otherwise it joins what waits, and the other channel is not touched |
| ClipboardEvents.TimerDueExactly | src/hooks/clipboardEventReducer.ts:227-289 | In every run an armed timer is due the throttle after the last batch of its channel |
| ClipboardEvents.NoLocalIdLost | src/hooks/clipboardEventReducer.ts:195-259 | However late the timers are, every local id that arrived is pending or in a later batch |
| ClipboardEvents.BatchesAreGenuine | src/hooks/clipboardEventReducer.ts:195-289 | Every id in a batch arrived after the batch before it: nothing is invented or repeated |
| ClipboardEvents.BatchesKeepDistance | src/hooks/clipboardEventReducer.ts:227-289 | Any two batches of a channel are at least the throttle apart |
| Throttle.NoneLost | src/hooks/clipboardEventReducer.ts:227-259 | In a well-batched log every arrival waits or is in a later batch, within the limit if the log is prompt |
| Throttle.NoneInvented | src/hooks/clipboardEventReducer.ts:195-210 | What a batch contains arrived before it with no other batch in between |
| Throttle.KeepDistance | src/hooks/clipboardEventReducer.ts:227-289 | In a well-batched log any two batches are the throttle apart |
| SetupStore.SetupRealtimeStore.ApplyInvitationIssued | src/store/setupRealtimeStore.ts:94-99 | One step of the store: shows the invitation and moves the revision on |
| SetupStore.SetupRealtimeStore.ApplyInvitationRevoked | src/store/setupRealtimeStore.ts:101-106 | Changes nothing on screen; starts a refresh without a summary, whose answer decides |
| SetupStore.SetupRealtimeStore.ApplyPairingCompleted | src/store/setupRealtimeStore.ts:108-118 | A successful pairing starts a refresh that carries the summary on screen, or else the sponsor's; a failed one does nothing |
| SetupStore.SetupRealtimeStore.RefreshFromServer | src/store/setupRealtimeStore.ts:120-124 | Starting a refresh remembers generation, revision and summary of that moment |
| SetupStore.SetupRealtimeStore.RefreshAnswered | src/store/setupRealtimeStore.ts:125-141 | An answer of an older generation or a failed one changes nothing; an older revision loses its summary |
| SetupStore.SetupRealtimeStore.ApplyServerSetupState | src/store/setupRealtimeStore.ts:213-219 | The merge shows the given state with the given summary and moves the revision on |
| SetupStore.SetupRealtimeStore.AcknowledgeSetupCompletion | src/store/setupRealtimeStore.ts:222-226 | Dismisses a summary and moves the revision on; without a summary nothing happens |
| SetupStore.SetupRealtimeStore.EnsureSetupRealtimeSync | src/store/setupRealtimeStore.ts:151-163 | Starts a synchronisation only from the idle phase |
| SetupStore.SetupRealtimeStore.InitialStateArrived | src/store/setupRealtimeStore.ts:163-165 | The first answer is shown only to the synchronisation that asked for it |
| SetupStore.MergesAndIssuesAreShown | src/store/setupRealtimeStore.ts:72-226 | A merge shows the given state with its device and the given summary, an issued invitation is shown, and the initial answer is shown to the synchronisation that asked for it |
| SetupStore.AnswerShownExactly | src/store/setupRealtimeStore.ts:120-141 | What every answer to a refresh shows: nothing new if it failed or is of an older generation; else its state, with the summary that is up, or the one it was started with unless the revision has moved, or none |
| SetupStore.PairingShowsSummary | src/store/setupRealtimeStore.ts:108-141 | After a successful pairing and any undisturbed run, the answer that reports completion puts a summary up: the sponsor's, if no other came up meanwhile |
| SetupStore.RevocationShowsAnswer | src/store/setupRealtimeStore.ts:101-141 | After a revocation or a requested refresh and any undisturbed run, the answer is shown with the summary that is up then |
| SetupStore.OlderGenerationIgnored | src/store/setupRealtimeStore.ts:120-163 | A refresh in flight when the synchronisation is started anew changes nothing, whenever it is answered |
| SetupStore.SyncStartsExactly | src/store/setupRealtimeStore.ts:151-205 | A synchronisation starts iff none is running or starting, and one that failed can be started again |
| SetupStore.RunKeepsInv | src/store/setupRealtimeStore.ts:72-231 | In every interleaving no refresh in flight is ahead of the store's generation or revision, and at most one start is in flight, of the current generation |
| SetupStore.DismissedStaysDismissed | src/store/setupRealtimeStore.ts:120-226 | Whatever happens in between, a refresh in flight at an acknowledgement or a new invitation brings no summary back when it is answered |
| SetupStore.NoSummaryAfterDismissal | src/store/setupRealtimeStore.ts:94-226 | After a dismissal no summary is shown in any run without a later successful pairing or merge of one |
| SetupStore.SummaryKeptExactly | src/store/setupRealtimeStore.ts:72-226 | For every step, exactly when a summary that is up stays up |
| SetupStore.SummarySurvives | src/store/setupRealtimeStore.ts:108-219 | While the daemon reports completion without an invitation, a summary survives every order of pairing events, refresh starts, refresh ends and merges of it |
| SetupStore.MergedSummarySurvives | src/store/setupRealtimeStore.ts:213-219 | The joiner's summary set by the merge survives all of these, whatever was in flight when it was set |
| SetupStore.InitialLoadForgetsSummary | src/store/setupRealtimeStore.ts:163-219 | A run in which the initial answer takes down a summary merged meanwhile |
| SetupStore.InvitationKeptExactly | src/store/setupRealtimeStore.ts:120-141 | An invitation survives an answer iff the answer failed, is of another generation, or names that invitation |
| SetupStore.InvitationStepExactly | src/store/setupRealtimeStore.ts:72-226 | For every step, exactly when an invitation that is up stays as it is |
| SetupStore.InvitationShownExactly | src/store/setupRealtimeStore.ts:72-226 | An invitation is up throughout a run iff nothing that is issued or merged and no answer that is used in it names anything else |
| SetupStore.InvitationSurvives | src/store/setupRealtimeStore.ts:72-226 | While the daemon names the invitation and no other one is issued or merged, it survives every order of steps, acknowledgements, pairings and revocations included |
| SetupStore.OlderInvitationReturns | src/store/setupRealtimeStore.ts:94-141 | A run, from the start of the synchronisation on, in which a refresh in flight when a new invitation is issued puts the older one back |
| DaemonWsClient.WsClient.Connect | src/lib/daemon-ws.ts:125-147 | One step of the client's machine: with an open socket nothing happens |
| DaemonWsClient.WsClient.Disconnect | src/lib/daemon-ws.ts:152-166 | Cancels the timer, takes the handlers off the socket, closes it and forgets the address |
| DaemonWsClient.WsClient.Subscribe | src/lib/daemon-ws.ts:178-198 | The loop registers the callback under every topic, and sends them if the socket is open |
| DaemonWsClient.WsClient.Unsubscribe | src/lib/daemon-ws.ts:376-386 | The loop removes the callback; a topic without callbacks is no longer active |
| DaemonWsClient.WsClient.Reset | src/lib/daemon-ws.ts:224-245 | Back to the beginning, apart from what is in flight |
| DaemonWsClient.WsClient.SessionRefreshed | src/lib/daemon-ws.ts:249-270 | No socket without an address; otherwise the new socket replaces and closes the current one |
| DaemonWsClient.WsClient.SocketThrows | src/lib/daemon-ws.ts:258-421 | If creating the socket throws, the current one is closed all the same, and the next attempt is scheduled iff the refresh was the timer's |
| DaemonWsClient.WsClient.SessionRefused | src/lib/daemon-ws.ts:137-421 | A refresh that fails for the timer schedules the next attempt, one that fails for `connect` does not |
| DaemonWsClient.WsClient.OnOpen | src/lib/daemon-ws.ts:272-293 | Resets the attempts, sends all active topics, and fires the reconnect callbacks iff it is not the first open |
| DaemonWsClient.WsClient.OnClose | src/lib/daemon-ws.ts:313-324 | A socket that closes schedules a reconnect iff its handler is still set |
| DaemonWsClient.WsClient.HandleMessage | src/lib/daemon-ws.ts:327-360 | The loop over the callbacks calls each of those under the event's topic once |
| DaemonWsClient.WsClient.ScheduleReconnect | src/lib/daemon-ws.ts:388-424 | One attempt and one timer more, set with the delay computed from the new attempt number and the jitter; nothing while reconnecting, without an address, or after ten attempts |
| DaemonWsClient.WsClient.OnTimer | src/lib/daemon-ws.ts:415-423 | The timer's callback starts a refresh iff there still is an address |
| DaemonWsClient.WsClient.FireReconnect | src/lib/daemon-ws.ts:433-441 | Every reconnect callback once |
| DaemonWs.RunKeepsInv | src/lib/daemon-ws.ts:125-441 | Over every run whatsoever: topics and callbacks agree, only the current socket is alive, attempts are bounded |
| DaemonWs.TopicsAreSubscribed | src/lib/daemon-ws.ts:178-386 | In every reachable state the active topics are the keys of the callback map, no callback set is empty, and every active topic has been sent on the current socket if it is open |
| DaemonWs.EachCallbackOnce | src/lib/daemon-ws.ts:327-360 | An event reaches a callback once if it is registered under its topic, and not at all otherwise |
| DaemonWs.RegisteredExactly | src/lib/daemon-ws.ts:178-386 | After every run a callback is registered for a topic iff it was subscribed to it and neither unsubscribed from it nor reset since; the same for reconnect callbacks |
| DaemonWs.EventReachesExactly | src/lib/daemon-ws.ts:178-386 | After every run an event reaches each callback so subscribed to its topic once, and no other |
| DaemonWs.ReconnectFiresExactly | src/lib/daemon-ws.ts:212-293 | The reconnect callbacks are called, once each, on exactly the opens after the first since the last disconnect or reset, and on no other step |
| DaemonWs.ResyncReachesExactly | src/lib/daemon-ws.ts:212-441 | After every run an open calls each callback registered for reconnects once iff it is not the first since the last disconnect or reset |
| DaemonWs.DisconnectSilences | src/lib/daemon-ws.ts:152-270 | After disconnect or reset, until the next connect, no socket is created, no timer or refresh started, and no event or reconnect callback delivered, whatever was outstanding |
| DaemonWs.RunStartsExactly | src/lib/daemon-ws.ts:125-424 | In every reachable state, which steps set a timer, start a session refresh or create a socket: a timer iff a live socket closes or the timer's own attempt fails, while there is an address, no attempt under way and fewer than ten were made |
| DaemonWs.BackToStart | src/lib/daemon-ws.ts:152-245 | Disconnect leaves nothing of the connection but what is in flight, and keeps all registrations; reset drops those too |
| DaemonWs.DisconnectStopsTimer | src/lib/daemon-ws.ts:152-166 | After a polite run and a disconnect no timer is left |
| DaemonWs.OneTimerAtATime | src/lib/daemon-ws.ts:388-431 | In runs where connect is only called with nothing under way, timers, refreshes and live sockets together are at most one |
| DaemonWs.PoliteClientHasOneTimer | src/lib/daemon-ws.ts:388-431 | So at most one reconnect timer is outstanding |
| DaemonWs.RudeConnectDoubles | src/lib/daemon-ws.ts:125-147 | A connect with something under way has a continuation, without any further connect, that leads to two timers |
| DaemonWs.TwoConnectsTwoTimers | src/lib/daemon-ws.ts:125-147 | A run: two connects in a row, and without any further one two timers are running |
| DaemonWs.OneTimerExactly | src/lib/daemon-ws.ts:125-431 | A connect keeps the promise of one timer iff no timer, refresh or opening socket is outstanding |
| DaemonWs.TenAttempts | src/lib/daemon-ws.ts:388-424 | Between opens, disconnects and resets at most ten reconnects are scheduled, however connect is called |
| DaemonWs.DelayNearBase | src/lib/daemon-ws.ts:402-408 | The delay of an attempt, jitter and rounding included, is within a tenth of its base |
| DaemonWs.BaseDelays | src/lib/daemon-ws.ts:402-406 | One second for the first attempt, doubled for each further one, thirty from the sixth on |
| DaemonWs.DelaySpreadEvenly | src/lib/daemon-ws.ts:402-408 | The delay is nine to eleven tenths of the base, in proportion to the random number, rounded to the nearest millisecond |
| DaemonWs.TimersWaitInRange | src/lib/daemon-ws.ts:388-424 | In every run every timer that is running was set with a delay of 900 to 33000 ms |
| DaemonWs.FailedRunWaits | src/lib/daemon-ws.ts:388-424 | In every run from attempt zero without an open, disconnect or reset that schedules ten timers, the delays these timers were set with add up to 162.9 to 199.1 s |
| DaemonWs.TenAttemptsHappen | src/lib/daemon-ws.ts:388-424 | Such runs exist: once an attempt is scheduled, failures of session refreshes alone use up all ten |
| LiveSearch.LiveList.OnLocalItem | src/hooks/useLiveSearch.ts:233-260 | An arrival patches the list if the model can be judged by the client; with a keyword, a source, an extension, a time range or any other tag than link or favorited the list is left alone and one refetch counted |
| LiveSearch.LiveList.OnDeleted | src/hooks/useLiveSearch.ts:263-263 | The shown list loses the entry |
| LiveSearch.PatchableExactly | src/hooks/liveSearchModel.ts:86-168 | The list may be patched iff every engine, whatever it knows of keywords, sources, extensions, times and tags, answers for every entry what the client tells from the entry alone |
| LiveSearch.PatchableIsJudged | src/hooks/liveSearchModel.ts:86-168 | Under a patchable model the client's filter agrees with every engine on every entry |
| LiveSearch.QueryIsTheEngines | src/hooks/liveSearchModel.ts:86-168 | So the query that the list is compared with is what the engine answers |
| LiveSearch.CsvExactly | src/hooks/liveSearchModel.ts:135-141 | A parameter is read as the non-empty pieces between its commas, trimmed |
| LiveSearch.CsvRoundTrip | src/hooks/liveSearchModel.ts:135-141 | Splitting inverts joining on trimmed, non-empty values without commas |
| LiveSearch.FilterOfLists | src/hooks/liveSearchModel.ts:143-168 | For the lists of the filter bar, an entry matches iff its type is listed or none is, and a tag applies or none is listed |
| LiveSearch.ArrivalKeepsPrefix | src/hooks/liveSearchModel.ts:175-182 | After an arrival the patched list is a prefix of the query's answer iff the entry matches or was not shown |
| LiveSearch.DeletionKeepsPrefix | src/hooks/liveSearchModel.ts:188-191 | A deletion keeps the list a prefix of the query's answer |
| LiveSearch.ArrivalKeepsComplete | src/hooks/liveSearchModel.ts:175-182 | A list that is the whole answer, up to the cap, stays so |
| LiveSearch.DeletionKeepsComplete | src/hooks/liveSearchModel.ts:188-191 | A deletion keeps a complete list complete iff it was the whole answer, did not show the entry, or was longer than the cap |
| LiveSearch.CompleteForever | src/hooks/useLiveSearch.ts:233-263 | Over every sequence of arrivals, re-copies and deletions, a list that is the whole answer up to the cap stays so throughout iff no deletion hits a shown entry of a list that was cut off and has none to spare |
| LiveSearch.DeletionLeavesGap | src/hooks/liveSearchModel.ts:188-191 | An input: a full list with one more entry stored loses an entry and is incomplete |
| LiveSearch.StaleFavoriteStays | src/hooks/useLiveSearch.ts:256-257 | An input: a favourite that is copied again without the flag stays on the list of favourites |
| LiveSearch.PrependIsCapped | src/hooks/liveSearchModel.ts:175-182 | A prepend never exceeds the cap, puts the entry first and drops others only for lack of room |
| LiveSearch.TwoHundredEntries | src/hooks/liveSearchModel.ts:33-182 | With 200 entries a new one displaces the last, with fewer it displaces none |
| LiveSearch.PrefixForever | src/hooks/useLiveSearch.ts:233-263 | Under every sequence of arrivals, re-copies and deletions that leave matching unchanged, each delivered to the list as it happens, the list stays a prefix, without duplicates, of the query's answer |
| LiveBatches.FlushLocalFetch | src/hooks/useClipboardEventStream.ts:45-67 | The loop hands over exactly the ids found among the reloaded entries, in the order of the batch; an unpatchable model counts a refetch for each |
| LiveBatches.ReloadFindsAll | src/hooks/useClipboardEventStream.ts:46-62 | A batch of at most fifty distinct entries finds all of them in the reload, in their latest version |
| LiveBatches.ListFollows | src/hooks/useLiveSearch.ts:233-260 | The list after a batch is a prefix of what the query would answer had the entries arrived in the order of delivery |
| LiveBatches.BatchKeepsPrefixExactly | src/hooks/useClipboardEventStream.ts:45-67 | For a batch of any size, reloaded after any arrivals: the list is a prefix of the query's answer iff the delivered matching entries are the newest matching arrivals, in the order of last arrival, and none was missed or nothing older stays on the list |
| LiveBatches.SmallBatchKeepsPrefixExactly | src/hooks/useClipboardEventStream.ts:45-67 | With at most fifty distinct entries and no further arrivals nothing is missed, and the condition is that the matching entries arrived for the last time in the order in which they arrived for the first |
| LiveBatches.RunBatchKeepsPrefixExactly | src/hooks/useClipboardEventStream.ts:45-106 | The first condition for every batch of every run of reducer and timers, with the arrivals until its reload is answered; the second one for those batches of at most fifty that nothing follows |
| LiveBatches.LargeBatchLeavesGap | src/hooks/useClipboardEventStream.ts:45-67 | More than fifty new matching entries in one batch leave every list that shows something without being a prefix of the query's answer |
| LiveBatches.BatchOutOfOrder | src/hooks/useClipboardEventStream.ts:45-106 | A run whose batch leaves the list out of the query's order |
| ImageWall.Clamp | src/quick-panel/constants.ts:29-35 | The ratio is between 0.45 and 2.2 whatever the cache holds, and unchanged when it is there already |
| ImageWall.ClampExactly | src/quick-panel/constants.ts:29-35 | Unknown, non-finite and non-positive ratios count as one, others are clamped to 0.45 and 2.2; the weight is the reciprocal |
| ImageWall.Weight | src/quick-panel/imageWallPacker.ts:8-10 | A tile's height is positive and at most 1/0.45 |
| ImageWall.PackImageWallColumns | src/quick-panel/imageWallPacker.ts:29-42 | The loop that grows columns and heights yields the columns of the greedy assignment |
| ImageWall.GreedyExactly | src/quick-panel/imageWallPacker.ts:29-42 | The assignment in which every tile goes to the leftmost of the columns that are lowest before it, and no other |
| ImageWall.FirstShortest | src/quick-panel/imageWallPacker.ts:37-37 | The column chosen is a shortest one, and the first of them |
| ImageWall.EachTileOnce | src/quick-panel/imageWallPacker.ts:29-42 | Every tile is in its column and no other, with its own index, and indices increase down each column |
| ImageWall.HeightIsConserved | src/quick-panel/imageWallPacker.ts:36-40 | The heights of the columns of any assignment add up to those of the tiles |
| ImageWall.GapBounded | src/quick-panel/imageWallPacker.ts:29-42 | After every step no two columns differ by more than the largest tile |
| ImageWall.TileGapBounded | src/quick-panel/imageWallPacker.ts:8-42 | For tiles, by at most 1/0.45 |
| ImageWall.GreedyNearAverage | src/quick-panel/imageWallPacker.ts:29-42 | No column exceeds the average by more than (m - 1)/m of the largest tile |
| ImageWall.LowerBounds | src/quick-panel/imageWallPacker.ts:29-42 | The tallest column of any assignment is at least the average and at least the largest tile |
| ImageWall.GreedyIsNearlyOptimal | src/quick-panel/imageWallPacker.ts:29-42 | The tallest greedy column is at most 2 - 1/m times the tallest column of any other assignment |
| Hotkeys.NormalizeSingleHotkey | src/shortcuts/normalize.ts:56-79 | The loop with its set and list computes modifiers in fixed order, then the other tokens in their own |
| Hotkeys.TokensExactly | src/shortcuts/normalize.ts:18-61 | A combination is read piece by piece, trimmed, in small letters, with the names of the platform's table replaced |
| Hotkeys.FormExactly | src/shortcuts/normalize.ts:62-79 | The form has the tokens of the combination, each modifier once in the order ctrl, alt, shift, meta, then the others in their own order |
| Hotkeys.ChordExactly | src/shortcuts/normalize.ts:80-99 | The first two segments count, each in its form, with one space between them |
| Hotkeys.SingleFormExactly | src/shortcuts/normalize.ts:56-79 | Two combinations have the same form iff they have the same set of modifiers and the same sequence of other tokens |
| Hotkeys.CanonicalFormExactly | src/shortcuts/normalize.ts:56-99 | The same for whole key sequences, segment by segment, on every two strings |
| Hotkeys.NormalizingTwice | src/shortcuts/normalize.ts:56-99 | Normalising is idempotent on a sequence iff it has at most one segment or every segment has a token |
| Hotkeys.NotStable | src/shortcuts/normalize.ts:56-99 | An input: a letter, a space and a plus sign |
| Hotkeys.ResolveDefinition | src/shortcuts/conflicts.ts:38-55 | The loop with its set of seen forms keeps the first key of every form |
| Hotkeys.ResolveShortcuts | src/shortcuts/conflicts.ts:32-57 | The definitions are resolved in order, overrides first |
| Hotkeys.KeysResolvedOnce | src/shortcuts/conflicts.ts:38-55 | Exactly the non-empty canonical forms of the keys are kept, each once |
| Hotkeys.FirstKeyKept | src/shortcuts/conflicts.ts:45-54 | Of several keys with the same form the first is kept |
| Hotkeys.ResolvedExactly | src/shortcuts/conflicts.ts:32-57 | A form is resolved for an id and scope iff a definition has a key of this form, the user's keys standing in for its own |
| Hotkeys.SameScope | src/shortcuts/conflicts.ts:69-91 | The report holds exactly the other shortcuts of the scope with the candidate's form |
| Hotkeys.ConflictsAreSymmetric | src/shortcuts/conflicts.ts:32-91 | Conflicts are symmetric, and hold iff the scope and the combinations agree |
| Hotkeys.IssuesExactly | src/shortcuts/conflicts.ts:69-138 | For every candidate and shortcut, whether it is reported as an error, as a warning, as in front or as behind: by scope, and only without an error by the rank of the scopes |
| SettingQueue.MergeOverrides | src/contexts/SettingContext.tsx:268-281 | The loop over the touched ids computes the three-way merge |
| SettingQueue.MergeChangesTouched | src/contexts/SettingContext.tsx:268-281 | An edit sets or deletes exactly the ids in which its two snapshots differ, and leaves the others as they are now |
| SettingQueue.FreshEditWins | src/contexts/SettingContext.tsx:268-281 | An edit made from the current settings is taken over as it is |
| SettingQueue.EditsCommuteExactly | src/contexts/SettingContext.tsx:261-288 | Two edits from stale snapshots give the same result in either order iff they agree on the ids both touch |
| SettingQueue.PatchSetsItsFields | src/contexts/SettingContext.tsx:113-220 | A section patch sets the fields it names and nothing else; a missing section starts from its defaults |
| SettingQueue.PatchesCommute | src/contexts/SettingContext.tsx:113-220 | Patches of different sections or different fields give the same settings in either order |
| SettingQueue.SettingProvider.EnqueueTask | src/contexts/SettingContext.tsx:36-43 | A task is chained to the one enqueued before it |
| SettingQueue.SettingProvider.StartOperation | src/contexts/SettingContext.tsx:66-83 | A task reads the settings when it starts, not when it is enqueued |
| SettingQueue.SettingProvider.Settle | src/contexts/SettingContext.tsx:46-110 | A success stores the changed settings, a failure stores nothing |
| SettingQueue.SettingsAreTheFold | src/contexts/SettingContext.tsx:36-110 | In every run tasks settle in the order they were enqueued, and the current settings are the fold of the successful changes since the last load |
| SettingQueue.NothingBlocks | src/contexts/SettingContext.tsx:36-43 | When all earlier tasks have settled, failed or not, the next one can start, and no other |
| SettingQueue.OneTaskAtATime | src/contexts/SettingContext.tsx:36-43 | At most one task runs |
| SettingQueue.FailureIsNeutral | src/contexts/SettingContext.tsx:66-83 | A failed task leaves no trace in the settings |
| SettingQueue.FinishExactly | src/contexts/SettingContext.tsx:46-288 | In every reachable state, what each outcome of each kind of task does to the current settings, field by field and binding by binding |
| SettingQueue.ShortcutEditsCommute | src/contexts/SettingContext.tsx:261-288 | Compatible shortcut edits in the queue, disjoint ones in particular, lead to the same settings in either order |
| ResendLocks.ResendStore.ResendEntry | src/hooks/useResendAction.ts:169-186 | One step of the machine: nothing without an id, or while the entry or any of its peers is in flight |
| ResendLocks.ResendStore.ResendEntryToPeer | src/hooks/useResendAction.ts:188-202 | Nothing without an id, or while the entry or that peer is in flight |
| ResendLocks.ResendStore.RequestSettles | src/hooks/useResendAction.ts:145-167 | The lock is released whether the request succeeded or failed |
| ResendLocks.RunKeepsInv | src/hooks/useResendAction.ts:60-202 | For any number of callers, the two collections describe exactly the outstanding requests, with no empty peer set |
| ResendLocks.LocksDescribeRequests | src/hooks/useResendAction.ts:60-202 | An entry-wide and a per-peer resend of one entry are never outstanding together, none is outstanding twice, and nothing is locked once all have settled |
| ResendLocks.SentExactly | src/hooks/useResendAction.ts:145-202 | In every reachable state a resend is sent iff nothing outstanding covers it or part of it, and a request that settles is the only one to go |
| ResendLocks.VersionCountsChanges | src/hooks/useResendAction.ts:76-109 | The version rises, by one, exactly when the collections change |
| Versions.ParseOfFormat | scripts/bump-version-lib.js:2-24 | Parsing inverts printing on every version |
| Versions.ParsedIsVersion | scripts/bump-version-lib.js:2-15 | Whatever parses is a version that can be printed and parsed again |
| Versions.ParsesExactly | scripts/bump-version-lib.js:2-15 | Exactly the strings of the two forms are read, each as the version it looks like, leading zeros allowed |
| Versions.TotalOrder | scripts/previous-published-release.js:16-59 | Comparison is a total order on versions, zero only on equal ones; of the collation only its order on strings of ASCII letters is used |
| Versions.StringsAreOrdered | scripts/previous-published-release.js:12-59 | `compareVersions` orders all strings that denote versions, with or without a prefix, and is zero iff they denote the same one |
| Versions.Precedence | scripts/previous-published-release.js:16-59 | On the strings of stable, alpha, beta and rc versions, `compareVersions` is the lexicographic order of major, minor, patch, channel (stable last) and prerelease number (section 11 of Semantic Versioning 2.0.0) |
| Versions.OtherTagsAfter | scripts/previous-published-release.js:16-41 | Tags of other names come after alpha, beta and rc and below the stable version, among each other by collation |
| Versions.TagPrefixIgnored | scripts/previous-published-release.js:12-59 | A leading `v` makes no difference |
| Versions.SelectionIsGreatest | scripts/previous-published-release.js:71-84 | The selected release is a greatest published one below the current version, stable for a stable current version; none iff there is none |
| Versions.SelectionIsFirst | scripts/previous-published-release.js:71-84 | Of several releases of the selected version, the first in the list is taken |
| Versions.SelectionThrowsExactly | scripts/previous-published-release.js:71-84 | The selection throws iff the current version or a published tag cannot be read |
| Versions.BumpVersion | scripts/bump-version-lib.js:27-75 | The field-by-field edits give the specified version, and the errors are those of the specification |
| Versions.BumpRefusedExactly | scripts/bump-version-lib.js:27-63 | An unknown kind of bump is refused, unless a prerelease becomes stable or goes on on its channel |
| Versions.BumpGoesUpExactly | scripts/bump-version-lib.js:27-75 | The bumped version reads back, and is greater iff the bump is not a patch bump of a stable version into a prerelease; then it is smaller with the same numbers |
| Versions.PatchBumpGoesDown | scripts/bump-version-lib.js:27-75 | An input: 1.2.3 patch-bumped into alpha |
| Versions.BumpIsLeast | scripts/bump-version-lib.js:27-75 | A bump that goes up skips nothing: the result is on the requested channel and is the least version there above the current one in the respect that the bump names |

## Left out

- React rendering, Tauri IPC, Redux, translations, toasts, logging and Sentry: only the state transitions are modelled.
- HTTP and daemon calls: a step with an arbitrary outcome. Callbacks that throw are not modelled.
- Easy members, such as invitation-code formatting, UI scale, tag ordering, file names and release notes.
- Redaction: accessor properties, changes during the walk, prototype-named keys such as `__proto__`; objects that are neither arrays nor plain are opaque and returned as they are. Of the characters that case folding maps into ASCII only the Kelvin sign matters to the pattern, and it is modelled.
- Connect links: strings are sequences of Unicode scalar values, so lone surrogates do not occur; `new URL` is modelled for `scheme://host[/path][?query][#fragment]` without user info, port, percent-decoding or `+` for a space; JSON numbers with a fraction or an exponent make the model's parser fail.
- Base64Url.DecodesExactly: not for texts with white space or `=`, on which `atob` is modelled but unconstrained; of texts whose last symbol has surplus bits it says that they are accepted, not what they decode to.
- Clipboard events: the action lists for transfer status and progress, and unmounting, which clears the timers together with what is pending.
- Setup store: unsubscribing and the clean-up of the event subscription; what the screens do with a snapshot.
- DaemonWs: when the promises of overlapping `connect` calls settle, callbacks that subscribe or unsubscribe while an event is dispatched, and the order in which the callbacks of one event are called (deliveries are multisets). There is no clock: a timer is recorded with its delay and may fire at any time after it was set. A socket that the client has closed reports its end later and nothing else.
- LiveSearch.LiveList.OnLocalItem: does not model the answer of a refetch racing a prepend, nor `patchLiveItem` when it changes whether an entry matches; the code makes no promise of agreement there. What the search engine answers for models that are not patchable is outside too.
- LiveSearch.PrefixForever: takes every arrival to be delivered as it happens; for the order in which the coalescer delivers see `LiveBatches`.
- LiveBatches.BatchKeepsPrefixExactly: where a matching arrival is missed, takes an entry that is copied again to differ from the stored one (its time of use is new); deletions between the first arrival and the answer of the reload are not modelled.
- ImageWall: heights are reals, so rounding is not modelled; at least one column is required, as its caller provides.
- Hotkeys: lower-casing is that of ASCII letters; the array form of `normalizeHotkey`, the texts of the conflict report, other tables of scopes than the default one, and prototype-named tokens or ids are not modelled.
- SettingQueue: the daemon is taken to store what it is given; the broadcast after a save and the partial failure of the two saves in the quick-panel update are not modelled.
- ResendLocks: listeners are not modelled, only the version that notifies them; nor is the reset hook for tests.
- Versions.SelectionIsGreatest: assumes that all published releases parse, since the source throws otherwise (`Versions.SelectionThrowsExactly`); fetching pages and parsing arguments are not modelled, nor are release objects with snake-case fields.
- Versions.TotalOrder: `localeCompare` is a parameter, any function that orders strings of ASCII letters; numbers are unbounded, so nothing is said about loss of precision beyond 2^53.
