# A verified model of the gacha gRPC client

`index.js` is a small Node.js client for a game server. It talks gRPC over
HTTP/2, with a hand-written `GrpcClient` class, and it runs three daily steps
for each configured token. The steps are adventures, crafting and a bet.
This project models the parts of that file whose behaviour can be stated and
checked:

- **Framing** (`framing.dfy`, module `Framing`). This is the gRPC
  Length-Prefixed-Message as `encodeMessage` writes it and
  `decodeGrpcResponse` reads it:
  - a compression flag byte;
  - a 4-byte big-endian length;
  - the serialized message.

  `writeUInt32BE` is a method over an `array<byte>`, like the 5-byte prefix
  buffer it writes into. The decoder inflates when the flag is 1 or the
  message starts with the gzip magic number. It never reads the declared
  length. The gzip inflater is supplied as a function parameter.
- **One call** (`settlement.dfy`, module `Settlement`). The promise that
  `call` returns is modelled as a state machine driven by events:
  - the `response` headers;
  - `data` chunks;
  - `end`;
  - a stream `error`;
  - the firing of the deadline timer.

  The state holds the outcome, whether the timer is armed, whether the
  stream was destroyed, and the chunks collected so far. `Step` and `Run` are
  the specification. The class `PendingCall` holds the same state in fields
  and runs the handlers as methods, and each method is proved to follow
  `Step`. JavaScript promise semantics, where the first `resolve` or `reject`
  wins, are modelled by `SettleWith`.
- **The client object** (`client.dfy`, module `Client`). This covers the
  constructor with its token clean-up, the lazy and idempotent `connect`,
  and `close`. It also covers the start of `call`, which takes the shared
  session, builds the request head and creates a `PendingCall`. A ghost set
  of every session opened proves that at most one session is ever open.
  A session can also be closed underneath the client (a connection error
  that the no-op `error` listener swallows, or a GOAWAY). The client keeps
  holding it, so every later `call` is rejected at once, without a timer,
  until `close` drops the dead session.
- **Request strings** (`requests.dfy` and `strings.dfy`, modules `Requests`
  and `Strings`). This covers:
  - the two prefix-stripping regular expressions of the constructor;
  - the `:path` and `:authority` pseudo-headers and the `authorization`
    header;
  - the parsing of the `TOKENS` setting.

  The ECMAScript semantics of the string operations involved are written
  out: `\s`, `trim`, `indexOf`, `replace` with a string pattern, and `split`
  on one character.
- **Decisions of the workflow steps** (`workflow.dfy`, module `Workflow`).
  This covers `hasEnoughMaterials`, and which remote calls `handleAdventure`,
  `handleMaking` and `handleGambling` make once their answers have arrived.
  Each remote call is returned as an `Action`, and the clock is a parameter.

Where the code differs from what a reader of the protocol might expect, the
model follows the code:

- A `grpc-status` other than `'0'` in the response headers rejects the call
  immediately. The rejection does not wait for the end of the stream.
- Trailers are never listened to. A status sent only in trailers is ignored,
  and the call resolves with whatever the body decodes to.
- The declared length in bytes 1 to 4 of a response frame is not checked.
  Only one frame is read: everything from offset 5 on is the message.
- `TOKENS` falls back to the default list only when the setting is the empty
  string. A setting such as `" , "` gives no tokens at all.
- `replace('https://', '')` deletes the first occurrence of the scheme
  wherever it stands. It is not limited to the start of the URL.
- `connect` only tests whether a session is held, not whether it is still
  open. A held session that the connection lost makes `client.request`
  throw inside the promise executor, before the timer is armed, on every
  call until `close`.
- When encoding the request throws inside the promise executor, the promise
  is rejected but the deadline timer stays armed. The invariant `Inv` allows
  exactly this case.
- A recipe whose `materials` list is absent makes `for (const req of
  undefined)` throw. The JSON form of a response leaves empty lists out.
  The model returns this as `aborted` from `HandleMaking`.

## Model

| member | source | states |
|---|---|---|
| Framing.BigEndian32 | index.js:57 | `writeUInt32BE` stores exactly four bytes for a value below 2^32 |
| Framing.ReadUInt32BE | index.js:57 | four bytes read as a big-endian unsigned value lie in 0 .. 2^32-1 |
| Framing.ReadWriteUInt32 | index.js:57 | reading back the four bytes written for a value gives the value |
| Framing.WriteReadUInt32 | index.js:57 | any four bytes are the encoding of the value they store |
| Framing.WriteUInt32BE | index.js:57 | it succeeds iff the value is below 2^32 and four bytes fit at the offset, in which case those four bytes become the big-endian value, the rest of the buffer is unchanged and offset+4 is returned; on failure the buffer is not touched; an out-of-range value gives the range error |
| Framing.Frame | index.js:52-58 | definition: the 5-byte prefix then the payload, or the range error of `writeUInt32BE` for a payload of 2^32 bytes or more; its layout is `FrameLayout` and its inverse is `RoundTrip` |
| Framing.EncodeMessage | index.js:55-58 | the bytes the method assembles in its 5-byte buffer are the frame `Frame(payload)`, or the range error for a payload of 2^32 bytes or more |
| Framing.FrameLayout | index.js:55-58 | a frame is 5 bytes longer than its payload: byte 0 is 0, bytes 1-4 read back as the payload length, and the rest is the payload |
| Framing.DecodeGrpcResponse | index.js:61-68 | definition of the decoder: the flag at offset 0, the bytes from offset 5, and the inflater when the flag is 1 or the gzip magic opens the message; its behaviour is stated by `DecodeCases`, `DecodeShortBuffer`, `DecodeIgnoresDeclaredLength` and `RoundTrip` |
| Framing.HasGzipMagic | index.js:64 | definition of the gzip test: at least two bytes, the first 0x1f and the second 0x8b |
| Framing.DecodeCases | index.js:62-67 | for a buffer of at least 5 bytes, the result is `buffer[5..]` unchanged unless the flag is 1 or the message opens with 0x1f 0x8b, and then it is the inflater's result or its error |
| Framing.DecodeIgnoresDeclaredLength | index.js:61-68 | two buffers that agree except in bytes 1-4 decode alike |
| Framing.DecodeShortBuffer | index.js:62-67 | a buffer of 1 to 5 bytes whose flag is not 1 decodes to the empty message |
| Framing.RoundTrip | index.js:52-68 | decoding an encoded payload gives the payload back when it does not open with the gzip magic number, and otherwise gives what the inflater makes of it |
| Framing.DeclaredLengthNotChecked | index.js:61-68 | a frame whose length field is any value still decodes to the bytes after the header |
| Strings.SkipWhitespace | index.js:34 | a greedy `\s*` from `i` stops at the first non-whitespace character, and everything it passed is whitespace |
| Strings.SkipWhitespaceBack | index.js:13 | scanning back from `j`, no further than `lo`, passes only whitespace and stops after a character that is not whitespace (or at `lo`); this finds where the trailing run that `trim` removes starts |
| Strings.LeadingWhitespaceDropped | index.js:34 | a greedy `\s*` over a run of whitespace followed by a non-whitespace character (or the end) stops exactly at that character |
| Strings.Trim | index.js:13 | `trim` returns the slice between the leading and the trailing whitespace runs, and neither end of the result is whitespace |
| Strings.TrimUnchanged | index.js:13 | `trim` leaves a string unchanged iff it is empty or neither end is whitespace |
| Strings.TrimKeepsCharacters | index.js:13 | `trim` introduces no character, so no comma appears in a trimmed piece of a split |
| Strings.TrimBlank | index.js:13 | a string made only of whitespace trims to the empty string |
| Strings.TrimPadded | index.js:13 | a token whose ends are not whitespace, with any whitespace around it, trims to the token |
| Strings.IndexFrom | index.js:77 | the result is the first offset at or after `from` where the pattern occurs, or -1 iff it occurs nowhere from there on |
| Strings.IndexOf | index.js:77 | `indexOf` is -1 iff the pattern occurs nowhere, and otherwise it is the first occurrence |
| Strings.ReplaceFirst | index.js:77 | definition of `replace` with a string pattern: the first occurrence found by `IndexOf` is replaced; its cases are `ReplaceFirstCases` |
| Strings.ReplaceFirstCases | index.js:77 | `replace` with a string pattern removes a leading occurrence and leaves a string without any occurrence unchanged |
| Strings.Join | index.js:13 | definition of `join` for a one-character separator; `Split` and `SplitJoin` are its inverses |
| Strings.JoinKeepsCharacters | index.js:13 | every character of a piece occurs in the join, so every character of a split piece occurs in the input |
| Strings.Split | index.js:13 | `split` gives at least one piece, no piece contains the separator, and joining the pieces with the separator gives the input back |
| Strings.SplitAfterPiece | index.js:13 | a separator-free piece splits to itself, and splitting stops at the first separator |
| Strings.SplitJoin | index.js:13 | splitting the join of separator-free pieces gives the pieces back |
| Requests.NormalizeToken | index.js:34 | definition of the constructor's clean-up: the `Bearer` replacement, then the `authorization: Bearer` one; its results for bare tokens are `NormalizeBareToken`, `NormalizeBearerToken` and `NormalizeAuthorizationToken` |
| Requests.HasBearerPrefix | index.js:34 | definition of when `/^Bearer\s+/i` matches: `bearer` in any ASCII case, then a whitespace character |
| Requests.HasAuthorizationPrefix | index.js:34 | definition of when `/^authorization:\s*Bearer\s+/i` matches: `authorization:` in any ASCII case, any whitespace, then a `Bearer` match |
| Requests.StripBearer | index.js:34 | `replace(/^Bearer\s+/i, '')` only removes a prefix: the result is a suffix of the input |
| Requests.StripAuthorization | index.js:34 | `replace(/^authorization:\s*Bearer\s+/i, '')` only removes a prefix: the result is a suffix of the input |
| Requests.NormalizeBareToken | index.js:34 | a token that neither expression can match is kept as it is |
| Requests.NormalizeBearerToken | index.js:34 | `Bearer ` followed by a bare token normalises to the token |
| Requests.NormalizeAuthorizationToken | index.js:34 | `authorization: Bearer ` followed by a bare token normalises to the token |
| Requests.RequestPath | index.js:75 | definition of `/${service}/${method}`; `RequestPathSplits` is its inverse |
| Requests.RequestPathSplits | index.js:75 | the path built from a service and a method without `/` splits back into `""`, the service and the method |
| Requests.Authority | index.js:77 | definition of `baseUrl.replace('https://', '')`; its cases are `AuthorityCases` |
| Requests.AuthorityCases | index.js:77 | an `https://` URL loses its scheme in `:authority`, and a URL without `https://` anywhere is its own authority |
| Requests.AuthorizationValue | index.js:79 | definition of `Bearer ${this.token}`; `AuthorizationRoundTrip` shows the token survives it |
| Requests.AuthorizationRoundTrip | index.js:79 | normalising the `authorization` header value of a bare token gives the token, so the header carries the token the client holds |
| Requests.MakeRequestHead | index.js:73-80 | definition: the `:path`, `:authority` and `authorization` headers derived from the client and the arguments of `call` |
| Requests.SplitTokens | index.js:13 | definition of `split(',').map(t => t.trim()).filter(t => t)`; its results are stated by `ParsePadded`, `ParseBlank` and `ParseJoinedTokens` |
| Requests.TrimAll | index.js:13 | definition of `map(t => t.trim())`; `TrimAllPointwise` states it |
| Requests.TrimAllPointwise | index.js:13 | `map(t => t.trim())` keeps the length and trims every piece in place |
| Requests.NonEmpty | index.js:13 | `filter(t => t)` keeps exactly the non-empty strings, and a list with no empty string is kept whole |
| Requests.NonEmptyAppend | index.js:13 | `filter` of a concatenation is the concatenation of the filters, so the kept strings keep their order and their copies |
| Requests.NonEmptySingle | index.js:13 | `filter` drops a single empty string and keeps a single non-empty one |
| Requests.ParseTokens | index.js:11-13 | the defaults are used for the empty setting; for any other setting, every token is non-empty, comma-free and has no whitespace at either end |
| Requests.ParseJoinedTokens | index.js:13 | parsing the comma-join of clean tokens gives the tokens back |
| Requests.ParsePadded | index.js:11-13 | a non-empty setting whose pieces are clean tokens or nothing, each with whitespace around, parses to those tokens in order, with the blank pieces dropped |
| Requests.ParsePaddedExample | index.js:11-13 | `" a , ,b "` parses to `a` and `b` |
| Requests.ParseBlank | index.js:11-13 | a non-empty setting made only of commas and whitespace parses to no token, and the defaults do not stand in |
| Settlement.SettleWith | index.js:71 | a promise settles once: an unsettled one takes the new outcome, a settled one keeps its own, and nothing else changes |
| Settlement.IsErrorStatus | index.js:88 | definition of `status && status !== '0'`: a present, non-empty status other than `0`; `ResponseHandling` states both branches |
| Settlement.StatusMessage | index.js:90 | the rejection text uses `grpc-message` when present and non-empty, and `未知` otherwise |
| Settlement.Concat | index.js:98 | the concatenated body is empty iff every chunk is empty |
| Settlement.EndOutcome | index.js:95-103 | the `end` handler takes its `{}` branch (without decoding) iff no byte arrived; otherwise it rejects with the framing error, rejects with the message decoder's error, or resolves with the decoded value |
| Settlement.Handle | index.js:86-105 | definition: what each handler does with the state; `ResponseHandling`, `SettlingEvents` and `TimerClearedOnSettlingEvents` state it |
| Settlement.Delivered | index.js:82-105 | definition of the assumption about Node under which `Step` applies a handler: a destroyed stream emits nothing more, and a cleared timer never fires |
| Settlement.Step | index.js:86-105 | every event leaves a settled call's outcome unchanged and keeps the invariant: a pending call has its timer armed, an armed timer in a settled call means an encoding failure, and a destroyed stream means a settled call with no timer |
| Settlement.Initial | index.js:82-106 | after the executor, the timer is armed, no chunk is held, and the call is still pending iff the request serialized and fits in a frame |
| Settlement.Start | index.js:72-82 | on an open session the state is `Initial`; on a closed one `client.request` throws first, so the call is rejected with the closed-session error, no timer is armed and no stream exists |
| Settlement.Run | index.js:86-105 | definition: the events handled in order; `RunAppend`, `RunKeepsOutcome` and `RunKeepsInv` state it |
| Settlement.RunAppend | index.js:86-105 | handling two event sequences one after the other is handling their concatenation |
| Settlement.RunKeepsOutcome | index.js:71 | once settled, a call keeps its outcome whatever events follow |
| Settlement.RunKeepsInv | index.js:82-106 | every state reachable from a good state is good |
| Settlement.SettledStaysSettled | index.js:71 | a call settled after a prefix of the events is settled, with the same outcome, after every longer prefix |
| Settlement.SettlesAtMostOnce | index.js:71-105 | no two events both settle a call |
| Settlement.FirstSettlementDecides | index.js:71-105 | the outcome of a whole run is the one the first settling event produced |
| Settlement.TimerGuaranteesSettlement | index.js:82-106 | after any events the call is settled or has its timer armed on a live stream, so the timer's firing settles it: every call settles at least once |
| Settlement.StartSettles | index.js:72-106 | a call on a closed session stays rejected whatever arrives, and any call is settled once its timer has fired |
| Settlement.SettlingEvents | index.js:86-105 | only a non-'0' status, `end`, `error` or the timer settles a pending call, each with its own outcome, and a data chunk never does |
| Settlement.ResponseHandling | index.js:86-92 | an absent, empty or '0' status changes nothing; any other clears the timer and rejects an unsettled call with the status and message text |
| Settlement.ErrorTexts | index.js:82-90 | the rejection texts `call` builds: `gRPC 错误 5: not found` for status 5 and that message, `未知` when the message is absent, and `请求超时` for the timer |
| Settlement.TimerClearedOnSettlingEvents | index.js:89-105 | the error-status, `end` and `error` handlers clear the timer, and the timer's firing destroys the stream |
| Settlement.QuietRun | index.js:86-94 | data chunks and successful headers keep a live call pending, armed and live |
| Settlement.DataAccumulates | index.js:94 | data chunks are appended to the buffer in arrival order |
| Settlement.DataThenEnd | index.js:94-103 | chunks followed by `end` settle a pending call with the end handler's outcome on all chunks, which takes the `{}` branch iff no byte arrived, and the timer is cleared |
| Settlement.TimeoutWins | index.js:82 | when the timer fires before any settling event, the call is rejected with the timeout error, the stream is destroyed, and later events change nothing |
| Settlement.DestroyedIsInert | index.js:82 | under the `Delivered` assumption, a stream destroyed by the timer (or never opened) has no further event handled |
| Settlement.PendingCall.constructor | index.js:71-107 | the fields equal `Start`: on a closed session the request throws, the promise is rejected with no timer and nothing is written; otherwise the executor arms the timer, starts with no chunks and writes the framed request, and an encoding failure rejects the promise, leaves the timer armed and writes nothing |
| Settlement.PendingCall.Settle | index.js:71 | `resolve`/`reject` change the outcome only when the promise is pending |
| Settlement.PendingCall.OnResponse | index.js:86-92 | the `response` handler changes the fields as `Handle` says |
| Settlement.PendingCall.OnData | index.js:94 | the `data` handler appends the chunk |
| Settlement.PendingCall.OnEnd | index.js:95-103 | the `end` handler clears the timer and settles with `EndOutcome` of the chunks |
| Settlement.PendingCall.OnError | index.js:105 | the `error` handler clears the timer and rejects with the transport error |
| Settlement.PendingCall.OnTimeout | index.js:82 | the timer callback destroys the stream and rejects with the timeout error |
| Settlement.PendingCall.Deliver | index.js:86-105 | delivering one event changes the fields exactly as `Step` says and keeps the invariant |
| Settlement.PendingCall.DeliverAll | index.js:86-105 | delivering a sequence of events changes the fields exactly as `Run` says and keeps the invariant |
| Client.Session.constructor | index.js:46 | a session opened by `http2.connect` has the URL given and is open |
| Client.Session.Close | index.js:111 | closing a session marks it closed |
| Client.Session.Fail | index.js:47 | a session the connection lost is closed |
| Client.GrpcClient.constructor | index.js:32-37 | the client keeps the base URL and the normalised token, and holds no session |
| Client.GrpcClient.AtMostOneLiveSession | index.js:44-50 | the sessions still open are at most the held one, and exactly it when it has not been lost |
| Client.GrpcClient.SessionLost | index.js:45-47 | a connection error or GOAWAY closes the held session while the field still holds it, and the invariant is kept |
| Client.GrpcClient.Connect | index.js:44-50 | with a held session, `connect` returns it and opens nothing; otherwise it opens a fresh session to the base URL and holds it |
| Client.GrpcClient.Close | index.js:111 | `close` closes the held session, if any, and then holds none |
| Client.GrpcClient.Call | index.js:70-107 | `call` uses the shared session (a fresh, open one to the base URL when none was held) and starts a pending call with the path, authority and authorization derived from its arguments, the given decoders, and the framed request as the body written, or no body when encoding threw; on a lost held session the call is rejected at once with no timer armed and nothing written |
| Client.ConnectionLifecycle | index.js:44-50 | two connects give one session, `close` closes it and a second `close` is harmless, and the next connect opens a new, open session |
| Client.LostSessionUntilClose | index.js:44-111 | after the held session is lost a call is rejected at once with no timer; after `close` the next call opens a new session and starts normally |
| Workflow.Owned | index.js:116-121 | definition of the `propsMap` lookup with its default of 0, as a function of the props: the count of the last prop with the id, or 0; `OwnedIsLastMatch` and `OwnedMissing` state it |
| Workflow.Enough | index.js:116-121 | definition: every required material is owned at least the required number of times; `HasEnoughMaterials` is proved equal to it |
| Workflow.OwnedIsLastMatch | index.js:117 | when a prop id occurs several times, the last prop with that id gives the count |
| Workflow.OwnedMissing | index.js:119 | an id that no prop carries counts as 0 |
| Workflow.CountIn | index.js:119 | definition of `propsMap[String(req.id)]` with its default of 0 on the map the loop fills |
| Workflow.HasEnoughMaterials | index.js:115-122 | true iff every required material is owned at least the required number of times, so an empty list gives true |
| Workflow.AdventureAction | index.js:128-136 | definition: accept an idle adventure, finish a completed one, and nothing otherwise |
| Workflow.AdventurePlan | index.js:128-136 | definition: the actions of the adventures in list order; `AdventurePlanExact` states it |
| Workflow.AdventurePlanExact | index.js:128-136 | exactly the idle adventures are accepted and exactly the completed ones are collected, and nothing else is called |
| Workflow.HandleAdventure | index.js:125-137 | no call when the list is absent; otherwise one call per idle or completed adventure, in list order |
| Workflow.Ready | index.js:146 | definition of `now >= Number(eq.validTime)` |
| Workflow.AllReady | index.js:142-156 | definition of `canMakeNew` after the loop: every item is ready; `MakingQueriesIffAllReady` states what it decides |
| Workflow.FinishCalls | index.js:144-153 | definition: a collect call for each ready item, in list order; `FinishCallsExact` states it |
| Workflow.FinishCallsExact | index.js:144-153 | the collect calls are exactly the items whose ready time has passed |
| Workflow.Choose | index.js:159-165 | definition of the recipe loop's verdict; `ChooseFirstFit` and `ChooseFirstFitAt` state it |
| Workflow.ChooseFirstFit | index.js:159-165 | the recipe chosen has enough materials and every one before it has too few; nothing is chosen iff every recipe has too few; the loop throws at the first recipe without a list |
| Workflow.ChooseFirstFitAt | index.js:159-165 | the converse: a recipe with enough materials and only passed-over recipes before it is the one chosen |
| Workflow.MakingPlan | index.js:139-166 | definition of the calls `handleMaking` makes; `HandleMaking` is proved equal to it and the `Making…` lemmas state it |
| Workflow.MakingStartsAtMostOne | index.js:159-165 | at most one item is started |
| Workflow.MakingQueriesIffAllReady | index.js:156-158 | props and recipes are fetched iff no item is still in progress |
| Workflow.MakingStartsFirstFit | index.js:156-165 | an item is started iff no item is in progress and it is the first recipe with enough materials, every recipe before it being passed over |
| Workflow.MakingFinishesReady | index.js:144-153 | an item is collected iff it was in the list and its ready time has passed |
| Workflow.HandleMaking | index.js:139-166 | the calls the step makes are exactly `MakingPlan`: collect calls first, then the queries and at most one craft when nothing is in progress, and `aborted` when the recipe loop throws |
| Workflow.HandleGambling | index.js:169-175 | one bet on today's game iff betting is open, and no other call |

## Left out

- The `http2` library is not modelled. A session is an object with only a URL and a `closed` flag. A request stream is the sequence of events it delivers. The session's ignored `error` listener (index.js:47) and a GOAWAY are modelled only by their effect, `Session.Fail`, which closes the held session; the `close` event itself and how `request` on a closing session fails in detail are not modelled.
- Settlement.Delivered is an assumption about Node, not a line of `index.js`: a stream destroyed by `req.destroy()` emits no further `response`, `data`, `end` or `error` event to the handlers, and a timer cleared by `clearTimeout` never fires. `Step` ignores events that break it, and `DestroyedIsInert`, `TimeoutWins` and `StartSettles` rely on it.
- The `protobufjs` library is not modelled. This covers `loadProto` (file I/O), `lookupType`, `encode`, `decode` and `toJSON`. The serialized request arrives as a `Result` parameter, so a lookup or encode failure is its error case. Response decoding is a function in the `Codec` parameter.
- `pako.ungzip` is a function parameter (`Inflater`) that either inflates or fails.
- The timer is not modelled as a clock. `setTimeout` becomes arming a flag, its firing is the `Timeout` event, and `clearTimeout` disarms the flag. The 15000 ms value is configuration.
- `req.setEncoding('binary')` followed by `Buffer.from(chunk, 'binary')` is a lossless latin1 round trip. Chunks are therefore modelled directly as bytes.
- `Date.now()` is the `now` parameter, and `Number(eq.validTime)` is an integer field. An absent `validTime` is not modelled: `toJSON()` leaves out a zero field, `Number(undefined)` is `NaN` and `now >= NaN` is false, so in the source such an item counts as still in progress, gets no collect call and blocks crafting (index.js:146-150).
- `parseInt` is not modelled. Counts are integers.
- `p.count || 0` is not modelled. An absent count is a count of 0.
- Workflow.CountIn reads a Dafny map, which has no prototype chain, whereas `propsMap` is a plain `{}` (index.js:116) whose lookup `propsMap[String(req.id)] || 0` (index.js:119) also finds inherited `Object.prototype` members. The model assumes ids are the decimal strings of the server's numeric ids, so no id spells such a name (`constructor`, `toString`, `valueOf`, `hasOwnProperty`, `__proto__`, …). For those names the source would read a function (truthy, and `function < n` is false) or ignore the write to `__proto__`, so the material is never short.
- Workflow.Owned and Workflow.OwnedMissing state the count, or 0 for an id no prop carries, under the same assumption that no id names an `Object.prototype` member.
- Workflow.HasEnoughMaterials is proved equal to `Enough` under the same assumption; for a required id naming an `Object.prototype` member the source returns `true` where the model may not.
- A required material whose `count` is absent is not modelled. In the source `parseInt(undefined)` is `NaN`, and comparisons with `NaN` are false.
- The static header table (index.js:15-28) is constant data, so `RequestHead` keeps only the derived headers.
- `console` logging is left out.
- A JavaScript string is a sequence of UTF-16 code units, while a Dafny `string` is a sequence of Unicode scalar values, so lone surrogates cannot occur in the model. The functions modelled (`\s`, `trim`, the ASCII `/i` prefixes, `indexOf`, `replace`, `split` on `,` and `/`) only compare characters against ASCII or Basic Multilingual Plane code points, so they act alike on both representations.
- `processUser` and `main` (index.js:178-199) are left out. They fan out over the users with `Promise.all` and handle errors with `try`/`finally`, which is concurrency and plumbing.
- Several calls in flight on one client at the same time are not modelled. Each `PendingCall` is independent.
- Workflow.HandleAdventure, Workflow.HandleMaking and Workflow.HandleGambling take the server's answers as already received and assume every remote call succeeds. In the source a rejected call throws out of the step: `handleAdventure` skips its remaining adventures, `handleMaking` its remaining collect and craft calls, and the single `try` of `processUser` (index.js:181-187) then skips every remaining step of that user. `list.data` absent, `status.equipment?.length` and `.data || []` are modelled as an `Option` or an empty list.
- Settlement.PendingCall.constructor does not model `req.end()` or the headers sent on the wire. It records only the framed body given to `req.write`.
- Requests.StripBearer and Requests.StripAuthorization state only that a prefix is removed. Their full behaviour is given by the NormalizeBareToken, NormalizeBearerToken and NormalizeAuthorizationToken lemmas for bare tokens. Other inputs (say `Bearer Bearer x`) are left to the definitions.
