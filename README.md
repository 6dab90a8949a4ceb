# kekeke chat-bot runtime: frame codec and dispatch core, in Dafny

This project models the core of a chat-bot runtime for the kekeke chat service:

- **Frame codec** (`message.dfy`). Frames are text: a type line, `key:value` attribute lines, a blank line, and one JSON payload line. `toString` and `Message.from` are modelled as the loops the source runs (`Message.ToString`, `Message.From`). Each loop is proved equal to a specification function (`Encode`, `Decode`). Those functions carry the round-trip law and the parser's quirks.
- **Message accessors** (`message.dfy`): `getContent`, `getSender`, `getEventType`, `getReplyPublicIds`, `getPublisher`.
- **Listener registry and first-match dispatch**, shared by both bots (`listeners.dfy`): the guard that drops non-client, self-sent and bot-nicknamed messages; the `isResponse` test; the removal of `respond` listeners from messages not addressed to the bot; and the ordered scan where the first truthy match wins.
- **The promise-based bot** (`bot.dfy`) and **the older synchronous bot** with its own `Response` class (`kekekebot.dfy`). Each bot is a class whose `HandleMessage` runs the scan as a loop. The two bots differ in how they evaluate one listener.
- **Middleware chain** (`middleware.dfy`): `register` appends. `execute` threads one context through the middlewares. Each middleware returns `Next(context)` or `Done`.
- **Response emitter** (`response.dfy`): reply-id normalisation, `@nick ` tagging, `random`, and sending gated on the middleware chain.
- **Client protocol reactions** (`client.dfy`): the SEND frames `sendText` and `deleteMedia` build; the not-logged-in guard; and the answers to CONNECTED (SUBSCRIBE), PING (PONG), MESSAGE (forward) and undecodable text (drop). The socket is a `connected` flag plus an `outbox` sequence of the texts written to it.

Supporting modules: `wrappers.dfy` (Option, Result), `strings.dfy` (`split`, `trim`, `\s`, ASCII case folding, decimal rendering), and `json.dfy` (JSON values, property reads, truthiness, `String(v)`). `JSON.parse` and `JSON.stringify` are a parameter `JsonCodec`. The predicate `Lawful` constrains it: parsing what was stringified gives the value back, and stringified text is one non-empty line.

JavaScript exceptions the modelled code can raise are explicit results, not preconditions:
- a `TypeError` from reading a property of `null` or calling `trim`/`match`/`indexOf` on a value without it: `JsError.TypeError`;
- `NotLoggedInError`: `ClientError.NotLoggedIn`;
- `InvalidBotNickName`: `BotError.InvalidBotNickName`;
- a `JSON.parse` failure in `from`: `DecodeError.InvalidJson`.

Where the documented API and the code disagree, the model follows the code:
- `hear` listeners are not restricted to broadcast messages (src/Bot.js:86-88, src/KekekeBot.js:113-115). `Listeners.FirstMatchFires` shows that a matching `hear` listener registered before a matching `respond` listener wins, even on a message addressed to the bot.
- Custom matchers receive `(content, isResponse)` only, with no broadcast flag.
- `getContent` returns the raw payload `content`, not entity-decoded text. `getSender` returns only `publicId` and `nickName`. The tables are `Message.EventTypes` and `Message.Publishers`. test/Message.js:18-25 and test/Message.js:36-40 expect otherwise.
- An attribute value holding a colon keeps only the text up to its second colon. The round trip is therefore stated for keys and values without `:` or line breaks.
- The reply ids given to `send` are normalised as written: any array, even a non-empty one, becomes `[]`.

## Model

| member | source | states |
|---|---|---|
| `Message.Construct` | src/Message.js:4-8 | `new Message(type)`: the type is stored as given, and the default `{}` payload and attributes make `getContent` undefined, `getReplyPublicIds` `[]` and `getPublisher` undefined |
| `Message.ToString` | src/Message.js:37-48 | the accumulator loop writes the type line, one `name:value` line per attribute in attribute order, a blank line, then the JSON of the payload only if the payload is truthy (`Encode`) |
| `Message.From` | src/Message.js:50-74 | the shifting loop reads the first line as the type, then attribute lines up to the first empty line or the end of input, then parses only the next line as payload; a JSON error is the thrown exception (`Decode`) |
| `Message.RoundTrip` | src/Message.js:37-74 | `from(toString(m)) == m` when the type has no line break, keys are distinct, keys and values hold no `:` or line break, and the payload is a truthy well-formed JSON value |
| `Message.FalsyPayloadComesBackEmpty` | src/Message.js:44-46 | a falsy payload writes no payload line, so it reads back as the constructor default `{}` |
| `Message.TypeOnlyFrame` | src/Message.js:4 | text with only a type line reads back with no attributes and the default payload `{}` |
| `Message.TrailingLinesIgnored` | src/Message.js:67-73 | only the line after the blank line is parsed: anything after a further line break does not change the result |
| `Message.ColonCutsValue` | src/Message.js:59-61 | the key is the text before the first colon, and the value is the text between the first and second colon |
| `Message.LineWithoutColon` | src/Message.js:59-61 | a line without a colon becomes a key whose value is `undefined` |
| `Message.RepeatedKeyKeepsLast` | src/Message.js:62 | of two attribute lines with the same key, the later one decides the value |
| `Message.PutTwice` | src/Message.js:62 | writing a key twice is writing it once with the second value |
| `Message.PutOther` | src/Message.js:62 | writing one attribute key leaves every other key unchanged |
| `Message.Put` | src/Message.js:62 | after `attributes[key] = value` the key reads `value`; a new key goes at the end |
| `Message.StaticTable` | src/Message.js:77-86 | only `EventTypes` and `Publishers` exist as static tables, and both are objects |
| `Message.GetContent` | src/Message.js:10-12 | `getContent` throws exactly when the payload is `null` |
| `Message.GetSender` | src/Message.js:14-20 | `getSender` throws exactly when the payload is `null` |
| `Message.GetEventType` | src/Message.js:22-24 | `getEventType` throws exactly when the payload is `null` |
| `Message.GetReplyPublicIds` | src/Message.js:26-31 | `getReplyPublicIds` never fails on a non-null payload, and returns either a truthy value or a fresh `[]` |
| `Message.ReplyPublicIdsPresent` | src/Message.js:27-29 | a truthy `payload.payload.replyPublicIds` is returned as is, a falsy one as an empty list |
| `Message.ReplyPublicIdsAbsent` | src/Message.js:30 | with no nested payload or no reply ids, the result is `[]` |
| `Message.GetPublisher` | src/Message.js:33-35 | `getPublisher` is the value stored under the `publisher` attribute: a defined result is stored there, and with distinct keys the stored value is the result |
| `Listeners.Guard` | src/KekekeBot.js:89-91 | a message passes the guard only when its payload can be read |
| `Listeners.GuardPasses` | src/KekekeBot.js:89-91 | the guard passes iff the publisher is CLIENT_TRANSPORT, the sender's public id differs from the bot's, and the sender's nickname is a string not ending in "bot" (ASCII case ignored) |
| `Listeners.NotFromClientIgnored` | src/Bot.js:57 | a message not published by CLIENT_TRANSPORT is dropped and no matcher is evaluated |
| `Listeners.OwnMessageIgnored` | src/Bot.js:58 | a message from the bot's own public id is dropped and no matcher is evaluated |
| `Listeners.BotSenderIgnored` | src/Bot.js:59 | a sender whose nickname ends in "bot" is dropped and no matcher is evaluated |
| `Listeners.ListsId` | src/Bot.js:66 | `indexOf` on an array is strict membership of the bot's id; on a string it is a substring search; on any other value it throws |
| `Listeners.LooksLikeBot` | src/Bot.js:59 | `/bot$/i`: the nickname's last three characters are `b`, `o`, `t` up to ASCII case |
| `Listeners.IsResponse` | src/Bot.js:61-68 | definition of `isResponse`: listed ids make it true whatever the content; it is true only by listed ids or by a leading `@nick`; it throws only on ids without `indexOf` or non-string content; characterised by `Listeners.IsResponseIff` |
| `Listeners.IsResponseIff` | src/Bot.js:61-68 | a message is addressed to the bot iff its reply ids contain the bot's public id, or its trimmed content is `@nick` (ASCII case ignored) followed by white space |
| `Listeners.Stripped` | src/Bot.js:80 | definition of the text `respond` patterns see: it is trimmed at both ends; characterised by `Listeners.StrippedWithoutMention` and `Bot.TaggedReplyIsAddressed` |
| `Listeners.StrippedWithoutMention` | src/Bot.js:80 | content with no mention is only trimmed before `respond` patterns see it |
| `Listeners.CandidatesAtKept` | src/Bot.js:69-71 | without `isResponse`, the candidates are exactly the non-`respond` listeners, in their registration order; with it, all listeners |
| `Listeners.FilterComplete` | src/KekekeBot.js:102 | the filter keeps every listener that is not `respond` |
| `Listeners.FilterElements` | src/KekekeBot.js:102 | every kept listener is not `respond` and sits at its original index |
| `Listeners.FilterIncreasing` | src/KekekeBot.js:102 | kept listeners keep their relative order |
| `Listeners.ResolveFrom` | src/KekekeBot.js:106-122 | the ordered scan reports a candidate that matched or threw, at or after the start |
| `Listeners.ResolveFromChar` | src/KekekeBot.js:106-122 | the scan finds nothing iff every candidate comes up empty, and every candidate before the one it stops at came up empty |
| `Listeners.ResolveFromFinds` | src/KekekeBot.js:118-121 | the first candidate that matches (or throws) after empty ones is where the scan stops |
| `Listeners.Dispatch` | src/Bot.js:54-107 | a listener that fires or throws is a registered one |
| `Listeners.DispatchScan` | src/Bot.js:69-99 | once the guard passes and `isResponse` is known, the outcome is where the scan of the candidates stopped, and the matchers evaluated are the candidates up to that point |
| `Listeners.FiredIsFirstMatch` | src/Bot.js:73-105 | the listener that fires is a candidate that matched, with its own callback, and every earlier candidate came up empty |
| `Listeners.FirstMatchFires` | src/Bot.js:73-105 | conversely, the first matching candidate always fires (so a `hear` registered before a `respond` wins) |
| `Listeners.UnmatchedIff` | src/Bot.js:101-105 | no callback runs and nothing is thrown iff every candidate comes up empty |
| `Listeners.AllCandidatesEmpty` | src/Bot.js:69-99 | every candidate comes up empty iff every listener that survives the filter does |
| `Listeners.EvaluatedInOrder` | src/Bot.js:74-99 | the matchers evaluated are registered listeners, in registration order, each at most once |
| `Listeners.FiredIsLastEvaluated` | src/Bot.js:76-78 | no matcher after the one that fired is evaluated |
| `Listeners.Scanned` | src/Bot.js:57-71 | reaching the scan means the guard passed and `isResponse` was decided |
| `Bot.Bot.Create` | src/Bot.js:10-16 | the constructor fails with `InvalidBotNickName` iff the nickname (default `KekekeBot`) does not end in "bot"; otherwise it makes a bot with no listeners and a new, logged-out client |
| `Bot.Bot.Hear` | src/Bot.js:30-36 | `hear` appends one `hear` registration and leaves earlier ones unchanged |
| `Bot.Bot.Respond` | src/Bot.js:38-44 | `respond` appends one `respond` registration and leaves earlier ones unchanged |
| `Bot.Bot.Listen` | src/Bot.js:46-52 | `listen` appends one custom registration and leaves earlier ones unchanged |
| `Bot.Bot.HandleMessage` | src/Bot.js:54-107 | the outcome is the shared dispatch with src/Bot.js's listener evaluation; it lists the matchers evaluated, and builds a fresh `Response` exactly when a listener fires |
| `Bot.Each` | src/Bot.js:73-99 | the `Promise.each` loop evaluates candidates until one matches, skips the rest, and stops at a throw |
| `Bot.BotEval` | src/Bot.js:80-89 | evaluating any listener throws iff the content is not a string, because it is trimmed before the listener's kind is examined |
| `Bot.NonStringContentThrows` | src/Bot.js:80 | non-string content throws at the first candidate, whatever its kind |
| `Bot.CustomSeesStripped` | src/Bot.js:80-83 | on a message addressed to the bot, a custom matcher gets the trimmed content without the mention |
| `Bot.CustomSeesRawUnaddressed` | src/Bot.js:83 | on any other message, a custom matcher gets the content as it came |
| `Bot.PatternsSeeTheirText` | src/Bot.js:80-89 | a `respond` pattern is matched against the trimmed content without the mention, a `hear` pattern against the content as it came |
| `Bot.ClientTransportVia` | src/Bot.js:57 | reading `clientTransport` off a missing static table throws |
| `Bot.GuardAsWrittenAlwaysThrows` | src/Bot.js:57 | as written, the guard reads `Message.publishers` and throws a TypeError on every message |
| `Bot.GuardCorrected` | src/Bot.js:57-59 | reading `Message.Publishers` gives the shared guard |
| `Bot.TaggedReplyIsAddressed` | src/Bot.js:61-80 | `@nick text` is addressed to the bot named `nick`, and stripping the mention gives `text` back |
| `Bot.EndToEndExample` | src/Bot.js:54-105 | a bot "Bot" with `respond(/hello/)` fires on "@Bot hello" from "Foo"/"abc"; a tagged `reply("hi")` then sends "@Foo hi" to ["abc"] |
| `KekekeBot.KekekeEval` | src/KekekeBot.js:106-116 | evaluation throws iff the listener is not custom and the content is not a string |
| `KekekeBot.CustomSeesRaw` | src/KekekeBot.js:108-109 | a custom matcher always gets the raw content plus `isResponse` |
| `KekekeBot.DispatchersAgreeOnPatterns` | src/KekekeBot.js:110-116 | on string content, `hear` and `respond` listeners evaluate as in src/Bot.js |
| `KekekeBot.SameOutcomeWithoutCustom` | src/KekekeBot.js:86-124 | with no custom listeners and string content, both bots reach the same outcome on every message |
| `KekekeBot.SameDispatch` | src/KekekeBot.js:105-122 | two listener evaluations that agree on the registered listeners dispatch alike |
| `KekekeBot.KekekeBot.Create` | src/KekekeBot.js:42-48 | the constructor throws `InvalidBotNickName` iff the nickname does not end in "bot" (ASCII case ignored) |
| `KekekeBot.KekekeBot.Hear` | src/KekekeBot.js:62-68 | `hear` appends exactly one registration |
| `KekekeBot.KekekeBot.Respond` | src/KekekeBot.js:70-76 | `respond` appends exactly one registration |
| `KekekeBot.KekekeBot.Listen` | src/KekekeBot.js:78-84 | `listen` appends exactly one registration |
| `KekekeBot.KekekeBot.HandleMessage` | src/KekekeBot.js:86-124 | the `for…of` loop with `break` computes the shared dispatch with raw-content custom matchers; at most one callback fires, and no matcher after it runs |
| `KekekeBot.ForOf` | src/KekekeBot.js:105-122 | the `for…of` loop evaluates the candidates in order, breaks at the first match and leaves at the first throw: it computes the ordered scan |
| `KekekeBot.Response.constructor` | src/KekekeBot.js:8-13 | a new response holds the client, the message, the match, and `text == getContent()` |
| `KekekeBot.Response.Send` | src/KekekeBot.js:15-21 | ids are `[]` for an array argument and `[x]` for a scalar; the text frame is sent at once, or `NotLoggedInError` is raised and nothing is sent |
| `KekekeBot.Response.Reply` | src/KekekeBot.js:23-30 | `reply(t)` sends `@nick t` and `reply(t, false)` sends `t`, both to `[sender.publicId]` |
| `KekekeBot.Response.Random` | src/KekekeBot.js:32-34 | `random(texts)` sends one element of `texts` |
| `KekekeBot.Response.DeleteMedia` | src/KekekeBot.js:36-38 | `deleteMedia` passes straight to the client |
| `Response.NormalizeIds` | src/Response.js:16-20 | an absent or array argument gives `[]` (even a non-empty array); any other `x` gives `[x]` |
| `Response.TagText` | src/Response.js:42 | a tagged text starts with `@` and ends with a space followed by the original text |
| `Response.TagTextParts` | src/Response.js:42 | for a string nickname, the tagged text is `"@" + nick + " " + text` |
| `Response.Response.constructor` | src/Response.js:4-10 | a new response has no middlewares and `text == message.getContent()` |
| `Response.Response.SetMiddlewares` | src/Response.js:12-14 | `setMiddlewares` replaces only the chain |
| `Response.Response.Send_` | src/Response.js:16-32 | without a chain, `sendText` runs once, immediately; with one, it runs only if every middleware calls `next`, and sends the original text and ids even if a middleware replaced the context's fields |
| `Response.Response.Send` | src/Response.js:34-36 | `send` is `_send` with method `'send'` |
| `Response.ReplyText` | src/Response.js:38-45 | the reply text always ends with the given text; it is that text alone when the flag is given and falsy, and `@nick text` otherwise for a string nickname |
| `Response.Response.Reply` | src/Response.js:38-45 | `reply` tags `@nick ` unless told not to, addresses `[sender.publicId]`, and uses method `'reply'` |
| `Response.Response.Random` | src/Response.js:47-49 | `random` sends one element of `texts` through `send` |
| `Response.Response.DeleteMedia` | src/Response.js:51-53 | `deleteMedia` goes to the client, bypassing the chain |
| `Response.HaltSuppresses` | src/Response.js:21-28 | a middleware calling `done` means the chain does not complete, so `sendText` is never called |
| `Middleware.Middleware.constructor` | src/Middleware.js:5-7 | a new chain is empty |
| `Middleware.Middleware.Register` | src/Middleware.js:24-26 | `register` appends one middleware and leaves the rest unchanged |
| `Middleware.Middleware.Execute` | src/Middleware.js:9-18 | `execute` runs middlewares in registration order, each once and only after its predecessor called `next`, and ends as the chain's specification says |
| `Middleware.Run` | src/Middleware.js:9-18 | definition of how `execute` ends; a halt names a registered middleware; characterised by `Middleware.CompletedIff` and `Middleware.HaltedIff` |
| `Middleware.EmptyChainCompletes` | src/Middleware.js:17 | an empty chain completes with the same context |
| `Middleware.CompletedIff` | src/Middleware.js:10-17 | the chain completes with `d` iff every middleware called `next` and their changes, applied in order, give `d` |
| `Middleware.HaltedIff` | src/Middleware.js:12-14 | the chain halts at `k` iff middlewares before `k` all called `next` and `k` called `done`; nothing after `k` runs |
| `Middleware.RunAppend` | src/Middleware.js:24-26 | a middleware registered last runs only if the earlier chain completed, and only on the context it produced |
| `Middleware.FirstHalt` | src/Middleware.js:12-14 | a chain that does not complete has a first middleware calling `done` |
| `Client.KekekeClient.constructor` | src/KekekeClient.js:12-17 | a new client keeps its anonymous id, topic and nickname (default `KekekeClient`), and is logged out with an empty outbox |
| `Client.KekekeClient.LoggedIn` | src/KekekeClient.js:55-58 | a completed login stores the session fields and opens the socket, sending nothing |
| `Client.KekekeClient.SendMessage` | src/KekekeClient.js:122-129 | while connected, exactly `message.toString()` is appended to the outbox; otherwise `NotLoggedInError` and the outbox is unchanged |
| `Client.KekekeClient.SendText` | src/KekekeClient.js:69-85 | `sendText` sends the SEND frame for the text, the ids and the clock |
| `Client.KekekeClient.DeleteMedia` | src/KekekeClient.js:87-100 | `deleteMedia` sends the DELETE_MEDIA SEND frame |
| `Client.KekekeClient.OnFrame` | src/KekekeClient.js:153-181 | each incoming text is decoded and answered as `React` says; only the answers reach the outbox |
| `Client.RepliesOnlyToConnectedAndPing` | src/KekekeClient.js:156-180 | only CONNECTED and PING get an answer, exactly one frame each; MESSAGE is forwarded; undecodable text and other types send nothing |
| `Client.SubscribeText` | src/KekekeClient.js:165-167 | the CONNECTED answer is SUBSCRIBE with `destination:/topic/<topic>` |
| `Client.PongText` | src/KekekeClient.js:170-172 | the PING answer is PONG with no attributes |
| `Client.TextFrameSender` | src/KekekeClient.js:69-85 | a text frame's content and sender read back as the encoded text, the client's public id and its nickname |
| `Client.TextFrameEventType` | src/KekekeClient.js:69-85 | a text frame has event type CHAT_MESSAGE and no publisher attribute |
| `Client.TextFrameReplyIds` | src/KekekeClient.js:69-85 | a text frame reads back the reply ids given, or an empty list when they are falsy |
| `Client.DeleteMediaFrameAccessors` | src/KekekeClient.js:87-100 | a delete frame has content `delete <url>` (encoded), event type DELETE_MEDIA, and no nested payload, so no reply ids |

## Left out

- The `login` handshake (src/KekekeClient.js:19-67) is not modelled: the HTTP POST, the GWT-RPC body, and the offset lookup into the reply array. `KekekeClient.LoggedIn` stands for its result.
- The WebSocket lifecycle is not modelled (src/KekekeClient.js:118-151). This covers `close`, the CONNECT frame sent on `open`, the 180-second PING timer, and every `emit`. An incoming PING is modelled as input to `OnFrame`.
- `JSON.parse`/`JSON.stringify`, html-entities `encode`, and `Date.now` are parameters: a `JsonCodec` constrained by `Lawful`, the client's `entities` function, and a `now` argument. JSON numbers are integers; floating point is not modelled.
- The regex engine is not modelled. User patterns and custom matchers are functions returning `Option` (`None` is a falsy match). The nickname is assumed to hold no regex metacharacters, and `\s` is ECMAScript white space.
- Callbacks are opaque values: the model reports which callback fires, and with which `Response`, but does not run it.
- `Listeners.Dispatch`, `Bot.Bot.HandleMessage`: Promise scheduling is not modelled. Promise-valued matcher results, interleaving between messages, and a `done` called asynchronously are all out. A message's chain runs sequentially, and an exception in src/Bot.js's promise chain is reported as the `Failed` outcome, not as an unhandled rejection.
- `Response.Response.Send_`: transmission after the chain is modelled as happening at once. A `NotLoggedInError` raised inside the chain's continuation is reported as nothing thrown, since it only rejects an unobserved promise. The chain's context does not carry the `response` back-reference. The context's reply-id array is the same array object that is sent, so a middleware that changes it in place (`ctx.replyPublicIds.push(x)`) changes the ids sent; the model passes the context by value and does not capture this.
- `Response.Response.Random`, `KekekeBot.Response.Random`: `_.sample` is an unspecified choice of index, and the texts must be non-empty (an empty list would send `undefined`).
- The `run()` methods (src/Bot.js:109-118, src/KekekeBot.js:126-133) and the `getNickName`/`getPublicId`/`getKerma` pass-through getters are not modelled: they only do logging, event wiring and field reads.
- `Message.Put`: attribute keys are assumed not to be array indices or `__proto__`. A JavaScript object lists integer-like keys first, in ascending order, so `toString` would write them before the others; and a `__proto__:x` line stores nothing. The model keeps every key in insertion order and stores `__proto__` like any other key.
- `Middleware.Middleware.Execute`: a middleware that calls neither `next` nor `done` leaves `execute` pending forever (src/Middleware.js:10-17). A `Step` must be one or the other; the effect on what is sent is that of `Done`, since nothing is sent in either case.
- `Message.RoundTrip` is stated for well-formed payloads (no repeated keys, safe-integer numbers) and distinct attribute keys, since `JSON.stringify` and object keys cannot carry more.
- `Client.KekekeClient.OnFrame`: a `ws.send` that throws while the socket is closing is not modelled.
- src/Client.js, which src/Bot.js requires, is not part of this model; the bot uses the `KekekeClient` model in its place.

## Findings

| source | as written | input that shows it | evidently intended | confidence | as-written member | corrected member |
|---|---|---|---|---|---|---|
| src/Bot.js:57 | reads `Message.publishers.clientTransport`, but src/Message.js:83 defines `Message.Publishers`, so the guard throws a TypeError | any message handed to `handleMessage` | compare the publisher with `Message.Publishers.clientTransport` (`CLIENT_TRANSPORT`), as src/KekekeBot.js:89 does | high; not executed | `Bot.GuardAsWrittenAlwaysThrows` | `Bot.GuardCorrected` |
