# Verified model of rust-mcp-sdk

This project models the parts of rust-mcp-sdk (a Rust SDK for the Model Context Protocol) that hold
real algorithms, and proves what they guarantee for every input, every chunking, every interleaving
or every reachable state. `dafny verify dfyconfig.toml` checks all of it (Dafny 4.11).

## What is modelled

**Messages on the wire.** `LineFraming` has the size-capped line reader as the loops over a chunked
buffer that it is, proved against "split on newline", and the client writer as its partner.
`SseParsing` has the incremental Server-Sent Events parser, `SseDelivery` the event formatter, the
server's id-tagged frames and the relay that turns them into events, `MultilineData` the exact fate of
event data with several lines. `ClientStreams` has the client's two consumers of such a response: the
standalone stream and the answer to a POST. `EventStore` has the store behind `Last-Event-ID`,
`Leftovers` what a broken stream leaves in the client's parser, `Resumption` composes all of them, and
`Reconnects` follows a client through any number of breaks, with a bounded store that the session's
streams share and a replay that interleaves with live messages.

**Requests and their answers.** `PendingRequests` is the table of pending JSON-RPC requests as a class
and as a state machine over register, write, deliver, time out and clear. `BatchReplies` is the
filter/unzip/zip pipeline of a batch. `AckedWrites` is the acknowledged write path: writers, a bounded
channel, a worker and its cancellation.

**Types and schemas.** `JsonSchema` gives the meaning of the emitted keywords (JSON Schema Validation
2020-12, sections 6.1 to 6.5; JSON Schema Core 2020-12, sections 10.2 and 10.3). `SchemaDerive` is the
compiler from Rust types, `SchemaValues` the JSON form of their values, `ElicitForm` the elicitation
decoder and its null-stripping projection.

**Token verification.** `JwtCache` is the time-to-live plus first-in-first-out cache over a map and a
queue; `TokenVerifier` the verifier that uses it in place of remote checks, as a class and as a protocol
of interleaved calls.

**Ids and endpoints.** `SnowflakeIds`, `FastIds` (with unpadded Base64url, section 5 of RFC 4648) and
`Endpoints` (query and fragment as in sections 3.4 and 3.5 of RFC 3986).

Classes and methods follow the code that updates state; each is tied to a specification function, and
the lemmas are about those functions. Clocks, chunk boundaries, cancellation, the key server, signature
checks, remote endpoints, JSON decoding of a line and URL parsing are inputs.

## Where a promise does not hold as stated

Each of these is proved with its exact condition.

- A payload comes back from the line reader unchanged iff it has no newline, does not end in a carriage
  return and fits the cap (`LineFraming.ComesBackIffSurvives`).
- An id or event name comes back iff it is on one line and has no white space around it
  (`SseDelivery.FieldsComeBackIff`).
- The answer to a POST is read only up to the first chunk that completes an event with data. Everything in
  the response is delivered iff no later chunk completes one; a notification in one chunk and the response
  in the next lose the response (`ClientStreams.PostDeliversAllIff`,
  `ClientStreams.TwoChunksLoseTheSecond`).
- The client keeps its parser, with whatever it still holds, when it reconnects. Whatever bytes it has read
  on any number of earlier responses, and with keep-alives anywhere, the messages of the next response arrive
  iff the leftover lets them through. If a keep-alive comes first: no data is held once it has ended the
  unfinished line, or nothing follows that would release it. If a message with an id does: no data is held and the unfinished line is no data line. If a
  message without an id does: no data and no unfinished line is held, or the data held reads as that message
  and the message is lost in the unfinished line (`Leftovers.MessagesArriveIff`,
  `Resumption.ResumedClientCatchesUpIff`). After a first break a replay gets through iff the parser holds
  neither an unfinished line nor data (`Resumption.FirstBreakIffClear`). A stream cut inside a line loses the
  first message replayed (`Resumption.CutInsideALine`) unless a keep-alive comes first
  (`Resumption.KeepAliveSavesAMessage`); one cut before the blank line of an event delivers that event's data
  in front of it (`Resumption.CutBeforeTheBlankLine`); the two cuts, one after the other, can make up for each
  other (`Resumption.CutTwice`).
- Replayed messages carry no id, and replay and live messages are written by two tasks. Over any number of
  connections that break between events, nothing up to the client's last event id is missing iff on every
  connection with a live message, each message between the client's last event and that one had arrived or
  is replayed somewhere in the run (`Reconnects.NoGapsIff`); with timestamps in order, iff on every connection
  the first live message comes no later than where replays and live messages have reached
  (`Reconnects.NothingSkippedIff`). Both ways to fail are shown: the client's last event was evicted
  (`Reconnects.EvictedReplaySkips`), and a live message overtook the replay
  (`Reconnects.OvertakenReplaySkips`).
- Each message arrives exactly once and in order iff on every connection replayed messages, live ones and
  again replayed ones follow on one another without repetition (`Reconnects.ExactlyOnceIff`). A replay that
  breaks is followed by the same replay (`Reconnects.BrokenReplayRepeats`), and a message stored before the
  replay is looked up can arrive live as well (`Reconnects.LiveAndReplayed`).
- A replayed message that holds a `|` is taken for an id and a message: what precedes the `|` becomes the id
  the client resumes from (`Resumption.SeparatorMovesTheCursor`), and for an id that the store did not make
  nothing is replayed (`Resumption.StrangeIdReplaysNothing`).
- Event data of several lines comes back as itself iff its lines alternate with blank ones; two lines, for
  instance, come back with a blank line between them (`MultilineData.DataComesBackIff`,
  `MultilineData.TwoLinesComeBackApart`).
- On a resumable stream the relay splits a line at its first `|` whether or not an id was written, so a
  replayed message, which is sent without an id, arrives whole iff it holds no `|`
  (`SseDelivery.RelayIsFaithfulIffSeparable`).
- Replay is exact iff the client's last event is still stored, no earlier stored event has the same id and
  sorting by time leaves the missed messages in place; or it is no longer stored and nothing was missed
  (`EventStore.ReplayIsExactIff`). Two events of a stream that share a timestamp share their id, and the
  second is replayed to a client that has seen it (`EventStore.SharedTimestampReplaysTwice`).
- The documentation says that the oldest event is dropped at the limit; with a limit of zero the code drops
  none (`EventStore.RetainedIsLast`). The documentation of `events_after` promises "no events" for an
  invalid id; the code returns an error (`EventStore.Store.Replay`).
- An event id is read back iff session and stream are free of the separator, also across their ends
  (`EventStore.EventIdRoundTripsIff`).
- A schema accepts exactly the decodable values iff the type has no fixed-width integer
  (`SchemaValues.SchemaMatchesDecodingIff`).
- `Option<T>` means "null or T" iff `T` is not an enum with a variant that breaks the length attributes
  (`SchemaDerive.OptionMeansNullOr`).
- Stripping null gives back `T`'s schema iff `T` is neither an enum nor an option and every attribute
  applies to it (`ElicitForm.StripGivesInnerIff`).
- A server's batch writes before it registers, so it can miss an immediate response; every other send
  registers first. An undisturbed request of a server's batch is answered iff a response is delivered
  after its registration, one of any other send iff a response is delivered at all
  (`PendingRequests.ResponseFindsItsWaiterIff`, `PendingRequests.ServerBatchCanMissAResponse`).
- A batch reply lines up with its requests iff every request carries an id
  (`BatchReplies.EntriesMatchIffAllHaveIds`).
- The bounded cache equals the unbounded last-seen map throughout a history iff at every record the keys
  live at its first clock reading fit, or the one of them live longest is no longer live at its second
  (`JwtCache.ExactIffItSpares`); that they fit is not necessary (`JwtCache.EvictedInTime`).
- The Snowflake documentation describes a sequence that counts within a millisecond; in the code the
  sequence cell is zero at the start of every call, so a second call in the same millisecond waits for the
  next one and every id has sequence zero (`SnowflakeIds.Generator.NextId`). Below 2^41 milliseconds the
  ids increase iff the clock never goes back (`SnowflakeIds.IdsIncreaseIff`), and two ids of a machine are
  equal iff the timestamps they settled on agree modulo 2^41 (`SnowflakeIds.IdsRepeatIff`).
- A session id is read back iff the endpoint's query already carried it, or carried none and the session
  id holds neither `&` nor `#` (`Endpoints.SessionIdRoundTripsIff`).

## Model

| member | source | states |
|---|---|---|
| `LineFraming.BufReader.ReadCappedLine` | crates/rust-mcp-transport/src/mcp_stream.rs:181-218 | for every chunking, the result and the bytes left unread are those of the chunk-free reading of the stream; the buffer never holds more than the cap; terminates on the bytes that remain |
| `LineFraming.BufReader.DiscardToNewline` | crates/rust-mcp-transport/src/mcp_stream.rs:221-237 | consumes exactly through the next newline, or everything, and reports a broken stream |
| `LineFraming.LineToString` | crates/rust-mcp-transport/src/mcp_stream.rs:240-245 | removes one trailing carriage return and nothing else |
| `LineFraming.ReadOneTakesFirst` | crates/rust-mcp-transport/src/mcp_stream.rs:181-245 | repeated reading yields exactly the classified segments of "split on newline", the non-empty unterminated tail included; each read makes progress |
| `LineFraming.RunReader` | crates/rust-mcp-transport/src/mcp_stream.rs:114-163 | whenever the cancellation is seen or the receiver goes, exactly the messages of the lines read so far were sent, in order, and the exit is the first reason that applied; without them the whole stream is delivered |
| `LineFraming.LineWriter.WriteStr` | crates/rust-mcp-transport/src/message_dispatcher.rs:264-271 | appends the payload and one newline |
| `LineFraming.LineWriter.WriteEach` | crates/rust-mcp-transport/src/message_dispatcher.rs:264-271 | a lock-serialised sequence of writes appends the frames in order |
| `LineFraming.OutcomesOfFrames` | crates/rust-mcp-transport/src/mcp_stream.rs:181-245 | reading back written frames gives each newline-free payload its own outcome, whatever surrounds it and however the stream ends |
| `LineFraming.SurvivorsComeBack` | crates/rust-mcp-transport/src/mcp_stream.rs:181-245 | payloads without newline or trailing carriage return that fit the cap come back as the same sequence |
| `LineFraming.ComesBackIffSurvives` | crates/rust-mcp-transport/src/mcp_stream.rs:181-245 | those conditions on a payload are exact |
| `LineFraming.ComesBackAs` | crates/rust-mcp-transport/src/mcp_stream.rs:181-245 | what any newline-free payload comes back as: too long iff over the cap, else itself without one carriage return at its end |
| `LineFraming.DeliveredAlone` | crates/rust-mcp-transport/src/mcp_stream.rs:114-163 | a written payload delivers its decoded text iff it fits the cap and decodes, else nothing |
| `LineFraming.NoiseIsLocal` | crates/rust-mcp-transport/src/mcp_stream.rs:114-163 | delivery of a sequence is the concatenation of each payload's own delivery, so dropped lines change neither delivery nor order of others |
| `Text.TrimIs` | crates/rust-mcp-transport/src/client_streamable_http.rs:361 | trimming takes away all the white space around a text and nothing else |
| `Text.SpacesAre` | crates/rust-mcp-transport/src/utils/sse_parser.rs:119-124 | which ASCII characters are white space |
| `Text.ParsesIff` | crates/rust-mcp-transport/src/utils/sse_parser.rs:155-157 | a number is read iff it is digits, with or without one plus sign, of a value below the type's limit |
| `SseParsing.SseParser.TakeLines` | crates/rust-mcp-transport/src/utils/sse_parser.rs:49-54 | moves exactly the complete lines out of the buffer and leaves the incomplete tail |
| `SseParsing.SseParser.ProcessNewChunk` | crates/rust-mcp-transport/src/utils/sse_parser.rs:46-93 | the events and the new buffer are those of the old buffer and the new bytes taken as one text |
| `SseParsing.ParseSseMessage` | crates/rust-mcp-transport/src/utils/sse_parser.rs:95-172 | the loop over the lines of a message computes the fold whose inverse is proved in `SseDelivery` |
| `SseParsing.LineMeans` | crates/rust-mcp-transport/src/utils/sse_parser.rs:104-130 | what each form of line means, whatever follows the name; `data:` may stand alone |
| `SseParsing.OtherLinesAreSkipped` | crates/rust-mcp-transport/src/utils/sse_parser.rs:127-130 | every other line is skipped |
| `SseParsing.SkippedLinesDoNotMatter` | crates/rust-mcp-transport/src/utils/sse_parser.rs:104-142 | a comment or unknown line anywhere in a message makes no difference |
| `SseParsing.CommentsDoNotMatter` | crates/rust-mcp-transport/src/utils/sse_parser.rs:104-107 | a comment line anywhere in a message makes no difference |
| `SseParsing.ProcessInTwo` | crates/rust-mcp-transport/src/utils/sse_parser.rs:46-93 | cutting the bytes at any point gives the same events and leaves the same buffer |
| `SseParsing.ChunkingIsInvisible` | crates/rust-mcp-transport/src/utils/sse_parser.rs:46-93 | for every byte stream and every way it is cut into chunks: the same events in order and the same final buffer |
| `SseDelivery.TextLinesAre` | crates/rust-mcp-transport/src/utils/sse_event.rs:70-104 | the data lines of any text: the pieces its newlines end, and the rest unless empty |
| `SseDelivery.ParseEventLines` | crates/rust-mcp-transport/src/utils/sse_event.rs:70-104 | the lines of a formatted event, its fields on one line each, parse back to that event, ids and names trimmed |
| `SseDelivery.ParseFormatted` | crates/rust-mcp-transport/src/utils/sse_event.rs:70-104 | a formatted stream, parsed from any point between two events, gives back exactly its non-blank events |
| `SseDelivery.EventsRoundTrip` | crates/rust-mcp-transport/src/utils/sse_parser.rs:46-172 | for every sequence of events with fields on one line and data of any number of lines, and every chunking: the parser reports exactly those events, ids and names trimmed, data rejoined line by line |
| `SseDelivery.ReportedFieldsAreClean` | crates/rust-mcp-transport/src/utils/sse_parser.rs:46-172 | whatever the bytes, every reported id and event name is trimmed and on one line |
| `SseDelivery.FieldsComeBackIff` | crates/rust-mcp-transport/src/utils/sse_event.rs:70-104 | an event comes back with its own id and name iff those are trimmed and on one line |
| `MultilineData.DataComesBackIff` | crates/rust-mcp-transport/src/utils/sse_parser.rs:143-150 | data comes back as itself and one newline iff its lines are non-blank ones alternating with blank ones, as every non-empty single line is |
| `MultilineData.TwoLinesComeBackApart` | crates/rust-mcp-transport/src/utils/sse_parser.rs:143-150 | two lines of data come back with a blank line between them |
| `SseDelivery.RelayIsFaithfulIffSeparable` | crates/rust-mcp-sdk/src/mcp_http/http_utils.rs:225-258 | the relay recovers id and payload of a tagged line iff the id is separable, with the exact condition |
| `SseDelivery.WriteTagged` | crates/rust-mcp-transport/src/message_dispatcher.rs:404-440 | the server writes id and separator if there is an id, then payload and newline |
| `SseDelivery.DeliverableIff` | crates/rust-mcp-sdk/src/mcp_http/http_utils.rs:225-258 | through tagging, relay, formatter, parser and line reader: a message alone on a stream comes out as one event with its own id and as its own payload iff it is deliverable |
| `SseDelivery.StreamedPayloadsArrive` | crates/rust-mcp-transport/src/utils/streamable_http_stream.rs:384-409 | on the standalone stream, end to end through tagging, relay, formatter, parser and line reader, in any two chunkings: with keep-alives anywhere between the messages: each event carries its own id and the payloads come back in order, even on a broken stream |
| `SseDelivery.KeepAliveIsTwoLines` | crates/rust-mcp-transport/src/sse.rs:263-291 | a keep-alive is two empty lines, which the relay turns into blank events |
| `ClientStreams.StandaloneReader.TakeChunk` | crates/rust-mcp-transport/src/utils/streamable_http_stream.rs:384-410 | one chunk: every event with data is passed on, its id remembered, the rest kept in the parser |
| `ClientStreams.StandaloneReader.TakeConnection` | crates/rust-mcp-transport/src/utils/streamable_http_stream.rs:344-429 | the chunks of a connection, read by the parser that served the connections before |
| `ClientStreams.TakeMore` | crates/rust-mcp-transport/src/utils/streamable_http_stream.rs:309-431 | connections and chunks may be cut anywhere: reading one after the other is reading them together |
| `ClientStreams.SentIsData` | crates/rust-mcp-transport/src/utils/streamable_http_stream.rs:389-407 | the standalone stream passes on all the data of all its events, in order |
| `ClientStreams.TakeEvents` | crates/rust-mcp-transport/src/utils/streamable_http_stream.rs:178-199 | the loop over a chunk's events: their data in order, whether any had data, whether any had an id |
| `ClientStreams.RunPost` | crates/rust-mcp-transport/src/utils/streamable_http_stream.rs:129-211 | for every course of chunks, ends, errors and cancellation: the data of all events up to the turn it stops at, the first that is neither a chunk without data nor an end after an id, and the reason why it stops there |
| `ClientStreams.ReadAnswer` | crates/rust-mcp-transport/src/utils/streamable_http_stream.rs:129-211 | the answer to a POST is read up to the first chunk that completes an event with data; that is everything iff no later chunk completes one |
| `ClientStreams.PostDeliversAllIff` | crates/rust-mcp-transport/src/utils/streamable_http_stream.rs:200-203 | the same of the specification functions |
| `ClientStreams.TwoChunksLoseTheSecond` | crates/rust-mcp-transport/src/utils/streamable_http_stream.rs:200-203 | two messages that arrive in two chunks: the second is in the response and is not delivered |
| `EventStore.Store.StoreEvent` | crates/rust-mcp-transport/src/event_store/in_memory_event_store.rs:152-184 | pushes onto that session's bounded queue only, and returns the event id |
| `EventStore.Store.StoreEach` | crates/rust-mcp-transport/src/event_store/in_memory_event_store.rs:152-184 | storing a session's events in order leaves the retained ones, other sessions untouched |
| `EventStore.RetainedIsLast` | crates/rust-mcp-transport/src/event_store/in_memory_event_store.rs:168-184 | the retained events are exactly the last `max`; a limit of zero keeps all |
| `EventStore.Store.Replay` | crates/rust-mcp-transport/src/event_store/in_memory_event_store.rs:240-279 | an unreadable id is an error, an unknown session gives nothing, else the replay of that session's queue |
| `EventStore.SortIsSorted` | crates/rust-mcp-transport/src/event_store/in_memory_event_store.rs:257-267 | replayed entries are in order of time and none is lost |
| `EventStore.SortIsStable` | crates/rust-mcp-transport/src/event_store/in_memory_event_store.rs:257-267 | entries of the same time keep their order |
| `EventStore.ReplayIsSorted` | crates/rust-mcp-transport/src/event_store/in_memory_event_store.rs:240-279 | for all timestamps: the replay is the stable sort by time of what was stored in the stream after the first stored event with that id |
| `EventStore.ReplayIsExactIff` | crates/rust-mcp-transport/src/event_store/in_memory_event_store.rs:240-279 | for all timestamps: exactly the messages missed iff the event is stored, no earlier stored event has its id and the sort leaves them in place, or it is not stored and nothing was missed |
| `EventStore.ReplayInOrderIsExactIff` | crates/rust-mcp-transport/src/event_store/in_memory_event_store.rs:240-279 | with times that do not decrease within a stream the sort drops out of that condition |
| `EventStore.SortKeepsPlacesIff` | crates/rust-mcp-transport/src/event_store/in_memory_event_store.rs:257-267 | messages that differ stay in place iff their times do not decrease |
| `EventStore.SharedTimestampReplaysTwice` | crates/rust-mcp-transport/src/event_store/in_memory_event_store.rs:240-279 | two events with one timestamp: the second is replayed to a client that saw it |
| `EventStore.EventIdRoundTripsIff` | crates/rust-mcp-transport/src/event_store/in_memory_event_store.rs:73-135 | parse of generate returns session, stream and time iff both are usable and free of the separator, also across their ends |
| `Leftovers.Leftover` | crates/rust-mcp-transport/src/utils/sse_parser.rs:46-93 | the parser's buffer is always the lines of one unfinished message and an unfinished line |
| `Leftovers.ProcessAfter` | crates/rust-mcp-transport/src/utils/sse_parser.rs:46-93 | what follows is parsed as if the unfinished message and line stood in front of it |
| `Leftovers.KeepAliveFirst` | crates/rust-mcp-transport/src/sse.rs:263-291 | a keep-alive after any leftover ends the open message, and passes on its data, when no line is unfinished, else only that line |
| `Leftovers.MessageFirst` | crates/rust-mcp-sdk/src/mcp_http/http_utils.rs:225-258 | a message after any leftover: its first line is glued to the unfinished one, its blank line ends the open message, later ones are unaffected |
| `Leftovers.MessagesArriveIff` | crates/rust-mcp-transport/src/utils/sse_parser.rs:95-172 | for every text read before and everything a server writes next, keep-alives included: exactly its messages come out of the line reader iff the leftover admits them, a condition on the leftover's lines, its unfinished line and the first line written |
| `Leftovers.ServerLeftover` | crates/rust-mcp-sdk/src/mcp_http/http_utils.rs:225-258 | wherever a server's stream breaks, the open message has its data line only if no line is unfinished |
| `Resumption.ResponseArrivesIff` | crates/rust-mcp-transport/src/utils/streamable_http_stream.rs:384-410 | on the kept parser, in any chunking and after any number of earlier responses: a response delivers exactly its messages iff the leftover lets them through |
| `Resumption.ResumedClientCatchesUpIff` | crates/rust-mcp-transport/src/utils/streamable_http_stream.rs:309-431 | for everything read before, every chunking and any keep-alives, through store, relay, the kept parser and reader: the client receives exactly what it missed iff the leftover lets it through |
| `Resumption.FirstBreakIffClear` | crates/rust-mcp-transport/src/utils/streamable_http_stream.rs:309-431 | wherever a server's stream first breaks, a replay gets through iff the parser was left without an unfinished line and without data |
| `Resumption.CutInsideALine` | crates/rust-mcp-transport/src/utils/streamable_http_stream.rs:309-386 | a stream cut after the first byte of a data line: the first message replayed is lost, the others arrive |
| `Resumption.KeepAliveSavesAMessage` | crates/rust-mcp-transport/src/sse.rs:263-291 | the same cut, with a keep-alive before the replay: every message arrives |
| `Resumption.CutBeforeTheBlankLine` | crates/rust-mcp-transport/src/utils/streamable_http_stream.rs:309-386 | a stream cut before the blank line of an event: that event's data arrives in front of the first message replayed |
| `Resumption.CutTwice` | crates/rust-mcp-transport/src/utils/streamable_http_stream.rs:309-386 | cut there, and the repeated message cut inside its line: the message held arrives in place of the one lost |
| `Resumption.SeparatorMovesTheCursor` | crates/rust-mcp-sdk/src/mcp_http/http_utils.rs:239-255 | a replayed message with a separator: the client passes on what follows it and remembers what precedes it as its last event id |
| `Resumption.StrangeIdReplaysNothing` | crates/rust-mcp-sdk/src/mcp_http/http_utils.rs:286-309 | an id without the separator of the store's ids is not read, so nothing is replayed for it |
| `Reconnects.ReplayComesFromStore` | crates/rust-mcp-transport/src/event_store/in_memory_event_store.rs:240-279 | for every log, limit, number of entries stored and last event: the places that `Replay` names hold exactly the messages the bounded, shared store finds |
| `Reconnects.PresentedIdReplays` | crates/rust-mcp-sdk/src/mcp_http/http_utils.rs:286-309 | the id a client presents names its stream and time, and what the store finds for it is that replay |
| `Reconnects.ReplayInOrder` | crates/rust-mcp-transport/src/event_store/in_memory_event_store.rs:240-279 | with timestamps in order: everything stored after the last event while that is still held, nothing from then on |
| `Reconnects.NoGapsIff` | crates/rust-mcp-sdk/src/mcp_http/http_utils.rs:286-309 | over any run of connections, any interleaving of replay and live messages, any timestamps and any eviction: nothing up to the last event id is missing iff every gap before a live message had arrived or is replayed in the run |
| `Reconnects.SkippedForGood` | crates/rust-mcp-transport/src/utils/streamable_http_stream.rs:317-431 | a message that the last event id has passed never arrives later, unless two stored events share an id |
| `Reconnects.FilledInTimeIff` | crates/rust-mcp-transport/src/utils/streamable_http_stream.rs:317-431 | so nothing is missing iff every gap is filled by the end of the connection whose live message passes it |
| `Reconnects.NothingSkippedIff` | crates/rust-mcp-transport/src/utils/streamable_http_stream.rs:317-431 | with timestamps in order: iff on every connection the first live message comes no later than where replays and live messages have reached |
| `Reconnects.ExactlyOnceIff` | crates/rust-mcp-transport/src/utils/streamable_http_stream.rs:317-431 | over any such run: each message arrives exactly once and in order iff every connection is orderly |
| `Reconnects.OrderlyInOrderIff` | crates/rust-mcp-sdk/src/mcp_http/http_utils.rs:286-309 | with timestamps in order, for a client that is up to date with its id: iff no message is live, or the replay is over before the live messages and those begin where it ended |
| `Reconnects.EvictedReplaySkips` | crates/rust-mcp-transport/src/event_store/in_memory_event_store.rs:168-184 | for every limit: the last event is evicted, the messages missed are all still held, and none is replayed |
| `Reconnects.OvertakenReplaySkips` | crates/rust-mcp-sdk/src/mcp_http/http_utils.rs:286-309 | a live message is written before the replay and the connection breaks: whatever follows, the replayed message never arrives |
| `Reconnects.LiveAndReplayed` | crates/rust-mcp-sdk/src/mcp_http/http_utils.rs:286-309 | a message stored before the replay is looked up arrives live and replayed |
| `Reconnects.BrokenReplayRepeats` | crates/rust-mcp-transport/src/utils/streamable_http_stream.rs:393-396 | a connection that breaks during its replay is followed by the same messages again |
| `Reconnects.ManyConnections` | crates/rust-mcp-transport/src/utils/streamable_http_stream.rs:317-431 | on the wire, in any chunking and with any keep-alives: the client passes on exactly the messages of that run and presents the id of the last live one |
| `PendingRequests.PendingTable.StorePendingRequest` | crates/rust-mcp-transport/src/message_dispatcher.rs:110-119 | registers a fresh waiter under the id |
| `PendingRequests.PendingTable.DeliverResponse` | crates/rust-mcp-transport/src/stdio.rs:252-255 | removes the entry and hands the response to the waiter found, at most once |
| `PendingRequests.PendingTable.ClearAll` | crates/rust-mcp-transport/src/stdio.rs:212-217 | empties the table and closes every waiting channel |
| `PendingRequests.PendingTable.GiveUp` | crates/rust-mcp-transport/src/utils.rs:56-65 | a time-out resolves the waiter and leaves its entry in the table |
| `PendingRequests.OutcomeIsFate` | crates/rust-mcp-transport/src/message_dispatcher.rs:110-208 | in every run a waiter holds exactly the first thing that happened to it after registration |
| `PendingRequests.TableIsExact` | crates/rust-mcp-transport/src/message_dispatcher.rs:110-137 | in every run an id is in the table iff it was registered and neither delivered nor cleared since |
| `PendingRequests.ResolvesOnce` | crates/rust-mcp-transport/src/message_dispatcher.rs:157-208 | no later step changes what a waiter got |
| `PendingRequests.NeverAnothersResponse` | crates/rust-mcp-transport/src/message_dispatcher.rs:157-208 | a waiter only gets a response delivered under its own id after it registered |
| `PendingRequests.AnsweredIffDeliveredAfter` | crates/rust-mcp-transport/src/message_dispatcher.rs:157-208 | a waiter that nothing disturbs is answered iff a response is delivered after its registration |
| `PendingRequests.AnsweredWithFirst` | crates/rust-mcp-transport/src/message_dispatcher.rs:157-208 | the response an undisturbed waiter gets is the first one delivered under its id after it registered |
| `PendingRequests.SendsWhatItRegisters` | crates/rust-mcp-transport/src/message_dispatcher.rs:157-233 | every send registers exactly the requests it shows to the peer |
| `PendingRequests.RegisteredBeforeWritten` | crates/rust-mcp-transport/src/message_dispatcher.rs:306-355 | in every interleaving: client sends and server single sends register before they write, a server batch writes first |
| `PendingRequests.WaiterAnsweredIff` | crates/rust-mcp-transport/src/message_dispatcher.rs:157-208 | in any run an undisturbed waiter has a response iff one was delivered under its id after it registered |
| `PendingRequests.ResponseFindsItsWaiterIff` | crates/rust-mcp-transport/src/message_dispatcher.rs:157-208 | with a peer that answers only what it was shown: a server batch is answered iff delivered after registering, every other send iff delivered at all |
| `PendingRequests.ServerBatchCanMissAResponse` | crates/rust-mcp-transport/src/message_dispatcher.rs:332-355 | for every server batch and every request in it: a causal run in which it misses the response |
| `BatchReplies.RequestsAreTheRequests` | crates/rust-mcp-transport/src/message_dispatcher.rs:189-200 | the filtered list has exactly the requests, with their multiplicities |
| `BatchReplies.EntriesMatchIffAllHaveIds` | crates/rust-mcp-transport/src/message_dispatcher.rs:189-233 | through filter, unzip, filter_map and zip: one entry per request iff every request has an id, and then entry i is built from request i's own waiter and id |
| `BatchReplies.BatchGetsItsOwnResponses` | crates/rust-mcp-transport/src/message_dispatcher.rs:331-375 | in any run, entry i is a response delivered under request i's id after it registered, or a failure carrying that id |
| `BatchReplies.EntryIsFate` | crates/rust-mcp-transport/src/message_dispatcher.rs:220-233 | in any run, entry i is the response its waiter got, as it is, or a failure with the request's id and what happened to the waiter instead |
| `BatchReplies.RequestIsAnsweredIff` | crates/rust-mcp-transport/src/message_dispatcher.rs:220-233 | an undisturbed request is answered iff a response is delivered under its id after it registered, and then with the first such response |
| `AckedWrites.WritePath.constructor` | crates/rust-mcp-transport/src/client_streamable_http.rs:317-333 | the initial state of the protocol |
| `AckedWrites.WritePath.Submit` | crates/rust-mcp-transport/src/message_dispatcher.rs:273-280 | is the submit step: a send fails at once iff the worker is gone |
| `AckedWrites.WritePath.Enqueue` | crates/rust-mcp-transport/src/client_streamable_http.rs:320-328 | is the step by which the bounded channel takes a waiting send |
| `AckedWrites.WritePath.Turn` | crates/rust-mcp-transport/src/client_streamable_http.rs:350-370 | one turn of the select: stop on cancellation or closed channel, else start the next POST with the trimmed payload |
| `AckedWrites.WritePath.Acknowledge` | crates/rust-mcp-transport/src/client_streamable_http.rs:360-363 | is the step that answers the writer of the posted item |
| `AckedWrites.RunInvariant` | crates/rust-mcp-transport/src/client_streamable_http.rs:350-370 | in every interleaving: order, capacity, one place per open call, no lost call, honest results, errors that tell whether the payload was enqueued |
| `AckedWrites.PostsAreAPrefix` | crates/rust-mcp-transport/src/client_streamable_http.rs:350-370 | the bodies posted are those of the first items enqueued, in order, none skipped or repeated |
| `AckedWrites.PostsAreTheTrimmedPayloads` | crates/rust-mcp-transport/src/client_streamable_http.rs:359-363 | in every run, the i-th body posted is the payload its writer submitted without the white space around it: no more and no less is taken away |
| `AckedWrites.EveryCallIsTaken` | crates/rust-mcp-transport/src/message_dispatcher.rs:273-280 | a call is always noted under its payload; it fails at once iff the worker is gone |
| `AckedWrites.EveryWriterCanBeServed` | crates/rust-mcp-transport/src/client_streamable_http.rs:350-370 | from every reachable state, every call without an answer can still be told any result its POST may have: no interleaving leaves a writer stuck |
| `AckedWrites.CancellingEndsTheWorker` | crates/rust-mcp-transport/src/client_streamable_http.rs:350-370 | from every reachable state the worker stops within three steps of the POST in hand and the cancellation, and then everyone has an answer |
| `AckedWrites.WithoutCancellingNobodyFails` | crates/rust-mcp-transport/src/client_streamable_http.rs:350-370 | unless somebody cancels, a call made before the worker stopped is only ever told the result of its POST |
| `AckedWrites.AnswerNeverChanges` | crates/rust-mcp-transport/src/message_dispatcher.rs:273-280 | each writer gets at most one answer |
| `AckedWrites.ResultIsOwn` | crates/rust-mcp-transport/src/message_dispatcher.rs:273-280 | a result told to a writer is the result of posting its own payload |
| `AckedWrites.StoppedLeavesNobodyWaiting` | crates/rust-mcp-transport/src/client_streamable_http.rs:350-370 | once the worker has stopped every call has an answer; an unposted one has a closed-channel error if it was enqueued, else a send error |
| `SchemaDerive.DeriveStruct` | crates/rust-mcp-macros/src/lib.rs:386-436 | the emitted inserts and pushes build the schema of the struct |
| `SchemaDerive.PropertyOfField` | crates/rust-mcp-macros/src/lib.rs:388-403 | with distinct keys every field's property is the schema of its own type and attributes |
| `SchemaDerive.RequiredKeys` | crates/rust-mcp-macros/src/lib.rs:405-419 | a key is required iff some non-optional field has it |
| `SchemaDerive.NotesAreTheAttributes` | crates/rust-mcp-macros/src/utils.rs:259-577 | the schema carries exactly the given title, description and default, and the format where it applies |
| `SchemaDerive.TypeExcludesAlternatives` | crates/rust-mcp-macros/src/utils.rs:290-351 | no schema with a `type` also carries `enum`, `oneOf` or `anyOf`; only enums and their options have no `type` |
| `SchemaDerive.EnumAcceptsNamedOnce` | crates/rust-mcp-macros/src/lib.rs:440-597 | whatever the names, the schema of a unit-only enum accepts exactly the strings that name one variant and no other |
| `SchemaDerive.EnumExact` | crates/rust-mcp-macros/src/lib.rs:440-597 | with distinct names it accepts exactly the variant names |
| `SchemaDerive.NullableMeansNullOr` | crates/rust-mcp-macros/src/utils.rs:290-351 | the nullability step on any schema whose `type` stands alone: what it accepted before, and null |
| `SchemaDerive.OptionLaw` | crates/rust-mcp-macros/src/utils.rs:259-355 | for every type and all attributes, how the schema of `Option<T>` relates to that of `T` |
| `SchemaDerive.OptionMeansNullOr` | crates/rust-mcp-macros/src/utils.rs:259-355 | "null or T" for every value iff no variant of an optional enum breaks the length attributes |
| `SchemaDerive.NestedOption` | crates/rust-mcp-macros/src/utils.rs:290-351 | an option of an option has the schema of the option when the core type has a `type` |
| `SchemaDerive.SchemaIsExact` | crates/rust-mcp-macros/src/utils.rs:170-577 | for every type, all attributes and every JSON value: the schema accepts the value iff it is the JSON form of the type within the attributes' limits |
| `SchemaValues.DecodeEncode` | crates/rust-mcp-macros/src/lib.rs:380-597 | serialising and deserialising returns the value, up to nested options |
| `SchemaValues.DecodedHasTy` | crates/rust-mcp-macros/src/lib.rs:380-597 | what is deserialised at a type is a value of that type |
| `SchemaValues.EncodedValidates` | crates/rust-mcp-macros/src/lib.rs:380-597 | every encoded value passes the derived schema |
| `SchemaValues.DecodableValidates` | crates/rust-mcp-macros/src/lib.rs:380-597 | every decodable JSON value passes the derived schema |
| `SchemaValues.SchemaMatchesDecodingIff` | crates/rust-mcp-macros/src/utils.rs:170-577 | the schema accepts exactly the decodable values iff the type holds no fixed-width integer |
| `ElicitForm.FromContent` | crates/rust-mcp-macros/src/elicit/generator.rs:65-163 | success gives every field the decoding of its own entry; failure is that of the first failing field |
| `ElicitForm.ContentRoundTrip` | crates/rust-mcp-macros/src/elicit/generator.rs:65-163 | decoding the content map of a struct returns that struct, unknown entries notwithstanding |
| `ElicitForm.DecodesExactly` | crates/rust-mcp-macros/src/elicit/generator.rs:65-163 | a content map decodes to a struct iff every field's value is of its Rust type, or absent and optional, and is the very entry under its key |
| `ElicitForm.FailsWith` | crates/rust-mcp-macros/src/elicit/generator.rs:74-163 | for each of the three errors, exactly when a field fails with it |
| `ElicitForm.DecodesIsAFunction` | crates/rust-mcp-macros/src/elicit/generator.rs:65-110 | a content map decodes to at most one struct, and that one is well typed |
| `ElicitForm.DecodableIffSchemaAccepts` | crates/rust-mcp-macros/src/elicit/generator.rs:127-163 | decoding succeeds iff the derived schema accepts the content and every `i32` is in range |
| `ElicitForm.DecodesLikeSerde` | crates/rust-mcp-macros/src/elicit/generator.rs:127-163 | an entry is taken for a field iff deserialising its JSON at the field's type succeeds |
| `ElicitForm.StripOfOption` | crates/rust-mcp-macros/src/elicit/generator.rs:185-209 | stripping undoes exactly the nullability step of `Option` |
| `ElicitForm.StripGivesInnerIff` | crates/rust-mcp-macros/src/elicit/generator.rs:185-209 | stripping null from the schema of `Option<T>` gives `T`'s schema, with the exact condition |
| `ElicitForm.StrippedAcceptsTheSame` | crates/rust-mcp-macros/src/elicit/generator.rs:185-231 | whatever the attributes, the projected schema accepts what `T`'s schema accepts |
| `JwtCache.Cache.Recent` | crates/rust-mcp-extra/src/token_verifier/jwt_cache.rs:23-27 | answers the specified recency test |
| `JwtCache.Cache.RecordKey` | crates/rust-mcp-extra/src/token_verifier/jwt_cache.rs:30-47 | the in-place updates are the specified record step and keep the invariant |
| `JwtCache.Cache.Expire` | crates/rust-mcp-extra/src/token_verifier/jwt_cache.rs:50-66 | the two loops drop exactly the expired keys from map and order |
| `JwtCache.RunInvariant` | crates/rust-mcp-extra/src/token_verifier/jwt_cache.rs:30-66 | after every history: order is duplicate-free and lists the map's keys, at most max(capacity, 1) entries, every entry carries its key's latest record |
| `JwtCache.RecentIsTrue` | crates/rust-mcp-extra/src/token_verifier/jwt_cache.rs:23-47 | a positive answer implies that the latest record in the whole history is within the interval |
| `JwtCache.FewKeysFit` | crates/rust-mcp-extra/src/token_verifier/jwt_cache.rs:30-47 | a history with at most `capacity` distinct keys always fits |
| `JwtCache.RecentIsExactWhenItFits` | crates/rust-mcp-extra/src/token_verifier/jwt_cache.rs:23-47 | a cache that fits answers like the unbounded last-seen map |
| `JwtCache.OverflowLosesALiveKey` | crates/rust-mcp-extra/src/token_verifier/jwt_cache.rs:30-47 | recording beyond the capacity makes some live key be reported as not recent |
| `JwtCache.ExactIffItSpares` | crates/rust-mcp-extra/src/token_verifier/jwt_cache.rs:23-66 | with both clock readings of every record: the cache is exact throughout a history iff at each record the live keys fit or the one live longest expires before the second reading, a condition on the records alone |
| `JwtCache.ResidentSinceLive` | crates/rust-mcp-extra/src/token_verifier/jwt_cache.rs:30-47 | as long as the cache is exact, a key has been resident exactly since it has been live |
| `JwtCache.SparesIffItFits` | crates/rust-mcp-extra/src/token_verifier/jwt_cache.rs:30-47 | when the two readings coincide that is: iff what is live always fits |
| `JwtCache.EvictedInTime` | crates/rust-mcp-extra/src/token_verifier/jwt_cache.rs:30-47 | a history that does not fit and is exact all the same |
| `JwtCache.SweepIsInvisible` | crates/rust-mcp-extra/src/token_verifier/jwt_cache.rs:50-66 | a `remove_expired` anywhere changes no present or later answer |
| `JwtCache.OrderIsByArrival` | crates/rust-mcp-extra/src/token_verifier/jwt_cache.rs:30-47 | `order` is sorted by time of residence |
| `JwtCache.EvictsLongestResident` | crates/rust-mcp-extra/src/token_verifier/jwt_cache.rs:30-47 | capacity eviction happens only when full and removes the longest-resident key |
| `TokenVerifier.Unpack` | crates/rust-mcp-extra/src/token_verifier/generic_token_verifier.rs:103-146 | fails on the first address that does not parse; else the last strategy of each kind, and caching iff JWKS comes with a remote method |
| `TokenVerifier.EndpointIsOfItsKind` | crates/rust-mcp-extra/src/token_verifier/generic_token_verifier.rs:103-146 | each endpoint is the address of the last strategy of its own kind |
| `TokenVerifier.NewVerifier` | crates/rust-mcp-extra/src/token_verifier/generic_token_verifier.rs:168-201 | fails iff some address does not parse; a verifier has an empty cache iff its strategies mix JWKS and a remote method |
| `TokenVerifier.TokenPassesIff` | crates/rust-mcp-extra/src/token_verifier/generic_token_verifier.rs:375-418 | a token passes, with its id, iff the keys in force accept it: those held while less than a day old, else those the server hands out now; the keys held change exactly when new ones were needed and came |
| `TokenVerifier.Verifier.VerifyJwks` | crates/rust-mcp-extra/src/token_verifier/generic_token_verifier.rs:375-418 | the read-modify-write on the key cache is that check |
| `TokenVerifier.JwksKeysAreFresh` | crates/rust-mcp-extra/src/token_verifier/generic_token_verifier.rs:357-418 | a token passes only against keys the server handed out less than a day before |
| `TokenVerifier.RunHoldsGenuineKeys` | crates/rust-mcp-extra/src/token_verifier/generic_token_verifier.rs:357-373 | in every run the keys held are keys the server handed out at the time they carry |
| `TokenVerifier.Verifier.VerifyToken` | crates/rust-mcp-extra/src/token_verifier/generic_token_verifier.rs:423-467 | with a cache, a call is the specified step on keys and cache, and the JWKS-only fall-through is unreachable |
| `TokenVerifier.VerifyIsBeginThenFinish` | crates/rust-mcp-extra/src/token_verifier/generic_token_verifier.rs:423-467 | an uninterrupted call is a begin step and, if that leaves it waiting, a finish step |
| `TokenVerifier.CallAcceptsIff` | crates/rust-mcp-extra/src/token_verifier/generic_token_verifier.rs:423-467 | a call accepts iff the keys in force accept the token and its id is recent or the remote endpoint accepts it; a rejected call records nothing |
| `TokenVerifier.CacheIsItsHistory` | crates/rust-mcp-extra/src/token_verifier/generic_token_verifier.rs:423-467 | in every run of interleaved calls the cache is that of its history of records |
| `TokenVerifier.AcceptanceHasProvenance` | crates/rust-mcp-extra/src/token_verifier/generic_token_verifier.rs:423-467 | every acceptance passed the JWKS check in that call, and either asked remotely in that call or found its id recorded by a successful remote check at most 15 minutes before |
| `TokenVerifier.CachingIsTransparent` | crates/rust-mcp-extra/src/token_verifier/generic_token_verifier.rs:423-467 | if recorded ids identify tokens (section 4.1.7 of RFC 7519) and verdicts last 15 minutes, the caching verifier holds the same keys and accepts exactly what a verifier that never caches accepts in its own run over the same steps |
| `SnowflakeIds.ComposeIsSum` | crates/rust-mcp-extra/src/id_generator/snow_flake_id_generator.rs:88-91 | masked, shifted and joined bit by bit, the three fields do not overlap |
| `SnowflakeIds.PartsAreRecovered` | crates/rust-mcp-extra/src/id_generator/snow_flake_id_generator.rs:88-91 | timestamp, machine and sequence are read back from an id, which fits 63 bits |
| `SnowflakeIds.MachinesNeverCollide` | crates/rust-mcp-extra/src/id_generator/snow_flake_id_generator.rs:88-91 | different machine ids never give the same id |
| `SnowflakeIds.OrderedLikeTimestamps` | crates/rust-mcp-extra/src/id_generator/snow_flake_id_generator.rs:88-91 | ids of one machine are ordered, and equal, iff their timestamps modulo 2^41 are |
| `SnowflakeIds.Generator.NextId` | crates/rust-mcp-extra/src/id_generator/snow_flake_id_generator.rs:62-92 | for every value of the sequence cell: its low bits are counted on only within a millisecond and when they are not zero; else the cell is zero, and so it stays from then on, and the id has sequence zero and the timestamp the call settles on |
| `SnowflakeIds.IssueAll` | crates/rust-mcp-extra/src/id_generator/snow_flake_id_generator.rs:62-92 | a sequence of calls issues the ids of the settled timestamps |
| `SnowflakeIds.OneIdPerMillisecondIff` | crates/rust-mcp-extra/src/id_generator/snow_flake_id_generator.rs:62-86 | every call settles on a later millisecond than all before it iff the clock never goes back |
| `SnowflakeIds.IdsIncreaseIff` | crates/rust-mcp-extra/src/id_generator/snow_flake_id_generator.rs:62-92 | below 2^41 milliseconds the ids strictly increase iff the clock never goes back |
| `SnowflakeIds.IdsRepeatIff` | crates/rust-mcp-extra/src/id_generator/snow_flake_id_generator.rs:62-92 | two calls return the same id iff the timestamps they settle on agree modulo 2^41 |
| `SnowflakeIds.ClockSetBackRepeatsAnId` | crates/rust-mcp-extra/src/id_generator/snow_flake_id_generator.rs:62-86 | a clock set back by a millisecond and on again issues an id twice |
| `FastIds.Base64RoundTrip` | crates/rust-mcp-sdk/src/id_generator/fast_id_generator.rs:46-49 | every byte sequence is recovered from its unpadded Base64url encoding |
| `FastIds.EncodedInAlphabet` | crates/rust-mcp-sdk/src/id_generator/fast_id_generator.rs:46-49 | each character is the letter of the URL-safe alphabet that its sextet names |
| `FastIds.IdRecoversCounter` | crates/rust-mcp-sdk/src/id_generator/fast_id_generator.rs:43-52 | the counter is decoded from the id |
| `FastIds.Generator.Generate` | crates/rust-mcp-sdk/src/id_generator/fast_id_generator.rs:43-52 | returns the id of the counter and advances it modulo 2^64 |
| `FastIds.Generator.GenerateMany` | crates/rust-mcp-sdk/src/id_generator/fast_id_generator.rs:43-52 | a run of calls returns the ids of consecutive counters |
| `FastIds.IdsRepeatExactlyAfterU64` | crates/rust-mcp-sdk/src/id_generator/fast_id_generator.rs:43-52 | ids are distinct within any 2^64 consecutive calls, and the next one repeats |
| `Endpoints.RouteIgnoresSessionId` | crates/rust-mcp-transport/src/utils.rs:77-106 | the route of an endpoint is the same before and after adding any session id |
| `Endpoints.RouteIsThePath` | crates/rust-mcp-axum/src/utils.rs:1-11 | the route is the part of the endpoint before its first question mark or hash sign, or the root if that is empty |
| `Endpoints.RouteIsNormal` | crates/rust-mcp-axum/src/utils.rs:1-11 | normalising is idempotent; a route is not empty and has no query or fragment |
| `Endpoints.SessionIdKeepsPath` | crates/rust-mcp-transport/src/utils.rs:77-106 | the path is kept and followed by a query |
| `Endpoints.SessionIdKeepsFragment` | crates/rust-mcp-transport/src/utils.rs:77-106 | the fragment is kept when the session id has no hash sign |
| `Endpoints.SessionIdKeepsParams` | crates/rust-mcp-sdk/src/mcp_http/http_utils.rs:736-748 | every parameter the endpoint had keeps its value |
| `Endpoints.SessionIdReadBack` | crates/rust-mcp-sdk/src/mcp_http/http_utils.rs:736-748 | what the server reads back for every endpoint and session id |
| `Endpoints.SessionIdRoundTripsIff` | crates/rust-mcp-sdk/src/mcp_http/http_utils.rs:736-748 | the session id is read back unchanged, with the exact condition |

## Left out

- Axum and Actix servers, routes, runtimes and options: forwarding code.
- HTTP, JWT signature and claim checks, URL parsing, tokio timers and channels: inputs or abstract steps.
- UTF-8: text is a sequence of characters and a byte is the character with its code, so the lossy conversion in `line_to_string`, binary data in an event, and non-ASCII white space in `trim` are not modelled.
- HTTP connection attempts, retries, delays and the session id header of the streamable client; a JSON (not streamed) answer to a POST.
- `remove_stream_in_session`, `remove_by_session_id`, `clear` and `count` of the event store.
- SseDelivery.EventsRoundTrip: an id or event name with a newline inside is covered by `FieldsComeBackIff` only: it does not come back, and what comes instead is not described.
- Resumption.ResumedClientCatchesUpIff: one response that replays and no live messages; their interleaving is the subject of `Reconnects`.
- Reconnects.ManyConnections: connections that break between two events; a break elsewhere is the subject of `Leftovers` and `Resumption`. Messages are written live in the order they were stored, and hold no `|` when replayed. A client that has seen no id yet is sent no replay and is not covered.
- Reconnects.FilledInTimeIff: no earlier stored event shares the id of the client's last event; `NoGapsIff` is without that.
- PendingRequests.RegisteredBeforeWritten: an id is registered and written once per run, which is what distinct request ids give.
- TokenVerifier.CachingIsTransparent: rests on its two assumptions about the outside world on a clock that does not run backwards, and on call numbers that are not reused; `AcceptanceHasProvenance` needs none of them.
- TokenVerifier.Verifier.VerifyToken: the verdict, not the contents of the returned `AuthInfo`; audience, issuer and client credentials belong to the remote endpoint functions.
- Serde renaming: keys are taken as given, so the cases in which `renamed_field` and `json_field_name` read an attribute differently are not covered.
- Floating-point rounding (numbers are exact reals), data-carrying enum variants, recursive types, multi-segment paths and the fallback for unknown types.
- Whether a JSON integer is written `1` or `1.0`: numbers are reals and integers are those without a fraction.
- The selection of primitive schemas in `generate_form_schema` and the attribute parsers.
- SnowflakeIds.Generator.NextId: sequential calls with the clock readings as input; races between the relaxed atomics are not modelled.
- Task and session stores, identity providers, metadata builders, and the UUID, NanoId and Base62 generators.
