# Infocenter broker, modelled in Dafny

A model of the core of `infocenter-service`, an in-memory publish/subscribe
broker served over HTTP. Publishers post text to a named topic. Subscribers
hold a Server-Sent Events stream open on that topic. They can resume from the
last event ID they read.

The project has these modules:

- `Models` (`models.dfy`) holds the two records of `models/models.go`.
  `Message` is a value. `Topic` is a value holding its name, its set of
  subscriber handles and its history. The per-topic lock is not modelled.
- `Decimal` (`decimal.dfy`) covers int64 arithmetic and decimal text.
  - `AddInt64` is the two's-complement increment of `atomic.AddInt64`.
  - `FormatInt` is Go's `%d` verb.
  - `ParseInt64` is `strconv.ParseInt(s, 10, 64)`.
  - They are proved to round-trip.
- `Sse` (`sse.dfy`) holds the two event-frame builders of `utils/sse.go` as
  string functions. `IdField` reads a frame's `id` field the way an
  event-stream client does (WHATWG HTML Living Standard, section 9.2
  "Server-sent events").
- `Services` (`infocenter.dfy`) is the broker engine, a class
  `InfocenterService`. It holds:
  - the topic registry, a `map<string, Topic>`;
  - the int64 ID counter;
  - the subscriber mailboxes.

  A Go channel becomes a `nat` handle into `mailboxes`. Each mailbox holds its
  topic, its pending messages (at most 100) and a closed flag. Handles are
  never reused. `Valid()` is the structural invariant every method keeps.
  `Sequenced()` adds a ghost publication log. With it, IDs are unique across
  topics, and every history and mailbox is in ID order.
- `Handlers` (`handlers.dfy`) holds the two HTTP handlers.
  - The `Last-Event-ID` marker parser.
  - The replay filter and its loop.
  - The live loop, as a state machine `Step`/`Run` over abstract events:
    `Disconnect`, `Tick(now)`, `Received(message, now)` and `MailboxClosed`.
    The clock is an integer. `ServeLive` is the loop, proved against `Run`.
  - `ReceiveMessages`, which subscribes, snapshots, replays, serves the live
    loop and releases the subscription once the session closes.
  - `SendMessage`. A failed body read publishes nothing.
- `Scenarios` (`scenarios.dfy`) restates the repository's two tests in
  `infocenter_test.go` as methods with proved postconditions. It adds an idle
  timeout, a publish between subscribe and snapshot, and sample resume
  markers.

The handler subscribes before it takes the snapshot: `handlers/handlers.go`
line 59 comes before line 63. The model keeps that order. As a result, a
message published between the two steps is in both the snapshot and the new
mailbox. It may be delivered twice but is never lost
(`Scenarios.PublishBetweenSubscribeAndSnapshot`).

## Model

| member | source | states |
|---|---|---|
| Decimal.AddInt64 | infocenter-service/services/infocenter.go:79 | the increment stays an int64, agrees with the true sum modulo 2^64, and equals the true sum whenever that fits |
| Decimal.FormatInt | infocenter-service/utils/sse.go:13 | `%d` text is non-empty, starts with '-' iff the value is negative, and is otherwise all decimal digits |
| Decimal.ParseInt64 | infocenter-service/handlers/handlers.go:51 | a successful parse yields an int64, and only from decimal text: an optional sign, then digits, at least one |
| Decimal.CanonicalIsFormat | infocenter-service/handlers/handlers.go:51 | decimal text with its '+' and leading zeros dropped (and no '-' on zero) is the `%d` spelling of the value it denotes |
| Decimal.ParseInt64Value | infocenter-service/handlers/handlers.go:51 | the parse yields `v` iff the text is decimal syntax whose canonical spelling is the `%d` of the int64 `v`; malformed or out-of-range text is rejected |
| Decimal.ParseFormatRoundTrip | infocenter-service/handlers/handlers.go:51 | every int64 written with `%d` parses back to itself |
| Sse.MsgFrame | infocenter-service/utils/sse.go:12-15 | a delivery frame starts with "id: ", ends with the blank line, and is 24 characters plus the ID digits plus the content (the content goes in unescaped) |
| Sse.TimeoutFrame | infocenter-service/utils/sse.go:18-22 | a timeout frame starts with "id: ", ends with the blank line, and its data line is always `30s` |
| Sse.MsgFrameId | infocenter-service/utils/sse.go:13 | the `id` field of a delivery frame is exactly the decimal message ID |
| Sse.TimeoutFrameId | infocenter-service/utils/sse.go:20 | the `id` field of a timeout frame is exactly the decimal ID it was given |
| Sse.TimeoutIgnoresDuration | infocenter-service/utils/sse.go:18-20 | the timeout frame does not depend on the duration argument |
| Services.EnsureTopic | infocenter-service/services/infocenter.go:28-55 | get-or-create adds exactly the name; existing topics are untouched; a new topic is empty with no subscribers |
| Services.Cleanup | infocenter-service/services/infocenter.go:58-74 | the topic is removed iff it is present with no subscribers; every other entry is unchanged |
| Services.GetOrCreateIdempotent | infocenter-service/services/infocenter.go:30-54 | get-or-create twice is the same as once |
| Services.PublishAppendsHistory | infocenter-service/services/infocenter.go:86-90 | publishing appends the message to the end of its own topic's history; every other history is unchanged |
| Services.FanOutEffect | infocenter-service/services/infocenter.go:91-103 | a subscribed mailbox with room gains the message at its end; a full one is unchanged; unsubscribed mailboxes are untouched; no mailbox exceeds 100 |
| Services.AppendKeepsAscending | infocenter-service/services/infocenter.go:90 | appending a message whose ID is above all present IDs keeps a sequence in ID order |
| Services.EnsureTopicKeepsInvariants | infocenter-service/services/infocenter.go:48-53 | creating a topic keeps the registry well formed and ordered |
| Services.CleanupKeepsInvariants | infocenter-service/services/infocenter.go:71-73 | deleting a topic that has no subscribers keeps the registry well formed and ordered |
| Services.PublishKeepsWellFormed | infocenter-service/services/infocenter.go:89-103 | append plus fan-out keeps every mailbox bounded, keyed to its topic and consistent with the subscriber sets |
| Services.PublishKeepsOrdered | infocenter-service/services/infocenter.go:89-103 | a message numbered after the log keeps every history and mailbox in ID order, holding only logged messages |
| Services.PublishKeepsSequenced | infocenter-service/services/infocenter.go:79-103 | the log stays numbered 1, 2, … and the new ID exceeds every stored ID |
| Services.SubscribeKeepsInvariants | infocenter-service/services/infocenter.go:111-116 | a fresh handle is unused and unsubscribed, and adding its open mailbox keeps the invariants |
| Services.UnsubscribeKeepsInvariants | infocenter-service/services/infocenter.go:120-123 | removing and closing an open mailbox keeps the invariants; its topic is registered |
| Services.InfocenterService.constructor | infocenter-service/services/infocenter.go:20-25 | a new service has no topics, no mailboxes, counter 0 and the given maximum duration |
| Services.InfocenterService.GetOrCreateTopic | infocenter-service/services/infocenter.go:28-55 | returns the existing topic unchanged, or registers and returns one new empty topic; nothing else changes |
| Services.InfocenterService.CleanupTopic | infocenter-service/services/infocenter.go:58-74 | deletes the topic and its history iff it has no subscribers; only the registry can change, so the counter is never reset |
| Services.InfocenterService.AddMessage | infocenter-service/services/infocenter.go:77-106 | the ID is the incremented counter; content and topic are as given; the topic is created if absent; the message is appended to that history only; mailboxes are the drop-on-full fan-out; IDs stay unique and increasing when the counter does not wrap |
| Services.InfocenterService.Broadcast | infocenter-service/services/infocenter.go:98-103 | the non-blocking send loop leaves the mailboxes equal to the fan-out over the subscriber set |
| Services.InfocenterService.Subscribe | infocenter-service/services/infocenter.go:109-117 | adds exactly one new empty open mailbox under a new handle and subscribes it, creating the topic if needed; the counter is unchanged |
| Services.InfocenterService.Release | infocenter-service/services/infocenter.go:119-125 | removes the handle from its topic, marks the mailbox closed, then runs the cleanup of that topic |
| Services.InfocenterService.GetTopicMessages | infocenter-service/services/infocenter.go:131-142 | returns the topic's history in order (ID order under the log invariant) and creates the topic if absent |
| Services.InfocenterService.GetMaxConnectionDuration | infocenter-service/services/infocenter.go:145-147 | returns the configured duration and changes nothing |
| Services.InfocenterService.GetMessageIdSeq | infocenter-service/services/infocenter.go:150-152 | returns the counter and changes nothing; under the log invariant it is the number of publishes and bounds every stored ID |
| Services.InfocenterService.IdsGloballyUnique | infocenter-service/services/infocenter.go:79 | two stored messages with the same ID are the same entry of the same topic |
| Handlers.ParseMarker | infocenter-service/handlers/handlers.go:45-56 | an absent header gives no marker; a marker is an int64 read from decimal text |
| Handlers.MarkerIsHeaderValue | infocenter-service/handlers/handlers.go:45-56 | the header gives marker `v` iff it is decimal text spelling the int64 `v`; anything malformed or out of range gives no marker |
| Handlers.UnseenMembers | infocenter-service/handlers/handlers.go:63-69 | a message is replayed iff it is in the snapshot and its ID is above the marker, if there is one |
| Handlers.UnseenAllSeen | infocenter-service/handlers/handlers.go:65-67 | when every snapshot message is at or below the marker, nothing is replayed |
| Handlers.UnseenWithoutMarker | infocenter-service/handlers/handlers.go:63-69 | with no marker the whole snapshot is replayed, in order |
| Handlers.UnseenAbove | infocenter-service/handlers/handlers.go:63-69 | on an ID-ordered snapshot, any marker replays exactly the suffix starting at the first ID above it |
| Handlers.UnseenAfter | infocenter-service/handlers/handlers.go:63-69 | on an ID-ordered snapshot, the marker of its i-th message replays exactly the messages after it |
| Handlers.Replay | infocenter-service/handlers/handlers.go:63-69 | the replay loop writes one delivery frame per unseen snapshot message, in snapshot order |
| Handlers.ResumeMarkerRoundTrip | infocenter-service/handlers/handlers.go:51 | the `id` field of a delivery frame, parsed as a marker, gives back the message's ID |
| Handlers.ResumeAfterFrame | infocenter-service/handlers/handlers.go:45-69 | resuming from the last delivery frame read replays exactly the later messages |
| Handlers.InlineTimeoutFrame | infocenter-service/handlers/handlers.go:89 | the handler's inline timeout write equals the timeout frame for the same ID, whatever the duration |
| Handlers.RunShape | infocenter-service/handlers/handlers.go:78-101 | a live session ends live or closed; at most one timeout frame is written, always last, labelled with the counter, and only on closing |
| Handlers.LiveSessionDeliversAll | infocenter-service/handlers/handlers.go:94-99 | a session still live has written exactly the received messages, in order, and nothing else |
| Handlers.IdleSessionTimesOut | infocenter-service/handlers/handlers.go:83-92 | with only ticks, the session closes iff some tick is at least the maximum duration after the last activity, and then writes exactly one timeout frame |
| Handlers.ReceiveRestartsIdleClock | infocenter-service/handlers/handlers.go:94-99 | a received message is written and moves the idle clock to its arrival time |
| Handlers.EndsSilently | infocenter-service/handlers/handlers.go:80-96 | a disconnect or a closed mailbox closes the session at once with no output |
| Handlers.HandleEvent | infocenter-service/handlers/handlers.go:79-100 | one turn of the live loop, reading the duration and the counter from the broker, is one step of the state machine |
| Handlers.ServeLive | infocenter-service/handlers/handlers.go:72-101 | the live loop, started after replay, produces the state machine's run over the events |
| Handlers.ReceiveMessages | infocenter-service/handlers/handlers.go:29-102 | without streaming support: 500 and no broker change; otherwise 200, the replay frames then the live frames, and the subscription effect below |
| Handlers.Stream | infocenter-service/handlers/handlers.go:59-101 | subscribes before the snapshot; once the session closes the mailbox is closed and unsubscribed and the topic is cleaned up; the counter is unchanged |
| Handlers.SendMessage | infocenter-service/handlers/handlers.go:105-118 | a failed body read answers 400 and changes nothing; otherwise 204 and the whole effect of one publish: counter, log, histories, registry and drop-on-full fan-out |
| Scenarios.Messaging | infocenter-service/infocenter_test.go:17-38 | IDs 1 and 2, content and topic as given, and topic counts of two and one |
| Scenarios.LastEventId | infocenter-service/infocenter_test.go:41-63 | with `Last-Event-ID: 1` the stream answers 200 and replays only "Message 2" |
| Scenarios.IdleTimeout | infocenter-service/handlers/handlers.go:83-92 | an idle stream writes one timeout frame labelled with the counter, closes, and its topic is removed |
| Scenarios.RejectedMarkers | infocenter-service/handlers/handlers.go:49-56 | "abc", a lone "-" and "1a" give no marker |
| Scenarios.AcceptedMarkers | infocenter-service/handlers/handlers.go:49-56 | "+5", "007" and "-0" give the markers 5, 7 and 0 |
| Scenarios.PublishBetweenSubscribeAndSnapshot | infocenter-service/handlers/handlers.go:59-63 | a message published between subscribe and snapshot is both replayed and queued in the mailbox |

## Left out

- Locks and atomics (`sync.RWMutex`, `atomic.AddInt64`/`LoadInt64`) are not modelled. Each broker call is one sequential step, so the double-checked creation in `GetOrCreateTopic` becomes one membership test.
- Concurrent interleavings are not modelled. In particular, `AddMessage` sends after releasing the topic lock (`services/infocenter.go` lines 95-103). A release running at the same moment can close the channel first, and the send then panics. A sequential model cannot exhibit this.
- Services.InfocenterService.Release: requires the mailbox to be open. The source closes the channel unconditionally, and a second call panics.
- Services.InfocenterService.AddMessage: ID uniqueness and ordering (`Sequenced`) is promised only while the counter stays below the int64 maximum. On wrap-around the ID is modelled correctly, but IDs stop increasing.
- Topic is a value in the registry, not a shared pointer. The release closure keeps a pointer to the topic it subscribed to. The model looks the topic up by name instead. The two agree because `Valid()` keeps the topic of every open mailbox registered.
- The join time stored for each subscriber is left out, since nothing reads it. Subscribers are a set of handles.
- Wall-clock time (`time.Now`, `time.Since`, the 1-second ticker) is not modelled. It becomes an integer clock carried by the events and the `liveSince` argument.
- The live loop's `select` is not modelled. It becomes a caller-supplied event sequence.
- Handlers.ServeLive: received messages are unconstrained inputs. They need not be in the session's mailbox, belong to its topic, or have been published at all. No publish happens while the session runs, so the timeout frame is labelled with the counter at session start. In the source the counter is read at the timeout (`handlers/handlers.go` line 88), after every live message was published, so the label is at least every delivered ID. The model does not state that.
- Handlers.Stream: a session that is still live when its events run out keeps its subscription. The release is stated for every closed session, which covers every path by which the source handler returns.
- Response headers (`Content-Type`, `Cache-Control`, `Connection`) are not modelled. Flushing and network writes are I/O; the body is the sequence of written chunks.
- The body read of `SendMessage` is an input: `None` for a read error, `Some(text)` for the body.
- `main.go` (routing, middleware, CORS, server start) is not part of this model, and neither is the React frontend.
