/**
 * The two HTTP handlers. ReceiveMessages is a streaming session: it parses
 * the resume marker, subscribes, replays the retained history past the
 * marker, then serves live events until the client goes away, the idle
 * timeout fires or the mailbox is closed, and releases its subscription on
 * the way out. SendMessage publishes a request body.
 *
 * Time is an integer clock supplied by the caller. The live phase waits on
 * three sources at once; the model takes what that wait yields as a
 * sequence of events.
 */
module Handlers {
  import opened Wrappers
  import opened Models
  import opened Decimal
  import opened Sse
  import opened Services

  // ---------------------------------------------------------------------------
  // Resume marker and replay

  /**
   * The `Last-Event-ID` header value ("" when the header is absent) read as
   * a resume marker: a base-10 int64, or no marker at all when the header is
   * absent or does not parse.
   */
  function ParseMarker(lastEventIdHeader: string): (marker: Option<int>)
    ensures lastEventIdHeader == "" ==> marker == None
    ensures marker.Some? ==> IsInt64(marker.value) && DecimalSyntax(lastEventIdHeader)
  {
    if lastEventIdHeader == "" then None else ParseInt64(lastEventIdHeader)
  }

  /**
   * The header gives the marker `v` iff it is decimal text (an optional sign
   * and at least one digit) spelling the int64 `v`, leading zeros and a '+'
   * allowed; anything else gives no marker.
   */
  lemma MarkerIsHeaderValue(lastEventIdHeader: string, v: int)
    ensures ParseMarker(lastEventIdHeader) == Some(v) <==>
      DecimalSyntax(lastEventIdHeader) && IsInt64(v) && FormatInt(v) == Canonical(lastEventIdHeader)
  {
    ParseInt64Value(lastEventIdHeader, v);
  }

  /** A message the client has already seen: one at or below the marker. */
  predicate AlreadySeen(m: Message, marker: Option<int>) {
    marker.Some? && m.id <= marker.value
  }

  /** The snapshot messages the replay emits, in snapshot order. */
  function Unseen(snapshot: seq<Message>, marker: Option<int>): (r: seq<Message>)
    ensures |r| <= |snapshot|
  {
    if snapshot == [] then []
    else
      var last := snapshot[|snapshot| - 1];
      Unseen(snapshot[..|snapshot| - 1], marker) + (if AlreadySeen(last, marker) then [] else [last])
  }

  /** The delivery frames of `messages`, one each, in order. */
  function MsgFrames(messages: seq<Message>): (frames: seq<string>)
    ensures |frames| == |messages|
  {
    if messages == [] then [] else MsgFrames(messages[..|messages| - 1]) + [MsgFrame(messages[|messages| - 1])]
  }

  lemma UnseenSnoc(snapshot: seq<Message>, m: Message, marker: Option<int>)
    ensures Unseen(snapshot + [m], marker) == Unseen(snapshot, marker) + (if AlreadySeen(m, marker) then [] else [m])
  {
    assert (snapshot + [m])[..|snapshot|] == snapshot;
  }

  lemma MsgFramesSnoc(messages: seq<Message>, m: Message)
    ensures MsgFrames(messages + [m]) == MsgFrames(messages) + [MsgFrame(m)]
  {
    assert (messages + [m])[..|messages|] == messages;
  }

  /** The replay holds exactly the snapshot messages past the marker. */
  lemma {:induction false} UnseenMembers(snapshot: seq<Message>, marker: Option<int>)
    ensures forall m :: m in Unseen(snapshot, marker) <==> m in snapshot && !AlreadySeen(m, marker)
  {
    if snapshot != [] {
      var init := snapshot[..|snapshot| - 1];
      UnseenMembers(init, marker);
      assert snapshot == init + [snapshot[|snapshot| - 1]];
    }
  }

  /** When the client has seen every snapshot message, nothing is replayed. */
  lemma {:induction false} UnseenAllSeen(snapshot: seq<Message>, marker: Option<int>)
    requires forall k :: 0 <= k < |snapshot| ==> AlreadySeen(snapshot[k], marker)
    ensures Unseen(snapshot, marker) == []
  {
    if snapshot != [] {
      UnseenAllSeen(snapshot[..|snapshot| - 1], marker);
    }
  }

  /** Without a marker the whole snapshot is replayed, in order. */
  lemma {:induction false} UnseenWithoutMarker(snapshot: seq<Message>)
    ensures Unseen(snapshot, None) == snapshot
  {
    if snapshot != [] {
      UnseenWithoutMarker(snapshot[..|snapshot| - 1]);
    }
  }

  /**
   * On an ID-ordered snapshot, resuming from the ID of its i-th message
   * replays exactly the messages after it, in order.
   */
  lemma {:induction false} UnseenAfter(snapshot: seq<Message>, i: nat)
    requires Ascending(snapshot) && i < |snapshot|
    ensures Unseen(snapshot, Some(snapshot[i].id)) == snapshot[i + 1..]
  {
    var init := snapshot[..|snapshot| - 1];
    if i == |snapshot| - 1 {
      UnseenAllSeen(snapshot, Some(snapshot[i].id));
    } else {
      UnseenAfter(init, i);
      assert init[i + 1..] + [snapshot[|snapshot| - 1]] == snapshot[i + 1..];
    }
  }

  /**
   * On an ID-ordered snapshot, any marker replays exactly the messages from
   * the first one with an ID above it.
   */
  lemma {:induction false} UnseenAbove(snapshot: seq<Message>, marker: int, j: nat)
    requires Ascending(snapshot) && j <= |snapshot|
    requires j == 0 || snapshot[j - 1].id <= marker
    requires j == |snapshot| || snapshot[j].id > marker
    ensures Unseen(snapshot, Some(marker)) == snapshot[j..]
  {
    if snapshot != [] {
      var init := snapshot[..|snapshot| - 1];
      var last := snapshot[|snapshot| - 1];
      if j == |snapshot| {
        UnseenAllSeen(snapshot, Some(marker));
      } else {
        UnseenAbove(init, marker, j);
        assert init[j..] + [last] == snapshot[j..];
      }
    }
  }

  /**
   * The replay loop: writes a delivery frame for every snapshot message the
   * client has not seen, in order.
   */
  method Replay(snapshot: seq<Message>, marker: Option<int>) returns (frames: seq<string>)
    ensures frames == MsgFrames(Unseen(snapshot, marker))
  {
    frames := [];
    var i := 0;
    while i < |snapshot|
      invariant 0 <= i <= |snapshot|
      invariant frames == MsgFrames(Unseen(snapshot[..i], marker))
    {
      var topicMessage := snapshot[i];
      ReplayStep(snapshot, i, marker);
      if !(marker.Some? && topicMessage.id <= marker.value) {
        frames := frames + [MsgFrame(topicMessage)];
      }
      i := i + 1;
    }
    assert snapshot[..i] == snapshot;
  }

  lemma ReplayStep(snapshot: seq<Message>, i: nat, marker: Option<int>)
    requires i < |snapshot|
    ensures MsgFrames(Unseen(snapshot[..i + 1], marker)) ==
      MsgFrames(Unseen(snapshot[..i], marker)) + (if AlreadySeen(snapshot[i], marker) then [] else [MsgFrame(snapshot[i])])
  {
    assert snapshot[..i + 1] == snapshot[..i] + [snapshot[i]];
    UnseenSnoc(snapshot[..i], snapshot[i], marker);
    var before := Unseen(snapshot[..i], marker);
    if AlreadySeen(snapshot[i], marker) {
      assert before + [] == before;
    } else {
      MsgFramesSnoc(before, snapshot[i]);
    }
  }

  /** A frame's ID parsed as a resume marker gives back the message's ID. */
  lemma ResumeMarkerRoundTrip(message: Message)
    requires IsInt64(message.id)
    ensures IdField(MsgFrame(message)).Some?
    ensures ParseMarker(IdField(MsgFrame(message)).value) == Some(message.id)
  {
    MsgFrameId(message);
    ParseFormatRoundTrip(message.id);
  }

  /**
   * A client that resumes with the ID of the last delivery frame it read
   * replays exactly the messages after that one.
   */
  lemma ResumeAfterFrame(snapshot: seq<Message>, i: nat)
    requires Ascending(snapshot) && i < |snapshot| && IsInt64(snapshot[i].id)
    ensures Unseen(snapshot, ParseMarker(IdField(MsgFrame(snapshot[i])).value)) == snapshot[i + 1..]
  {
    ResumeMarkerRoundTrip(snapshot[i]);
    UnseenAfter(snapshot, i);
  }

  // ---------------------------------------------------------------------------
  // The live session as a state machine

  datatype Phase = Replaying | Live | Closed

  /**
   * What the live wait yields: the client went away, the timer ticked at
   * `now`, the mailbox gave a message at `now`, or the mailbox was closed
   * (the nil receive).
   */
  datatype Event = Disconnect | Tick(now: int) | Received(message: Message, now: int) | MailboxClosed

  datatype Session = Session(phase: Phase, lastActivity: int)

  /** What the session writes: a delivery frame, or the timeout frame labelled with the counter. */
  datatype Output = Delivered(message: Message) | TimedOut(sequenceValue: int)

  /** The handler's own timeout write, which does not go through WriteSSETimeout. */
  function InlineTimeoutFrame(currentMessageId: int): (frame: string)
    ensures forall duration :: frame == TimeoutFrame(currentMessageId, duration)
  {
    "id: " + FormatInt(currentMessageId) + "\nevent: timeout\ndata: 30s\n\n"
  }

  function Frame(o: Output): string {
    match o
    case Delivered(m) => MsgFrame(m)
    case TimedOut(id) => InlineTimeoutFrame(id)
  }

  function Frames(outputs: seq<Output>): (frames: seq<string>)
    ensures |frames| == |outputs|
    ensures forall i :: 0 <= i < |outputs| ==> frames[i] == Frame(outputs[i])
  {
    if outputs == [] then [] else [Frame(outputs[0])] + Frames(outputs[1..])
  }

  /** The session after replay: live, with the idle clock started at `now`. */
  function BeginLive(now: int): Session {
    Session(Live, now)
  }

  /** One turn of the live loop. */
  function Step(s: Session, e: Event, maxDuration: int, sequenceValue: int): (Session, seq<Output>)
    requires s.phase == Live
  {
    match e
    case Disconnect => (s.(phase := Closed), [])
    case Tick(now) =>
      if now - s.lastActivity >= maxDuration then (s.(phase := Closed), [TimedOut(sequenceValue)])
      else (s, [])
    case Received(m, now) => (s.(lastActivity := now), [Delivered(m)])
    case MailboxClosed => (s.(phase := Closed), [])
  }

  /** The live loop over a sequence of events; events after the session closes are never read. */
  function Run(s: Session, events: seq<Event>, maxDuration: int, sequenceValue: int): (Session, seq<Output>)
    decreases |events|
  {
    if events == [] || s.phase != Live then (s, [])
    else
      var step := Step(s, events[0], maxDuration, sequenceValue);
      var rest := Run(step.0, events[1..], maxDuration, sequenceValue);
      (rest.0, step.1 + rest.1)
  }

  /** The messages of the `Received` events, in order. */
  function ReceivedMessages(events: seq<Event>): seq<Message> {
    if events == [] then []
    else (if events[0].Received? then [events[0].message] else []) + ReceivedMessages(events[1..])
  }

  /** The outputs' messages, where every output is a delivery. */
  function DeliveredMessages(outputs: seq<Output>): seq<Message>
    requires forall i :: 0 <= i < |outputs| ==> outputs[i].Delivered?
  {
    if outputs == [] then [] else [outputs[0].message] + DeliveredMessages(outputs[1..])
  }

  /**
   * A live session ends live or closed; it emits at most one timeout frame,
   * always as its last output, labelled with the counter, and only when it
   * closes.
   */
  lemma {:induction false} RunShape(s: Session, events: seq<Event>, maxDuration: int, sequenceValue: int)
    requires s.phase == Live
    ensures var (final, outputs) := Run(s, events, maxDuration, sequenceValue);
      (final.phase == Live || final.phase == Closed) &&
      (forall i :: 0 <= i < |outputs| && outputs[i].TimedOut? ==>
         i == |outputs| - 1 && final.phase == Closed && outputs[i] == TimedOut(sequenceValue))
    decreases |events|
  {
    if events != [] {
      var (next, emitted) := Step(s, events[0], maxDuration, sequenceValue);
      if next.phase == Live {
        RunShape(next, events[1..], maxDuration, sequenceValue);
      }
    }
  }

  /**
   * A session still live after all its events has read every one of them:
   * it delivered every received message, in order, and nothing else.
   */
  lemma {:induction false} LiveSessionDeliversAll(s: Session, events: seq<Event>, maxDuration: int, sequenceValue: int)
    requires s.phase == Live
    requires Run(s, events, maxDuration, sequenceValue).0.phase == Live
    ensures var outputs := Run(s, events, maxDuration, sequenceValue).1;
      (forall i :: 0 <= i < |outputs| ==> outputs[i].Delivered?) &&
      DeliveredMessages(outputs) == ReceivedMessages(events)
    decreases |events|
  {
    if events != [] {
      var (next, emitted) := Step(s, events[0], maxDuration, sequenceValue);
      LiveSessionDeliversAll(next, events[1..], maxDuration, sequenceValue);
      var rest := Run(next, events[1..], maxDuration, sequenceValue).1;
      if events[0].Received? {
        assert emitted + rest == [Delivered(events[0].message)] + rest;
        assert (emitted + rest)[1..] == rest;
      } else {
        assert emitted + rest == rest;
      }
    }
  }

  /**
   * With nothing but timer ticks, a live session closes iff some tick comes
   * at least `maxDuration` after its last activity, and then its one output
   * is the timeout frame; otherwise it stays live and silent.
   */
  lemma {:induction false} IdleSessionTimesOut(s: Session, events: seq<Event>, maxDuration: int, sequenceValue: int)
    requires s.phase == Live
    requires forall i :: 0 <= i < |events| ==> events[i].Tick?
    ensures var (final, outputs) := Run(s, events, maxDuration, sequenceValue);
      (final.phase == Closed <==> exists i :: 0 <= i < |events| && events[i].now - s.lastActivity >= maxDuration) &&
      final.phase != Replaying &&
      outputs == (if final.phase == Closed then [TimedOut(sequenceValue)] else [])
    decreases |events|
  {
    if events != [] {
      var now := events[0].now;
      if now - s.lastActivity < maxDuration {
        IdleSessionTimesOut(s, events[1..], maxDuration, sequenceValue);
        var final := Run(s, events, maxDuration, sequenceValue).0;
        if final.phase == Closed {
          var i :| 0 <= i < |events[1..]| && events[1..][i].now - s.lastActivity >= maxDuration;
          assert events[i + 1] == events[1..][i];
        } else {
          forall i | 0 <= i < |events|
            ensures events[i].now - s.lastActivity < maxDuration
          {
            if i > 0 {
              assert events[i] == events[1..][i - 1];
            }
          }
        }
      }
    }
  }

  /** A received message is written and restarts the idle clock at its arrival time. */
  lemma ReceiveRestartsIdleClock(s: Session, m: Message, t: int, later: int, maxDuration: int, sequenceValue: int)
    requires s.phase == Live
    ensures Run(s, [Received(m, t), Tick(later)], maxDuration, sequenceValue) ==
      if later - t >= maxDuration then (Session(Closed, t), [Delivered(m), TimedOut(sequenceValue)])
      else (Session(Live, t), [Delivered(m)])
  {
    var events := [Received(m, t), Tick(later)];
    var s1 := Session(Live, t);
    assert events[0] == Received(m, t) && events[1..] == [Tick(later)];
    var tail := Run(s1, [Tick(later)], maxDuration, sequenceValue);
    assert [Tick(later)][1..] == [];
    var ticked := Step(s1, Tick(later), maxDuration, sequenceValue);
    assert Run(ticked.0, [], maxDuration, sequenceValue) == (ticked.0, []);
    assert tail == (ticked.0, ticked.1 + []);
    if later - t >= maxDuration {
      assert ticked == (Session(Closed, t), [TimedOut(sequenceValue)]);
      assert [Delivered(m)] + ([TimedOut(sequenceValue)] + []) == [Delivered(m), TimedOut(sequenceValue)];
    } else {
      assert ticked == (s1, []);
      assert [Delivered(m)] + ([] + []) == [Delivered(m)];
    }
    assert Run(s, events, maxDuration, sequenceValue) == (tail.0, [Delivered(m)] + tail.1);
  }

  /** A disconnect or a closed mailbox ends a live session at once, writing nothing. */
  lemma EndsSilently(s: Session, e: Event, events: seq<Event>, maxDuration: int, sequenceValue: int)
    requires s.phase == Live && (e.Disconnect? || e.MailboxClosed?)
    ensures Run(s, [e] + events, maxDuration, sequenceValue) == (s.(phase := Closed), [])
  {
    assert ([e] + events)[0] == e;
  }

  /**
   * One turn of the live loop of ReceiveMessages: handles what the wait
   * yielded. On a timeout it reads the counter to label the timeout frame.
   */
  method HandleEvent(service: InfocenterService, session: Session, event: Event)
    returns (next: Session, emitted: seq<Output>)
    requires session.phase == Live
    ensures (next, emitted) == Step(session, event, service.maxConnectionTime, service.messageIdSequence)
  {
    next, emitted := session, [];
    match event {
      case Disconnect =>
        next := session.(phase := Closed);
      case Tick(now) =>
        var maxConnectionDuration := service.GetMaxConnectionDuration();
        if now - session.lastActivity >= maxConnectionDuration {
          var currentMessageId := service.GetMessageIdSeq();
          emitted := [TimedOut(currentMessageId)];
          next := session.(phase := Closed);
        }
      case Received(receivedMessage, now) =>
        emitted := [Delivered(receivedMessage)];
        next := session.(lastActivity := now);
      case MailboxClosed =>
        next := session.(phase := Closed);
    }
  }

  /**
   * The live loop of ReceiveMessages: waits for the next event and handles
   * it until the session closes or the events run out.
   */
  method ServeLive(service: InfocenterService, lastActivityTime: int, events: seq<Event>)
    returns (session: Session, outputs: seq<Output>)
    ensures (session, outputs) == Run(BeginLive(lastActivityTime), events, service.maxConnectionTime, service.messageIdSequence)
  {
    ghost var maxDuration, sequenceValue := service.maxConnectionTime, service.messageIdSequence;
    ghost var whole := Run(BeginLive(lastActivityTime), events, maxDuration, sequenceValue);
    session := BeginLive(lastActivityTime);
    outputs := [];
    var i := 0;
    assert events[0..] == events;
    assert outputs + whole.1 == whole.1;
    while i < |events| && session.phase == Live
      invariant 0 <= i <= |events|
      invariant whole == (Run(session, events[i..], maxDuration, sequenceValue).0,
                          outputs + Run(session, events[i..], maxDuration, sequenceValue).1)
      decreases |events| - i
    {
      assert events[i..][0] == events[i] && events[i..][1..] == events[i + 1..];
      var emitted: seq<Output>;
      session, emitted := HandleEvent(service, session, events[i]);
      ghost var rest := Run(session, events[i + 1..], maxDuration, sequenceValue);
      assert outputs + (emitted + rest.1) == (outputs + emitted) + rest.1;
      outputs := outputs + emitted;
      i := i + 1;
    }
    assert outputs + [] == outputs;
  }

  // ---------------------------------------------------------------------------
  // The handlers

  /** A response: its status code and the text written to its body, chunk by chunk. */
  datatype Response = Response(status: int, body: seq<string>)

  const StatusOK: int := 200
  const StatusNoContent: int := 204
  const StatusBadRequest: int := 400
  const StatusInternalServerError: int := 500

  /**
   * GET on a topic. Without streaming support it answers 500 before touching
   * the broker. Otherwise it reads the resume marker from the `Last-Event-ID`
   * header ("" when absent) and streams the topic. `handle` names the
   * session's mailbox.
   */
  method ReceiveMessages(service: InfocenterService, topicName: string, lastEventIdHeader: string,
                         flusherSupported: bool, liveSince: int, events: seq<Event>)
    returns (response: Response, session: Session, ghost handle: nat)
    requires service.Valid()
    modifies service
    ensures service.Valid()
    ensures old(service.Sequenced()) ==> service.Sequenced()
    ensures !flusherSupported ==>
      response == Response(StatusInternalServerError, ["Streaming unsupported\n"]) &&
      session.phase == Closed && unchanged(service)
    ensures flusherSupported ==>
      response.status == StatusOK &&
      response.body == MsgFrames(Unseen(old(service.History(topicName)), ParseMarker(lastEventIdHeader))) +
                       Frames(Run(BeginLive(liveSince), events, service.maxConnectionTime, old(service.messageIdSequence)).1) &&
      session == Run(BeginLive(liveSince), events, service.maxConnectionTime, old(service.messageIdSequence)).0
    ensures flusherSupported ==> SessionEffect(old(service.topics), old(service.mailboxes), topicName, handle, session,
                                               service.topics, service.mailboxes)
    ensures flusherSupported ==>
      service.messageIdSequence == old(service.messageIdSequence) && service.published == old(service.published)
  {
    if !flusherSupported {
      response := Response(StatusInternalServerError, ["Streaming unsupported\n"]);
      session := Session(Closed, liveSince);
      handle := 0;
      return;
    }
    var marker := ParseMarker(lastEventIdHeader);
    var body;
    body, session, handle := Stream(service, topicName, marker, liveSince, events);
    response := Response(StatusOK, body);
  }

  /**
   * What a streaming session leaves behind in the broker: a new mailbox for
   * the topic, closed and unsubscribed (with the topic cleaned up) once the
   * session has closed, still open and subscribed while it is live.
   */
  ghost predicate SessionEffect(topics: map<string, Topic>, boxes: map<nat, Mailbox>, topicName: string,
                                handle: nat, session: Session,
                                topics': map<string, Topic>, boxes': map<nat, Mailbox>)
  {
    (session.phase == Live || session.phase == Closed) &&
    handle !in boxes &&
    boxes' == boxes[handle := Mailbox(topicName, [], session.phase == Closed)] &&
    topics' == (if session.phase == Closed
                then Cleanup(EnsureTopic(topics, topicName), topicName)
                else WithSubscriber(EnsureTopic(topics, topicName), topicName, handle))
  }

  /**
   * The streaming part of ReceiveMessages: subscribes, then takes the history
   * snapshot, replays it past the marker and serves the live events, starting
   * the idle clock at `liveSince` (after the replay, so replay is not
   * activity). The subscription is released on every path that ends the
   * session; a session still live at the end of `events` keeps it.
   */
  method Stream(service: InfocenterService, topicName: string, marker: Option<int>, liveSince: int, events: seq<Event>)
    returns (body: seq<string>, session: Session, ghost handle: nat)
    requires service.Valid()
    modifies service
    ensures service.Valid()
    ensures old(service.Sequenced()) ==> service.Sequenced()
    ensures body == MsgFrames(Unseen(old(service.History(topicName)), marker)) +
                    Frames(Run(BeginLive(liveSince), events, service.maxConnectionTime, old(service.messageIdSequence)).1)
    ensures session == Run(BeginLive(liveSince), events, service.maxConnectionTime, old(service.messageIdSequence)).0
    ensures SessionEffect(old(service.topics), old(service.mailboxes), topicName, handle, session,
                          service.topics, service.mailboxes)
    ensures service.messageIdSequence == old(service.messageIdSequence) && service.published == old(service.published)
  {
    var messageChannel := service.Subscribe(topicName);
    handle := messageChannel;
    ghost var subscribed := service.topics;
    ghost var boxes := service.mailboxes;

    var snapshot := service.GetTopicMessages(topicName);
    var replayed := Replay(snapshot, marker);

    var outputs;
    session, outputs := ServeLive(service, liveSince, events);
    RunShape(BeginLive(liveSince), events, service.maxConnectionTime, service.messageIdSequence);

    if session.phase == Closed {
      service.Release(messageChannel);
      assert boxes[messageChannel].(closed := true) == Mailbox(topicName, [], true);
      assert service.mailboxes == boxes[messageChannel := Mailbox(topicName, [], true)];
      assert boxes[messageChannel := Mailbox(topicName, [], true)] ==
        old(service.mailboxes)[messageChannel := Mailbox(topicName, [], true)];
      assert WithoutSubscriber(subscribed, topicName, messageChannel) == EnsureTopic(old(service.topics), topicName);
    }
    body := replayed + Frames(outputs);
  }

  /**
   * POST on a topic. `requestBody` is the outcome of reading the body: None
   * when the read failed, which answers 400 and publishes nothing. Otherwise
   * the body is published once and the answer is 204 with no body.
   */
  method SendMessage(service: InfocenterService, topicName: string, requestBody: Option<string>)
    returns (response: Response)
    requires service.Valid()
    modifies service
    ensures service.Valid()
    ensures requestBody.None? ==>
      response == Response(StatusBadRequest, ["Failed to read request body\n"]) && unchanged(service)
    ensures requestBody.Some? ==>
      var m := Message(AddInt64(old(service.messageIdSequence), 1), requestBody.value, topicName);
      response == Response(StatusNoContent, []) &&
      service.messageIdSequence == m.id &&
      service.topics == AppendMessage(EnsureTopic(old(service.topics), topicName), m) &&
      service.mailboxes == FanOut(old(service.mailboxes), EnsureTopic(old(service.topics), topicName)[topicName].subscribers, m) &&
      service.nextHandle == old(service.nextHandle) &&
      service.published == old(service.published) + [m] &&
      service.History(topicName) == old(service.History(topicName)) + [m] &&
      (forall n :: n != topicName ==> service.History(n) == old(service.History(n))) &&
      (old(service.Sequenced()) && old(service.messageIdSequence) < MaxInt64 ==> service.Sequenced())
  {
    if requestBody.None? {
      response := Response(StatusBadRequest, ["Failed to read request body\n"]);
      return;
    }
    var _ := service.AddMessage(topicName, requestBody.value);
    response := Response(StatusNoContent, []);
  }
}
