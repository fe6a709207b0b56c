/**
 * The repository's two tests, plus an idle timeout, a publish between
 * subscribe and snapshot, and sample resume markers, stated as methods and
 * lemmas whose postconditions are proved, each on a fresh broker.
 */
module Scenarios {
  import opened Wrappers
  import opened Models
  import opened Decimal
  import opened Sse
  import opened Services
  import opened Handlers

  /** 30 seconds as a Go time.Duration, in nanoseconds. */
  const ThirtySeconds: int := 30_000_000_000

  /**
   * One publish below the int64 limit, seen through the counter and the
   * topic histories only.
   */
  method Publish(service: InfocenterService, topicName: string, content: string) returns (m: Message)
    requires service.Valid() && service.messageIdSequence < MaxInt64
    modifies service
    ensures service.Valid()
    ensures m == Message(old(service.messageIdSequence) + 1, content, topicName)
    ensures service.messageIdSequence == m.id
    ensures service.History(topicName) == old(service.History(topicName)) + [m]
    ensures forall n :: n != topicName ==> service.History(n) == old(service.History(n))
  {
    m := service.AddMessage(topicName, content);
  }

  /**
   * TestMessaging: IDs 1 and 2 for the first two publishes, content and topic
   * as given, and per-topic histories of two and one messages.
   */
  method Messaging() returns (first: Message, second: Message, topic1: seq<Message>, topic2: seq<Message>)
    ensures first == Message(1, "Message 1", "test-topic")
    ensures second == Message(2, "Message 2", "test-topic")
    ensures |topic1| == 2 && |topic2| == 1
    ensures topic1[0].content == "First" && topic1[1].content == "Third" && topic2[0].content == "Second"
    ensures topic1[0].id == 3 && topic2[0].id == 4 && topic1[1].id == 5
  {
    var service := new InfocenterService(ThirtySeconds);
    first := Publish(service, "test-topic", "Message 1");
    second := Publish(service, "test-topic", "Message 2");
    var a := Publish(service, "topic1", "First");
    var b := Publish(service, "topic2", "Second");
    var c := Publish(service, "topic1", "Third");
    assert service.History("topic1") == [a, c];
    assert service.History("topic2") == [b];
    topic1 := service.GetTopicMessages("topic1");
    topic2 := service.GetTopicMessages("topic2");
  }

  /**
   * TestLastEventID: after two publishes, a stream opened with
   * `Last-Event-ID: 1` answers 200 and replays only the second message.
   */
  method LastEventId() returns (response: Response)
    ensures response.status == StatusOK
    ensures response.body == [MsgFrame(Message(2, "Message 2", "test-topic"))]
  {
    var service := new InfocenterService(ThirtySeconds);
    var m1 := Publish(service, "test-topic", "Message 1");
    var m2 := Publish(service, "test-topic", "Message 2");
    assert service.History("test-topic") == [m1, m2];
    assert Ascending([m1, m2]);
    ParseFormatRoundTrip(1);
    assert FormatInt(1) == "1";
    var session;
    ghost var handle;
    response, session, handle := ReceiveMessages(service, "test-topic", "1", true, 0, []);
    UnseenAfter([m1, m2], 0);
    assert [m1, m2][1..] == [m2];
    assert Unseen([m1, m2], ParseMarker("1")) == [m2];
    assert MsgFrames([m2]) == [MsgFrame(m2)] by {
      assert [m2][..0] == [];
    }
    assert Run(BeginLive(0), [], ThirtySeconds, 2).1 == [];
    assert Frames([]) == [];
    assert response.body == [MsgFrame(m2)] + [];
  }

  /**
   * A stream left idle past the maximum duration writes exactly one timeout
   * frame, labelled with the counter, then closes; its topic, which had no
   * other subscriber, is gone from the registry.
   */
  method IdleTimeout() returns (response: Response, session: Session, registered: bool)
    ensures response == Response(StatusOK, [InlineTimeoutFrame(0)])
    ensures session.phase == Closed
    ensures !registered
  {
    var service := new InfocenterService(ThirtySeconds);
    var events := [Tick(ThirtySeconds - 1), Tick(ThirtySeconds), Tick(ThirtySeconds + 1)];
    IdleSessionTimesOut(BeginLive(0), events, ThirtySeconds, 0);
    assert events[1].now - 0 >= ThirtySeconds;
    ghost var handle;
    response, session, handle := ReceiveMessages(service, "idle-topic", "", true, 0, events);
    UnseenWithoutMarker([]);
    registered := "idle-topic" in service.topics;
  }

  /**
   * The stream subscribes before it takes its snapshot, so a message
   * published in between is both in the snapshot it replays and in its
   * mailbox: it can be delivered twice, but is never lost.
   */
  method PublishBetweenSubscribeAndSnapshot() returns (snapshot: seq<Message>, pending: seq<Message>)
    ensures snapshot == pending == [Message(1, "late", "topic")]
  {
    var service := new InfocenterService(ThirtySeconds);
    var handle := service.Subscribe("topic");
    var late := service.AddMessage("topic", "late");
    snapshot := service.GetTopicMessages("topic");
    pending := service.mailboxes[handle].pending;
  }

  /** Resume markers the handler ignores: text with no digits, a lone sign, a stray letter. */
  lemma RejectedMarkers()
    ensures ParseMarker("abc") == None && ParseMarker("-") == None && ParseMarker("1a") == None
  {
    assert !AllDigits("abc") by {
      assert !IsDigit("abc"[0]);
    }
    assert "-"[1..] == [];
    assert !AllDigits("1a") by {
      assert !IsDigit("1a"[1]);
    }
  }

  /** Resume markers the handler accepts beyond the `%d` form: a '+', leading zeros, "-0". */
  lemma AcceptedMarkers()
    ensures ParseMarker("+5") == Some(5) && ParseMarker("007") == Some(7) && ParseMarker("-0") == Some(0)
  {
    assert "+5"[1..] == "5" && ValueOf("5") == 5;
    assert ValueOf("007") == ValueOf("00") * 10 + 7 && ValueOf("00") == 0;
    assert "-0"[1..] == "0" && ValueOf("0") == 0;
  }
}
