/**
 * The broadcast engine: a registry from topic name to topic, a process-wide
 * 64-bit message ID counter, and bounded subscriber mailboxes.
 *
 * A Go channel is modelled as a mailbox reached through a `nat` handle that
 * is never reused (channel identity), holding its pending messages and a
 * closed flag. Locks and atomics only make each operation atomic, so each
 * method below is one sequential step.
 */
module Services {
  import opened Models
  import opened Decimal

  /** The buffer size of every subscriber channel. */
  const MailboxCapacity: nat := 100

  datatype Mailbox = Mailbox(topic: string, pending: seq<Message>, closed: bool)

  /** Messages in strictly increasing ID order. */
  predicate Ascending(s: seq<Message>) {
    forall i, j :: 0 <= i < j < |s| ==> s[i].id < s[j].id
  }

  /** The registry after a get-or-create of `name`: unchanged if present, else one new empty topic. */
  function EnsureTopic(topics: map<string, Topic>, name: string): (r: map<string, Topic>)
    ensures name in r && r.Keys == topics.Keys + {name}
    ensures forall n :: n in topics ==> r[n] == topics[n]
    ensures name !in topics ==> r[name] == Topic(name, {}, [])
  {
    if name in topics then topics else topics[name := Topic(name, {}, [])]
  }

  /** The registry after a cleanup of `name`: the topic goes iff it exists with no subscribers. */
  function Cleanup(topics: map<string, Topic>, name: string): (r: map<string, Topic>)
    ensures name !in r <==> name !in topics || topics[name].subscribers == {}
    ensures forall n :: n != name ==> (n in r <==> n in topics)
    ensures forall n :: n in r ==> n in topics && r[n] == topics[n]
  {
    if name in topics && topics[name].subscribers == {} then topics - {name} else topics
  }

  /** The registry with `m` appended to the history of its own topic. */
  function AppendMessage(topics: map<string, Topic>, m: Message): map<string, Topic>
    requires m.topic in topics
  {
    topics[m.topic := topics[m.topic].(messages := topics[m.topic].messages + [m])]
  }

  function WithSubscriber(topics: map<string, Topic>, name: string, handle: nat): map<string, Topic>
    requires name in topics
  {
    topics[name := topics[name].(subscribers := topics[name].subscribers + {handle})]
  }

  function WithoutSubscriber(topics: map<string, Topic>, name: string, handle: nat): map<string, Topic>
    requires name in topics
  {
    topics[name := topics[name].(subscribers := topics[name].subscribers - {handle})]
  }

  /** A non-blocking send: a full mailbox drops the message. */
  function Deliver(box: Mailbox, m: Message): Mailbox {
    if |box.pending| < MailboxCapacity then box.(pending := box.pending + [m]) else box
  }

  /** The mailboxes after `m` is offered to every handle in `subscribers`. */
  function FanOut(boxes: map<nat, Mailbox>, subscribers: set<nat>, m: Message): map<nat, Mailbox> {
    map h | h in boxes :: if h in subscribers then Deliver(boxes[h], m) else boxes[h]
  }

  /** The retained history of a topic; an absent topic has none. */
  function HistoryOf(topics: map<string, Topic>, name: string): seq<Message> {
    if name in topics then topics[name].messages else []
  }

  /**
   * Publishing appends the message at the end of its own topic's history
   * and leaves every other topic's history as it was.
   */
  lemma PublishAppendsHistory(topics: map<string, Topic>, m: Message, name: string)
    ensures HistoryOf(AppendMessage(EnsureTopic(topics, m.topic), m), name) ==
      if name == m.topic then HistoryOf(topics, name) + [m] else HistoryOf(topics, name)
  {
  }

  /** Get-or-create applied twice is get-or-create applied once. */
  lemma GetOrCreateIdempotent(topics: map<string, Topic>, name: string)
    ensures EnsureTopic(EnsureTopic(topics, name), name) == EnsureTopic(topics, name)
  {
  }

  /**
   * Drop-on-full fan-out: a subscribed mailbox with room gains `m` at its end,
   * a full one is unchanged, an unsubscribed one is untouched, and no mailbox
   * grows past the capacity.
   */
  lemma FanOutEffect(boxes: map<nat, Mailbox>, subscribers: set<nat>, m: Message, h: nat)
    requires h in boxes && |boxes[h].pending| <= MailboxCapacity
    ensures h in FanOut(boxes, subscribers, m)
    ensures var after := FanOut(boxes, subscribers, m)[h];
      after.topic == boxes[h].topic && after.closed == boxes[h].closed &&
      |after.pending| <= MailboxCapacity &&
      (h in subscribers && |boxes[h].pending| < MailboxCapacity ==> after.pending == boxes[h].pending + [m]) &&
      (h in subscribers && |boxes[h].pending| == MailboxCapacity ==> after == boxes[h]) &&
      (h !in subscribers ==> after == boxes[h])
  {
  }

  /** A message with a larger ID than everything already queued keeps a mailbox in publish order. */
  lemma {:induction false} AppendKeepsAscending(s: seq<Message>, m: Message)
    requires Ascending(s)
    requires forall x :: x in s ==> x.id < m.id
    ensures Ascending(s + [m])
  {
    forall i, j | 0 <= i < j < |s + [m]|
      ensures (s + [m])[i].id < (s + [m])[j].id
    {
      if j == |s| {
        assert (s + [m])[i] in s;
      }
    }
  }

  /** In a log whose i-th entry has ID i + 1, every entry's ID is between 1 and the log's length. */
  lemma LoggedIdsBounded(log: seq<Message>, m: Message)
    requires forall i :: 0 <= i < |log| ==> log[i].id == i + 1
    requires m in log
    ensures 1 <= m.id <= |log|
  {
    var k :| 0 <= k < |log| && log[k] == m;
  }

  /** Everything already logged has a smaller ID than the message logged next. */
  lemma PredatesNext(log: seq<Message>, s: seq<Message>, m: Message)
    requires LogNumbered(log)
    requires forall x :: x in s ==> x in log
    requires m.id == |log| + 1
    ensures forall x :: x in s ==> x.id < m.id
  {
    forall x | x in s
      ensures x.id < m.id
    {
      LoggedIdsBounded(log, x);
    }
  }

  /** The i-th entry of the publication log has ID i + 1. */
  ghost predicate LogNumbered(log: seq<Message>) {
    forall i :: 0 <= i < |log| ==> log[i].id == i + 1
  }

  /**
   * The registry's structural invariant: entries are keyed by their name,
   * histories hold their own topic's messages, every subscriber is an open
   * mailbox of that topic and every open mailbox is subscribed, handles are
   * below the next one to hand out, and no mailbox holds more than its
   * capacity.
   */
  ghost predicate WellFormed(topics: map<string, Topic>, boxes: map<nat, Mailbox>, nextHandle: nat) {
    (forall n :: n in topics ==> topics[n].name == n) &&
    (forall n, m :: n in topics && m in topics[n].messages ==> m.topic == n) &&
    (forall n, h :: n in topics && h in topics[n].subscribers ==>
       h in boxes && boxes[h].topic == n && !boxes[h].closed) &&
    (forall h :: h in boxes ==> h < nextHandle && |boxes[h].pending| <= MailboxCapacity) &&
    (forall h, m :: h in boxes && m in boxes[h].pending ==> m.topic == boxes[h].topic) &&
    (forall h :: h in boxes && !boxes[h].closed ==>
       boxes[h].topic in topics && h in topics[boxes[h].topic].subscribers)
  }

  /** Every history and every mailbox holds logged messages, in ID order. */
  ghost predicate Ordered(topics: map<string, Topic>, boxes: map<nat, Mailbox>, log: seq<Message>) {
    (forall n :: n in topics ==> Ascending(topics[n].messages)) &&
    (forall n, m :: n in topics && m in topics[n].messages ==> m in log) &&
    (forall h :: h in boxes ==> Ascending(boxes[h].pending)) &&
    (forall h, m :: h in boxes && m in boxes[h].pending ==> m in log)
  }

  lemma EnsureTopicKeepsInvariants(topics: map<string, Topic>, boxes: map<nat, Mailbox>, nextHandle: nat,
                                   log: seq<Message>, name: string)
    requires WellFormed(topics, boxes, nextHandle)
    ensures WellFormed(EnsureTopic(topics, name), boxes, nextHandle)
    ensures Ordered(topics, boxes, log) ==> Ordered(EnsureTopic(topics, name), boxes, log)
  {
  }

  lemma CleanupKeepsInvariants(topics: map<string, Topic>, boxes: map<nat, Mailbox>, nextHandle: nat,
                               log: seq<Message>, name: string)
    requires WellFormed(topics, boxes, nextHandle)
    ensures WellFormed(Cleanup(topics, name), boxes, nextHandle)
    ensures Ordered(topics, boxes, log) ==> Ordered(Cleanup(topics, name), boxes, log)
  {
  }

  /** Publishing to a registered topic keeps the registry well formed. */
  lemma PublishKeepsWellFormed(topics: map<string, Topic>, boxes: map<nat, Mailbox>, nextHandle: nat, m: Message)
    requires WellFormed(topics, boxes, nextHandle)
    requires m.topic in topics
    ensures WellFormed(AppendMessage(topics, m), FanOut(boxes, topics[m.topic].subscribers, m), nextHandle)
  {
    var topics', boxes' := AppendMessage(topics, m), FanOut(boxes, topics[m.topic].subscribers, m);
    forall h | h in boxes'
      ensures h < nextHandle && |boxes'[h].pending| <= MailboxCapacity
      ensures boxes'[h].topic == boxes[h].topic && boxes'[h].closed == boxes[h].closed
      ensures forall x :: x in boxes'[h].pending ==> x in boxes[h].pending || (x == m && h in topics[m.topic].subscribers)
    {
      FanOutEffect(boxes, topics[m.topic].subscribers, m, h);
    }
  }

  /**
   * Publishing the next message of the log keeps every history and mailbox
   * in ID order and made of logged messages.
   */
  lemma PublishKeepsOrdered(topics: map<string, Topic>, boxes: map<nat, Mailbox>, log: seq<Message>, m: Message,
                            subscribers: set<nat>)
    requires Ordered(topics, boxes, log) && LogNumbered(log)
    requires m.topic in topics && m.id == |log| + 1
    ensures Ordered(AppendMessage(topics, m), FanOut(boxes, subscribers, m), log + [m])
  {
    var topics', boxes' := AppendMessage(topics, m), FanOut(boxes, subscribers, m);
    forall n | n in topics'
      ensures Ascending(topics'[n].messages)
    {
      if n == m.topic {
        PredatesNext(log, topics[n].messages, m);
        AppendKeepsAscending(topics[n].messages, m);
      }
    }
    forall h | h in boxes'
      ensures Ascending(boxes'[h].pending)
    {
      PredatesNext(log, boxes[h].pending, m);
      AppendKeepsAscending(boxes[h].pending, m);
    }
  }

  /**
   * Publishing the message numbered after the log keeps the log numbered and
   * everything ordered, and the new ID exceeds every stored one.
   */
  lemma PublishKeepsSequenced(topics: map<string, Topic>, boxes: map<nat, Mailbox>, log: seq<Message>, m: Message,
                              subscribers: set<nat>)
    requires Ordered(topics, boxes, log) && LogNumbered(log)
    requires m.topic in topics && m.id == |log| + 1
    ensures LogNumbered(log + [m])
    ensures Ordered(AppendMessage(topics, m), FanOut(boxes, subscribers, m), log + [m])
    ensures forall n, x :: n in topics && x in topics[n].messages ==> x.id < m.id
  {
    PublishKeepsOrdered(topics, boxes, log, m, subscribers);
    forall n, x | n in topics && x in topics[n].messages
      ensures x.id < m.id
    {
      LoggedIdsBounded(log, x);
    }
  }

  /** A new open mailbox under handle `nextHandle`, subscribed to `name`, keeps the invariants. */
  lemma SubscribeKeepsInvariants(topics: map<string, Topic>, boxes: map<nat, Mailbox>, nextHandle: nat,
                                 log: seq<Message>, name: string)
    requires WellFormed(topics, boxes, nextHandle) && name in topics
    ensures nextHandle !in boxes && nextHandle !in topics[name].subscribers
    ensures WellFormed(WithSubscriber(topics, name, nextHandle),
                       boxes[nextHandle := Mailbox(name, [], false)], nextHandle + 1)
    ensures Ordered(topics, boxes, log) ==>
      Ordered(WithSubscriber(topics, name, nextHandle), boxes[nextHandle := Mailbox(name, [], false)], log)
  {
    var topics', boxes' := WithSubscriber(topics, name, nextHandle), boxes[nextHandle := Mailbox(name, [], false)];
    forall n, h | n in topics' && h in topics'[n].subscribers
      ensures h in boxes' && boxes'[h].topic == n && !boxes'[h].closed
    {
      if n != name {
        assert topics'[n] == topics[n];
        assert h in boxes && h != nextHandle;
      } else if h != nextHandle {
        assert h in topics[n].subscribers;
      }
    }
  }

  /** Unsubscribing and closing an open mailbox keeps the invariants. */
  lemma UnsubscribeKeepsInvariants(topics: map<string, Topic>, boxes: map<nat, Mailbox>, nextHandle: nat,
                                   log: seq<Message>, handle: nat)
    requires WellFormed(topics, boxes, nextHandle)
    requires handle in boxes && !boxes[handle].closed
    ensures boxes[handle].topic in topics
    ensures WellFormed(WithoutSubscriber(topics, boxes[handle].topic, handle),
                       boxes[handle := boxes[handle].(closed := true)], nextHandle)
    ensures Ordered(topics, boxes, log) ==>
      Ordered(WithoutSubscriber(topics, boxes[handle].topic, handle), boxes[handle := boxes[handle].(closed := true)], log)
  {
  }

  class InfocenterService {
    var topics: map<string, Topic>
    var messageIdSequence: int
    const maxConnectionTime: int
    var mailboxes: map<nat, Mailbox>
    /** The handle the next new mailbox gets; no mailbox uses it or any larger one. */
    var nextHandle: nat
    /** Every message ever published, in publication order. */
    ghost var published: seq<Message>

    ghost predicate Valid()
      reads this
    {
      IsInt64(messageIdSequence) && WellFormed(topics, mailboxes, nextHandle)
    }

    /**
     * The ID discipline while the counter has not wrapped: the i-th message
     * ever published has ID i + 1, the counter is the number published, and
     * every history and every mailbox holds published messages in ID order.
     */
    ghost predicate Sequenced()
      reads this
    {
      |published| == messageIdSequence && LogNumbered(published) && Ordered(topics, mailboxes, published)
    }

    /** The retained history of a topic; an absent topic has none. */
    function History(name: string): seq<Message>
      reads this
    {
      HistoryOf(topics, name)
    }

    /** NewInfocenterService: no topics, no mailboxes, counter 0. */
    constructor (maxConnectionTime: int)
      ensures Valid() && Sequenced()
      ensures topics == map[] && mailboxes == map[] && messageIdSequence == 0
      ensures this.maxConnectionTime == maxConnectionTime && published == []
    {
      topics := map[];
      messageIdSequence := 0;
      this.maxConnectionTime := maxConnectionTime;
      mailboxes := map[];
      nextHandle := 0;
      published := [];
    }

    /**
     * Returns the topic registered under `topicName`, registering an empty one
     * first when there is none. The source's read-then-recheck-under-write-lock
     * collapses to one check in a sequential step.
     */
    method GetOrCreateTopic(topicName: string) returns (topic: Topic)
      requires Valid()
      modifies this`topics
      ensures Valid()
      ensures topics == EnsureTopic(old(topics), topicName)
      ensures topic == topics[topicName] && topic.name == topicName
      ensures topicName in old(topics) ==> topic == old(topics)[topicName]
      ensures topicName !in old(topics) ==> topic.subscribers == {} && topic.messages == []
      ensures old(Sequenced()) ==> Sequenced()
    {
      EnsureTopicKeepsInvariants(topics, mailboxes, nextHandle, published, topicName);
      if topicName in topics {
        topic := topics[topicName];
        return;
      }
      topic := Topic(topicName, {}, []);
      topics := topics[topicName := topic];
    }

    /** Deletes the topic, and its history, iff it is registered with no subscribers. */
    method CleanupTopic(topicName: string)
      requires Valid()
      modifies this`topics
      ensures Valid()
      ensures topics == Cleanup(old(topics), topicName)
      ensures old(Sequenced()) ==> Sequenced()
    {
      CleanupKeepsInvariants(topics, mailboxes, nextHandle, published, topicName);
      if topicName !in topics {
        return;
      }
      var hasNoSubscribers := |topics[topicName].subscribers| == 0;
      if hasNoSubscribers {
        topics := topics - {topicName};
      }
    }

    /**
     * Takes the next ID, stores the message at the end of its topic's history
     * (creating the topic if needed) and offers it to every subscriber of
     * that topic, dropping it for the ones whose mailbox is full.
     */
    method AddMessage(topicName: string, messageContent: string) returns (newMessage: Message)
      requires Valid()
      modifies this
      ensures Valid()
      ensures newMessage == Message(AddInt64(old(messageIdSequence), 1), messageContent, topicName)
      ensures messageIdSequence == newMessage.id
      ensures topics == AppendMessage(EnsureTopic(old(topics), topicName), newMessage)
      ensures mailboxes == FanOut(old(mailboxes), EnsureTopic(old(topics), topicName)[topicName].subscribers, newMessage)
      ensures nextHandle == old(nextHandle)
      ensures published == old(published) + [newMessage]
      ensures History(topicName) == old(History(topicName)) + [newMessage]
      ensures forall n :: n != topicName ==> History(n) == old(History(n))
      ensures old(Sequenced()) && old(messageIdSequence) < MaxInt64 ==>
        Sequenced() && newMessage.id == old(messageIdSequence) + 1 &&
        forall n, m :: n in old(topics) && m in old(topics)[n].messages ==> m.id < newMessage.id
    {
      ghost var wasSequenced := Sequenced() && messageIdSequence < MaxInt64;
      messageIdSequence := AddInt64(messageIdSequence, 1);
      newMessage := Message(messageIdSequence, messageContent, topicName);

      var topic := GetOrCreateTopic(topicName);
      ghost var registry := topics;
      PublishKeepsWellFormed(registry, mailboxes, nextHandle, newMessage);
      if wasSequenced {
        PublishKeepsSequenced(registry, mailboxes, published, newMessage, topic.subscribers);
      }
      published := published + [newMessage];

      topic := topic.(messages := topic.messages + [newMessage]);
      topics := topics[topicName := topic];
      var activeSubscribers := topic.subscribers;
      Broadcast(activeSubscribers, newMessage);
      forall n
        ensures History(n) == if n == topicName then old(History(n)) + [newMessage] else old(History(n))
      {
        PublishAppendsHistory(old(topics), newMessage, n);
      }
    }

    /**
     * The send loop of AddMessage: offers `m` to each subscriber's mailbox
     * without blocking, skipping the full ones.
     */
    method Broadcast(activeSubscribers: set<nat>, m: Message)
      requires activeSubscribers <= mailboxes.Keys
      modifies this`mailboxes
      ensures mailboxes == FanOut(old(mailboxes), activeSubscribers, m)
    {
      var unsent := activeSubscribers;
      while unsent != {}
        invariant unsent <= activeSubscribers
        invariant mailboxes == FanOut(old(mailboxes), activeSubscribers - unsent, m)
        decreases unsent
      {
        var messageChannel :| messageChannel in unsent;
        if |mailboxes[messageChannel].pending| < MailboxCapacity {
          mailboxes := mailboxes[messageChannel := Deliver(mailboxes[messageChannel], m)];
        }
        unsent := unsent - {messageChannel};
      }
      assert activeSubscribers - unsent == activeSubscribers;
    }

    /**
     * Registers a new, empty, open mailbox under the topic, creating the topic
     * if needed, and returns its handle (the channel).
     */
    method Subscribe(topicName: string) returns (handle: nat)
      requires Valid()
      modifies this
      ensures Valid()
      ensures handle !in old(mailboxes)
      ensures handle !in EnsureTopic(old(topics), topicName)[topicName].subscribers
      ensures mailboxes == old(mailboxes)[handle := Mailbox(topicName, [], false)]
      ensures topics == WithSubscriber(EnsureTopic(old(topics), topicName), topicName, handle)
      ensures messageIdSequence == old(messageIdSequence) && published == old(published)
      ensures old(Sequenced()) ==> Sequenced()
    {
      var topic := GetOrCreateTopic(topicName);
      SubscribeKeepsInvariants(topics, mailboxes, nextHandle, published, topicName);
      handle := nextHandle;
      nextHandle := nextHandle + 1;
      mailboxes := mailboxes[handle := Mailbox(topicName, [], false)];
      topics := topics[topicName := topic.(subscribers := topic.subscribers + {handle})];
    }

    /**
     * The release function Subscribe hands out: removes the mailbox from its
     * topic, closes it, then cleans the topic up. It may run once per
     * subscription (closing a closed channel panics in the source).
     */
    method Release(handle: nat)
      requires Valid()
      requires handle in mailboxes && !mailboxes[handle].closed
      modifies this
      ensures Valid()
      ensures var name := old(mailboxes[handle].topic);
        name in old(topics) &&
        topics == Cleanup(WithoutSubscriber(old(topics), name, handle), name)
      ensures mailboxes == old(mailboxes)[handle := old(mailboxes[handle]).(closed := true)]
      ensures messageIdSequence == old(messageIdSequence) && published == old(published)
      ensures old(Sequenced()) ==> Sequenced()
    {
      UnsubscribeKeepsInvariants(topics, mailboxes, nextHandle, published, handle);
      var topicName := mailboxes[handle].topic;
      var topic := topics[topicName];
      topics := topics[topicName := topic.(subscribers := topic.subscribers - {handle})];
      mailboxes := mailboxes[handle := mailboxes[handle].(closed := true)];
      CleanupTopic(topicName);
    }

    /** A copy of the topic's history, in order; an absent topic is created, empty. */
    method GetTopicMessages(topicName: string) returns (topicMessages: seq<Message>)
      requires Valid()
      modifies this`topics
      ensures Valid()
      ensures topics == EnsureTopic(old(topics), topicName)
      ensures topicMessages == old(History(topicName)) == History(topicName)
      ensures old(Sequenced()) ==> Sequenced() && Ascending(topicMessages)
    {
      var topic := GetOrCreateTopic(topicName);
      topicMessages := topic.messages;
    }

    method GetMaxConnectionDuration() returns (duration: int)
      ensures duration == maxConnectionTime
    {
      duration := maxConnectionTime;
    }

    /** The current value of the ID counter: the ID of the latest message, 0 before any. */
    method GetMessageIdSeq() returns (sequenceValue: int)
      ensures sequenceValue == messageIdSequence
      ensures Sequenced() ==> sequenceValue == |published|
      ensures Sequenced() ==>
        forall n, m :: n in topics && m in topics[n].messages ==> 1 <= m.id <= sequenceValue
    {
      sequenceValue := messageIdSequence;
      if Sequenced() {
        forall n, m | n in topics && m in topics[n].messages
          ensures 1 <= m.id <= sequenceValue
        {
          LoggedIdsBounded(published, m);
        }
      }
    }

    /**
     * IDs are unique across all topics: two stored messages with the same ID
     * are the same entry of the same topic's history.
     */
    lemma IdsGloballyUnique(n1: string, i: nat, n2: string, j: nat)
      requires Valid() && Sequenced()
      requires n1 in topics && i < |topics[n1].messages|
      requires n2 in topics && j < |topics[n2].messages|
      requires topics[n1].messages[i].id == topics[n2].messages[j].id
      ensures n1 == n2 && i == j
    {
      var m1, m2 := topics[n1].messages[i], topics[n2].messages[j];
      assert m1 in topics[n1].messages && m2 in topics[n2].messages;
      assert m1 in published && m2 in published;
      var k1 :| 0 <= k1 < |published| && published[k1] == m1;
      var k2 :| 0 <= k2 < |published| && published[k2] == m2;
      assert k1 == k2;
      assert Ascending(topics[n1].messages);
    }
  }
}
