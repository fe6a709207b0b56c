/**
 * The broker's records. `Message` is immutable once created; `Topic` is the
 * registry entry of one topic name: its subscriber handles and its retained
 * history. The per-topic readers-writer lock is not modelled: every broker
 * operation is one atomic step.
 */
module Models {
  /** A published message: `id` is a 64-bit integer assigned from the global sequence. */
  datatype Message = Message(id: int, content: string, topic: string)

  /**
   * A topic. A subscriber is the handle of a mailbox (a Go channel in the
   * source); the join time the source records per subscriber is never read
   * and is dropped.
   */
  datatype Topic = Topic(name: string, subscribers: set<nat>, messages: seq<Message>)
}
