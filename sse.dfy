/**
 * The two event frames the broker writes on a stream, as strings. A frame is
 * an `id:` line, an `event:` line and a `data:` line, ended by a blank line
 * (the event-stream format of the WHATWG HTML Living Standard, section 9.2
 * "Server-sent events"). Writing and flushing the frame is I/O and is not
 * modelled; the functions return the text that would be written.
 */
module Sse {
  import opened Wrappers
  import opened Models
  import opened Decimal

  /** A frame is complete when its last two characters are the blank-line terminator. */
  predicate EndsWithBlankLine(frame: string) {
    |frame| >= 2 && frame[|frame| - 2..] == "\n\n"
  }

  /** The delivery frame of WriteSSEMessage; the content goes in verbatim, unescaped. */
  function MsgFrame(message: Message): (frame: string)
    ensures EndsWithBlankLine(frame)
    ensures |frame| == 24 + |FormatInt(message.id)| + |message.content|
    ensures frame[..4] == "id: "
  {
    "id: " + FormatInt(message.id) + "\nevent: msg\ndata: " + message.content + "\n\n"
  }

  /**
   * The timeout frame of WriteSSETimeout. The `duration` argument is accepted
   * and ignored: the data line always reads `30s`.
   */
  function TimeoutFrame(messageId: int, duration: int): (frame: string)
    ensures EndsWithBlankLine(frame)
    ensures |frame| >= 12 && frame[|frame| - 12..] == "\ndata: 30s\n\n"
    ensures frame[..4] == "id: "
  {
    "id: " + FormatInt(messageId) + "\nevent: timeout\ndata: 30s\n\n"
  }

  /** The characters of `s` before its first line feed. */
  function FirstLine(s: string): (line: string)
    ensures line <= s
    ensures forall i :: 0 <= i < |line| ==> line[i] != '\n'
  {
    if s == [] || s[0] == '\n' then [] else [s[0]] + FirstLine(s[1..])
  }

  /**
   * The value of the `id` field when a frame opens with an `id: ` line, as an
   * event-stream reader takes it: the single space after the colon is dropped
   * and the value runs to the end of the line.
   */
  function IdField(frame: string): Option<string> {
    if |frame| >= 4 && frame[..4] == "id: " then Some(FirstLine(frame[4..])) else None
  }

  lemma {:induction false} FirstLineOfJoin(line: string, rest: string)
    requires forall i :: 0 <= i < |line| ==> line[i] != '\n'
    ensures FirstLine(line + "\n" + rest) == line
  {
    if line != [] {
      assert (line + "\n" + rest)[1..] == line[1..] + "\n" + rest;
      FirstLineOfJoin(line[1..], rest);
    }
  }

  /** The id line of a delivery frame carries exactly the decimal message ID. */
  lemma MsgFrameId(message: Message)
    ensures IdField(MsgFrame(message)) == Some(FormatInt(message.id))
  {
    var digits := FormatInt(message.id);
    var rest := "event: msg\ndata: " + message.content + "\n\n";
    assert MsgFrame(message)[4..] == digits + "\n" + rest;
    FirstLineOfJoin(digits, rest);
  }

  /** The id line of a timeout frame carries exactly the supplied ID. */
  lemma TimeoutFrameId(messageId: int, duration: int)
    ensures IdField(TimeoutFrame(messageId, duration)) == Some(FormatInt(messageId))
  {
    var digits := FormatInt(messageId);
    var rest := "event: timeout\ndata: 30s\n\n";
    assert "\nevent: timeout\ndata: 30s\n\n" == "\n" + rest;
    assert TimeoutFrame(messageId, duration) == "id: " + (digits + "\n" + rest);
    FirstLineOfJoin(digits, rest);
  }

  /** The timeout frame depends on the ID alone, never on the duration. */
  lemma TimeoutIgnoresDuration(messageId: int, d1: int, d2: int)
    ensures TimeoutFrame(messageId, d1) == TimeoutFrame(messageId, d2)
  {
  }
}
