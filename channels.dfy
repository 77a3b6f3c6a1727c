/**
 * A user's outbound channel: a first-in first-out buffer of messages with room for
 * ten, written by the coordinator without blocking and drained by the session.
 */
module Channels {
  import opened Wrappers
  import opened Messages

  /** How many messages a user's outbound channel buffers. */
  const OutputCapacity: nat := 10

  /**
   * A non-blocking send into a buffer: the message goes at the end when there is room,
   * and is dropped, leaving the buffer exactly as it was, when it is full.
   */
  function Offer(buffer: seq<Message>, m: Message): (r: seq<Message>)
    ensures r == buffer + [m] <==> |buffer| < OutputCapacity
    ensures r == buffer <==> |buffer| >= OutputCapacity
    ensures |buffer| <= OutputCapacity ==> |r| <= OutputCapacity
  {
    if |buffer| < OutputCapacity then buffer + [m] else buffer
  }

  class Channel {
    /** The messages sent and not yet received, oldest first. */
    var buffer: seq<Message>

    ghost predicate Valid()
      reads this
    {
      |buffer| <= OutputCapacity
    }

    /** A new, empty channel. */
    constructor ()
      ensures Valid() && buffer == []
    {
      buffer := [];
    }

    /** A send that never blocks: it reports whether the message found room. */
    method TrySend(m: Message) returns (sent: bool)
      modifies this
      ensures sent <==> |old(buffer)| < OutputCapacity
      ensures buffer == Offer(old(buffer), m)
    {
      sent := |buffer| < OutputCapacity;
      if sent {
        buffer := buffer + [m];
      }
    }

    /** Takes the oldest message; None when there is nothing to take (a receive would wait). */
    method Receive() returns (m: Option<Message>)
      modifies this
      ensures old(buffer) == [] ==> m == None && buffer == []
      ensures old(buffer) != [] ==> m == Some(old(buffer)[0]) && buffer == old(buffer)[1..]
    {
      if buffer == [] {
        m := None;
      } else {
        m := Some(buffer[0]);
        buffer := buffer[1..];
      }
    }
  }
}
