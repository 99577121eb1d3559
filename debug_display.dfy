/**
 * The on-screen debug message buffer: at most ten messages, the oldest dropped
 * when an eleventh arrives, and each shown for two seconds after it was added.
 * Times are seconds supplied by the caller.
 */
module Debug {
  import Seqs

  const MAX_MESSAGES: int := 10
  const MESSAGE_LIFETIME: real := 2.0

  datatype Message = Message(text: string, time: real)

  /** The buffer after appending `m`: the oldest message goes when the buffer would exceed its bound. */
  function Added(messages: seq<Message>, m: Message): (r: seq<Message>)
    ensures |r| >= 1 && r[|r| - 1] == m
    ensures |messages| <= MAX_MESSAGES ==> |r| == Seqs.Min(|messages| + 1, MAX_MESSAGES)
    ensures |messages| <= MAX_MESSAGES ==> r == (messages + [m])[|messages| + 1 - |r|..]
  {
    var appended := messages + [m];
    if |appended| > MAX_MESSAGES then appended[1..] else appended
  }

  /** Adding to a full buffer drops exactly the oldest message; otherwise nothing is dropped. */
  lemma AddedDropsOnlyOldest(messages: seq<Message>, m: Message)
    requires |messages| <= MAX_MESSAGES
    ensures |messages| < MAX_MESSAGES ==> Added(messages, m) == messages + [m]
    ensures |messages| == MAX_MESSAGES ==> Added(messages, m) == messages[1..] + [m]
  {
    if |messages| == MAX_MESSAGES {
      assert (messages + [m])[1..] == messages[1..] + [m];
    }
  }

  /** Whether a message added at `m.time` is still shown at time `now`. */
  function StillShown(now: real): Message -> bool {
    (m: Message) => now - m.time < MESSAGE_LIFETIME
  }

  /** The messages still shown at time `now`, in their original order. */
  function Unexpired(messages: seq<Message>, now: real): (r: seq<Message>)
    ensures |r| <= |messages|
    ensures forall m | m in r :: m in messages && now - m.time < MESSAGE_LIFETIME
    ensures forall m | m in messages :: m in r <==> now - m.time < MESSAGE_LIFETIME
  {
    Seqs.Filter(messages, StillShown(now))
  }

  /** Expiring at an earlier time and then at a later one is the same as expiring at the later one. */
  lemma UnexpiredLater(messages: seq<Message>, earlier: real, later: real)
    requires earlier <= later
    ensures Unexpired(Unexpired(messages, earlier), later) == Unexpired(messages, later)
  {
    Seqs.FilterNarrow(messages, StillShown(earlier), StillShown(later));
  }

  /** Expiring twice at the same time removes nothing more. */
  lemma UnexpiredIdempotent(messages: seq<Message>, now: real)
    ensures Unexpired(Unexpired(messages, now), now) == Unexpired(messages, now)
  {
    Seqs.FilterIdempotent(messages, StillShown(now));
  }

  class DebugDisplay {
    var messages: seq<Message>

    ghost predicate Valid()
      reads this
    {
      |messages| <= MAX_MESSAGES
    }

    constructor ()
      ensures messages == [] && Valid()
    {
      messages := [];
    }

    /** Append a message stamped `now`, then drop the oldest if the buffer is over its bound. */
    method AddMessage(text: string, now: real)
      requires Valid()
      modifies this
      ensures Valid()
      ensures messages == Added(old(messages), Message(text, now))
    {
      messages := messages + [Message(text, now)];
      if |messages| > MAX_MESSAGES {
        messages := messages[1..];
      }
    }

    method ClearMessages()
      modifies this
      ensures messages == [] && Valid()
    {
      messages := [];
    }

    /** Keep only the messages younger than the lifetime at time `now`. */
    method Update(now: real)
      requires Valid()
      modifies this
      ensures Valid()
      ensures messages == Unexpired(old(messages), now)
    {
      messages := Seqs.Filter(messages, StillShown(now));
    }
  }
}
