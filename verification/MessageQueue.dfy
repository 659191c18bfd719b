/** The bounded message queue: what one call does to the queued messages, and the bound
    that really holds. */
module MessageQueue {
  import opened Dns

  /** Whether a queue of the given length accepts one more message. */
  predicate Accepts(length: nat, maxLength: nat) {
    !(length > maxLength)
  }

  /** The messages in arrival order after trying to add one. */
  function Enqueued<M>(q: seq<M>, maxLength: nat, m: M): seq<M> {
    if Accepts(|q|, maxLength) then q + [m] else q
  }

  function EnqueueAll<M>(q: seq<M>, maxLength: nat, ms: seq<M>): seq<M>
    decreases |ms|
  {
    if ms == [] then q else EnqueueAll(Enqueued(q, maxLength, ms[0]), maxLength, ms[1..])
  }

  /** However many messages are offered, a queue keeps the oldest ones: the first
      max + 1 in all, one more than the configured length; later ones are rejected. */
  lemma {:induction false} OldestAreKept<M>(q: seq<M>, maxLength: nat, ms: seq<M>)
    requires |q| <= maxLength + 1
    ensures var all := q + ms;
            EnqueueAll(q, maxLength, ms) ==
            (if |all| <= maxLength + 1 then all else all[..maxLength + 1])
    decreases |ms|
  {
    if ms == [] {
      assert q + ms == q;
    } else {
      var q' := Enqueued(q, maxLength, ms[0]);
      OldestAreKept(q', maxLength, ms[1..]);
      if Accepts(|q|, maxLength) {
        assert q' + ms[1..] == q + ms;
      } else {
        assert (q + ms[1..])[..maxLength + 1] == q == (q + ms)[..maxLength + 1];
      }
    }
  }

  /** The queue object. New messages are pushed at the front and taken from the back. */
  class Queue<M> {
    const maxQueueLength: nat
    var messages: seq<M>
    var queueLength: nat

    ghost predicate Valid()
      reads this
    {
      queueLength == |messages| <= maxQueueLength + 1
    }

    /** The queued messages, oldest first. */
    ghost function Arrivals(): (s: seq<M>)
      reads this
      ensures |s| == |messages|
    {
      seq(|messages|, i requires 0 <= i < |messages| reads this => messages[|messages| - 1 - i])
    }

    constructor (maxLength: nat)
      ensures Valid() && Arrivals() == [] && maxQueueLength == maxLength
    {
      maxQueueLength := maxLength;
      messages := [];
      queueLength := 0;
    }

    method Enqueue(m: M) returns (accepted: bool)
      requires Valid()
      modifies this
      ensures Valid()
      ensures Arrivals() == Enqueued(old(Arrivals()), maxQueueLength, m)
      ensures accepted <==> old(|Arrivals()|) <= maxQueueLength
    {
      if queueLength > maxQueueLength {
        accepted := false;
      } else {
        ghost var before := Arrivals();
        messages := [m] + messages;
        queueLength := queueLength + 1;
        accepted := true;
        assert Arrivals() == before + [m];
      }
    }

    /** None stands for the timeout exception of an empty queue. */
    method Dequeue() returns (m: Option<M>)
      requires Valid()
      modifies this
      ensures Valid()
      ensures m.None? <==> old(Arrivals()) == []
      ensures m.None? ==> Arrivals() == old(Arrivals())
      ensures m.Some? ==> old(Arrivals()) == [m.value] + Arrivals()
    {
      if queueLength == 0 {
        m := None;
      } else {
        ghost var before := Arrivals();
        m := Some(messages[|messages| - 1]);
        messages := messages[..|messages| - 1];
        queueLength := queueLength - 1;
        assert before == [m.value] + Arrivals();
      }
    }
  }
}
