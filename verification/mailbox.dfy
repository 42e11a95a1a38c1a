// The mailbox of a service (skynet_mq.c): a growing ring of messages behind one lock.

module Mailbox {
  import opened Rings

  datatype Message = Message(source: nat, session: int, size: nat)

  const DEFAULT_QUEUE_SIZE := 64
  const MQ_OVERLOAD := 1024

  /** What a mailbox is to the protocol: its messages and the two flags. */
  datatype Box = Box(msgs: seq<Message>, inGlobal: bool, release: bool)

  /** A new mailbox is in its creator's hand. */
  const NEW_BOX := Box([], true, false)

  /** One locked region each; 'queued' and its like say whether the caller has to queue the mailbox. */
  function PushBox(b: Box, m: Message): Box { Box(b.msgs + [m], true, b.release) }

  function PopBox(b: Box): Box {
    if b.msgs == [] then b.(inGlobal := false) else b.(msgs := b.msgs[1..])
  }

  function MarkBox(b: Box): Box { b.(release := true) }

  /** The threshold doubled until it covers a length. */
  function Raised(threshold: nat, length: nat): (r: nat)
    requires threshold > 0
    ensures r >= length && r >= threshold
    ensures r > threshold ==> r < 2 * length
    decreases length - threshold
  {
    if length > threshold then Raised(2 * threshold, length) else threshold
  }

  class MessageQueue {
    var queue: array<Message>
    var head: nat
    var tail: nat
    var release: bool
    var inGlobal: bool
    var overload: nat
    var threshold: nat

    /** The ring always has a free cell. */
    ghost predicate Valid()
      reads this
    {
      head < queue.Length && tail < queue.Length && threshold > 0
    }

    ghost function Contents(): seq<Message>
      requires Valid()
      reads this, queue
    {
      Ring(queue[..], head, tail)
    }

    ghost function Value(): Box
      requires Valid()
      reads this, queue
    {
      Box(Contents(), inGlobal, release)
    }

    constructor ()
      ensures Valid() && fresh(queue) && Value() == NEW_BOX
      ensures overload == 0 && threshold == MQ_OVERLOAD
    {
      queue := new Message[DEFAULT_QUEUE_SIZE](_ => Message(0, 0, 0));
      head, tail := 0, 0;
      inGlobal, release := true, false;
      overload, threshold := 0, MQ_OVERLOAD;
    }

    method Length() returns (n: nat)
      requires Valid()
      ensures n == |Contents()|
    {
      RingLength(queue[..], head, tail);
      if head <= tail { return tail - head; }
      return tail + queue.Length - head;
    }

    /** Records the length of a mailbox that has outgrown its threshold. */
    method NoteLength(length: nat)
      requires threshold > 0
      modifies this`overload, this`threshold
      ensures threshold == Raised(old(threshold), length)
      ensures overload == if length > old(threshold) then length else old(overload)
    {
      while length > threshold
        invariant threshold > 0 && Raised(threshold, length) == Raised(old(threshold), length)
        invariant threshold > old(threshold) <==> length > old(threshold) && threshold != old(threshold)
        invariant overload == if threshold > old(threshold) then length else old(overload)
        invariant threshold >= old(threshold)
        decreases length - threshold
      {
        overload := length;
        threshold := threshold * 2;
      }
    }

    /** Takes the oldest message; an empty mailbox gives up its place. */
    method Pop() returns (empty: bool, m: Message)
      requires Valid()
      modifies this
      ensures Valid() && queue == old(queue)
      ensures empty <==> old(Contents()) == []
      ensures Value() == PopBox(old(Value()))
      ensures if empty then Contents() == [] else old(Contents()) == [m] + Contents()
      ensures release == old(release) && inGlobal == (old(inGlobal) && !empty)
      ensures threshold == if empty then MQ_OVERLOAD else Raised(old(threshold), |Contents()|)
      ensures overload == if !empty && |Contents()| > old(threshold) then |Contents()| else old(overload)
    {
      hide Ring, Raised;
      empty, m := true, Message(0, 0, 0);
      RingLength(queue[..], head, tail);
      if head != tail {
        RingPop(queue[..], head, tail);
        m, empty := queue[head], false;
        head := head + 1;
        if head >= queue.Length { head := 0; }
        RingLength(queue[..], head, tail);
        var length: int := tail - head;
        if length < 0 { length := length + queue.Length; }
        NoteLength(length);
      } else {
        threshold := MQ_OVERLOAD;
      }
      if empty { inGlobal := false; }
    }

    /** Doubles a ring that has become full, the oldest message first. */
    method Expand()
      requires head < queue.Length && head == tail && threshold > 0
      modifies this`queue, this`head, this`tail
      ensures Valid() && fresh(queue) && queue.Length == 2 * old(queue.Length)
      ensures Contents() == old(FullRing(queue[..], head))
    {
      var cap := queue.Length;
      var bigger := new Message[cap * 2](_ => Message(0, 0, 0));
      var i := 0;
      ghost var want := FullRing(queue[..], head);
      while i < cap
        modifies bigger
        invariant i <= cap && bigger[..i] == want[..i]
      {
        WrapIndex(head + i, cap);
        bigger[i] := queue[(head + i) % cap];
        i := i + 1;
      }
      assert want[..cap] == want;
      head, tail, queue := 0, cap, bigger;
      assert queue[..][0..cap] == queue[..cap];
    }

    /** Adds a message; says whether the mailbox has to go to the global queue. */
    method Push(m: Message) returns (queued: bool)
      requires Valid()
      modifies this, queue
      ensures Valid() && (queue == old(queue) || fresh(queue))
      ensures Value() == PushBox(old(Value()), m)
      ensures Contents() == old(Contents()) + [m] && inGlobal && release == old(release)
      ensures queued <==> !old(inGlobal)
      ensures overload == old(overload) && threshold == old(threshold)
    {
      hide Ring;
      RingPush(queue[..], head, tail, m);
      queue[tail] := m;
      assert queue[..] == old(queue[..])[tail := m];
      tail := tail + 1;
      if tail >= queue.Length { tail := 0; }
      if head == tail { Expand(); }
      queued := !inGlobal;
      inGlobal := true;
    }

    /** Marks the mailbox of a deleted service; says whether it has to go to the global queue. */
    method MarkRelease() returns (queued: bool)
      requires Valid() && !release
      modifies this`release
      ensures Valid() && Value() == MarkBox(old(Value()))
      ensures release && Contents() == old(Contents())
      ensures queued <==> !inGlobal
    {
      release := true;
      queued := !inGlobal;
    }

    /** Hands every message of a released mailbox to the drop function, oldest first. */
    method Drain() returns (dropped: seq<Message>)
      requires Valid()
      modifies this
      ensures Valid() && queue == old(queue) && release == old(release)
      ensures dropped == old(Contents()) && Contents() == [] && !inGlobal
    {
      hide Contents, Value, PopBox, Raised;
      dropped := [];
      var empty, m := Pop();
      while !empty
        invariant Valid() && queue == old(queue) && release == old(release)
        invariant dropped + (if empty then [] else [m] + Contents()) == old(Contents())
        invariant empty ==> Contents() == [] && !inGlobal
        decreases if empty then 0 else |Contents()| + 1
      {
        dropped := dropped + [m];
        assert dropped + Contents() == old(Contents());
        empty, m := Pop();
      }
    }
  }
}
