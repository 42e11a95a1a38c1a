// Ring buffers: an array, the index of the oldest element and that of the next free cell.

module Rings {

  /** The index after 'k'. */
  function Next(k: nat, cap: nat): nat { if k + 1 >= cap then 0 else k + 1 }

  /** The elements of a ring from the oldest to the newest. */
  function Ring<T>(q: seq<T>, head: nat, tail: nat): seq<T>
    requires head < |q| && tail < |q|
  {
    if head <= tail then q[head..tail] else q[head..] + q[..tail]
  }

  /** All cells of a full ring. */
  function FullRing<T>(q: seq<T>, head: nat): seq<T>
    requires head <= |q|
  {
    q[head..] + q[..head]
  }

  lemma RingPop<T>(q: seq<T>, head: nat, tail: nat)
    requires head < |q| && tail < |q| && head != tail
    ensures Ring(q, head, tail) == [q[head]] + Ring(q, Next(head, |q|), tail)
    ensures Ring(q, head, tail)[1..] == Ring(q, Next(head, |q|), tail)
  {
  }

  lemma RingPush<T>(q: seq<T>, head: nat, tail: nat, m: T)
    requires head < |q| && tail < |q|
    ensures var after := Next(tail, |q|);
            Ring(q, head, tail) + [m] ==
            if after == head then FullRing(q[tail := m], head) else Ring(q[tail := m], head, after)
  {
    var q', after := q[tail := m], Next(tail, |q|);
    if tail + 1 >= |q| {
      assert q'[head..] == q[head..tail] + [m];
      assert q'[..0] == [];
    } else if head <= tail {
      assert q'[head..after] == q[head..tail] + [m];
    } else {
      assert q'[..after] == q[..tail] + [m];
      assert q'[head..] == q[head..];
      assert (q[head..] + q[..tail]) + [m] == q[head..] + (q[..tail] + [m]);
    }
  }

  lemma RingLength<T>(q: seq<T>, head: nat, tail: nat)
    requires head < |q| && tail < |q|
    ensures |Ring(q, head, tail)| == if head <= tail then tail - head else tail + |q| - head
    ensures Ring(q, head, tail) == [] <==> head == tail
  {
  }

  lemma WrapIndex(k: nat, cap: nat)
    requires k < 2 * cap
    ensures k % cap == if k < cap then k else k - cap
  {
  }
}
