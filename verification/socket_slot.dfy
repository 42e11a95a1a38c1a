// What the socket thread does to a slot while it sends the lists (socket_server.c), as one call; each
// access is a step of the protocol.

module SocketSlot {
  import opened Options
  import opened SocketWrite
  import opened SocketStream
  import opened SocketOrder
  import opened SocketSafety

  /** The socket thread takes these steps one after the other. */
  function Turns(s: State, cs: seq<Choice>): State {
    if cs == [] then s else SocketStep(Turns(s, cs[..|cs| - 1]), cs[|cs| - 1])
  }

  lemma TurnsSnoc(s: State, cs: seq<Choice>, c: Choice)
    ensures Turns(s, cs + [c]) == SocketStep(Turns(s, cs), c)
  {
    assert (cs + [c])[..|cs|] == cs;
  }

  /** A packet sent in part. */
  predicate Partly(list: seq<Buf>) { list != [] && list[0].sent > 0 }

  /** Nothing of a packet of the low list is sent, and nothing waits when the lists are sent. */
  lemma WhileSending(s: State)
    requires Inv(s)
    ensures !Partly(s.low)
    ensures s.socket.SendLow? ==> s.high == []
    ensures Sends(s.socket) && s.high == [] && s.low == [] ==> s.size == 0
  {
    if Sends(s.socket) && s.high == [] && s.low == [] { NothingWaits(s); }
  }

  class Slot {
    var kind: Kind
    var lock: Option<Owner>
    var high: seq<Buf>
    var low: seq<Buf>
    var dw: Option<Buf>
    var size: int

    // The whole protocol, and the steps of the socket thread since the call started.
    ghost var view: State
    ghost var start: State
    ghost var steps: seq<Choice>

    /** The slot is what the protocol says. */
    ghost predicate Valid()
      reads this
    {
      && view.kind == kind && view.lock == lock && view.dw == dw && view.size == size
      && view.high == high && view.low == low
      && Inv(view) && view == Turns(start, steps)
    }

    /** The same, except that a packet of the low list sent in part is still to be raised. */
    ghost predicate Lags()
      reads this
    {
      && view.kind == kind && view.lock == lock && view.dw == dw && view.size == size
      && Partly(low) && high == [] && view.high == [low[0]] && view.low == low[1..]
      && Inv(view) && view == Turns(start, steps)
    }

    ghost method Step(c: Choice)
      requires Inv(view) && !UnsafeClose(view) && view == Turns(start, steps)
      modifies this`view, this`steps
      ensures view == SocketStep(old(view), c) && Inv(view) && view == Turns(start, steps)
    {
      hide Inv, SocketStep;
      SocketKeeps(view, c);
      TurnsSnoc(start, steps, c);
      view := SocketStep(view, c);
      steps := steps + [c];
    }

    /** Frees the lists, then, under the lock, the leftover: 'force_close'. */
    method ForceClose()
      requires Valid() && view.socket == Free(true)
      modifies this
      ensures Valid() && start == old(start) && kind == Invalid && view.socket == Release(Return) && lock == old(lock)
    {
      hide Inv, Turns, Event, Queued, WriteHigh, WriteLow, Merged, Bytes, Rest, Cut;
      high, low := [], [];
      Step(Again);
      kind, dw := Invalid, None;
      Step(Again);
    }

    /**
     * Writes a list to the connection as far as it goes: 'send_list_tcp'. 'writes' is what the kernel
     * answers, from 'from' on; when the answers run out the connection would block.
     */
    method SendList(isHigh: bool, writes: seq<Choice>, from: nat, ghost next: Then) returns (closed: bool, used: nat)
      requires Valid() && from <= |writes|
      requires view.socket == if isHigh then SendHigh(next) else SendLow(next)
      requires !isHigh ==> high == []
      modifies this
      ensures start == old(start) && from <= used <= |writes| && lock == old(lock)
      ensures closed ==> Valid() && kind == Invalid && view.socket == Release(Return)
      ensures !closed && isHigh ==> Valid() && low == old(low) && kind == old(kind)
      ensures !closed && isHigh ==> view.socket == if high == [] then SendHigh(next) else Release(next)
      ensures !closed && !isHigh ==> high == [] && kind == old(kind)
      ensures !closed && !isHigh ==> if Partly(low) then Lags() else Valid()
      ensures !closed && !isHigh ==> view.socket == if low == [] then SendLow(next) else Release(next)
    {
      hide Inv, Turns, Event, Queued, Close, Merged, AllSent, Bytes, Rest;
      used := from;
      WhileSending(view);
      while (if isHigh then high else low) != []
        invariant Valid() && start == old(start) && from <= used <= |writes| && lock == old(lock)
        invariant kind == old(kind) && (if isHigh then low == old(low) else high == [] && !Partly(low))
        invariant view.socket == if isHigh then SendHigh(next) else SendLow(next)
        decreases |writes| - used, if used < |writes| then 0 else |if isHigh then high else low|
      {
        var head := if isHigh then high[0] else low[0];
        var c := Again;
        if used < |writes| {
          c, used := writes[used], used + 1;
        }
        match c {
          case Again =>
            Step(c);
            return false, used;
          case Error =>
            Step(c);
            ForceClose();
            return true, used;
          case Accept(n) =>
            if n > Rest(head) {
              continue;
            }
            Step(c);
            WhileSending(view);
            size := size - n;
            if n != Rest(head) {
              var partly := Buf(head.p, head.sent + n);
              if isHigh { high := [partly] + high[1..]; } else { low := [partly] + low[1..]; }
              return false, used;
            }
            if isHigh { high := high[1..]; } else { low := low[1..]; }
          case _ =>
        }
      }
      closed := false;
    }

    /** Moves the head of the low list to the empty high list: 'raise_uncomplete'. */
    method RaiseUncomplete()
      requires Lags()
      modifies this`high, this`low
      ensures Valid() && high == [old(low[0])] && low == old(low[1..])
    {
      hide Inv, Turns;
      var head := low[0];
      low := low[1..];
      assert high == [];
      high := [head];
    }

    /** Sends the high list, then the low list: 'send_buffer_'. */
    method SendBuffers(writes: seq<Choice>, ghost next: Then) returns (closed: bool)
      requires Valid() && view.socket == SendHigh(next)
      modifies this
      ensures Valid() && start == old(start) && lock == old(lock)
      ensures view.socket == Release(if closed then Return else next)
      ensures closed ==> kind == Invalid
    {
      hide Inv, Turns, Waits, Event, Queued, Close, Merged, WriteHigh, WriteLow, Bytes, Rest;
      WhileSending(view);
      assert !Partly(low);
      var used;
      closed, used := SendList(true, writes, 0, next);
      if closed { return; }
      if high == [] {
        if low != [] {
          Step(Again);
          closed, used := SendList(false, writes, used, next);
          if closed { return; }
          if Partly(low) {
            RaiseUncomplete();
            return;
          }
          if low != [] { return; }
        }
        WhileSending(view);
        assert Empty(high, low) && size == 0;
        Step(Again);
        if kind == HalfClose {
          ForceClose();
          closed := true;
        }
      }
    }

    /**
     * What the socket thread does when the connection may be written: 'send_buffer'. It takes exactly
     * the steps of the protocol from there to where it waits again, or decides about a close request.
     */
    method SendBuffer(writes: seq<Choice>, ghost next: Then) returns (closed: bool)
      requires Valid() && view.socket == Try(next) && start == view && steps == []
      modifies this
      ensures Valid() && start == old(start)
      ensures view == Turns(old(view), steps)
      ensures closed ==> kind == Invalid && view.socket == Waiting
      ensures !closed ==> view.socket == if next.Closing? then Decide(next.shutdown) else Waiting
      ensures old(lock).Some? ==> !closed && lock == old(lock) && view.stream == old(view).stream
      ensures old(lock).None? ==> lock.None?
    {
      hide Inv, Turns, Event, Queued, Close, WriteHigh, WriteLow, AllSent, Bytes, Rest;
      Step(Again);
      if lock.Some? {
        return false;
      }
      lock := Some(Socket);
      Step(Again);
      if dw.Some? {
        size := size + Rest(dw.value);
        high := [dw.value] + high;
        dw := None;
      }
      closed := SendBuffers(writes, next);
      lock := None;
      Step(Again);
    }

    /** Queues a request that came through the pipe: 'send_socket'. */
    method SendSocket(p: Packet)
      requires Valid() && view.socket == Hand(p)
      modifies this
      ensures Valid() && start == old(start) && view == SocketStep(old(view), Again)
      ensures kind == old(kind) && lock == old(lock) && dw == old(dw)
      ensures kind == Invalid || kind == HalfClose ==> high == old(high) && low == old(low) && size == old(size)
      ensures kind == Connecting || kind == Connected ==>
                && size == old(size) + p.size
                && (p.high ==> high == old(high) + [Buf(p, 0)] && low == old(low))
                && (!p.high && (old(high) != [] || old(low) != [] || kind == Connecting) ==>
                      high == old(high) && low == old(low) + [Buf(p, 0)])
                && (old(high) == [] && old(low) == [] && kind == Connected ==> high == [Buf(p, 0)] && low == [])
    {
      hide Inv, Turns;
      Step(Again);
      if kind == Invalid || kind == HalfClose { return; }
      if Empty(high, low) && kind == Connected {
        high := high + [Buf(p, 0)];
      } else if p.high {
        high := high + [Buf(p, 0)];
      } else {
        low := low + [Buf(p, 0)];
      }
      size := size + p.size;
    }
  }
}
