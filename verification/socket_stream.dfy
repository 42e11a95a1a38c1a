// What every run of the write path keeps: whole packets in the stream, senders' packets in order.

module SocketStream {
  import opened Options
  import opened SocketWrite

  /** The sender holds the lock. */
  predicate Locked(pc: SenderPc) {
    (pc.Check? && pc.locked) || pc.Write? || pc.Leave? || pc.Unlock?
  }

  /** It found, under the lock, no packet in the high list. */
  predicate SawHigh(pc: SenderPc) {
    (pc.Check? && pc.locked && pc.k >= 1) || pc.Write? || pc.Leave?
  }

  /** It found, under the lock, no leftover of a direct write. */
  predicate SawLeftover(pc: SenderPc) {
    (pc.Check? && pc.locked && pc.k >= 3) || pc.Write? || pc.Leave?
  }

  /** It found no request on its way. */
  predicate SawCounter(pc: SenderPc) {
    (pc.Check? && (pc.locked || pc.k >= 4)) || pc.TryLock? || pc.Write? || pc.Leave?
  }

  /** It found that out under the lock. */
  predicate Counted(pc: SenderPc) { (pc.Check? && pc.locked && pc.k >= 4) || pc.Write? || pc.Leave? }

  predicate SocketLocked(pc: SocketPc) {
    pc.Merge? || pc.SendHigh? || pc.SendLow? || pc.Release? || ((pc.Free? || pc.Shut?) && pc.locked)
  }

  /** The lock is where the program counters say. */
  ghost predicate LockInv(s: State) {
    && (forall t | t in s.senders :: Locked(s.senders[t]) <==> s.lock == Some(Sender(t)))
    && (forall t | s.lock == Some(Sender(t)) :: t in s.senders)
    && (SocketLocked(s.socket) <==> s.lock == Some(Socket))
    && (SocketLocked(s.socket) && !s.socket.Merge? ==> s.dw.None?)
    && (s.socket.SendLow? ==> s.high == [])
    && (s.kind.Invalid? ==> Empty(s.high, s.low) && s.dw.None?)
    && (s.kind.Invalid? ==> s.socket.Waiting? || s.socket.Hand? || s.socket.Dec? || s.socket == Release(Return))
    && (s.socket.Shut? ==> Empty(s.high, s.low))
    && (forall t | t in s.senders && (s.senders[t].Write? || s.senders[t].Leave?) :: !s.kind.Invalid?)
  }

  /** No part of the packet, or a proper part of it, is written. */
  predicate Proper(b: Buf) { b.sent == 0 || b.sent < b.p.size }

  predicate Fresh(list: seq<Buf>) { forall j | 0 <= j < |list| :: list[j].sent == 0 }

  /** At most one packet is written in part: the leftover, the head of the high list, or a lost one. */
  ghost predicate PieceInv(s: State) {
    && (s.high != [] ==> Proper(s.high[0]) && Fresh(s.high[1..]))
    && Fresh(s.low)
    && (s.dw.Some? ==> s.dw.value.sent < s.dw.value.p.size && Fresh(s.high))
    && (forall t | t in s.senders && SawHigh(s.senders[t]) :: Fresh(s.high))
    && (forall t | t in s.senders && SawLeftover(s.senders[t]) :: s.dw.None?)
    && (forall t | t in s.senders && s.senders[t].Leave? :: s.senders[t].n < s.senders[t].p.size)
    && (s.torn.Some? ==> 0 < s.torn.value.sent < s.torn.value.p.size && Empty(s.high, s.low) && s.dw.None?)
    && (s.torn.Some? ==>
          s.kind.Invalid? || (s.socket.Shut? && (s.socket.locked || !s.kind.Connected? || s.sending > 0)))
    && (s.torn.Some? ==> forall t | t in s.senders :: !s.senders[t].Write? && !s.senders[t].Leave?)
    && (s.torn.Some? && s.kind.Connected? ==> forall t | t in s.senders :: !Counted(s.senders[t]))
  }

  function Cells(ps: seq<Packet>): seq<Cell> {
    if ps == [] then [] else Cells(ps[..|ps| - 1]) + Bytes(ps[|ps| - 1], 0, ps[|ps| - 1].size)
  }

  /** The part of a packet that the stream ends with. */
  function Partial(s: State): Option<Buf> {
    if s.torn.Some? then s.torn
    else if s.dw.Some? && s.dw.value.sent > 0 then s.dw
    else if s.high != [] && s.high[0].sent > 0 then Some(s.high[0])
    else if s.lock.Some? && s.lock.value.Sender? && PcOf(s, s.lock.value.t).Leave? then
      var pc := PcOf(s, s.lock.value.t);
      Some(Buf(pc.p, pc.n))
    else None
  }

  function Piece(b: Option<Buf>): seq<Cell> {
    if b.Some? then Bytes(b.value.p, 0, b.value.sent) else []
  }

  predicate StreamInv(s: State) { s.stream == Cells(s.whole) + Piece(Partial(s)) }

  /**
   * The socket thread is about to free the lists of a connection that still looks open to senders,
   * without the lock, while the head of the high list is written in part and no request is announced.
   */
  predicate UnsafeClose(s: State) {
    s.socket == Free(false) && s.kind.Connected? && s.sending == 0 && s.high != [] && s.high[0].sent > 0
  }

  // ---- The lock and the pieces ----

  lemma CheckLock(s: State, t: nat, c: Choice)
    requires LockInv(s) && PcOf(s, t).Check?
    ensures LockInv(SenderStep(s, t, c))
  {
    hide Bytes, Empty;
  }

  lemma CheckPiece(s: State, t: nat, c: Choice)
    requires LockInv(s) && PieceInv(s) && PcOf(s, t).Check?
    ensures PieceInv(SenderStep(s, t, c))
  {
    hide Bytes, Proper, Empty;
  }

  /** Steps that neither hold nor take the lock. */
  predicate Outside(pc: SenderPc) { pc.Idle? || pc.Inc? || pc.ToPipe? }

  lemma OutsideLock(s: State, t: nat, c: Choice)
    requires LockInv(s) && Outside(PcOf(s, t))
    ensures LockInv(SenderStep(s, t, c))
  {
    hide Rest, Empty;
  }

  lemma OutsidePiece(s: State, t: nat, c: Choice)
    requires LockInv(s) && PieceInv(s) && Outside(PcOf(s, t))
    ensures PieceInv(SenderStep(s, t, c))
  {
    hide Rest, Proper, Fresh, Empty;
  }

  lemma LockedLock(s: State, t: nat, c: Choice)
    requires LockInv(s) && !Outside(PcOf(s, t)) && !PcOf(s, t).Check?
    ensures LockInv(SenderStep(s, t, c))
  {
  }

  lemma LockedPiece(s: State, t: nat, c: Choice)
    requires LockInv(s) && PieceInv(s) && !Outside(PcOf(s, t)) && !PcOf(s, t).Check?
    ensures PieceInv(SenderStep(s, t, c))
  {
  }

  predicate Closes(pc: SocketPc) { pc.Free? || pc.Shut? }

  lemma CloseLock(s: State, c: Choice)
    requires LockInv(s) && Closes(s.socket)
    ensures LockInv(SocketStep(s, c))
  {
    hide WriteHigh, WriteLow, AllSent, Event, Merged, Queued, Bytes, Rest;
  }

  lemma ClosePiece(s: State, c: Choice)
    requires LockInv(s) && PieceInv(s) && Closes(s.socket) && !UnsafeClose(s)
    ensures PieceInv(SocketStep(s, c))
  {
    hide WriteHigh, WriteLow, AllSent, Event, Merged, Queued, Bytes, Rest;
  }

  lemma MergeLock(s: State, c: Choice)
    requires LockInv(s) && s.socket.Merge?
    ensures LockInv(SocketStep(s, c))
  {
    hide Rest, WriteHigh, WriteLow, AllSent, Event, Close, Queued, Bytes;
  }

  lemma MergePiece(s: State, c: Choice)
    requires LockInv(s) && PieceInv(s) && s.socket.Merge?
    ensures PieceInv(SocketStep(s, c))
  {
    hide Rest, WriteHigh, WriteLow, AllSent, Event, Close, Queued, Bytes;
  }

  lemma SendLock(s: State, c: Choice)
    requires LockInv(s) && Sends(s.socket)
    ensures LockInv(SocketStep(s, c))
  {
    hide Rest, Locked, Event, Close, Merged, Queued, Bytes;
  }

  predicate Sends(pc: SocketPc) { pc.SendHigh? || pc.SendLow? }

  lemma SendPiece(s: State, c: Choice)
    requires LockInv(s) && PieceInv(s) && Sends(s.socket)
    ensures PieceInv(SocketStep(s, c))
  {
    hide Event, Close, Merged, Queued, Bytes;
  }

  /** The socket thread neither closes nor touches what is written in part. */
  predicate Quiet(pc: SocketPc) {
    pc.Waiting? || pc.Hand? || pc.Dec? || pc.Try? || pc.Release? || pc.Decide?
  }

  lemma QuietLock(s: State, c: Choice)
    requires LockInv(s) && Quiet(s.socket)
    ensures LockInv(SocketStep(s, c))
  {
    hide Locked, WriteHigh, WriteLow, AllSent, Close, Merged, Bytes, Rest;
  }

  lemma QuietPiece(s: State, c: Choice)
    requires LockInv(s) && PieceInv(s) && Quiet(s.socket)
    ensures PieceInv(SocketStep(s, c))
  {
    if s.socket.Hand? { HandPiece(s, c); } else { IdlePiece(s, c); }
  }

  lemma HandPiece(s: State, c: Choice)
    requires LockInv(s) && PieceInv(s) && s.socket.Hand?
    ensures PieceInv(SocketStep(s, c))
  {
    hide Locked, SawHigh, SawLeftover, WriteHigh, WriteLow, AllSent, Close, Merged, Bytes, Rest, Event;
    QueuedFresh(s, s.socket.p);
  }

  lemma IdlePiece(s: State, c: Choice)
    requires LockInv(s) && PieceInv(s) && Quiet(s.socket) && !s.socket.Hand?
    ensures PieceInv(SocketStep(s, c))
  {
    hide Locked, SawHigh, SawLeftover, WriteHigh, WriteLow, AllSent, Close, Merged, Bytes, Rest, Queued;
  }

  /** What is appended is fresh. */
  lemma QueuedFresh(s: State, p: Packet)
    ensures var s' := Queued(s, p);
            && (Fresh(s.high) ==> Fresh(s'.high)) && (Fresh(s.low) ==> Fresh(s'.low))
            && (s.high != [] ==> s'.high != [] && s'.high[0] == s.high[0])
            && (s.high != [] && Fresh(s.high[1..]) ==> Fresh(s'.high[1..]))
            && (s.high == [] && s'.high != [] ==> s'.high == [Buf(p, 0)])
  {
  }

  lemma SenderLock(s: State, t: nat, c: Choice)
    requires LockInv(s)
    ensures LockInv(SenderStep(s, t, c))
  {
    hide LockInv, SenderStep;
    if PcOf(s, t).Check? {
      CheckLock(s, t, c);
    } else if Outside(PcOf(s, t)) {
      OutsideLock(s, t, c);
    } else {
      LockedLock(s, t, c);
    }
  }

  lemma SocketLock(s: State, c: Choice)
    requires LockInv(s)
    ensures LockInv(SocketStep(s, c))
  {
    hide LockInv, SocketStep;
    if Sends(s.socket) {
      SendLock(s, c);
    } else if Closes(s.socket) {
      CloseLock(s, c);
    } else if s.socket.Merge? {
      MergeLock(s, c);
    } else {
      QuietLock(s, c);
    }
  }

  // ---- The stream ----

  lemma CellsSnoc(ps: seq<Packet>, p: Packet)
    ensures Cells(ps + [p]) == Cells(ps) + Bytes(p, 0, p.size)
  {
    assert (ps + [p])[..|ps|] == ps;
  }

  lemma BytesJoin(p: Packet, m: nat, n: nat)
    requires m <= n
    ensures Bytes(p, 0, m) + Bytes(p, m, n) == Bytes(p, 0, n)
  {
  }

  lemma NoBytes()
    ensures forall p: Packet, n: nat :: Bytes(p, n, n) == []
  {
  }

  /** Steps that write nothing leave the partial packet where it is, or move it to the leftover. */
  lemma SenderPartial(s: State, t: nat, c: Choice)
    requires LockInv(s) && PieceInv(s) && (PcOf(s, t).TryLock? || PcOf(s, t).Unlock?)
    ensures Partial(SenderStep(s, t, c)) == Partial(s)
    ensures SenderStep(s, t, c).stream == s.stream && SenderStep(s, t, c).whole == s.whole
  {
    hide PieceInv;
  }

  lemma OutsidePartial(s: State, t: nat, c: Choice)
    requires LockInv(s) && PieceInv(s) && Outside(PcOf(s, t))
    ensures Partial(SenderStep(s, t, c)) == Partial(s)
    ensures SenderStep(s, t, c).stream == s.stream && SenderStep(s, t, c).whole == s.whole
  {
    hide PieceInv;
  }

  lemma LeavePartial(s: State, t: nat, c: Choice)
    requires LockInv(s) && PieceInv(s) && PcOf(s, t).Leave?
    ensures Piece(Partial(SenderStep(s, t, c))) == Piece(Partial(s))
    ensures SenderStep(s, t, c).stream == s.stream && SenderStep(s, t, c).whole == s.whole
  {
    hide Cells, Bytes, Proper;
    NoBytes();
    assert t in s.senders && s.lock == Some(Sender(t));
  }

  lemma CheckPartial(s: State, t: nat, c: Choice)
    requires LockInv(s) && PieceInv(s) && PcOf(s, t).Check?
    ensures Partial(SenderStep(s, t, c)) == Partial(s)
    ensures SenderStep(s, t, c).stream == s.stream && SenderStep(s, t, c).whole == s.whole
  {
    hide Allows;
  }

  /** A direct write starts when no packet is written in part. */
  lemma WritePartial(s: State, t: nat, c: Choice)
    requires LockInv(s) && PieceInv(s) && PcOf(s, t).Write?
    ensures var p, s' := PcOf(s, t).p, SenderStep(s, t, c);
            var n := if c.Accept? && c.n <= p.size then c.n else 0;
            && Partial(s).None? && s'.stream == s.stream + Bytes(p, 0, n)
            && if n == p.size then Partial(s').None? && s'.whole == s.whole + [p]
               else s'.whole == s.whole && Piece(Partial(s')) == Bytes(p, 0, n)
  {
    hide Cells, Bytes;
    NoBytes();
    assert t in s.senders && s.lock == Some(Sender(t));
  }

  lemma SenderStream(s: State, t: nat, c: Choice)
    requires LockInv(s) && PieceInv(s) && StreamInv(s)
    ensures StreamInv(SenderStep(s, t, c))
  {
    hide Cells, Bytes, Partial, LockInv, PieceInv;
    var pc := PcOf(s, t);
    if pc.Write? {
      WritePartial(s, t, c);
      CellsSnoc(s.whole, pc.p);
    } else if pc.Check? {
      CheckPartial(s, t, c);
    } else if pc.Leave? {
      LeavePartial(s, t, c);
    } else if Outside(pc) {
      OutsidePartial(s, t, c);
    } else {
      SenderPartial(s, t, c);
    }
  }

  /** The socket thread between its writes: the partial packet stays, or is lost. */
  lemma MergePartial(s: State, c: Choice)
    requires LockInv(s) && PieceInv(s) && s.socket.Merge?
    ensures Partial(SocketStep(s, c)) == Partial(s)
    ensures SocketStep(s, c).stream == s.stream && SocketStep(s, c).whole == s.whole
  {
    hide WriteHigh, WriteLow, AllSent, Event, Close, Queued, Bytes, Rest;
  }

  lemma QuietPartial(s: State, c: Choice)
    requires LockInv(s) && PieceInv(s) && Quiet(s.socket)
    ensures Partial(SocketStep(s, c)) == Partial(s)
    ensures SocketStep(s, c).stream == s.stream && SocketStep(s, c).whole == s.whole
  {
    if s.socket.Hand? { HandPartial(s, c); } else { IdlePartial(s, c); }
  }

  lemma HandPartial(s: State, c: Choice)
    requires PieceInv(s) && s.socket.Hand?
    ensures Partial(SocketStep(s, c)) == Partial(s)
    ensures SocketStep(s, c).stream == s.stream && SocketStep(s, c).whole == s.whole
  {
    hide Fresh, PieceInv, Locked, WriteHigh, WriteLow, AllSent, Close, Merged, Event, Bytes, Rest;
    QueuedFresh(s, s.socket.p);
  }

  lemma IdlePartial(s: State, c: Choice)
    requires LockInv(s) && Quiet(s.socket) && !s.socket.Hand?
    ensures Partial(SocketStep(s, c)) == Partial(s)
    ensures SocketStep(s, c).stream == s.stream && SocketStep(s, c).whole == s.whole
  {
    hide Fresh, Locked, Queued, WriteHigh, WriteLow, AllSent, Close, Merged, Bytes, Rest, Empty;
  }

  lemma ClosePartial(s: State, c: Choice)
    requires LockInv(s) && PieceInv(s) && Closes(s.socket)
    ensures Partial(SocketStep(s, c)) == Partial(s)
    ensures SocketStep(s, c).stream == s.stream && SocketStep(s, c).whole == s.whole
  {
    hide WriteHigh, WriteLow, AllSent, Event, Merged, Queued, Bytes, Rest;
  }

  /** One write of the socket thread continues the partial packet. */
  lemma SendPartial(s: State, c: Choice)
    requires LockInv(s) && PieceInv(s) && Sends(s.socket)
    ensures var s' := SocketStep(s, c);
            var list := if s.socket.SendHigh? then s.high else s.low;
            if list != [] && c.Accept? && c.n <= Rest(list[0]) then
              var b := list[0];
              && Piece(Partial(s)) == Bytes(b.p, 0, b.sent)
              && s'.stream == s.stream + Bytes(b.p, b.sent, b.sent + c.n)
              && if c.n == Rest(b) then Partial(s').None? && s'.whole == s.whole + [b.p]
                 else s'.whole == s.whole && Piece(Partial(s')) == Bytes(b.p, 0, b.sent + c.n)
            else s'.stream == s.stream && s'.whole == s.whole && Piece(Partial(s')) == Piece(Partial(s))
  {
    hide Cells, Bytes, Event, Close, Merged, Queued;
    NoBytes();
  }

  lemma Joined(a: seq<Cell>, b: seq<Cell>, c: seq<Cell>, bc: seq<Cell>)
    requires b + c == bc
    ensures (a + b) + c == a + bc
  {
  }

  lemma SendStream(s: State, c: Choice)
    requires LockInv(s) && PieceInv(s) && StreamInv(s) && Sends(s.socket)
    ensures StreamInv(SocketStep(s, c))
  {
    hide Cells, Bytes, Partial, LockInv, PieceInv, SocketStep, Rest, Piece;
    SendPartial(s, c);
    SentAll(s);
    NoPiece();
    var list := if s.socket.SendHigh? then s.high else s.low;
    if list != [] && c.Accept? && c.n <= Rest(list[0]) {
      var b := list[0];
      CellsSnoc(s.whole, b.p);
      BytesJoin(b.p, b.sent, b.sent + c.n);
      Joined(Cells(s.whole), Bytes(b.p, 0, b.sent), Bytes(b.p, b.sent, b.sent + c.n), Bytes(b.p, 0, b.sent + c.n));
    }
  }

  lemma NoPiece()
    ensures Piece(None) == []
    ensures forall a: seq<Cell> :: a + [] == a
  {
  }

  lemma ServerStream(s: State, c: Choice)
    requires LockInv(s) && PieceInv(s) && StreamInv(s)
    ensures StreamInv(SocketStep(s, c))
  {
    hide Cells, Bytes, Partial, LockInv, PieceInv, SocketStep;
    if Sends(s.socket) {
      SendStream(s, c);
    } else if Closes(s.socket) {
      ClosePartial(s, c);
    } else if s.socket.Merge? {
      MergePartial(s, c);
    } else {
      QuietPartial(s, c);
    }
  }

  lemma SentAll(s: State)
    requires PieceInv(s)
    ensures s.high != [] ==> s.high[0].sent + Rest(s.high[0]) == s.high[0].p.size
    ensures s.low != [] ==> s.low[0].sent + Rest(s.low[0]) == s.low[0].p.size
  {
  }
}
