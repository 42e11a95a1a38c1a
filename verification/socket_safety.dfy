// TCP stream safety over all runs of the write path, and where it ends.

module SocketSafety {
  import opened Options
  import opened SocketWrite
  import opened SocketStream
  import opened SocketOrder

  /** One step of a run: a sender's, or the socket thread's. */
  datatype Turn = BySender(t: nat, c: Choice) | BySocket(c: Choice)

  function Do(s: State, e: Turn): State {
    if e.BySender? then SenderStep(s, e.t, e.c) else SocketStep(s, e.c)
  }

  /** The state after a run that starts at 's'. */
  function After(s: State, run: seq<Turn>): State {
    if run == [] then s else Do(After(s, run[..|run| - 1]), run[|run| - 1])
  }

  function Reach(run: seq<Turn>, kind: Kind): State { After(Start(kind), run) }

  /** No step of the run frees the lists in the middle of a packet where a sender may write directly. */
  predicate ClosesSafely(run: seq<Turn>, kind: Kind) {
    forall k | 0 <= k < |run| && run[k].BySocket? :: !UnsafeClose(Reach(run[..k], kind))
  }

  ghost predicate Inv(s: State) {
    LockInv(s) && PieceInv(s) && StreamInv(s) && CountInv(s) && SizeInv(s) && OrderInv(s)
  }

  lemma InvParts(s: State)
    ensures Inv(s) <==>
            LockInv(s) && PieceInv(s) && StreamInv(s) && CountInv(s) && SizeInv(s) && OrderInv(s)
  {
  }

  lemma SenderKeeps(s: State, t: nat, c: Choice)
    requires Inv(s)
    ensures Inv(SenderStep(s, t, c))
  {
    InvParts(s);
    InvParts(SenderStep(s, t, c));
    hide Inv, LockInv, PieceInv, StreamInv, CountInv, OrderInv;
    var pc := PcOf(s, t);
    SenderStream(s, t, c);
    SenderCount(s, t, c);
    SenderSize(s, t, c);
    SenderLock(s, t, c);
    if pc.Check? {
      CheckPiece(s, t, c);
      CheckOrder(s, t, c);
    } else if Outside(pc) {
      OutsidePiece(s, t, c);
      if pc.ToPipe? { PipeOrder(s, t, c); } else { OtherOrder(s, t, c); }
    } else {
      LockedPiece(s, t, c);
      if pc.Write? || pc.Leave? { WriteOrder(s, t, c); } else { OtherOrder(s, t, c); }
    }
  }

  lemma SenderSize(s: State, t: nat, c: Choice)
    requires SizeInv(s)
    ensures SizeInv(SenderStep(s, t, c))
  {
    hide Waits, Bytes;
  }

  lemma SocketKeeps(s: State, c: Choice)
    requires Inv(s) && !UnsafeClose(s)
    ensures Inv(SocketStep(s, c))
  {
    InvParts(s);
    InvParts(SocketStep(s, c));
    hide Inv, LockInv, PieceInv, StreamInv, CountInv, SizeInv, OrderInv, SocketStep;
    ServerStream(s, c);
    SocketCount(s, c);
    SocketLock(s, c);
    if Sends(s.socket) {
      SendPiece(s, c);
      SendSize(s, c);
      SendOrder(s, c);
    } else if s.socket.Merge? {
      MergePiece(s, c);
      SocketSize(s, c);
      MergeOrder(s, c);
    } else if Closes(s.socket) {
      ClosePiece(s, c);
      SocketSize(s, c);
      CloseOrder(s, c);
    } else {
      QuietPiece(s, c);
      SocketSize(s, c);
      if s.socket.Hand? { HandOrder(s, c); } else { QuietOrder(s, c); }
    }
  }

  lemma {:induction false} ReachInv(run: seq<Turn>, kind: Kind)
    requires kind.Connecting? || kind.Connected?
    requires ClosesSafely(run, kind)
    ensures Inv(Reach(run, kind))
  {
    if run == [] {
      StartInv(kind);
    } else {
      var n := |run| - 1;
      assert forall k | 0 <= k < n :: run[..n][..k] == run[..k];
      ReachInv(run[..n], kind);
      var s := Reach(run[..n], kind);
      if run[n].BySender? { SenderKeeps(s, run[n].t, run[n].c); } else { SocketKeeps(s, run[n].c); }
    }
  }

  lemma StartInv(kind: Kind)
    requires kind.Connecting? || kind.Connected?
    ensures Inv(Start(kind))
  {
    var s := Start(kind);
    InvParts(s);
    hide Inv;
    assert LockInv(s) && PieceInv(s);
    StartCounts(kind);
  }

  lemma StartCounts(kind: Kind)
    ensures var s := Start(kind); StreamInv(s) && CountInv(s) && SizeInv(s) && OrderInv(s)
  {
    var s := Start(kind);
    hide LockInv, PieceInv, SenderOrder, OrderInv, SizeInv, CountInv;
    assert StreamInv(s) by { assert Partial(s) == None; }
    assert CountInv(s) by { StartCount(kind); }
    assert SizeInv(s) by { StartSize(kind); }
    StartOrder(kind);
  }

  lemma StartCount(kind: Kind)
    ensures CountInv(Start(kind))
  {
    assert Announced(Start(kind)) == {};
  }

  lemma StartSize(kind: Kind)
    ensures SizeInv(Start(kind))
  {
  }

  lemma StartOrder(kind: Kind)
    ensures OrderInv(Start(kind))
  {
    hide SenderOrder;
    assert Line(Start(kind)) == [];
  }

  /** Whole packets back to back, and at most one packet in part at the end. */
  ghost predicate Shaped(stream: seq<Cell>) {
    exists ps: seq<Packet>, p: Packet, n: nat :: IsShape(stream, ps, p, n)
  }

  predicate IsShape(stream: seq<Cell>, ps: seq<Packet>, p: Packet, n: nat) {
    n <= p.size && stream == Cells(ps) + Bytes(p, 0, n)
  }

  /**
   * Over all interleavings of any number of senders and the socket thread, what is written to the
   * connection is whole packets back to back plus at most one partial packet at the end; and the
   * packets of one sender and priority are in the order of its calls, none of them twice.
   */
  lemma StreamSafe(run: seq<Turn>, kind: Kind)
    requires kind.Connecting? || kind.Connected?
    requires ClosesSafely(run, kind)
    ensures var s := Reach(run, kind);
            && Shaped(s.stream)
            && s.stream == Cells(s.whole) + Piece(Partial(s))
            && Sorted(s.whole)
            && (Partial(s).Some? && s.torn.None? ==>
                  forall q | q in s.whole && Same(q, Partial(s).value.p) :: q.no < Partial(s).value.p.no)
  {
    hide LineOf;
    ReachInv(run, kind);
    var s := Reach(run, kind);
    WrittenSorted(s);
    InvShaped(s);
    if Partial(s).Some? && s.torn.None? { PartialLast(s); }
  }

  lemma InvShaped(s: State)
    requires Inv(s)
    ensures Shaped(s.stream)
  {
    var b := Partial(s);
    if b.Some? {
      PartialFits(s);
      assert IsShape(s.stream, s.whole, b.value.p, b.value.sent);
    } else {
      var p := Packet(0, 0, 0, true);
      assert Bytes(p, 0, 0) == [];
      assert IsShape(s.stream, s.whole, p, 0);
    }
  }

  lemma WrittenSorted(s: State)
    requires OrderInv(s)
    ensures Sorted(s.whole)
  {
    assert forall i | 0 <= i < |s.whole| :: Line(s)[i] == s.whole[i];
  }

  lemma PartialFits(s: State)
    requires LockInv(s) && PieceInv(s) && Partial(s).Some?
    ensures Partial(s).value.sent <= Partial(s).value.p.size
  {
  }

  /** The packet that is being written follows those of its sender that are. */
  lemma PartialLast(s: State)
    requires Inv(s) && Partial(s).Some? && s.torn.None?
    ensures forall q | q in s.whole && Same(q, Partial(s).value.p) :: q.no < Partial(s).value.p.no
  {
    var p := Partial(s).value.p;
    forall q | q in s.whole && Same(q, p) ensures q.no < p.no {
      var i :| 0 <= i < |s.whole| && s.whole[i] == q;
      var line := Line(s);
      assert line[i] == q;
      if s.dw.Some? && s.dw.value.sent > 0 {
        assert line[|s.whole|] == p;
      } else if s.high != [] && s.high[0].sent > 0 {
        assert s.dw.None?;
        assert line[|s.whole|] == Packets(s.high)[0] == p;
      } else {
        var t := s.lock.value.t;
        assert SenderOrder(s, t);
        assert q in line;
      }
    }
  }

  /** The assertions of 'send_buffer_' and 'dec_sending_ref' hold in all these runs. */
  lemma AssertionsHold(run: seq<Turn>, kind: Kind)
    requires kind.Connecting? || kind.Connected?
    requires ClosesSafely(run, kind)
    ensures var s := Reach(run, kind);
            && (s.socket.SendHigh? ==> Fresh(s.low))
            && (s.socket.SendLow? ==> s.high == [])
            && (Sends(s.socket) && s.high == [] && s.low == [] ==> s.size == 0)
            && (s.socket.Dec? ==> 0 < s.sending <= MAX_SENDING)
  {
    ReachInv(run, kind);
    var s := Reach(run, kind);
    if Sends(s.socket) && s.high == [] && s.low == [] { NothingWaits(s); }
    if s.socket.Dec? { SocketCount(s, Again); }
  }

  // ---- Where it ends ----

  /** After a byte of a packet comes its next byte, or, after its last one, the start of a packet. */
  predicate Follows(x: Cell, y: Cell) {
    y == Cell(x.p, x.k + 1) || (x.k + 1 == x.p.size && y.k == 0)
  }

  lemma {:induction false} ShapeFollows(ps: seq<Packet>, p: Packet, n: nat, j: nat)
    requires n <= p.size && j + 1 < |Cells(ps) + Bytes(p, 0, n)|
    ensures var stream := Cells(ps) + Bytes(p, 0, n); Follows(stream[j], stream[j + 1])
    decreases |ps|
  {
    var stream := Cells(ps) + Bytes(p, 0, n);
    if j + 1 < |Cells(ps)| {
      var m := |ps| - 1;
      ShapeFollows(ps[..m], ps[m], ps[m].size, j);
    } else if j + 1 == |Cells(ps)| {
      CellsEnd(ps);
    }
  }

  lemma {:induction false} CellsEnd(ps: seq<Packet>)
    requires Cells(ps) != []
    ensures var last := Cells(ps)[|Cells(ps)| - 1]; last.k + 1 == last.p.size
    decreases |ps|
  {
    var m := |ps| - 1;
    if ps[m].size == 0 {
      assert Cells(ps) == Cells(ps[..m]);
      CellsEnd(ps[..m]);
    }
  }

  lemma OneTurn(s: State, e: Turn)
    ensures After(s, [e]) == Do(s, e)
  {
    assert [e][..0] == [];
  }

  lemma {:induction false} Joins(s: State, run: seq<Turn>, more: seq<Turn>)
    ensures After(s, run + more) == After(After(s, run), more)
    decreases |more|
  {
    hide Do;
    if more == [] {
      assert run + more == run;
    } else {
      var n := |more| - 1;
      assert (run + more)[..|run| + n] == run + more[..n];
      Joins(s, run, more[..n]);
    }
  }

  /** A sender whose reads all allow the write gets to it, or to the lock. */
  lemma PassChecks(s: State, t: nat, p: Packet, locked: bool, k: nat) returns (run: seq<Turn>)
    requires t in s.senders && s.senders[t] == Check(p, locked, k) && k <= 4
    requires forall i: nat | i <= 4 :: Allows(s, i)
    ensures After(s, run) == Moved(s, t, if locked then Write(p) else TryLock(p))
    ensures forall e | e in run :: e.BySender?
    decreases 4 - k
  {
    hide After;
    run := [BySender(t, Again)];
    OneTurn(s, BySender(t, Again));
    if k < 4 {
      var s1 := Moved(s, t, Check(p, locked, k + 1));
      assert forall i: nat | i <= 4 :: Allows(s1, i) == Allows(s, i);
      var more := PassChecks(s1, t, p, locked, k + 1);
      Joins(s, run, more);
      run := run + more;
      assert s1.senders[t := Write(p)] == s.senders[t := Write(p)];
      assert s1.senders[t := TryLock(p)] == s.senders[t := TryLock(p)];
    }
  }

  /** A sender that asks while a direct write is possible gets to write, holding the lock. */
  lemma GetsToWrite(s: State, t: nat, size: nat) returns (run: seq<Turn>)
    requires PcOf(s, t).Idle? && s.lock.None? && forall i: nat | i <= 4 :: Allows(s, i)
    ensures After(s, run) ==
            Moved(s, t, Write(Packet(t, s.calls, size, true))).(calls := s.calls + 1, lock := Some(Sender(t)))
    ensures forall e | e in run :: e.BySender?
  {
    hide After;
    var p := Packet(t, s.calls, size, true);
    assert Allows(s, 4);
    OneTurn(s, BySender(t, Send(size, true)));
    var s1 := Moved(s, t, Check(p, false, 0)).(calls := s.calls + 1);
    assert forall i: nat | i <= 4 :: Allows(s1, i) == Allows(s, i);
    var more := PassChecks(s1, t, p, false, 0);
    var s2 := Moved(s1, t, TryLock(p));
    assert forall i: nat | i <= 4 :: Allows(s2, i) == Allows(s, i);
    var rest := GetsLock(s2, t, p);
    Joins(s1, more, rest);
    Joins(s, [BySender(t, Send(size, true))], more + rest);
    run := [BySender(t, Send(size, true))] + (more + rest);
    assert s1.senders[t := TryLock(p)][t := Write(p)] == s.senders[t := Write(p)];
  }

  lemma GetsLock(s: State, t: nat, p: Packet) returns (run: seq<Turn>)
    requires PcOf(s, t) == TryLock(p) && s.lock.None? && forall i: nat | i <= 4 :: Allows(s, i)
    ensures After(s, run) == Moved(s, t, Write(p)).(lock := Some(Sender(t)))
    ensures forall e | e in run :: e.BySender?
  {
    hide After;
    OneTurn(s, BySender(t, Again));
    var s1 := Moved(s, t, Check(p, true, 0)).(lock := Some(Sender(t)));
    assert forall i: nat | i <= 4 :: Allows(s1, i) == Allows(s, i);
    var more := PassChecks(s1, t, p, true, 0);
    Joins(s, [BySender(t, Again)], more);
    run := [BySender(t, Again)] + more;
    assert s1.senders[t := Write(p)] == s.senders[t := Write(p)];
  }

  /** The connection looks open and empty to senders, while the stream ends in the middle of a packet. */
  ghost predicate Exposed(s: State, whole: seq<Packet>, b: Buf) {
    && (forall i: nat | i <= 4 :: Allows(s, i))
    && 0 < b.sent < b.p.size && s.stream == Cells(whole) + Bytes(b.p, 0, b.sent)
  }

  /** Then a direct write breaks it: by a new sender, or by one that is about to. */
  lemma FreeLockBreaks(s: State, whole: seq<Packet>, b: Buf) returns (run: seq<Turn>)
    requires Exposed(s, whole, b) && s.lock.None?
    ensures !Shaped(After(s, run).stream)
  {
    hide After, Shaped;
    var t := Unused(s.senders.Keys);
    run := GetsToWrite(s, t, 1);
    WriteBreaks(After(s, run), whole, b, t, Packet(t, s.calls, 1, true));
    Joins(s, run, [BySender(t, Accept(1))]);
    run := run + [BySender(t, Accept(1))];
  }

  lemma WriteBreaks(s: State, whole: seq<Packet>, b: Buf, t: nat, p: Packet)
    requires 0 < b.sent < b.p.size && s.stream == Cells(whole) + Bytes(b.p, 0, b.sent)
    requires PcOf(s, t) == Write(p) && p.size > 0
    ensures !Shaped(After(s, [BySender(t, Accept(1))]).stream)
  {
    hide After, Shaped;
    OneTurn(s, BySender(t, Accept(1)));
    PartBreaks(whole, b.p, b.sent, p);
  }

  lemma Unused(ts: set<nat>) returns (t: nat)
    ensures t !in ts
  {
    t := 0;
    var rest := ts;
    while rest != {}
      invariant rest <= ts && forall u | u in ts && u !in rest :: u < t
      decreases rest
    {
      var u :| u in rest;
      rest := rest - {u};
      if u >= t { t := u + 1; }
    }
  }

  /** The sender that holds the lock writes, or gives the lock back. */
  lemma HeldLockBreaks(s: State, whole: seq<Packet>, b: Buf, t: nat) returns (run: seq<Turn>)
    requires Exposed(s, whole, b) && s.lock == Some(Sender(t)) && t in s.senders
    requires s.senders[t].Unlock? || (s.senders[t].Check? && s.senders[t].locked && s.senders[t].k == 0)
    ensures !Shaped(After(s, run).stream)
  {
    hide After, Shaped;
    if s.senders[t].Unlock? {
      run := UnlockBreaks(s, whole, b, t);
    } else {
      var p := s.senders[t].p;
      run := PassChecks(s, t, p, true, 0);
      var s1 := Moved(s, t, Write(p));
      if p.size > 0 {
        WriteBreaks(s1, whole, b, t, p);
        Joins(s, run, [BySender(t, Accept(1))]);
        run := run + [BySender(t, Accept(1))];
      } else {
        OneTurn(s1, BySender(t, Accept(0)));
        var s2 := SenderStep(s1, t, Accept(0));
        assert s2.stream == s.stream;
        assert forall i: nat | i <= 4 :: Allows(s2, i) == Allows(s, i);
        var more := UnlockBreaks(s2, whole, b, t);
        Joins(s1, [BySender(t, Accept(0))], more);
        Joins(s, run, [BySender(t, Accept(0))] + more);
        run := run + ([BySender(t, Accept(0))] + more);
      }
    }
  }

  lemma UnlockBreaks(s: State, whole: seq<Packet>, b: Buf, t: nat) returns (run: seq<Turn>)
    requires Exposed(s, whole, b) && s.lock == Some(Sender(t)) && PcOf(s, t).Unlock?
    ensures !Shaped(After(s, run).stream)
  {
    hide After, Shaped;
    OneTurn(s, BySender(t, Again));
    var s1 := SenderStep(s, t, Again);
    assert forall i: nat | i <= 4 :: Allows(s1, i) == Allows(s, i);
    var more := FreeLockBreaks(s1, whole, b);
    Joins(s, [BySender(t, Again)], more);
    run := [BySender(t, Again)] + more;
  }

  /** Whoever holds the lock, the socket thread's next step lets a direct write break the stream. */
  lemma UnsafeCloseBreaks(s: State) returns (run: seq<Turn>)
    requires Inv(s) && UnsafeClose(s)
    ensures !Shaped(After(s, run).stream)
  {
    hide After, Inv, Shaped;
    var b := s.high[0];
    UnsafeFacts(s);
    OneTurn(s, BySocket(Again));
    var s1 := SocketStep(s, Again);
    assert s1.stream == s.stream && s1.lock == s.lock && s1.senders == s.senders;
    assert forall i: nat | i <= 4 :: Allows(s1, i);
    var more: seq<Turn>;
    if s.lock.None? {
      more := FreeLockBreaks(s1, s.whole, b);
    } else {
      more := HeldLockBreaks(s1, s.whole, b, s.lock.value.t);
    }
    Joins(s, [BySocket(Again)], more);
    run := [BySocket(Again)] + more;
  }

  lemma UnsafeFacts(s: State)
    requires Inv(s) && UnsafeClose(s)
    ensures s.dw.None? && 0 < s.high[0].sent < s.high[0].p.size
    ensures s.stream == Cells(s.whole) + Bytes(s.high[0].p, 0, s.high[0].sent)
    ensures s.lock.Some? ==> s.lock.value.Sender? && s.lock.value.t in s.senders
    ensures s.lock.Some? ==>
              var pc := s.senders[s.lock.value.t]; pc.Unlock? || (pc.Check? && pc.locked && pc.k == 0)
  {
    if s.lock.Some? {
      var t := s.lock.value.t;
      assert Locked(s.senders[t]);
      assert !SawHigh(s.senders[t]);
    }
  }

  lemma PartBreaks(whole: seq<Packet>, q: Packet, sent: nat, p: Packet)
    requires 0 < sent < q.size && p.size > 0
    ensures !Shaped(Cells(whole) + Bytes(q, 0, sent) + Bytes(p, 0, 1))
  {
    var stream := Cells(whole) + Bytes(q, 0, sent) + Bytes(p, 0, 1);
    var j := |stream| - 2;
    assert stream[j] == Cell(q, sent - 1) && stream[j + 1] == Cell(p, 0);
    if Shaped(stream) {
      var ps: seq<Packet>, x: Packet, n: nat :| IsShape(stream, ps, x, n);
      ShapeFollows(ps, x, n, j);
      assert false;
    }
  }

  // ---- Exactly there ----

  /** The connection is going down, and its stream stays in shape. */
  ghost predicate GoesDown(s: State) {
    && Inv(s)
    && ((s.socket == Free(false) && !UnsafeClose(s)) || s.socket == Shut(false) || s.kind.Invalid?)
  }

  lemma GoesDownStep(s: State, e: Turn)
    requires GoesDown(s)
    ensures GoesDown(Do(s, e))
  {
    InvalidSocket(s);
    if e.BySender? {
      SenderKeeps(s, e.t, e.c);
      SenderLeaves(s, e.t, e.c);
    } else {
      SocketKeeps(s, e.c);
      SocketEnds(s, e.c);
    }
  }

  lemma InvalidSocket(s: State)
    requires Inv(s)
    ensures s.kind.Invalid? ==>
              s.socket.Waiting? || s.socket.Hand? || s.socket.Dec? || s.socket == Release(Return)
  {
  }

  /** A sender touches neither the lists nor the socket thread, and never lowers the counter. */
  lemma SenderLeaves(s: State, t: nat, c: Choice)
    ensures var s' := SenderStep(s, t, c);
            && s'.socket == s.socket && s'.kind == s.kind && s'.high == s.high && s'.sending >= s.sending
  {
    hide Allows, Bytes;
  }

  lemma SocketEnds(s: State, c: Choice)
    requires s.kind.Invalid? ==>
               s.socket.Waiting? || s.socket.Hand? || s.socket.Dec? || s.socket == Release(Return)
    requires s.socket == Free(false) || s.socket == Shut(false) || s.kind.Invalid?
    ensures var s' := SocketStep(s, c);
            s'.socket == Shut(false) || s'.kind.Invalid?
  {
    hide WriteHigh, WriteLow, AllSent, Merged, Bytes, Rest, Cut;
  }

  lemma {:induction false} GoesDownShaped(s: State, run: seq<Turn>)
    requires GoesDown(s)
    ensures GoesDown(After(s, run)) && Shaped(After(s, run).stream)
  {
    hide Inv, Shaped, GoesDown;
    if run == [] {
      DownInv(s);
      InvShaped(s);
    } else {
      var n := |run| - 1;
      GoesDownShaped(s, run[..n]);
      GoesDownStep(After(s, run[..n]), run[n]);
      DownInv(After(s, run));
      InvShaped(After(s, run));
    }
  }

  lemma DownInv(s: State)
    requires GoesDown(s)
    ensures Inv(s)
  {
  }

  ghost predicate Breaks(s: State, run: seq<Turn>) { !Shaped(After(s, run).stream) }

  /**
   * When the socket thread is about to free the lists outside the lock, some continuation breaks the
   * stream if and only if the connection looks open to senders, a packet is written in part, and no
   * request is announced.
   */
  lemma CloseBreaksIff(s: State)
    requires Inv(s) && s.socket == Free(false)
    ensures (exists run :: Breaks(s, run)) <==> UnsafeClose(s)
  {
    hide After, Inv, Shaped;
    if UnsafeClose(s) {
      var run := UnsafeCloseBreaks(s);
      assert Breaks(s, run);
    } else {
      assert GoesDown(s);
      forall run ensures !Breaks(s, run) {
        GoesDownShaped(s, run);
      }
    }
  }

  /** So every run that does not close safely could have gone on, from its first unsafe step, to break the stream. */
  lemma UnsafeRunBreaks(run: seq<Turn>, kind: Kind) returns (k: nat, more: seq<Turn>)
    requires kind.Connecting? || kind.Connected?
    requires !ClosesSafely(run, kind)
    ensures k < |run| && ClosesSafely(run[..k], kind) && UnsafeClose(Reach(run[..k], kind))
    ensures !Shaped(Reach(run[..k] + more, kind).stream)
  {
    hide After, Inv, Shaped;
    k := FirstUnsafe(run, kind);
    ReachInv(run[..k], kind);
    more := UnsafeCloseBreaks(Reach(run[..k], kind));
    Joins(Start(kind), run[..k], more);
  }

  lemma {:induction false} FirstUnsafe(run: seq<Turn>, kind: Kind) returns (k: nat)
    requires !ClosesSafely(run, kind)
    ensures k < |run| && ClosesSafely(run[..k], kind) && UnsafeClose(Reach(run[..k], kind))
    decreases |run|
  {
    hide After, UnsafeClose;
    k :| k < |run| && run[k].BySocket? && UnsafeClose(Reach(run[..k], kind));
    if !ClosesSafely(run[..k], kind) {
      var j := FirstUnsafe(run[..k], kind);
      assert run[..k][..j] == run[..j];
      k := j;
    }
  }

  // ---- A run that breaks the stream ----

  /** A direct write in part leaves its packet behind. */
  lemma PartLeft() returns (run: seq<Turn>)
    ensures ClosesSafely(run, Connected)
    ensures Reach(run, Connected) ==
            Moved(Start(Connected), 0, Idle).(calls := 1, dw := Some(Buf(Packet(0, 0, 2, true), 1)),
                                              stream := Bytes(Packet(0, 0, 2, true), 0, 1))
  {
    assert forall i: nat | i <= 4 :: Allows(Start(Connected), i);
    hide After, ClosesSafely, UnsafeClose;
    run := GetsToWrite(Start(Connected), 0, 2);
    SendersSafe(run, Connected);
    var p := Packet(0, 0, 2, true);
    run := Continue(run, BySender(0, Accept(1)));
    assert PcOf(Reach(run, Connected), 0) == Leave(p, 1);
    run := Continue(run, BySender(0, Again));
    assert PcOf(Reach(run, Connected), 0) == Unlock(p, false);
    run := Continue(run, BySender(0, Again));
    var s := Reach(run, Connected);
    assert s.senders == Start(Connected).senders[0 := Idle];
    assert s.stream == Bytes(Packet(0, 0, 2, true), 0, 1);
  }

  lemma SendersSafe(run: seq<Turn>, kind: Kind)
    requires forall e | e in run :: e.BySender?
    ensures ClosesSafely(run, kind)
  {
    assert forall k | 0 <= k < |run| :: run[k] in run;
  }

  /** Such a run exists: a direct write in part, one turn of the socket thread, and an error. */
  lemma BrokenRun() returns (run: seq<Turn>)
    ensures !Shaped(Reach(run, Connected).stream)
  {
    hide After, ClosesSafely, Shaped, Inv;
    run := PartLeft();
    var s := Reach(run, Connected);
    run := Continue(run, BySocket(Writable));
    run := Continue(run, BySocket(Again));
    run := Continue(run, BySocket(Again));
    var b := Buf(Packet(0, 0, 2, true), 1);
    assert Reach(run, Connected) == s.(high := [b], dw := None, size := 1, lock := Some(Socket),
        socket := SendHigh(Return));
    run := Continue(run, BySocket(Again));
    run := Continue(run, BySocket(Again));
    assert Reach(run, Connected) == s.(high := [b], dw := None, size := 1);
    run := Continue(run, BySocket(Abort));
    ReachInv(run, Connected);
    var more := UnsafeCloseBreaks(Reach(run, Connected));
    Joins(Start(Connected), run, more);
    run := run + more;
  }

  lemma Continue(run: seq<Turn>, e: Turn) returns (longer: seq<Turn>)
    requires ClosesSafely(run, Connected)
    requires e.BySocket? ==> !UnsafeClose(Reach(run, Connected))
    ensures ClosesSafely(longer, Connected) && Reach(longer, Connected) == Do(Reach(run, Connected), e)
  {
    longer := run + [e];
    assert longer[..|run|] == run;
    assert forall k | 0 <= k < |run| :: longer[..k] == run[..k];
  }
}
