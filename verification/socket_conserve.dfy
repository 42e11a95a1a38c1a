// No packet is lost on the write path: what the sends of a run handed over is written, waits, is carried by
// its sender, or was dropped when the connection went down.

module SocketConserve {
  import opened Options
  import opened SocketWrite
  import opened SocketStream
  import opened SocketOrder
  import opened SocketSafety

  // ---- Histories, read from the steps of a run ----

  /** The packet that a step hands over; 'no' packets were handed over before. */
  function Asked(s: State, e: Turn, no: nat): seq<Packet> {
    if e.BySender? && e.c.Send? && PcOf(s, e.t).Idle? && !s.kind.Invalid? then [Packet(e.t, no, e.c.size, e.c.high)]
    else []
  }

  /** The packets that were handed over, in order. */
  function Handed(run: seq<Turn>, kind: Kind): seq<Packet> {
    if run == [] then []
    else
      var n := |run| - 1;
      var before := Handed(run[..n], kind);
      before + Asked(Reach(run[..n], kind), run[n], |before|)
  }

  /**
   * What the next step of the socket thread drops: a request for a connection that is going down, the
   * lists, or the leftover of a direct write.
   */
  function Drops(s: State): seq<Packet> {
    if s.socket.Hand? && Down(s) then [s.socket.p]
    else if s.socket.Free? then Packets(s.high) + Packets(s.low)
    else if s.socket.Shut? && (s.socket.locked || s.lock.None?) then Left(s.dw)
    else []
  }

  function Dropped(run: seq<Turn>, kind: Kind): seq<Packet> {
    if run == [] then []
    else
      var n := |run| - 1;
      Dropped(run[..n], kind) + if run[n].BySocket? then Drops(Reach(run[..n], kind)) else []
  }

  /** The packet that only its sender has. */
  function InSender(pc: SenderPc): multiset<Packet> { if Carries(pc) then multiset{pc.p} else multiset{} }

  /** The places of a packet: in the line from what is written to the pipe, and with its sender. */
  function Places(s: State, p: Packet): nat { multiset(Line(s))[p] + InSender(PcOf(s, p.sender))[p] }

  // ---- Every step accounts for it ----

  ghost predicate OwnPacket(pc: SenderPc, t: nat) { Carries(pc) ==> pc.p.sender == t }

  ghost predicate Accountable(s: State) {
    && LockInv(s)
    && (forall t | t in s.senders && SawLeftover(s.senders[t]) :: s.dw.None?)
    && (forall t | t in s.senders :: OwnPacket(s.senders[t], t))
  }

  lemma BagDrop(a: seq<Packet>, m: seq<Packet>, b: seq<Packet>)
    ensures multiset(a + m + b) == multiset(a + b) + multiset(m)
  {
  }

  /** A sender's step does nothing to the others, and gives the packets it hands over their numbers. */
  lemma SenderFrame(s: State, t: nat, c: Choice)
    requires forall x | x in s.senders :: OwnPacket(s.senders[x], x)
    ensures var s' := SenderStep(s, t, c);
            && OwnPacket(PcOf(s', t), t) && s'.calls == s.calls + |Asked(s, BySender(t, c), s.calls)|
            && forall x | x != t :: PcOf(s', x) == PcOf(s, x)
  {
    hide Allows, Bytes;
  }

  /** What goes into the line was carried, and what is carried was handed over. */
  lemma SenderMoves(s: State, t: nat, c: Choice)
    requires Accountable(s)
    ensures var s' := SenderStep(s, t, c);
            multiset(Line(s')) + InSender(PcOf(s', t)) ==
            multiset(Line(s)) + InSender(PcOf(s, t)) + multiset(Asked(s, BySender(t, c), s.calls))
  {
    hide LockInv, Line, Accountable;
    var s', pc := SenderStep(s, t, c), PcOf(s, t);
    if pc.ToPipe? {
      PipeMoves(s, t, c);
    } else if (pc.Write? || pc.Leave?) && PcOf(s', t).Unlock? {
      DirectMoves(s, t, c);
    } else {
      OtherMoves(s, t, c);
    }
  }

  lemma PipeMoves(s: State, t: nat, c: Choice)
    requires PcOf(s, t).ToPipe?
    ensures var s' := SenderStep(s, t, c);
            PcOf(s', t) == Idle && multiset(Line(s')) == multiset(Line(s)) + multiset{PcOf(s, t).p}
  {
    hide LineOf;
    LineEnds(s, SenderStep(s, t, c), PcOf(s, t).p);
  }

  lemma DirectMoves(s: State, t: nat, c: Choice)
    requires Accountable(s) && (PcOf(s, t).Write? || PcOf(s, t).Leave?) && PcOf(SenderStep(s, t, c), t).Unlock?
    ensures var s' := SenderStep(s, t, c);
            && PcOf(s', t) == Unlock(PcOf(s, t).p, false)
            && multiset(Line(s')) == multiset(Line(s)) + multiset{PcOf(s, t).p}
  {
    assert s.dw.None?;
    hide LockInv, Bytes, LineOf, Behind, Left, Accountable;
    var s', p := SenderStep(s, t, c), PcOf(s, t).p;
    LineDirect(s, s', p);
    LineSplits(s);
    NothingLeft();
    BagDrop(s.whole, [p], Behind(s));
    assert Left(s.dw) + Behind(s) == Behind(s);
  }

  lemma OtherMoves(s: State, t: nat, c: Choice)
    requires var pc := PcOf(s, t);
             !pc.ToPipe? && !((pc.Write? || pc.Leave?) && PcOf(SenderStep(s, t, c), t).Unlock?)
    ensures var s' := SenderStep(s, t, c);
            && Line(s') == Line(s)
            && InSender(PcOf(s', t)) == InSender(PcOf(s, t)) + multiset(Asked(s, BySender(t, c), s.calls))
  {
    OtherLine(s, t, c);
    OtherCarries(s, t, c);
    hide *;
  }

  lemma OtherCarries(s: State, t: nat, c: Choice)
    requires var pc := PcOf(s, t);
             !pc.ToPipe? && !((pc.Write? || pc.Leave?) && PcOf(SenderStep(s, t, c), t).Unlock?)
    ensures InSender(PcOf(SenderStep(s, t, c), t)) ==
            InSender(PcOf(s, t)) + multiset(Asked(s, BySender(t, c), s.calls))
  {
    hide Bytes, Allows;
  }

  lemma OtherLine(s: State, t: nat, c: Choice)
    requires var pc := PcOf(s, t);
             !pc.ToPipe? && !((pc.Write? || pc.Leave?) && PcOf(SenderStep(s, t, c), t).Unlock?)
    ensures Line(SenderStep(s, t, c)) == Line(s)
  {
    hide LineOf, Bytes, Allows;
  }

  lemma SenderAccounts(s: State, t: nat, c: Choice)
    requires Accountable(s)
    ensures Accountable(SenderStep(s, t, c))
  {
    SenderLock(s, t, c);
    SenderFrame(s, t, c);
    SenderLeftover(s, t, c);
    hide LockInv, SenderStep, SawLeftover, OwnPacket, Line, InSender, Asked;
    var s' := SenderStep(s, t, c);
    forall x | x in s'.senders ensures OwnPacket(s'.senders[x], x) {
      assert s'.senders[x] == PcOf(s', x);
      if x != t { assert OwnPacket(PcOf(s, x), x) by { IdleOwns(x); } }
    }
  }

  lemma IdleOwns(t: nat)
    ensures OwnPacket(Idle, t)
  {
  }

  /** Only the holder of the lock finds no leftover, or leaves one. */
  lemma SenderLeftover(s: State, t: nat, c: Choice)
    requires LockInv(s) && forall x | x in s.senders && SawLeftover(s.senders[x]) :: s.dw.None?
    ensures var s' := SenderStep(s, t, c);
            forall x | x in s'.senders && SawLeftover(s'.senders[x]) :: s'.dw.None?
  {
    if PcOf(s, t).Leave? { OneLocked(s, t); }
    hide LockInv, Bytes, Empty;
  }

  lemma OneLocked(s: State, t: nat)
    requires LockInv(s) && Locked(PcOf(s, t))
    ensures forall x | x in s.senders && SawLeftover(s.senders[x]) :: x == t
  {
  }

  lemma SocketAccounts(s: State, c: Choice)
    requires LockInv(s)
    ensures multiset(Line(SocketStep(s, c))) + multiset(Drops(s)) == multiset(Line(s))
  {
    hide LockInv, SocketStep, Line;
    if Closes(s.socket) {
      CloseDrops(s, c);
    } else if s.socket.Hand? {
      HandDrops(s, c);
    } else {
      assert Drops(s) == [];
      if Sends(s.socket) {
        SendLine(s, c);
      } else if s.socket.Merge? {
        MergeLine(s, c);
      } else {
        QuietLine(s, c);
      }
    }
  }

  lemma CloseDrops(s: State, c: Choice)
    requires Closes(s.socket)
    ensures multiset(Line(SocketStep(s, c))) + multiset(Drops(s)) == multiset(Line(s))
  {
    hide SocketStep, LineOf, Packets, Left, InHand;
    CloseLine(s, c);
    var lists, back := Packets(s.high) + Packets(s.low), InHand(s.socket) + s.pipe;
    BagDrop(s.whole + Left(s.dw), lists, back);
    BagDrop(s.whole, Left(s.dw), lists + back);
  }

  lemma HandDrops(s: State, c: Choice)
    requires s.socket.Hand?
    ensures multiset(Line(SocketStep(s, c))) + multiset(Drops(s)) == multiset(Line(s))
  {
    hide SocketStep, LineOf, Packets, Left, Down;
    HandLine(s, c);
    var a, l, p := s.whole + Left(s.dw) + Packets(s.high), Packets(s.low), s.socket.p;
    BagDrop(a + l, [p], s.pipe);
    BagDrop(a, [p], l + s.pipe);
    assert a + l + s.pipe == a + (l + s.pipe);
  }

  /** The socket thread makes no leftover. */
  lemma SocketLeftover(s: State, c: Choice)
    ensures s.dw.None? ==> SocketStep(s, c).dw.None?
  {
    hide Bytes, Rest;
  }

  /** The same for one packet; that of another sender is neither carried nor handed over. */
  lemma SenderPlaces(s: State, t: nat, c: Choice, p: Packet)
    requires Accountable(s)
    ensures Places(SenderStep(s, t, c), p) == Places(s, p) + multiset(Asked(s, BySender(t, c), s.calls))[p]
  {
    var s', pc, asked := SenderStep(s, t, c), PcOf(s, t), Asked(s, BySender(t, c), s.calls);
    SenderFrame(s, t, c);
    SenderMoves(s, t, c);
    assert OwnPacket(pc, t) by { IdleOwns(t); }
    hide LockInv, SenderStep, Line, Accountable;
    assert (multiset(Line(s')) + InSender(PcOf(s', t)))[p] == (multiset(Line(s)) + InSender(pc) + multiset(asked))[p];
    if p.sender != t {
      assert InSender(pc)[p] == 0 && InSender(PcOf(s', t))[p] == 0 && multiset(asked)[p] == 0;
    }
  }

  lemma SocketPlaces(s: State, c: Choice, p: Packet)
    requires LockInv(s)
    ensures Places(SocketStep(s, c), p) + multiset(Drops(s))[p] == Places(s, p)
  {
    SocketAccounts(s, c);
    SocketFrame(s, c);
    hide LockInv, SocketStep, Line, Drops, InSender;
    assert (multiset(Line(SocketStep(s, c))) + multiset(Drops(s)))[p] == multiset(Line(s))[p];
  }

  /** One step of a run, for one packet. */
  lemma StepAccounts(s: State, e: Turn, p: Packet)
    requires Accountable(s)
    ensures Accountable(Do(s, e))
    ensures var dropped := if e.BySocket? then Drops(s) else [];
            Places(Do(s, e), p) + multiset(dropped)[p] == Places(s, p) + multiset(Asked(s, e, s.calls))[p]
    ensures Do(s, e).calls == s.calls + |Asked(s, e, s.calls)|
  {
    hide LockInv, SocketStep, SenderStep, Drops, Places;
    if e.BySender? {
      SenderAccounts(s, e.t, e.c);
      SenderFrame(s, e.t, e.c);
      SenderPlaces(s, e.t, e.c, p);
    } else {
      SocketLock(s, e.c);
      SocketLeftover(s, e.c);
      SocketPlaces(s, e.c, p);
      SocketFrame(s, e.c);
    }
  }

  /**
   * Conservation, for every run and every packet: it was handed over as often as it is written, waits in
   * the leftover, a list, the socket thread's hand or the pipe, is carried by its sender, or was dropped.
   */
  lemma {:induction false} Conserved(run: seq<Turn>, kind: Kind, p: Packet)
    requires kind.Connecting? || kind.Connected?
    ensures multiset(Handed(run, kind))[p] == Places(Reach(run, kind), p) + multiset(Dropped(run, kind))[p]
    ensures Accountable(Reach(run, kind)) && Reach(run, kind).calls == |Handed(run, kind)|
  {
    hide Places, Accountable, Do, Asked, Drops;
    if run == [] {
      StartAccounts(kind, p);
    } else {
      var n := |run| - 1;
      Conserved(run[..n], kind, p);
      StepAccounts(Reach(run[..n], kind), run[n], p);
    }
  }

  lemma StartAccounts(kind: Kind, p: Packet)
    requires kind.Connecting? || kind.Connected?
    ensures Accountable(Start(kind)) && Places(Start(kind), p) == 0
  {
    NoPackets();
    NothingLeft();
  }

  // ---- While the connection is up, nothing is lost ----

  predicate Up(s: State) { !Down(s) && !Closes(s.socket) }

  /** The connection is never half-closed, closed or freed. */
  predicate StaysUp(run: seq<Turn>, kind: Kind) {
    forall k | 0 <= k <= |run| :: Up(Reach(run[..k], kind))
  }

  lemma {:induction false} NothingDropped(run: seq<Turn>, kind: Kind)
    requires StaysUp(run, kind)
    ensures Dropped(run, kind) == []
  {
    if run != [] {
      var n := |run| - 1;
      assert forall k | 0 <= k <= n :: run[..n][..k] == run[..k];
      NothingDropped(run[..n], kind);
      UpDrops(Reach(run[..n], kind));
    }
  }

  lemma UpDrops(s: State)
    requires Up(s)
    ensures Drops(s) == []
  {
  }

  /** So every packet that was handed over is written, waits, or is still with its sender. */
  lemma NothingLost(run: seq<Turn>, kind: Kind)
    requires StaysUp(run, kind) && (kind.Connecting? || kind.Connected?)
    ensures forall p :: multiset(Handed(run, kind))[p] == Places(Reach(run, kind), p)
  {
    NothingDropped(run, kind);
    forall p ensures multiset(Handed(run, kind))[p] == Places(Reach(run, kind), p) {
      Conserved(run, kind, p);
    }
  }

  /** Nothing waits anywhere. */
  predicate Drained(s: State) {
    && s.high == [] && s.low == [] && s.dw.None? && s.pipe == [] && !s.socket.Hand?
    && forall t | t in s.senders :: s.senders[t].Idle?
  }

  /** When nothing waits any more, every packet has been written in full. */
  lemma AllWritten(run: seq<Turn>, kind: Kind)
    requires StaysUp(run, kind) && (kind.Connecting? || kind.Connected?) && Drained(Reach(run, kind))
    ensures multiset(Reach(run, kind).whole) == multiset(Handed(run, kind))
  {
    var s := Reach(run, kind);
    NothingLost(run, kind);
    NoPackets();
    NothingLeft();
    assert Line(s) == s.whole;
    forall p ensures multiset(s.whole)[p] == multiset(Handed(run, kind))[p] {
      assert Places(s, p) == multiset(s.whole)[p];
    }
  }

  // ---- A gentle close ----

  /** No error, no abort, and no request to close at once. */
  predicate Gentle(c: Choice) { !c.Error? && !c.Abort? && (c.CloseRequest? ==> !c.shutdown) }

  predicate ClosesGently(s: State) {
    match s.socket
    case Free(_) => s.high == [] && s.low == []
    case Decide(shutdown) => !shutdown
    case Try(next) => next.Closing? ==> !next.shutdown
    case Merge(next) => next.Closing? ==> !next.shutdown
    case SendHigh(next) => next.Closing? ==> !next.shutdown
    case SendLow(next) => next.Closing? ==> !next.shutdown
    case Release(next) => next.Closing? ==> !next.shutdown
    case _ => true
  }

  lemma GentleStep(s: State, e: Turn)
    requires LockInv(s) && ClosesGently(s) && Gentle(e.c)
    ensures ClosesGently(Do(s, e))
  {
    hide Bytes, Rest, Allows, Cut;
    if e.BySender? {
      SenderLeaves(s, e.t, e.c);
      hide SenderStep;
    }
  }

  /** In a run without them, the lists are empty whenever they are freed: what they held is written. */
  lemma {:induction false} GentleFrees(run: seq<Turn>, kind: Kind)
    requires (kind.Connecting? || kind.Connected?) && forall e | e in run :: Gentle(e.c)
    ensures ClosesGently(Reach(run, kind))
    ensures Reach(run, kind).socket.Free? ==> Drops(Reach(run, kind)) == []
  {
    hide Do, LockInv, ClosesGently, Drops, Places, Handed, Dropped;
    if run == [] {
      assert ClosesGently(Start(kind)) by { GentleStart(kind); }
    } else {
      var n := |run| - 1;
      GentleFrees(run[..n], kind);
      Conserved(run[..n], kind, Packet(0, 0, 0, true));
      GentleStep(Reach(run[..n], kind), run[n]);
    }
    GentleDrops(Reach(run, kind));
  }

  lemma GentleStart(kind: Kind)
    ensures ClosesGently(Start(kind))
  {
  }

  lemma GentleDrops(s: State)
    requires ClosesGently(s)
    ensures s.socket.Free? ==> Drops(s) == []
  {
    NoPackets();
  }
}
