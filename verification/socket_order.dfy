// Counting, sizes and the order of each sender's packets on the write path.

module SocketOrder {
  import opened Options
  import opened SocketWrite
  import opened SocketStream

  // ---- The counter of requests on their way ----

  function Announced(s: State): set<nat> {
    set t | t in s.senders && s.senders[t].ToPipe?
  }

  function One(b: bool): nat { if b then 1 else 0 }

  /** The counter counts the requests in the pipe, the one in the socket thread's hand, and those to come. */
  predicate CountInv(s: State) {
    && s.sending == |s.pipe| + One(s.socket.Hand? || s.socket.Dec?) + |Announced(s)|
    && s.sending <= MAX_SENDING
  }

  lemma AnnouncedMove(s: State, s': State, t: nat, pc: SenderPc)
    requires s'.senders == s.senders[t := pc]
    ensures |Announced(s')| + One(PcOf(s, t).ToPipe?) == |Announced(s)| + One(pc.ToPipe?)
  {
    var others := Announced(s) - {t};
    assert Announced(s) == if PcOf(s, t).ToPipe? then others + {t} else others;
    assert Announced(s') == if pc.ToPipe? then others + {t} else others;
  }

  lemma SenderCount(s: State, t: nat, c: Choice)
    requires CountInv(s)
    ensures CountInv(SenderStep(s, t, c))
  {
    hide Announced, Allows, Bytes;
    var s' := SenderStep(s, t, c);
    if s' != s { AnnouncedMove(s, s', t, s'.senders[t]); }
  }

  /** 'dec_sending_ref' never finds a counter that is zero. */
  lemma SocketCount(s: State, c: Choice)
    requires CountInv(s)
    ensures CountInv(SocketStep(s, c)) && (s.socket.Dec? ==> s.sending > 0)
  {
    hide Announced, SocketStep;
    SocketFrame(s, c);
  }

  /** What the socket thread takes from the pipe and what it counts. */
  lemma SocketFrame(s: State, c: Choice)
    ensures var s' := SocketStep(s, c);
            && s'.senders == s.senders && s'.calls == s.calls
            && Announced(s') == Announced(s)
            && (|| (s'.pipe == s.pipe && s'.sending == s.sending &&
                    (s'.socket.Hand? || s'.socket.Dec? <==> s.socket.Hand? || s.socket.Dec?))
                || (s.socket.Waiting? && s.pipe != [] && s'.pipe == s.pipe[1..] && s'.sending == s.sending &&
                    s'.socket == Hand(s.pipe[0]))
                || (s.socket.Dec? && s.sending > 0 && s'.pipe == s.pipe && s'.sending == s.sending - 1 &&
                     s'.socket.Waiting?))
  {
    hide Rest, Bytes, Announced;
    SameAnnounced(s, c);
    if Sends(s.socket) { SendFrame(s, c); }
  }

  lemma SendFrame(s: State, c: Choice)
    requires Sends(s.socket)
    ensures var s' := SocketStep(s, c);
            && s'.senders == s.senders && s'.calls == s.calls && s'.pipe == s.pipe && s'.sending == s.sending
            && !s'.socket.Hand? && !s'.socket.Dec?
  {
    hide Rest, Bytes, Event, Close, Merged, Queued;
  }

  lemma SameAnnounced(s: State, c: Choice)
    ensures Announced(SocketStep(s, c)) == Announced(s)
  {
    assert SocketStep(s, c).senders == s.senders;
  }

  // ---- The number of bytes that wait ----

  function Waits(list: seq<Buf>): nat {
    if list == [] then 0 else Waits(list[..|list| - 1]) + Rest(list[|list| - 1])
  }

  /** 'wb_size' is what the lists still have to send. */
  predicate SizeInv(s: State) {
    s.kind.Invalid? || s.socket.Shut? || s.size == Waits(s.high) + Waits(s.low)
  }

  lemma WaitsSnoc(list: seq<Buf>, b: Buf)
    ensures Waits(list + [b]) == Waits(list) + Rest(b)
  {
    assert (list + [b])[..|list|] == list;
  }

  lemma {:induction false} WaitsCons(b: Buf, list: seq<Buf>)
    ensures Waits([b] + list) == Rest(b) + Waits(list)
    decreases |list|
  {
    if list == [] {
      assert [b] + list == [b] && [b][..0] == [];
    } else {
      var n := |list| - 1;
      assert ([b] + list)[..n + 1] == [b] + list[..n];
      WaitsCons(b, list[..n]);
    }
  }

  lemma SendSize(s: State, c: Choice)
    requires LockInv(s) && SizeInv(s) && Sends(s.socket)
    ensures SizeInv(SocketStep(s, c))
  {
    hide Waits, Bytes, Event, Close, Merged, Queued;
    NoWait();
    var list := if s.socket.SendHigh? then s.high else s.low;
    if list != [] {
      var b, rest := list[0], list[1..];
      assert list == [b] + rest;
      WaitsCons(b, rest);
      if c.Accept? {
        var b' := Buf(b.p, b.sent + c.n);
        WaitsCons(b', rest);
        WaitsCons(b', []);
        assert [b'] + [] == [b'];
      }
    }
  }

  lemma SocketSize(s: State, c: Choice)
    requires LockInv(s) && SizeInv(s) && !Sends(s.socket)
    ensures SizeInv(SocketStep(s, c))
  {
    hide Waits, Rest, WriteHigh, WriteLow, AllSent;
    if s.socket.Hand? {
      WaitsSnoc(s.high, Buf(s.socket.p, 0));
      WaitsSnoc(s.low, Buf(s.socket.p, 0));
      FreshWaits(s.socket.p);
    }
    if s.socket.Merge? && s.dw.Some? { WaitsCons(s.dw.value, s.high); }
  }

  lemma FreshWaits(p: Packet)
    ensures Rest(Buf(p, 0)) == p.size
  {
  }

  lemma NoWait()
    ensures Waits([]) == 0
  {
  }

  /** When both lists are sent, nothing is left: the assertion of 'send_buffer_'. */
  lemma NothingWaits(s: State)
    requires LockInv(s) && SizeInv(s) && Sends(s.socket) && s.high == [] && s.low == []
    ensures s.size == 0
  {
  }

  // ---- The order of packets ----

  function Packets(list: seq<Buf>): (r: seq<Packet>)
    ensures |r| == |list|
  {
    seq(|list|, j requires 0 <= j < |list| => list[j].p)
  }

  function Left(dw: Option<Buf>): seq<Packet> { if dw.Some? then [dw.value.p] else [] }

  function InHand(pc: SocketPc): seq<Packet> { if pc.Hand? then [pc.p] else [] }

  /** Every packet that was handed over: written, and then on its way from the front to the back. */
  function Line(s: State): seq<Packet> { LineOf(s.whole, s.dw, s.high, s.low, s.socket, s.pipe) }

  function LineOf(whole: seq<Packet>, dw: Option<Buf>, high: seq<Buf>, low: seq<Buf>, socket: SocketPc,
                  pipe: seq<Packet>): seq<Packet>
  {
    whole + Left(dw) + Packets(high) + Packets(low) + InHand(socket) + pipe
  }

  /** Packets that the sender wants in order. */
  predicate Same(p: Packet, q: Packet) { p.sender == q.sender && p.high == q.high }

  predicate Sorted(line: seq<Packet>) {
    forall i, j | 0 <= i < j < |line| && Same(line[i], line[j]) :: line[i].no < line[j].no
  }

  /** The sender has a packet that is in nobody else's hand. */
  predicate Carries(pc: SenderPc) { !pc.Idle? && !(pc.Unlock? && !pc.again) }

  /** What a sender knows of its own packets. */
  predicate SenderOrder(s: State, t: nat)
    requires t in s.senders
  {
    var pc := s.senders[t];
    && (Carries(pc) ==>
          pc.p.sender == t && pc.p.no < s.calls && (forall q | q in Line(s) && q.sender == t :: q.no < pc.p.no))
    && (pc.Check? || SawCounter(pc) ==> pc.p.high)
    && (SawCounter(pc) ==> forall q | q in InHand(s.socket) + s.pipe :: q.sender != t)
    && (SawHigh(pc) ==> forall b | b in s.high :: !(b.p.sender == t && b.p.high))
  }

  ghost predicate OrderInv(s: State) {
    && Sorted(Line(s))
    && (forall p | p in Line(s) :: p.no < s.calls)
    && (forall b | b in s.low :: !b.p.high)
    && (forall t | t in s.senders :: SenderOrder(s, t))
  }

  lemma SortedDrop(a: seq<Packet>, m: seq<Packet>, b: seq<Packet>)
    requires Sorted(a + m + b)
    ensures Sorted(a + b)
  {
    var was, now := a + m + b, a + b;
    forall i, j | 0 <= i < j < |now| && Same(now[i], now[j]) ensures now[i].no < now[j].no {
      var i', j' := if i < |a| then i else i + |m|, if j < |a| then j else j + |m|;
      assert was[i'] == now[i] && was[j'] == now[j];
    }
  }

  lemma SortedInsert(a: seq<Packet>, p: Packet, b: seq<Packet>)
    requires Sorted(a + b)
    requires forall q | q in a && Same(q, p) :: q.no < p.no
    requires forall q | q in b && Same(q, p) :: p.no < q.no
    ensures Sorted(a + [p] + b)
  {
    var was, now := a + b, a + [p] + b;
    forall i, j | 0 <= i < j < |now| && Same(now[i], now[j]) ensures now[i].no < now[j].no {
      var i', j' := if i < |a| then i else i - 1, if j < |a| then j else j - 1;
      if i != |a| && j != |a| { assert was[i'] == now[i] && was[j'] == now[j]; }
      if j == |a| { assert now[i] in a; }
      if i == |a| { assert now[j] in b; }
    }
  }

  /** What is not written yet. */
  function Behind(s: State): seq<Packet> {
    Packets(s.high) + Packets(s.low) + InHand(s.socket) + s.pipe
  }

  lemma LineSplits(s: State)
    ensures Line(s) == s.whole + (Left(s.dw) + Behind(s))
  {
  }

  /** Nothing behind is of the same sender and priority as a packet that may be written directly. */
  lemma NoneBehind(s: State, t: nat, q: Packet)
    requires OrderInv(s) && t in s.senders && SawHigh(s.senders[t]) && SawCounter(s.senders[t])
    requires q in Behind(s)
    ensures !(q.sender == t && q.high)
  {
    assert SenderOrder(s, t);
    if q in Packets(s.high) {
      var j :| 0 <= j < |s.high| && s.high[j].p == q;
      assert s.high[j] in s.high;
    } else if q in Packets(s.low) {
      var j :| 0 <= j < |s.low| && s.low[j].p == q;
      assert s.low[j] in s.low;
    } else {
      assert q in InHand(s.socket) + s.pipe;
    }
  }

  /** A direct write puts its packet behind everything of its sender that is written. */
  lemma DirectOrder(s: State, t: nat, p: Packet)
    requires OrderInv(s) && t in s.senders && SawHigh(s.senders[t]) && SawCounter(s.senders[t])
    requires s.dw.None? && s.senders[t].p == p && Carries(s.senders[t])
    ensures Sorted(s.whole + [p] + Behind(s)) && Line(s) == s.whole + Behind(s)
  {
    hide Behind, LineOf, SawHigh, SawCounter;
    LineSplits(s);
    assert Left(s.dw) + Behind(s) == Behind(s);
    assert SenderOrder(s, t);
    forall q | q in s.whole && Same(q, p) ensures q.no < p.no {
      assert q in Line(s);
    }
    forall q | q in Behind(s) ensures !Same(q, p) {
      NoneBehind(s, t, q);
    }
    SortedInsert(s.whole, p, Behind(s));
  }

  /** A sender gives its packet away. */
  lemma Added(s: State, s': State, t: nat, pc: SenderPc, p: Packet)
    requires OrderInv(s) && Sorted(Line(s')) && s'.senders == s.senders[t := pc]
    requires p.sender == t && p.no < s.calls && s'.calls == s.calls
    requires forall q :: q in Line(s') <==> q in Line(s) || q == p
    requires s'.high == s.high && s'.low == s.low && s'.socket == s.socket
    requires s'.pipe == s.pipe || s'.pipe == s.pipe + [p]
    requires !Carries(pc) && !pc.Check? && !SawCounter(pc) && !SawHigh(pc)
    ensures OrderInv(s')
  {
    hide LineOf, SawCounter, SawHigh;
    forall x | x in s'.senders ensures SenderOrder(s', x) {
      if x != t { assert SenderOrder(s, x); }
    }
  }

  /** A step of a sender that moves no packet. */
  lemma SameLine(s: State, s': State, t: nat)
    requires OrderInv(s) && Line(s') == Line(s) && s.calls <= s'.calls
    requires s'.senders.Keys == s.senders.Keys + {t}
    requires forall x | x in s.senders && x != t :: s'.senders[x] == s.senders[x]
    requires s'.low == s.low && s'.high == s.high && s'.socket == s.socket && s'.pipe == s.pipe
    requires SenderOrder(s', t)
    ensures OrderInv(s')
  {
    forall x | x in s'.senders ensures SenderOrder(s', x) {
      if x != t { assert SenderOrder(s, x); }
    }
  }

  lemma LineEnds(s: State, s': State, p: Packet)
    requires s'.whole == s.whole && s'.high == s.high && s'.low == s.low && s'.socket == s.socket && s'.dw == s.dw
    requires s'.pipe == s.pipe + [p]
    ensures Line(s') == Line(s) + [p]
  {
  }

  lemma PipeOrder(s: State, t: nat, c: Choice)
    requires OrderInv(s) && PcOf(s, t).ToPipe?
    ensures OrderInv(SenderStep(s, t, c))
  {
    hide LineOf;
    var s', p := SenderStep(s, t, c), PcOf(s, t).p;
    assert SenderOrder(s, t);
    LineEnds(s, s', p);
    SortedInsert(Line(s), p, []);
    assert Line(s) + [p] + [] == Line(s) + [p] && Line(s) + [] == Line(s);
    Added(s, s', t, Idle, p);
  }

  lemma LineDirect(s: State, s': State, p: Packet)
    requires s.dw.None? && s'.high == s.high && s'.low == s.low && s'.socket == s.socket && s'.pipe == s.pipe
    requires (s'.whole == s.whole + [p] && s'.dw.None?) || (s'.whole == s.whole && s'.dw.Some? && s'.dw.value.p == p)
    ensures Line(s') == s.whole + [p] + Behind(s)
  {
  }

  /** A direct write, complete or not. */
  lemma DirectStep(s: State, s': State, t: nat, p: Packet)
    requires OrderInv(s) && s.dw.None? && t in s.senders
    requires (s.senders[t].Write? || s.senders[t].Leave?) && s.senders[t].p == p
    requires s'.high == s.high && s'.low == s.low && s'.socket == s.socket && s'.pipe == s.pipe
    requires s'.calls == s.calls && s'.senders == s.senders[t := Unlock(p, false)]
    requires (s'.whole == s.whole + [p] && s'.dw.None?) || (s'.whole == s.whole && s'.dw.Some? && s'.dw.value.p == p)
    ensures OrderInv(s')
  {
    hide LineOf, Behind;
    assert SenderOrder(s, t);
    DirectOrder(s, t, p);
    LineDirect(s, s', p);
    Added(s, s', t, Unlock(p, false), p);
  }

  lemma WriteOrder(s: State, t: nat, c: Choice)
    requires OrderInv(s) && PieceInv(s) && (PcOf(s, t).Write? || PcOf(s, t).Leave?)
    ensures OrderInv(SenderStep(s, t, c))
  {
    hide LineOf, Behind, OrderInv, Bytes;
    var s', pc := SenderStep(s, t, c), PcOf(s, t);
    if s'.senders[t].Unlock? {
      DirectStep(s, s', t, pc.p);
    } else {
      assert SenderOrder(s', t) by { KnownOrder(s, t); }
      SameLine(s, s', t);
    }
  }

  lemma KnownOrder(s: State, t: nat)
    requires OrderInv(s) && t in s.senders
    ensures SenderOrder(s, t)
  {
  }

  lemma CheckOrder(s: State, t: nat, c: Choice)
    requires OrderInv(s) && CountInv(s) && PcOf(s, t).Check?
    ensures OrderInv(SenderStep(s, t, c))
  {
    hide LineOf, OrderInv;
    var s' := SenderStep(s, t, c);
    KnownOrder(s, t);
    assert SenderOrder(s', t);
    SameLine(s, s', t);
  }

  lemma OtherOrder(s: State, t: nat, c: Choice)
    requires OrderInv(s) && !PcOf(s, t).ToPipe? && !PcOf(s, t).Write? && !PcOf(s, t).Leave? && !PcOf(s, t).Check?
    ensures OrderInv(SenderStep(s, t, c))
  {
    hide LineOf, OrderInv;
    var s' := SenderStep(s, t, c);
    if s' != s {
      if t in s.senders { KnownOrder(s, t); }
      NumbersBelow(s);
      assert SenderOrder(s', t);
      SameLine(s, s', t);
    }
  }

  lemma NumbersBelow(s: State)
    requires OrderInv(s)
    ensures forall p | p in Line(s) :: p.no < s.calls
  {
  }

  // ---- The socket thread ----

  /** A step of the socket thread that keeps the line, or takes packets out of it. */
  lemma Fewer(s: State, s': State)
    requires OrderInv(s) && Sorted(Line(s')) && s'.senders == s.senders && s'.calls == s.calls
    requires forall q | q in Line(s') :: q in Line(s)
    requires forall q | q in InHand(s'.socket) + s'.pipe :: q in InHand(s.socket) + s.pipe
    requires forall b | b in s'.low :: !b.p.high
    requires forall t, b | t in s.senders && SawHigh(s.senders[t]) && b in s'.high ::
               !(b.p.sender == t && b.p.high)
    ensures OrderInv(s')
  {
    hide LineOf, InHand, SawHigh, SawCounter;
    forall t | t in s'.senders ensures SenderOrder(s', t) {
      assert SenderOrder(s, t);
    }
  }

  lemma NoneLocked(s: State)
    requires LockInv(s) && s.lock == Some(Socket)
    ensures forall t | t in s.senders :: !SawHigh(s.senders[t])
  {
  }

  lemma PacketsCons(b: Buf, list: seq<Buf>)
    ensures Packets([b] + list) == [b.p] + Packets(list)
    ensures list != [] ==> Packets(list) == [list[0].p] + Packets(list[1..])
  {
  }

  lemma PacketsSnoc(list: seq<Buf>, b: Buf)
    ensures Packets(list + [b]) == Packets(list) + [b.p]
  {
  }

  lemma MergeLine(s: State, c: Choice)
    requires s.socket.Merge?
    ensures Line(SocketStep(s, c)) == Line(s)
  {
    hide WriteHigh, WriteLow, AllSent, Event, Close, Queued, Bytes, Rest;
    if s.dw.Some? {
      PacketsCons(s.dw.value, s.high);
      assert Left(s.dw) == [s.dw.value.p];
    }
  }

  lemma MergeOrder(s: State, c: Choice)
    requires OrderInv(s) && LockInv(s) && s.socket.Merge?
    ensures OrderInv(SocketStep(s, c))
  {
    hide WriteHigh, WriteLow, AllSent, Event, Close, Queued, Bytes, Rest;
    NoneLocked(s);
    MergeLine(s, c);
    Fewer(s, SocketStep(s, c));
  }

  /** Writing from a list moves packets from its front to the end of what is written. */
  lemma HighLine(s: State, c: Choice)
    requires LockInv(s) && s.socket.SendHigh?
    ensures Line(SocketStep(s, c)) == Line(s)
  {
    hide Left, Packets, Rest, Bytes, WriteLow, Event, Close, Merged, Queued;
    NoPackets();
    assert s.dw == None ==> Left(s.dw) == [] by { NothingLeft(); }
    if s.high != [] {
      PacketsCons(s.high[0], s.high);
      if c.Accept? { PacketsCons(Buf(s.high[0].p, s.high[0].sent + c.n), s.high[1..]); }
    }
  }

  lemma LowLine(s: State, c: Choice)
    requires LockInv(s) && s.socket.SendLow?
    ensures Line(SocketStep(s, c)) == Line(s)
  {
    hide Rest, Bytes, WriteHigh, Event, Close, Merged, Queued;
    if s.low != [] {
      PacketsCons(s.low[0], s.low[1..]);
      if c.Accept? {
        var b := Buf(s.low[0].p, s.low[0].sent + c.n);
        PacketsCons(b, []);
        assert [b] + [] == [b];
      }
    }
  }

  lemma SendLine(s: State, c: Choice)
    requires LockInv(s) && Sends(s.socket)
    ensures var s' := SocketStep(s, c);
            && Line(s') == Line(s) && InHand(s'.socket) + s'.pipe == InHand(s.socket) + s.pipe
            && (forall b | b in s'.low :: b in s.low)
  {
    hide LineOf, Rest, Bytes;
    if s.socket.SendHigh? { HighLine(s, c); } else { LowLine(s, c); }
  }

  lemma SendOrder(s: State, c: Choice)
    requires OrderInv(s) && LockInv(s) && Sends(s.socket)
    ensures OrderInv(SocketStep(s, c))
  {
    hide LineOf, SocketStep, SawHigh;
    NoneLocked(s);
    SendLine(s, c);
    SendFrame(s, c);
    Fewer(s, SocketStep(s, c));
  }

  /** Freeing the lists, or the leftover, takes packets out of the middle of the line. */
  lemma CloseLine(s: State, c: Choice)
    requires Closes(s.socket)
    ensures var s' := SocketStep(s, c);
            var front, back := s.whole + Left(s.dw), InHand(s.socket) + s.pipe;
            var lists := Packets(s.high) + Packets(s.low);
            && Line(s) == front + lists + back
            && Line(s) == s.whole + Left(s.dw) + (lists + back)
            && Line(s') == (if s.socket.Free? then front + back
                            else if s.socket.locked || s.lock.None? then s.whole + (lists + back) else Line(s))
            && InHand(s'.socket) + s'.pipe == InHand(s.socket) + s.pipe
  {
    CloseFrame(s, c);
    NoPackets();
    NothingLeft();
    hide SocketStep, Packets, Left, InHand;
    var s' := SocketStep(s, c);
    if s.socket.Free? {
      assert Line(s') == s.whole + Left(s.dw) + (InHand(s.socket) + s.pipe);
    } else if s.socket.locked || s.lock.None? {
      assert Line(s') == s.whole + (Packets(s.high) + Packets(s.low) + (InHand(s.socket) + s.pipe));
    }
  }

  /** What closing leaves. */
  lemma CloseFrame(s: State, c: Choice)
    requires Closes(s.socket)
    ensures var s' := SocketStep(s, c);
            && s'.whole == s.whole && s'.pipe == s.pipe && InHand(s'.socket) == InHand(s.socket)
            && s'.senders == s.senders && s'.calls == s.calls
            && (s.socket.Free? ==> s'.high == [] && s'.low == [] && s'.dw == s.dw)
            && (s.socket.Shut? ==> s'.high == s.high && s'.low == s.low)
            && (s.socket.Shut? ==> if s.socket.locked || s.lock.None? then s'.dw == None else s' == s)
  {
    hide Queued, WriteHigh, WriteLow, AllSent, Event, Merged, Cut;
  }

  lemma NothingLeft()
    ensures Left(None) == []
  {
  }

  lemma NoPackets()
    ensures Packets([]) == []
  {
  }

  /** Freeing packets leaves the others in order. */
  lemma CloseOrder(s: State, c: Choice)
    requires OrderInv(s) && Closes(s.socket)
    ensures OrderInv(SocketStep(s, c))
  {
    hide LineOf, Packets, SocketStep, SawHigh, SawCounter, InHand;
    var s' := SocketStep(s, c);
    var front, back := s.whole + Left(s.dw), InHand(s.socket) + s.pipe;
    var lists := Packets(s.high) + Packets(s.low);
    CloseLine(s, c);
    CloseFrame(s, c);
    SortedDrop(front, lists, back);
    SortedDrop(s.whole, Left(s.dw), lists + back);
    forall t, b | t in s.senders && SawHigh(s.senders[t]) && b in s'.high
      ensures !(b.p.sender == t && b.p.high)
    {
      assert SenderOrder(s, t);
    }
    Fewer(s, s');
  }

  /** The connection takes no more requests. */
  predicate Down(s: State) { s.kind.Invalid? || s.kind.HalfClose? }

  /** A packet of low priority has to wait behind others, or for the connection to open. */
  predicate MustWait(s: State) { s.kind.Connecting? || s.high != [] || s.low != [] }

  /** Which list a request joins, by priority. */
  lemma HandLists(s: State, c: Choice)
    requires s.socket.Hand?
    ensures var s', b := SocketStep(s, c), Buf(s.socket.p, 0);
            && s'.high == s.high + (if !Down(s) && (b.p.high || !MustWait(s)) then [b] else [])
            && s'.low == s.low + (if !Down(s) && !b.p.high && MustWait(s) then [b] else [])
            && s'.whole == s.whole && s'.dw == s.dw && s'.pipe == s.pipe && s'.socket == Dec
  {
    hide WriteHigh, WriteLow, AllSent, Event, Close, Merged, Bytes, Rest;
  }

  /**
   * The line with the request in hand, and after it: a connection that is going down drops the request.
   * Any other puts it behind all that wait, or, if it has high priority, behind those in the high list.
   */
  lemma HandLine(s: State, c: Choice)
    requires s.socket.Hand?
    ensures var s', p := SocketStep(s, c), s.socket.p;
            var a, l := s.whole + Left(s.dw) + Packets(s.high), Packets(s.low);
            && Line(s) == a + l + [p] + s.pipe
            && Line(s') == (if Down(s) then a + l + s.pipe else if p.high then a + [p] + (l + s.pipe) else Line(s))
  {
    HandLists(s, c);
    PacketsSnoc(s.high, Buf(s.socket.p, 0));
    PacketsSnoc(s.low, Buf(s.socket.p, 0));
    NoPackets();
    hide Packets, Left, SocketStep, Down, MustWait;
    var s', p := SocketStep(s, c), s.socket.p;
    var a, l := s.whole + Left(s.dw) + Packets(s.high), Packets(s.low);
    if s'.high != s.high {
      assert Line(s') == a + [p] + (l + s.pipe);
      if !p.high { assert l == [] by { NoneWaits(s); } }
    } else if s'.low != s.low {
      assert Line(s') == a + (l + [p]) + s.pipe;
    } else {
      assert Line(s') == a + l + s.pipe;
    }
  }

  lemma NoneWaits(s: State)
    requires !MustWait(s)
    ensures s.low == []
  {
  }

  /** A request from the pipe goes behind the packets of its list; it may pass only lower ones. */
  lemma HandOrder(s: State, c: Choice)
    requires OrderInv(s) && s.socket.Hand?
    ensures OrderInv(SocketStep(s, c))
  {
    hide LineOf, Packets, WriteHigh, WriteLow, AllSent, Event, Close, Merged, Bytes, Rest;
    var s', p := SocketStep(s, c), s.socket.p;
    var a, l := s.whole + Left(s.dw) + Packets(s.high), Packets(s.low);
    HandLine(s, c);
    SortedDrop(a + l, [p], s.pipe);
    if p.high {
      assert (a + l) + s.pipe == a + (l + s.pipe);
      PassesLower(s, p, a, l);
      SortedInsert(a, p, l + s.pipe);
    }
    HandKnown(s);
    HandFewer(s, s', p);
  }

  lemma HandFewer(s: State, s': State, p: Packet)
    requires OrderInv(s) && s.socket == Hand(p) && s' == Queued(s, p).(socket := Dec) && Sorted(Line(s'))
    requires forall q | q in Line(s') :: q in Line(s)
    requires forall t | t in s.senders && SawHigh(s.senders[t]) :: p.sender != t
    ensures OrderInv(s')
  {
    hide LineOf, SawHigh, SawCounter;
    forall t, b | t in s.senders && SawHigh(s.senders[t]) && b in s'.high
      ensures !(b.p.sender == t && b.p.high)
    {
      assert SenderOrder(s, t);
    }
    Fewer(s, s');
  }

  lemma PassesLower(s: State, p: Packet, a: seq<Packet>, l: seq<Packet>)
    requires OrderInv(s) && l == Packets(s.low) && p.high
    requires Line(s) == (a + l) + [p] + s.pipe
    ensures forall q | q in a && Same(q, p) :: q.no < p.no
    ensures forall q | q in l + s.pipe && Same(q, p) :: p.no < q.no
  {
    var line := Line(s);
    forall q | q in a && Same(q, p) ensures q.no < p.no {
      var i :| 0 <= i < |a| && a[i] == q;
      assert line[i] == q && line[|a| + |l|] == p;
    }
    forall q | q in l ensures !q.high {
      var j :| 0 <= j < |s.low| && s.low[j].p == q;
      assert s.low[j] in s.low;
    }
    forall q | q in l + s.pipe && Same(q, p) ensures p.no < q.no {
      assert q in s.pipe;
      var j :| 0 <= j < |s.pipe| && s.pipe[j] == q;
      assert line[|a| + |l| + 1 + j] == q && line[|a| + |l|] == p;
    }
  }

  /** A packet in the socket thread's hand is not of a sender that found none on its way. */
  lemma HandKnown(s: State)
    requires OrderInv(s) && s.socket.Hand?
    ensures forall t | t in s.senders && SawHigh(s.senders[t]) :: s.socket.p.sender != t
  {
    forall t | t in s.senders && SawHigh(s.senders[t]) ensures s.socket.p.sender != t {
      assert SenderOrder(s, t);
      assert s.socket.p in InHand(s.socket) + s.pipe;
    }
  }

  /** Taking a request from the pipe keeps the line. */
  lemma CommandLine(s: State, s': State)
    requires s.pipe != [] && s'.pipe == s.pipe[1..] && s'.socket == Hand(s.pipe[0]) && InHand(s.socket) == []
    requires s'.whole == s.whole && s'.dw == s.dw && s'.high == s.high && s'.low == s.low
    ensures Line(s') == Line(s) && InHand(s'.socket) + s'.pipe == InHand(s.socket) + s.pipe
  {
    assert InHand(s'.socket) + s'.pipe == s.pipe;
  }

  lemma QuietLine(s: State, c: Choice)
    requires Quiet(s.socket) && !s.socket.Hand?
    ensures var s' := SocketStep(s, c);
            && Line(s') == Line(s) && InHand(s'.socket) + s'.pipe == InHand(s.socket) + s.pipe
            && s'.high == s.high && s'.low == s.low && s'.senders == s.senders && s'.calls == s.calls
  {
    hide LineOf, Queued, WriteHigh, WriteLow, AllSent, Close, Merged, NoMore;
    var s' := SocketStep(s, c);
    if s.socket.Waiting? && c.Command? && s.pipe != [] {
      CommandLine(s, s');
    } else {
      SameHand(s, s');
    }
  }

  lemma SameHand(s: State, s': State)
    requires InHand(s.socket) == InHand(s'.socket)
    requires s'.whole == s.whole && s'.dw == s.dw && s'.high == s.high && s'.low == s.low && s'.pipe == s.pipe
    ensures Line(s') == Line(s)
  {
  }

  lemma QuietOrder(s: State, c: Choice)
    requires OrderInv(s) && Quiet(s.socket) && !s.socket.Hand?
    ensures OrderInv(SocketStep(s, c))
  {
    hide LineOf, SocketStep, SawHigh, SawCounter, InHand;
    var s' := SocketStep(s, c);
    QuietLine(s, c);
    forall t, b | t in s.senders && SawHigh(s.senders[t]) && b in s'.high
      ensures !(b.p.sender == t && b.p.high)
    {
      assert SenderOrder(s, t);
    }
    Fewer(s, s');
  }
}
