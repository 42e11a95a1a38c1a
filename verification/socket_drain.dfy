// The write path gets on: from wherever an open connection is, everything that was handed over can still
// be written.

module SocketDrain {
  import opened Options
  import opened SocketWrite
  import opened SocketStream
  import opened SocketOrder
  import opened SocketSafety
  import opened SocketConserve

  /** Nobody closes the connection, and it does not fail. */
  predicate Mild(c: Choice) { !c.Error? && !c.Abort? && !c.CloseRequest? }

  /** The socket thread is not about to close. */
  predicate Stays(pc: SocketPc) {
    match pc
    case Free(_) => false
    case Shut(_) => false
    case Decide(_) => false
    case Try(next) => next.Return?
    case Merge(next) => next.Return?
    case SendHigh(next) => next.Return?
    case SendLow(next) => next.Return?
    case Release(next) => next.Return?
    case _ => true
  }

  ghost predicate Good(s: State) { LockInv(s) && CountInv(s) && !Down(s) && Stays(s.socket) }

  lemma GoodStep(s: State, e: Turn)
    requires Good(s) && Mild(e.c)
    ensures Good(Do(s, e))
  {
    hide LockInv, CountInv, SenderStep, SocketStep, Stays, Down;
    if e.BySender? {
      SenderLock(s, e.t, e.c);
      SenderCount(s, e.t, e.c);
      SenderLeaves(s, e.t, e.c);
      assert !Down(Do(s, e)) by { SameDown(s, Do(s, e)); }
    } else {
      SocketLock(s, e.c);
      SocketCount(s, e.c);
      StaysStep(s, e.c);
    }
  }

  lemma SameDown(s: State, s': State)
    requires s'.kind == s.kind
    ensures Down(s') == Down(s)
  {
  }

  lemma StaysStep(s: State, c: Choice)
    requires !Down(s) && Stays(s.socket) && Mild(c)
    ensures !Down(SocketStep(s, c)) && Stays(SocketStep(s, c).socket)
  {
    hide Bytes, Rest, Close;
    if Sends(s.socket) { SendStays(s, c); } else { hide WriteHigh, WriteLow, AllSent; }
  }

  lemma SendStays(s: State, c: Choice)
    requires !Down(s) && Stays(s.socket) && Mild(c) && Sends(s.socket)
    ensures !Down(SocketStep(s, c)) && Stays(SocketStep(s, c).socket)
  {
    hide Bytes, Rest, Close, Event, Merged, Queued;
  }

  // ---- Continuations ----

  predicate Steady(more: seq<Turn>) { forall e | e in more :: Mild(e.c) && !e.c.Send? }

  ghost predicate LeadsBy(s: State, more: seq<Turn>, s2: State) { Steady(more) && After(s, more) == s2 }

  /** Some steps that hand over nothing and do not close lead from one state to the other. */
  ghost predicate Leads(s: State, s2: State) { exists more :: LeadsBy(s, more, s2) }

  lemma LeadsNowhere(s: State)
    ensures Leads(s, s)
  {
    assert LeadsBy(s, [], s);
  }

  lemma LeadsMild(s: State, e: Turn)
    requires Mild(e.c) && !e.c.Send?
    ensures Leads(s, Do(s, e))
  {
    hide Do;
    OneTurn(s, e);
    assert LeadsBy(s, [e], Do(s, e));
  }

  lemma LeadsStep(s: State, e: Turn)
    requires Good(s) && Mild(e.c) && !e.c.Send?
    ensures Leads(s, Do(s, e)) && Good(Do(s, e))
  {
    GoodStep(s, e);
    LeadsMild(s, e);
  }

  lemma LeadsOn(s: State, s1: State, s2: State)
    requires Leads(s, s1) && Leads(s1, s2)
    ensures Leads(s, s2)
  {
    var a :| LeadsBy(s, a, s1);
    var b :| LeadsBy(s1, b, s2);
    hide After;
    Joins(s, a, b);
    assert LeadsBy(s, a + b, s2);
  }

  // ---- The socket thread comes to rest ----

  function Steps(pc: SocketPc): nat {
    match pc
    case Hand(_) => 2
    case Dec => 1
    case Try(_) => 5
    case Merge(_) => 4
    case SendHigh(_) => 3
    case SendLow(_) => 2
    case Release(_) => 1
    case _ => 0
  }

  lemma SocketGets(s: State)
    requires Good(s) && !s.socket.Waiting?
    ensures var s' := SocketStep(s, Again);
            Steps(s'.socket) < Steps(s.socket) && s'.senders == s.senders && s'.pipe == s.pipe
  {
    SocketCount(s, Again);
    hide LockInv, CountInv, Bytes, Rest;
  }

  lemma {:induction false} SocketRests(s: State) returns (s2: State)
    requires Good(s)
    ensures Leads(s, s2) && Good(s2) && s2.socket.Waiting? && s2.senders == s.senders && s2.pipe == s.pipe
    decreases Steps(s.socket)
  {
    hide Good, Leads, SocketStep, Steps;
    if s.socket.Waiting? {
      LeadsNowhere(s);
      s2 := s;
    } else {
      SocketGets(s);
      LeadsStep(s, BySocket(Again));
      s2 := SocketRests(SocketStep(s, Again));
      LeadsOn(s, SocketStep(s, Again), s2);
    }
  }

  /** It takes one request after the other from the pipe. */
  lemma {:induction false} EmptyPipe(s: State) returns (s2: State)
    requires Good(s)
    ensures Leads(s, s2) && Good(s2) && s2.socket.Waiting? && s2.senders == s.senders && s2.pipe == []
    decreases |s.pipe|
  {
    hide Good, Leads;
    s2 := SocketRests(s);
    if s2.pipe != [] {
      var s1, s3 := s2, SocketStep(s2, Command);
      assert s3.pipe == s1.pipe[1..] && s3.senders == s1.senders;
      LeadsStep(s1, BySocket(Command));
      LeadsOn(s, s1, s3);
      hide SocketStep;
      s2 := EmptyPipe(s3);
      LeadsOn(s, s3, s2);
    }
  }

  // ---- Senders come to rest ----

  /** Each packet on its way to the pipe gets there. */
  lemma {:induction false} Deliver(s: State) returns (s2: State)
    requires Good(s)
    ensures Leads(s, s2) && Good(s2) && Announced(s2) == {}
    decreases |Announced(s)|
  {
    hide Good, Leads;
    if Announced(s) == {} {
      LeadsNowhere(s);
      s2 := s;
    } else {
      var t :| t in Announced(s);
      var s1 := SenderStep(s, t, Again);
      AnnouncedMove(s, s1, t, Idle);
      LeadsStep(s, BySender(t, Again));
      hide SenderStep, Announced;
      s2 := Deliver(s1);
      LeadsOn(s, s1, s2);
    }
  }

  function Busy(s: State): set<nat> { set t | t in s.senders && !s.senders[t].Idle? }

  /** How far a sender is from the end of its call. */
  function Far(pc: SenderPc): nat {
    match pc
    case Idle => 0
    case ToPipe(_) => 1
    case Inc(_) => 2
    case Unlock(_, _) => 3
    case Leave(_, _) => 4
    case Write(_) => 5
    case Check(_, locked, k) => (if locked then 6 else 13) + if k < 4 then 4 - k else 0
    case TryLock(_) => 12
  }

  /** What its next write does. */
  function Takes(pc: SenderPc): Choice { if pc.Write? then Accept(pc.p.size) else Again }

  lemma SenderGets(s: State, t: nat)
    requires !PcOf(s, t).Idle? && (PcOf(s, t).Inc? ==> s.sending < MAX_SENDING)
    ensures var s' := SenderStep(s, t, Takes(PcOf(s, t)));
            && Far(PcOf(s', t)) < Far(PcOf(s, t)) && s'.socket == s.socket
            && (forall x | x != t :: PcOf(s', x) == PcOf(s, x))
            && (s'.sending == s.sending || PcOf(s', t).ToPipe?) && (PcOf(s, t).ToPipe? ==> PcOf(s', t).Idle?)
            && s'.senders.Keys == s.senders.Keys
  {
    hide Bytes, Allows;
  }

  lemma {:induction false} SenderRests(s: State, t: nat) returns (s2: State)
    requires Good(s) && (PcOf(s, t).ToPipe? || PcOf(s, t).Idle? || s.sending < MAX_SENDING)
    ensures Leads(s, s2) && Good(s2) && PcOf(s2, t).Idle? && s2.socket == s.socket
    ensures s2.senders.Keys == s.senders.Keys && forall x | x != t :: PcOf(s2, x) == PcOf(s, x)
    decreases Far(PcOf(s, t))
  {
    hide Good, Leads, SenderStep, Far, PcOf;
    if PcOf(s, t).Idle? {
      LeadsNowhere(s);
      s2 := s;
    } else {
      var c := Takes(PcOf(s, t));
      SenderGets(s, t);
      LeadsStep(s, BySender(t, c));
      s2 := SenderRests(SenderStep(s, t, c), t);
      LeadsOn(s, SenderStep(s, t, c), s2);
    }
  }

  /** Nothing is on its way to the lists. */
  ghost predicate Calm(s: State) { Good(s) && s.socket.Waiting? && s.pipe == [] && Announced(s) == {} }

  lemma CalmSends(s: State)
    requires Calm(s)
    ensures s.sending == 0
  {
  }

  /** One sender after the other ends its call. */
  lemma {:induction false} SendersRest(s: State) returns (s2: State)
    requires Calm(s)
    ensures Leads(s, s2) && Calm(s2) && Busy(s2) == {}
    decreases |Busy(s)|
  {
    hide Good, Leads;
    if Busy(s) == {} {
      LeadsNowhere(s);
      s2 := s;
    } else {
      var t :| t in Busy(s);
      CalmSends(s);
      var s1 := SenderRests(s, t);
      LessBusy(s, s1, t);
      s2 := EmptyPipe(s1);
      LeadsOn(s, s1, s2);
      var s3 := s2;
      SameSenders(s1, s3);
      hide Busy;
      s2 := SendersRest(s3);
      LeadsOn(s, s3, s2);
    }
  }

  lemma LessBusy(s: State, s1: State, t: nat)
    requires t in Busy(s) && Announced(s) == {} && PcOf(s1, t).Idle? && s1.senders.Keys == s.senders.Keys
    requires forall x | x != t :: PcOf(s1, x) == PcOf(s, x)
    ensures Busy(s1) == Busy(s) - {t} && Announced(s1) == {}
  {
    forall x ensures x in Busy(s1) <==> x in Busy(s) && x != t {
      assert PcOf(s1, x) == if x == t then Idle else PcOf(s, x);
    }
    forall x ensures x !in Announced(s1) {
      assert x !in Announced(s) && PcOf(s1, x) == if x == t then Idle else PcOf(s, x);
    }
  }

  lemma SameSenders(s: State, s1: State)
    requires s1.senders == s.senders
    ensures Busy(s1) == Busy(s) && Announced(s1) == Announced(s)
  {
  }

  // ---- The lists are written ----

  /** The socket thread takes these steps while it writes: requests and senders wait. */
  predicate SameRest(s: State, s2: State) {
    s2.senders == s.senders && s2.pipe == s.pipe && s2.sending == s.sending && s2.kind == s.kind
  }

  /** Where the socket thread has the lock, and has written 'list' away. */
  ghost predicate Wrote(s: State, s2: State) { Leads(s, s2) && LockInv(s2) && SameRest(s, s2) && Line(s2) == Line(s) }

  lemma WroteOn(s: State, s1: State, s2: State)
    requires Wrote(s, s1) && Wrote(s1, s2)
    ensures Wrote(s, s2)
  {
    hide Leads, LockInv, Line;
    LeadsOn(s, s1, s2);
  }

  lemma SendWrote(s: State, c: Choice)
    requires LockInv(s) && Sends(s.socket) && Mild(c) && !c.Send?
    ensures Wrote(s, SocketStep(s, c))
  {
    SendLock(s, c);
    SendLine(s, c);
    SendRest(s, c);
    hide LockInv, Line, SocketStep;
    LeadsMild(s, BySocket(c));
  }

  lemma SendRest(s: State, c: Choice)
    requires Sends(s.socket)
    ensures SameRest(s, SocketStep(s, c))
  {
    hide Rest, Bytes, Event, Close, Merged, Queued;
  }

  lemma {:induction false} HighDrains(s: State) returns (s2: State)
    requires LockInv(s) && s.socket.SendHigh?
    ensures Wrote(s, s2) && s2.socket == s.socket && s2.high == []
    decreases |s.high|
  {
    hide LockInv, Leads, Bytes, Rest, Line;
    if s.high == [] {
      LeadsNowhere(s);
      s2 := s;
    } else {
      var c := Accept(Rest(s.high[0]));
      var s1 := SocketStep(s, c);
      assert s1.high == s.high[1..] && s1.socket == s.socket;
      SendWrote(s, c);
      hide SocketStep;
      s2 := HighDrains(s1);
      WroteOn(s, s1, s2);
    }
  }

  lemma {:induction false} LowDrains(s: State) returns (s2: State)
    requires LockInv(s) && s.socket.SendLow?
    ensures Wrote(s, s2) && s2.socket == s.socket && s2.low == []
    decreases |s.low|
  {
    hide LockInv, Leads, Bytes, Rest, Line;
    if s.low == [] {
      LeadsNowhere(s);
      s2 := s;
    } else {
      var c := Accept(Rest(s.low[0]));
      var s1 := SocketStep(s, c);
      assert s1.low == s.low[1..] && s1.socket == s.socket;
      SendWrote(s, c);
      hide SocketStep;
      s2 := LowDrains(s1);
      WroteOn(s, s1, s2);
    }
  }

  /** Both lists and the leftover are written. */
  predicate AllGone(s: State) {
    && s.high == [] && s.low == [] && s.dw.None?
    && (s.socket == SendHigh(Return) || s.socket == SendLow(Return))
  }

  lemma BothDrain(s: State) returns (s2: State)
    requires LockInv(s) && s.socket == SendHigh(Return)
    ensures Wrote(s, s2) && AllGone(s2)
  {
    hide LockInv, Leads, Bytes, Rest, Line;
    s2 := HighDrains(s);
    if s2.low != [] {
      var s1, s3 := s2, SocketStep(s2, Again);
      assert s3.socket == SendLow(Return);
      SendWrote(s1, Again);
      WroteOn(s, s1, s3);
      s2 := LowDrains(s3);
      WroteOn(s, s3, s2);
    }
    LowLast(s2);
  }

  lemma LowLast(s: State)
    requires LockInv(s)
    ensures s.socket.SendLow? ==> s.high == []
    ensures SocketLocked(s.socket) && !s.socket.Merge? ==> s.dw.None?
  {
  }

  /** The socket thread gets the lock. */
  lemma Starts(s: State) returns (s2: State)
    requires LockInv(s) && s.socket.Waiting? && s.lock.None? && (s.kind.Connected? || s.kind.HalfClose?)
    ensures Wrote(s, s2) && s2.socket == SendHigh(Return)
  {
    var s1 := SocketStep(s, Writable);
    SocketLock(s, Writable);
    QuietLine(s, Writable);
    LeadsMild(s, BySocket(Writable));
    var s3 := SocketStep(s1, Again);
    SocketLock(s1, Again);
    QuietLine(s1, Again);
    LeadsMild(s1, BySocket(Again));
    s2 := SocketStep(s3, Again);
    SocketLock(s3, Again);
    MergeLine(s3, Again);
    LeadsMild(s3, BySocket(Again));
    hide LockInv, Line, Leads, NoMore, Rest;
    assert Wrote(s, s1) && Wrote(s1, s3) && Wrote(s3, s2);
    WroteOn(s, s1, s3);
    WroteOn(s, s3, s2);
  }

  /** An open connection where the senders are at rest writes everything. */
  lemma ListsDrain(s: State) returns (s2: State)
    requires Good(s) && s.socket.Waiting? && s.lock.None? && s.kind.Connected?
    ensures Leads(s, s2) && SameRest(s, s2) && Good(s2)
    ensures s2.high == [] && s2.low == [] && s2.dw.None? && s2.socket == Release(Return)
  {
    var s1 := Starts(s);
    var s3 := BothDrain(s1);
    WroteOn(s, s1, s3);
    SameGood(s, s3);
    hide LockInv, CountInv, Line, Leads, Bytes, Rest;
    s2 := SocketStep(s3, Again);
    LeadsStep(s3, BySocket(Again));
    LeadsOn(s, s3, s2);
  }

  lemma SameGood(s: State, s2: State)
    requires Good(s) && s.socket.Waiting? && LockInv(s2) && SameRest(s, s2) && AllGone(s2)
    ensures Good(s2)
  {
    hide LockInv;
    assert Announced(s2) == Announced(s);
  }

  /**
   * A half-closed connection closes once everything is written: whenever the socket thread waits and
   * nobody has the lock, all that waits in the leftover and the lists can still be written in full.
   */
  lemma HalfCloseEnds(s: State) returns (s2: State)
    requires LockInv(s) && s.kind.HalfClose? && s.socket.Waiting? && s.lock.None?
    ensures Leads(s, s2) && s2.kind.Invalid? && s2.socket.Waiting? && s2.lock.None?
    ensures s2.whole + s2.pipe == Line(s) && s2.pipe == s.pipe
  {
    var s1 := Starts(s);
    s2 := BothDrain(s1);
    WroteOn(s, s1, s2);
    LineDone(s2);
    hide LockInv, Line, SocketStep;
    var s3 := s2;
    s2 := GoneEnds(s3);
    LeadsOn(s, s3, s2);
  }

  lemma GoneEnds(s: State) returns (s2: State)
    requires AllGone(s) && s.kind.HalfClose?
    ensures Leads(s, s2) && s2.kind.Invalid? && s2.socket.Waiting? && s2.lock.None?
    ensures s2.whole == s.whole && s2.pipe == s.pipe
  {
    hide Leads, Bytes, Rest, WriteHigh, WriteLow, Event, Queued, Merged;
    var s1 := SocketStep(s, Again);
    LeadsMild(s, BySocket(Again));
    var s3 := SocketStep(s1, Again);
    LeadsMild(s1, BySocket(Again));
    LeadsOn(s, s1, s3);
    var s4 := SocketStep(s3, Again);
    LeadsMild(s3, BySocket(Again));
    LeadsOn(s, s3, s4);
    s2 := SocketStep(s4, Again);
    LeadsMild(s4, BySocket(Again));
    LeadsOn(s, s4, s2);
  }

  lemma LineDone(s: State)
    requires AllGone(s)
    ensures Line(s) == s.whole + s.pipe
  {
    NoPackets();
    NothingLeft();
  }

  /** From any state of an open connection everything can be written. */
  lemma Drains(s: State) returns (s2: State)
    requires Good(s)
    ensures Leads(s, s2) && Drained(s2) && Good(s2) && s2.socket == Release(Return)
  {
    hide Good, Leads, SocketStep, LockInv;
    var s1 := Deliver(s);
    var s3 := EmptyPipe(s1);
    LeadsOn(s, s1, s3);
    SameSenders(s1, s3);
    var s4 := SendersRest(s3);
    LeadsOn(s, s3, s4);
    var s5 := Opens(s4);
    LeadsOn(s, s4, s5);
    s2 := ListsDrain(s5);
    LeadsOn(s, s5, s2);
    SameSenders(s4, s2);
    assert forall t | t in s2.senders && !s2.senders[t].Idle? :: t in Busy(s2);
  }

  /** The connection opens, where it is not open yet. */
  lemma Opens(s: State) returns (s2: State)
    requires Calm(s) && Busy(s) == {}
    ensures Leads(s, s2) && Good(s2) && s2.socket.Waiting? && s2.lock.None? && s2.kind.Connected?
    ensures s2.senders == s.senders && s2.pipe == s.pipe
  {
    FreeLock(s);
    hide LockInv, CountInv, Leads;
    if s.kind.Connected? {
      LeadsNowhere(s);
      s2 := s;
    } else {
      s2 := SocketStep(s, Connect);
      LeadsStep(s, BySocket(Connect));
    }
  }

  lemma FreeLock(s: State)
    requires LockInv(s) && s.socket.Waiting? && Busy(s) == {}
    ensures s.lock.None?
  {
    forall t ensures s.lock != Some(Sender(t)) {
      assert t !in Busy(s);
    }
    match s.lock {
      case None =>
      case Some(Socket) => assert false;
      case Some(Sender(_)) => assert false;
    }
  }

  // ---- Runs ----

  predicate Undisturbed(run: seq<Turn>) { forall e | e in run :: Mild(e.c) }

  lemma {:induction false} RunGood(run: seq<Turn>, kind: Kind)
    requires (kind.Connecting? || kind.Connected?) && Undisturbed(run)
    ensures Good(Reach(run, kind)) && StaysUp(run, kind)
  {
    hide Do, CountInv, LockInv, Stays, Down;
    if run == [] {
      GoodStart(kind);
    } else {
      var n := |run| - 1;
      RunGood(run[..n], kind);
      GoodStep(Reach(run[..n], kind), run[n]);
    }
    forall k | 0 <= k <= |run| ensures Up(Reach(run[..k], kind)) {
      if k < |run| {
        assert run[..|run| - 1][..k] == run[..k];
      } else {
        assert run[..k] == run;
        GoodIsUp(Reach(run, kind));
      }
    }
  }

  lemma GoodIsUp(s: State)
    requires Good(s)
    ensures Up(s)
  {
  }

  lemma GoodStart(kind: Kind)
    requires kind.Connecting? || kind.Connected?
    ensures Good(Start(kind))
  {
    StartCount(kind);
  }

  /** Steps that send nothing hand over nothing. */
  lemma {:induction false} HandsNothing(run: seq<Turn>, more: seq<Turn>, kind: Kind)
    requires Steady(more)
    ensures Handed(run + more, kind) == Handed(run, kind)
    decreases |more|
  {
    hide Reach;
    if more == [] {
      assert run + more == run;
    } else {
      var n := |more| - 1;
      assert (run + more)[..|run| + n] == run + more[..n];
      HandsNothing(run, more[..n], kind);
      assert Asked(Reach(run + more[..n], kind), more[n], |Handed(run, kind)|) == [];
    }
  }

  /**
   * As long as nobody closes the connection and it does not fail, every packet that was handed over so
   * far can still be written in full: some continuation that hands over nothing more does it.
   */
  lemma CanBeWritten(run: seq<Turn>, kind: Kind) returns (more: seq<Turn>)
    requires (kind.Connecting? || kind.Connected?) && Undisturbed(run)
    ensures Undisturbed(run + more) && Drained(Reach(run + more, kind))
    ensures Good(Reach(run + more, kind)) && Reach(run + more, kind).socket == Release(Return)
    ensures multiset(Reach(run + more, kind).whole) == multiset(Handed(run, kind))
  {
    hide Good, Drained, After, StaysUp, Handed;
    RunGood(run, kind);
    var s2 := Drains(Reach(run, kind));
    more :| LeadsBy(Reach(run, kind), more, s2);
    Joins(Start(kind), run, more);
    RunGood(run + more, kind);
    HandsNothing(run, more, kind);
    AllWritten(run + more, kind);
  }

  lemma ReachNext(run: seq<Turn>, kind: Kind, e: Turn)
    ensures Reach(run + [e], kind) == Do(Reach(run, kind), e)
  {
    assert (run + [e])[..|run|] == run;
  }

  /** And then a request closes the connection, with everything written. */
  lemma CanBeClosed(run: seq<Turn>, kind: Kind) returns (more: seq<Turn>)
    requires (kind.Connecting? || kind.Connected?) && Undisturbed(run)
    ensures Reach(run + more, kind).kind.Invalid?
    ensures multiset(Reach(run + more, kind).whole) == multiset(Handed(run, kind))
  {
    hide After, Undisturbed, Handed, Good;
    more := CanBeWritten(run, kind);
    var s := Reach(run + more, kind);
    DrainedSends(s);
    var cs := [BySocket(Again), BySocket(CloseRequest(false)), BySocket(Again), BySocket(Again), BySocket(Again)];
    ReachNext(run + more, kind, cs[0]);
    ReachNext(run + more + [cs[0]], kind, cs[1]);
    ReachNext(run + more + [cs[0]] + [cs[1]], kind, cs[2]);
    ReachNext(run + more + [cs[0]] + [cs[1]] + [cs[2]], kind, cs[3]);
    ReachNext(run + more + [cs[0]] + [cs[1]] + [cs[2]] + [cs[3]], kind, cs[4]);
    Closes5(s);
    assert run + more + [cs[0]] + [cs[1]] + [cs[2]] + [cs[3]] + [cs[4]] == run + (more + cs);
    more := more + cs;
  }

  lemma DrainedSends(s: State)
    requires Good(s) && Drained(s) && s.socket == Release(Return)
    ensures s.sending == 0 && !Down(s)
  {
    assert Announced(s) == {};
  }

  lemma Closes5(s: State)
    requires Drained(s) && s.sending == 0 && !Down(s) && s.socket == Release(Return)
    ensures var s1 := SocketStep(s, Again);
            var s2 := SocketStep(s1, CloseRequest(false));
            var s3 := SocketStep(s2, Again);
            var s4 := SocketStep(s3, Again);
            var s5 := SocketStep(s4, Again);
            s5.kind.Invalid? && s5.whole == s.whole
  {
    hide Rest, Bytes, WriteHigh, WriteLow, Queued, Merged, AllSent;
  }
}
