// What runs of the scheduler do: histories read from the steps of a run, and what the state owes to them.

module SchedulerRuns {
  import opened Mailbox
  import opened Scheduler

  /** The thread of the last step of a run, what it chose, and where it was. */
  function LastPc(run: seq<(nat, Choice)>): Pc
    requires run != []
  {
    PcOf(Reach(run[..|run| - 1]), run[|run| - 1].0)
  }

  // ---- How a service came to be ----

  /** What the initialisation of a service answered. */
  datatype Outcome = Pending | Succeeded | Refused

  function InitOf(run: seq<(nat, Choice)>, h: nat): Outcome {
    if run == [] then Pending
    else NewOutcome(LastPc(run), run[|run| - 1].1, InitOf(run[..|run| - 1], h), h)
  }

  function NewOutcome(pc: Pc, c: Choice, o: Outcome, h: nat): Outcome {
    if pc == Init(h) && c.Succeed? then Succeeded else if pc == Init(h) && c.Fail? then Refused else o
  }

  /** Who created a service. */
  function CreatorOf(run: seq<(nat, Choice)>, h: nat): nat {
    if run == [] then 0
    else
      var k := |run| - 1;
      if LastPc(run).Idle? && run[k].1 == Create(h) && h !in Reach(run[..k]).services then run[k].0
      else CreatorOf(run[..k], h)
  }

  /** Some thread killed it. */
  predicate Killed(run: seq<(nat, Choice)>, h: nat) {
    run != [] &&
    var k := |run| - 1;
    (LastPc(run).Idle? && run[k].1 == Kill(h) && h in Reach(run[..k]).services) || Killed(run[..k], h)
  }

  predicate Leaves(pc: Pc) { pc.Unref? || pc.Delete? }

  /** On the way from a successful initialisation to the flag 'init'. */
  predicate Launching(pc: Pc, h: nat) { (Leaves(pc) && pc.next == Launch(h)) || pc == SetInit(h) }

  /** On the way from a failed one to giving the handle back. */
  predicate Failing(pc: Pc, h: nat) { (Leaves(pc) && pc.next == Failed(h)) || pc == Retire(h) }

  /** A thread that leaves a service it created goes on with that service. */
  ghost predicate SameNext(s: State) {
    forall x :: KeepsNext(PcOf(s, x))
  }

  ghost predicate BornRight(s: State, h: nat, o: Outcome, creator: nat, killed: bool)
    requires h in s.services
  {
    var sv := s.services[h];
    && (forall x | PcOf(s, x) == Init(h) :: x == creator && o.Pending?)
    && (forall x | Launching(PcOf(s, x), h) :: x == creator && o.Succeeded?)
    && (forall x | Failing(PcOf(s, x), h) :: x == creator && o.Refused?)
    && (o.Pending? ==> PcOf(s, creator) == Init(h))
    && (sv.init ==> o.Succeeded?)
    && (sv.delivered != [] ==> sv.init)
    && (o.Succeeded? ==> sv.init || sv.box.release || Launching(PcOf(s, creator), h))
    && (o.Refused? && sv.registered ==> Failing(PcOf(s, creator), h))
    && (sv.registered || killed || o.Refused?)
    && (killed ==> !sv.registered)
  }

  lemma OthersStay(s: State, t: nat, c: Choice)
    ensures forall x | x != t :: PcOf(Step(s, t, c), x) == PcOf(s, x)
  {
    hide MoveOf;
  }

  /** What one thread does is right by the service 'h': where it goes, */
  predicate GoesRight(pc: Pc, pc2: Pc, c: Choice, h: nat) {
    && (pc2 == Init(h) ==> pc == Init(h) && !c.Succeed? && !c.Fail?)
    && (pc == Init(h) ==> pc2 == Init(h) || c.Succeed? || c.Fail?)
    && (pc == Init(h) && c.Succeed? ==> Launching(pc2, h))
    && (pc == Init(h) && c.Fail? ==> Failing(pc2, h))
    && (Launching(pc2, h) ==> Launching(pc, h) || (pc == Init(h) && c.Succeed?))
    && (Failing(pc2, h) ==> Failing(pc, h) || (pc == Init(h) && c.Fail?))
  }

  /** and what becomes of the service. */
  predicate LeavesRight(pc: Pc, pc2: Pc, sv: Service, sv2: Service, h: nat) {
    && (sv2.init ==> sv.init || pc == SetInit(h))
    && (sv.init ==> sv2.init) && (sv.box.release ==> sv2.box.release)
    && (sv2.delivered != [] ==> sv.delivered != [] || sv.init)
    && (Launching(pc, h) ==> Launching(pc2, h) || sv2.init || sv2.box.release)
    && (sv2.registered ==> sv.registered)
    && (sv.registered && !sv2.registered ==> Failing(pc, h))
    && (Failing(pc, h) && sv2.registered ==> Failing(pc2, h))
  }

  predicate KeepsNext(pc: Pc) {
    Leaves(pc) && (pc.next.Launch? || pc.next.Failed?) ==> pc.h == pc.next.q
  }

  lemma MoveGoes(pc: Pc, sv: Service, list: seq<nat>, c: Choice, h: nat)
    requires !pc.Idle? && KeepsNext(pc)
    ensures var m := MoveOf(pc, sv, list, c); GoesRight(pc, m.pc, c, h) && KeepsNext(m.pc)
  {
    hide PopBox, PushBox, MarkBox, BatchSize;
  }

  lemma MoveLeaves(pc: Pc, sv: Service, list: seq<nat>, c: Choice)
    requires !pc.Idle? && Relied(pc, sv, list) && KeepsNext(pc)
    ensures var m := MoveOf(pc, sv, list, c); LeavesRight(pc, m.pc, sv, m.sv, HandleOf(pc))
  {
    hide BatchSize;
  }

  /** A service that a thread does not work on. */
  lemma MoveElsewhere(pc: Pc, pc2: Pc, h: nat, other: Service)
    requires !pc.Idle? && h != HandleOf(pc) && KeepsNext(pc)
    ensures LeavesRight(pc, pc2, other, other, h)
  {
  }

  /** So it stays right by it. */
  lemma BornStays(s: State, s': State, t: nat, c: Choice, h: nat, o: Outcome, creator: nat, killed: bool)
    requires h in s.services && h in s'.services && BornRight(s, h, o, creator, killed)
    requires forall x | x != t :: PcOf(s', x) == PcOf(s, x)
    requires GoesRight(PcOf(s, t), PcOf(s', t), c, h)
    requires LeavesRight(PcOf(s, t), PcOf(s', t), s.services[h], s'.services[h], h)
    ensures BornRight(s', h, NewOutcome(PcOf(s, t), c, o, h), creator, killed)
  {
    hide PcOf;
    var o2 := NewOutcome(PcOf(s, t), c, o, h);
    if PcOf(s, t) == Init(h) { assert t == creator && o.Pending?; }
    if Launching(PcOf(s, t), h) { assert t == creator && o.Succeeded?; }
    if Failing(PcOf(s, t), h) { assert t == creator && o.Refused?; }
  }

  lemma MoveBorn(s: State, t: nat, c: Choice, h: nat, o: Outcome, creator: nat, killed: bool)
    requires Inv(s) && SameNext(s) && !PcOf(s, t).Idle?
    requires h in s.services && BornRight(s, h, o, creator, killed)
    ensures h in Step(s, t, c).services && SameNext(Step(s, t, c))
    ensures BornRight(Step(s, t, c), h, NewOutcome(PcOf(s, t), c, o, h), creator, killed)
  {
    Known(s, t);
    OthersStay(s, t, c);
    hide Inv, MoveOf, GoesRight, LeavesRight, BornRight, Relied;
    var pc, s' := PcOf(s, t), Step(s, t, c);
    var x := HandleOf(pc);
    var m := MoveOf(pc, s.services[x], s.list, c);
    assert s' == With(s, t, x, m.sv, m.list, m.pc) && PcOf(s', t) == m.pc;
    MoveGoes(pc, s.services[x], s.list, c, h);
    if h == x { MoveLeaves(pc, s.services[x], s.list, c); } else { MoveElsewhere(pc, m.pc, h, s.services[h]); }
    BornStays(s, s', t, c, h, o, creator, killed);
  }

  lemma IdleBorn(s: State, t: nat, c: Choice, h: nat, o: Outcome, creator: nat, killed: bool)
    requires SameNext(s) && PcOf(s, t).Idle?
    requires h in s.services && BornRight(s, h, o, creator, killed)
    ensures h in Step(s, t, c).services && SameNext(Step(s, t, c))
    ensures BornRight(Step(s, t, c), h, o, creator, killed || c == Kill(h))
  {
    OthersStay(s, t, c);
    var s' := Step(s, t, c);
    assert !Launching(PcOf(s', t), h) && !Failing(PcOf(s', t), h) && PcOf(s', t) != Init(h);
  }

  lemma CreateBorn(s: State, t: nat, h: nat)
    requires Inv(s) && SameNext(s) && PcOf(s, t).Idle? && h !in s.services
    ensures var s' := Step(s, t, Create(h)); SameNext(s') && h in s'.services && BornRight(s', h, Pending, t, false)
  {
    OthersStay(s, t, Create(h));
    var s' := Step(s, t, Create(h));
    forall x | x != t ensures !Launching(PcOf(s', x), h) && !Failing(PcOf(s', x), h) && PcOf(s', x) != Init(h) {
      if Leaves(PcOf(s, x)) || !PcOf(s, x).Idle? { Known(s, x); }
    }
  }

  ghost predicate RunBorn(run: seq<(nat, Choice)>) {
    && SameNext(Reach(run))
    && forall h | h in Reach(run).services :: RunBornAt(run, h)
  }

  ghost predicate RunBornAt(run: seq<(nat, Choice)>, h: nat)
    requires h in Reach(run).services
  {
    BornRight(Reach(run), h, InitOf(run, h), CreatorOf(run, h), Killed(run, h))
  }

  lemma BornMore(run: seq<(nat, Choice)>, h: nat)
    requires run != [] && Inv(Reach(run[..|run| - 1])) && RunBorn(run[..|run| - 1]) && h in Reach(run).services
    ensures SameNext(Reach(run)) && RunBornAt(run, h)
  {
    hide Inv, BornRight, SameNext, MoveOf, StepIdle;
    var k := |run| - 1;
    var was, t, c := run[..k], run[k].0, run[k].1;
    var s := Reach(was);
    assert Reach(run) == Step(s, t, c);
    if h in s.services {
      assert RunBornAt(was, h);
      hide Reach, Step;
      if PcOf(s, t).Idle? {
        IdleBorn(s, t, c, h, InitOf(was, h), CreatorOf(was, h), Killed(was, h));
      } else {
        MoveBorn(s, t, c, h, InitOf(was, h), CreatorOf(was, h), Killed(was, h));
      }
    } else {
      NewService1(s, t, c, h);
      CreateBorn(s, t, h);
      NoOutcome(was, h);
    }
  }

  /** Only its creation makes a service. */
  lemma NewService1(s: State, t: nat, c: Choice, h: nat)
    requires h !in s.services && h in Step(s, t, c).services
    ensures PcOf(s, t).Idle? && c == Create(h)
  {
    hide MoveOf;
  }

  /** Nothing happens to a service before it is made. */
  lemma {:induction false} NoOutcome(run: seq<(nat, Choice)>, h: nat)
    requires h !in Reach(run).services
    ensures InitOf(run, h) == Pending && !Killed(run, h)
  {
    hide MoveOf;
    if run != [] {
      var k := |run| - 1;
      NoOutcome(run[..k], h);
      ReachInv(run[..k]);
      if LastPc(run) == Init(h) { Known(Reach(run[..k]), run[k].0); }
    }
  }

  lemma {:induction false} Born(run: seq<(nat, Choice)>)
    ensures RunBorn(run)
  {
    if run == [] {
      assert Reach(run) == START;
    } else {
      var k := |run| - 1;
      Born(run[..k]);
      ReachInv(run[..k]);
      hide Inv, RunBornAt, SameNext, Step;
      forall h | h in Reach(run).services ensures RunBornAt(run, h) {
        BornMore(run, h);
      }
      NextMore(run);
    }
  }

  lemma NextMore(run: seq<(nat, Choice)>)
    requires run != [] && Inv(Reach(run[..|run| - 1])) && SameNext(Reach(run[..|run| - 1]))
    ensures SameNext(Reach(run))
  {
    var k := |run| - 1;
    var s, t, c := Reach(run[..k]), run[k].0, run[k].1;
    assert Reach(run) == Step(s, t, c);
    hide Reach;
    NextStep(s, t, c);
  }

  lemma NextStep(s: State, t: nat, c: Choice)
    requires Inv(s) && SameNext(s)
    ensures SameNext(Step(s, t, c))
  {
    OthersStay(s, t, c);
    var pc, s' := PcOf(s, t), Step(s, t, c);
    if pc.Idle? {
      assert KeepsNext(PcOf(s', t));
    } else {
      Known(s, t);
      hide Inv, MoveOf, Relied, KeepsNext;
      MoveGoes(pc, s.services[HandleOf(pc)], s.list, c, 0);
      assert KeepsNext(PcOf(s', t));
    }
  }

  /**
   * A service whose initialisation failed is never marked as initialised and never called, no message
   * reaches it, and when its creator is done with it, it has lost its handle.
   */
  lemma RefusedNeverRuns(run: seq<(nat, Choice)>, h: nat)
    requires h in Reach(run).services && InitOf(run, h).Refused?
    ensures var s := Reach(run);
            && !s.services[h].init && s.services[h].delivered == []
            && (forall t :: !(PcOf(s, t).Callback? && PcOf(s, t).q == h))
            && (PcOf(s, CreatorOf(run, h)).Idle? ==> !s.services[h].registered)
  {
    Born(run);
    ReachInv(run);
    assert RunBornAt(run, h);
    forall t ensures !(PcOf(Reach(run), t).Callback? && PcOf(Reach(run), t).q == h) {
      CalledIsLaunched(Reach(run), t, h);
    }
  }

  /** One whose initialisation succeeded is initialised, or gone, when its creator is done with it. */
  lemma SucceededIsLaunched(run: seq<(nat, Choice)>, h: nat)
    requires h in Reach(run).services && InitOf(run, h).Succeeded?
    ensures var s := Reach(run);
            PcOf(s, CreatorOf(run, h)).Idle? ==> s.services[h].init || s.services[h].box.release
  {
    Born(run);
    assert RunBornAt(run, h);
  }

  /** Only such a service is called. */
  lemma CalledSucceeded(run: seq<(nat, Choice)>, t: nat)
    requires PcOf(Reach(run), t).Callback?
    ensures InitOf(run, PcOf(Reach(run), t).q).Succeeded?
  {
    Born(run);
    ReachInv(run);
    var h := PcOf(Reach(run), t).q;
    CalledIsLaunched(Reach(run), t, h);
    assert RunBornAt(run, h);
  }

  /** Unless its initialisation failed, a service has its handle if and only if it was not killed. */
  lemma KeepsHandle(run: seq<(nat, Choice)>, h: nat)
    requires h in Reach(run).services && !InitOf(run, h).Refused?
    ensures Reach(run).services[h].registered <==> !Killed(run, h)
  {
    Born(run);
    assert RunBornAt(run, h);
  }

  // ---- Messages ----

  /** The messages that the callback of a service was called with, in order. */
  function Called(run: seq<(nat, Choice)>, h: nat): seq<Message> {
    if run == [] then []
    else
      var pc := LastPc(run);
      Called(run[..|run| - 1], h) + if pc.Callback? && pc.q == h then [pc.m] else []
  }

  /** The messages that were pushed into a mailbox, by thread 't' or, with none given, by all of them. */
  function Pushed(run: seq<(nat, Choice)>, h: nat): seq<Message> {
    if run == [] then []
    else
      var pc := LastPc(run);
      Pushed(run[..|run| - 1], h) + if pc.Push? && pc.h == h then [pc.m] else []
  }

  function PushedBy(run: seq<(nat, Choice)>, t: nat, h: nat): seq<Message> {
    if run == [] then []
    else
      var pc := LastPc(run);
      PushedBy(run[..|run| - 1], t, h) +
      if pc.Push? && pc.h == h && run[|run| - 1].0 == t then [pc.m] else []
  }

  /** The messages that thread 't' sent to a service that had its handle. */
  function SentBy(run: seq<(nat, Choice)>, t: nat, h: nat): seq<Message> {
    if run == [] then []
    else
      var k := |run| - 1;
      var c := run[k].1;
      SentBy(run[..k], t, h) +
      if run[k].0 == t && LastPc(run).Idle? && c.Send? && c.h == h && Registered(Reach(run[..k]), h) then [c.m] else []
  }

  /** The message a thread has taken and not yet called the service with. */
  function TakenFor(pc: Pc, h: nat): seq<Message> {
    if (pc.Count? || pc.Callback?) && pc.q == h then [pc.m] else []
  }

  /** The message a thread is about to push. */
  function Carried(pc: Pc, h: nat): seq<Message> { if pc.Push? && pc.h == h then [pc.m] else [] }

  /** One step's part in these histories. */
  lemma MoveTakes(pc: Pc, sv: Service, list: seq<nat>, c: Choice, h: nat)
    requires !pc.Idle?
    ensures var m := MoveOf(pc, sv, list, c);
            && (HandleOf(pc) == h ==>
                  && m.sv.delivered == sv.delivered + TakenFor(m.pc, h)[..if pc.Take? then |TakenFor(m.pc, h)| else 0]
                  && m.sv.pushed == sv.pushed + Carried(pc, h))
            && (TakenFor(pc, h) != [] ==> TakenFor(m.pc, h) == if pc.Count? then TakenFor(pc, h) else [])
            && (TakenFor(pc, h) == [] && TakenFor(m.pc, h) != [] ==> HandleOf(pc) == h && pc.Take?)
            && (HandleOf(pc) != h ==> TakenFor(m.pc, h) == [] && Carried(pc, h) == [])
            && Carried(m.pc, h) == []
  {
    hide PopBox, PushBox, MarkBox, BatchSize;
  }

  /** What a mailbox gave out is what the service was called with, and a message on its way to the callback. */
  ghost predicate CallsFit(s: State, h: nat, called: seq<Message>)
    requires h in s.services
  {
    var delivered := s.services[h].delivered;
    && (forall x | TakenFor(PcOf(s, x), h) != [] :: delivered == called + TakenFor(PcOf(s, x), h))
    && ((forall x :: TakenFor(PcOf(s, x), h) == []) ==> delivered == called)
  }

  lemma TakenInHand(s: State, x: nat, h: nat)
    requires TakenFor(PcOf(s, x), h) != []
    ensures h in Tokens(PcOf(s, x))
  {
  }

  lemma OnlyTaker(s: State, x: nat, t: nat, h: nat)
    requires Inv(s) && TakenFor(PcOf(s, x), h) != [] && h in Tokens(PcOf(s, t))
    ensures x == t
  {
    hide RefInv, LaunchInv, MessageInv, TokenInv;
    TakenInHand(s, x, h);
    OneHand(s, x, t, h);
  }

  lemma CallStep(s: State, t: nat, c: Choice, h: nat, called: seq<Message>)
    requires Inv(s) && !PcOf(s, t).Idle? && h in s.services && CallsFit(s, h, called)
    ensures h in Step(s, t, c).services
    ensures var pc := PcOf(s, t);
            CallsFit(Step(s, t, c), h, called + if pc.Callback? && pc.q == h then [pc.m] else [])
  {
    Known(s, t);
    OthersStay(s, t, c);
    hide Inv, Relied;
    var pc, s' := PcOf(s, t), Step(s, t, c);
    var v := HandleOf(pc);
    var m := MoveOf(pc, s.services[v], s.list, c);
    assert s' == With(s, t, v, m.sv, m.list, m.pc) && PcOf(s', t) == m.pc;
    MoveTakes(pc, s.services[v], s.list, c, h);
    hide MoveOf, Step;
    if h in Tokens(pc) {
      forall x | x != t ensures TakenFor(PcOf(s, x), h) == [] {
        if TakenFor(PcOf(s, x), h) != [] { OnlyTaker(s, x, t, h); }
      }
    }
    CallCases(s, s', t, h, called);
  }

  lemma CallCases(s: State, s': State, t: nat, h: nat, called: seq<Message>)
    requires h in s.services && h in s'.services && CallsFit(s, h, called)
    requires forall x | x != t :: PcOf(s', x) == PcOf(s, x)
    requires var pc, pc2 := PcOf(s, t), PcOf(s', t);
             && s'.services[h].delivered == s.services[h].delivered +
                (if pc.Take? && pc.q == h then TakenFor(pc2, h) else [])
             && (TakenFor(pc, h) != [] ==> TakenFor(pc2, h) == if pc.Count? then TakenFor(pc, h) else [])
             && (TakenFor(pc, h) == [] && TakenFor(pc2, h) != [] ==> pc.Take? && pc.q == h)
             && (TakenFor(pc, h) != [] || (pc.Take? && pc.q == h) ==>
                   forall x | x != t :: TakenFor(PcOf(s, x), h) == [])
    ensures var pc := PcOf(s, t);
            CallsFit(s', h, called + if pc.Callback? && pc.q == h then [pc.m] else [])
  {
    hide PcOf;
    var pc, pc2 := PcOf(s, t), PcOf(s', t);
    if pc.Callback? && pc.q == h {
      assert TakenFor(pc, h) == [pc.m];
    } else {
      assert called + [] == called;
    }
  }

  lemma CallIdle(s: State, t: nat, c: Choice, h: nat, called: seq<Message>)
    requires PcOf(s, t).Idle? && h in s.services && CallsFit(s, h, called)
    ensures h in Step(s, t, c).services && CallsFit(Step(s, t, c), h, called)
    ensures Step(s, t, c).services[h].pushed == s.services[h].pushed
  {
    OthersStay(s, t, c);
    var s' := Step(s, t, c);
    assert TakenFor(PcOf(s', t), h) == [] == TakenFor(PcOf(s, t), h);
    CallCases(s, s', t, h, called);
    assert called + [] == called;
  }

  ghost predicate Counts(run: seq<(nat, Choice)>, h: nat) {
    if h in Reach(run).services then
      CallsFit(Reach(run), h, Called(run, h)) && Pushed(run, h) == Reach(run).services[h].pushed
    else Called(run, h) == [] && Pushed(run, h) == []
  }

  lemma {:induction false} Counted(run: seq<(nat, Choice)>, h: nat)
    ensures Counts(run, h)
  {
    hide CallsFit;
    if run == [] {
      assert Reach(run) == START;
    } else {
      Counted(run[..|run| - 1], h);
      CountedMore(run, h);
    }
  }

  lemma CountedMore(run: seq<(nat, Choice)>, h: nat)
    requires run != [] && Counts(run[..|run| - 1], h)
    ensures Counts(run, h)
  {
    hide CallsFit, Inv, MoveOf, StepIdle;
    var k := |run| - 1;
    var was, t, c := run[..k], run[k].0, run[k].1;
    var s := Reach(was);
    var pc := PcOf(s, t);
    assert Reach(run) == Step(s, t, c);
    ReachInv(was);
    if h in s.services {
      hide Reach, Step;
      if pc.Idle? {
        CallIdle(s, t, c, h, Called(was, h));
        assert Called(was, h) + [] == Called(was, h) && Pushed(was, h) + [] == Pushed(was, h);
      } else {
        CallStep(s, t, c, h, Called(was, h));
        PushStep(s, t, c, h);
        assert Called(run, h) == Called(was, h) + if pc.Callback? && pc.q == h then [pc.m] else [];
      }
    } else {
      if !pc.Idle? { Known(s, t); }
      if h in Reach(run).services {
        NewService1(s, t, c, h);
        CreatedEmpty(s, t, h);
      }
    }
  }

  lemma PushStep(s: State, t: nat, c: Choice, h: nat)
    requires Inv(s) && !PcOf(s, t).Idle? && h in s.services
    ensures h in Step(s, t, c).services
    ensures Step(s, t, c).services[h].pushed == s.services[h].pushed + Carried(PcOf(s, t), h)
  {
    Known(s, t);
    hide Inv, Relied;
    var pc := PcOf(s, t);
    MoveTakes(pc, s.services[HandleOf(pc)], s.list, c, h);
    hide MoveOf;
  }

  lemma CreatedEmpty(s: State, t: nat, h: nat)
    requires Inv(s) && PcOf(s, t).Idle? && h !in s.services
    ensures var s' := Step(s, t, Create(h));
            h in s'.services && CallsFit(s', h, []) && s'.services[h].pushed == []
  {
    OthersStay(s, t, Create(h));
    var s' := Step(s, t, Create(h));
    forall x ensures TakenFor(PcOf(s', x), h) == [] {
      if x != t && TakenFor(PcOf(s, x), h) != [] { Known(s, x); }
    }
  }

  /**
   * What was pushed into a mailbox is, in order: what the service was called with, a message that a
   * thread has taken for it, what was dropped, and what waits.
   */
  lemma PushedIsCalled(run: seq<(nat, Choice)>, h: nat)
    requires h in Reach(run).services
    ensures var s := Reach(run);
            var sv := s.services[h];
            && ((forall t :: TakenFor(PcOf(s, t), h) == []) ==>
                  Pushed(run, h) == Called(run, h) + sv.dropped + sv.box.msgs)
            && (forall t | TakenFor(PcOf(s, t), h) != [] ::
                  Pushed(run, h) == Called(run, h) + TakenFor(PcOf(s, t), h) + sv.dropped + sv.box.msgs)
  {
    Counted(run, h);
    MessagesConserved(run, h);
  }

  /** What a thread sent to a service it has pushed, in order, but for a message it carries. */
  lemma {:induction false} SentIsPushed(run: seq<(nat, Choice)>, t: nat, h: nat)
    ensures SentBy(run, t, h) == PushedBy(run, t, h) + Carried(PcOf(Reach(run), t), h)
  {
    if run != [] {
      SentIsPushed(run[..|run| - 1], t, h);
      SentMore(run, t, h);
    } else {
      assert Reach(run) == START;
    }
  }

  lemma SentMore(run: seq<(nat, Choice)>, t: nat, h: nat)
    requires run != []
    requires var was := run[..|run| - 1];
             SentBy(was, t, h) == PushedBy(was, t, h) + Carried(PcOf(Reach(was), t), h)
    ensures SentBy(run, t, h) == PushedBy(run, t, h) + Carried(PcOf(Reach(run), t), h)
  {
    var k := |run| - 1;
    var was, x, c := run[..k], run[k].0, run[k].1;
    var s := Reach(was);
    assert Reach(run) == Step(s, x, c);
    ReachInv(was);
    hide Inv, Reach, Step;
    OthersStay(s, x, c);
    if x == t {
      hide Carried;
      if PcOf(s, t).Idle? { IdleCarries(s, t, c, h); } else { MoveCarries(s, t, c, h); }
    }
  }

  lemma IdleCarries(s: State, t: nat, c: Choice, h: nat)
    requires PcOf(s, t).Idle?
    ensures Carried(Idle, h) == []
    ensures Carried(PcOf(Step(s, t, c), t), h) == if c.Send? && c.h == h && Registered(s, h) then [c.m] else []
  {
  }

  lemma MoveCarries(s: State, t: nat, c: Choice, h: nat)
    requires Inv(s) && !PcOf(s, t).Idle?
    ensures var pc := PcOf(s, t);
            && Carried(pc, h) == (if pc.Push? && pc.h == h then [pc.m] else [])
            && Carried(PcOf(Step(s, t, c), t), h) == []
  {
    Known(s, t);
    hide Inv, Relied;
    var pc := PcOf(s, t);
    MoveTakes(pc, s.services[HandleOf(pc)], s.list, c, h);
    hide MoveOf;
  }

  // ---- The global queue ----

  /** The mailboxes that were queued, and those that were taken from the queue, in order. */
  function Queued(run: seq<(nat, Choice)>): seq<nat> {
    if run == [] then []
    else Queued(run[..|run| - 1]) + Added(Reach(run[..|run| - 1]).list, Reach(run).list)
  }

  function Taken(run: seq<(nat, Choice)>): seq<nat> {
    if run == [] then []
    else Taken(run[..|run| - 1]) + Added(Reach(run).list, Reach(run[..|run| - 1]).list)
  }

  /** What is in the second list and not in the first. */
  function Added(a: seq<nat>, b: seq<nat>): seq<nat> {
    if b == [] then [] else Added(a, b[..|b| - 1]) + if b[|b| - 1] in a then [] else [b[|b| - 1]]
  }

  lemma {:induction false} NoneAdded(a: seq<nat>, b: seq<nat>)
    requires forall x | x in b :: x in a
    ensures Added(a, b) == []
  {
    if b != [] { NoneAdded(a, b[..|b| - 1]); }
  }

  lemma AddedLast(a: seq<nat>, x: nat)
    requires x !in a
    ensures Added(a, a + [x]) == [x] && Added(a + [x], a) == []
  {
    NoneAdded(a, a);
    assert (a + [x])[..|a|] == a;
    NoneAdded(a + [x], a);
  }

  lemma {:induction false} AddedFirst(a: seq<nat>, b: seq<nat>)
    requires a != [] && a[0] !in a[1..] && b <= a
    ensures Added(a[1..], b) == (if b == [] then [] else [a[0]]) && Added(a, a[1..]) == []
    decreases |b|
  {
    NoneAdded(a, a[1..]);
    if |b| > 1 {
      var n := |b| - 1;
      AddedFirst(a, b[..n]);
      assert b[n] == a[n] == a[1..][n - 1];
    } else if |b| == 1 {
      assert b[..0] == [];
    }
  }

  /** What a step does to the queue: nothing, one mailbox at its end, or one from its front. */
  predicate ListMove(a: seq<nat>, b: seq<nat>) {
    || b == a
    || (|b| == |a| + 1 && b == a + [b[|a|]] && b[|a|] !in a)
    || (a != [] && b == a[1..] && a[0] !in b)
  }

  lemma ListLocal(pc: Pc, sv: Service, list: seq<nat>, c: Choice)
    requires !pc.Idle? && Relied(pc, sv, list) && (HandleOf(pc) in list ==> Flagged(sv))
    requires list != [] ==> list[0] !in list[1..]
    ensures ListMove(list, MoveOf(pc, sv, list, c).list)
  {
    hide PopBox, PushBox, MarkBox, BatchSize, MessagesKept, Fine;
  }

  lemma ListMoves(s: State, t: nat, c: Choice)
    requires Inv(s)
    ensures ListMove(s.list, Step(s, t, c).list)
  {
    var pc := PcOf(s, t);
    assert s.list != [] ==> s.list[0] !in s.list[1..];
    if !pc.Idle? {
      Known(s, t);
      QueuedIsFlagged(s);
      hide Inv, MoveOf, Relied, Flagged, ListMove;
      ListLocal(pc, s.services[HandleOf(pc)], s.list, c);
    }
  }

  lemma FairStep(queued: seq<nat>, taken: seq<nat>, a: seq<nat>, b: seq<nat>)
    requires queued == taken + a && ListMove(a, b)
    ensures queued + Added(a, b) == taken + Added(b, a) + b
  {
    hide Added;
    if b == a {
      NoneAdded(a, a);
    } else if |b| == |a| + 1 {
      AddedLast(a, b[|a|]);
    } else {
      AddedFirst(a, a);
      NoneAdded(a, b);
      assert a == [a[0]] + b;
    }
  }

  /** Mailboxes leave the global queue in the order they came. */
  lemma {:induction false} QueueIsFair(run: seq<(nat, Choice)>)
    ensures Queued(run) == Taken(run) + Reach(run).list
  {
    if run != [] {
      var k := |run| - 1;
      QueueIsFair(run[..k]);
      ReachInv(run[..k]);
      ListMoves(Reach(run[..k]), run[k].0, run[k].1);
      hide ListMove, Added, Inv, Step;
      FairStep(Queued(run[..k]), Taken(run[..k]), Reach(run[..k]).list, Reach(run).list);
    } else {
      assert Reach(run) == START;
    }
  }
}
