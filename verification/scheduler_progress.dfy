// The scheduler gets on: how many messages a turn takes, that no message waits in vain, and that a service
// without a handle comes to its end.

module SchedulerProgress {
  import opened Mailbox
  import opened Division
  import opened Scheduler
  import opened SchedulerRuns

  // ---- How long a turn is ----

  /** How often a thread has called its service since it took the mailbox, and how often it is to. */
  datatype Turn = Turn(calls: nat, batch: int)

  function Pow2(w: nat): (p: nat)
    ensures p > 0
  {
    if w == 0 then 1 else 2 * Pow2(w - 1)
  }

  /** Read from the steps of a run; the batch depends on the weight and on the messages behind the first. */
  function TurnOf(run: seq<(nat, Choice)>, t: nat): Turn {
    if run == [] then Turn(0, 1)
    else
      var k := |run| - 1;
      var turn := TurnOf(run[..k], t);
      if run[k].0 != t then turn else NextTurn(turn, LastPc(run), Reach(run[..k]), run[k].1)
  }

  function NextTurn(turn: Turn, pc: Pc, s: State, c: Choice): Turn {
    if pc.Has? then Turn(0, 1)
    else if pc.Callback? then turn.(calls := turn.calls + 1)
    else if pc.Count? && c.Weight? && pc.q in s.services then
      turn.(batch := if c.w < 0 then 1 else |s.services[pc.q].box.msgs| / Pow2(c.w))
    else turn
  }

  predicate TurnFits(pc: Pc, turn: Turn) {
    match pc
    case Take(_, i, n) => turn.calls == i && if i == 0 then n == 1 else n == turn.batch && i < n
    case Count(_, _, n) => turn.calls == 0 && n == 1
    case Callback(_, _, i, n) => turn.calls == i && n == turn.batch && (i == 0 || i < n)
    case Done(_) => turn.calls == if turn.batch > 1 then turn.batch else 1
    case _ => true
  }

  lemma {:induction false} ShiftDivides(n: nat, w: nat)
    ensures ShiftRight(n, w) == n / Pow2(w)
    decreases w
  {
    if w > 0 {
      ShiftDivides(n / 2, w - 1);
      HalfDivides(n, Pow2(w - 1));
    } else {
      DivUnique(n, 1, n, 0);
    }
  }

  lemma HalfDivides(n: nat, p: nat)
    requires p > 0
    ensures n / 2 / p == n / (2 * p)
  {
    var half := n / 2;
    var q, r := half / p, half % p;
    assert half == p * q + r;
    Twice(p, q);
    DivUnique(n, 2 * p, q, 2 * r + n % 2);
  }

  lemma Twice(p: nat, q: nat)
    ensures 2 * p * q == 2 * (p * q)
  {
  }

  lemma MoveTurn(pc: Pc, sv: Service, s: State, c: Choice, turn: Turn)
    requires !pc.Idle? && HandleOf(pc) in s.services && sv == s.services[HandleOf(pc)] && TurnFits(pc, turn)
    ensures TurnFits(MoveOf(pc, sv, s.list, c).pc, NextTurn(turn, pc, s, c))
  {
    hide PopBox, PushBox, MarkBox;
    if pc.Count? && c.Weight? && c.w >= 0 { ShiftDivides(|sv.box.msgs|, c.w); }
  }

  lemma {:induction false} TurnsFit(run: seq<(nat, Choice)>, t: nat)
    ensures TurnFits(PcOf(Reach(run), t), TurnOf(run, t))
  {
    if run == [] {
      assert Reach(run) == START;
    } else {
      TurnsFit(run[..|run| - 1], t);
      TurnMore(run, t);
    }
  }

  lemma TurnMore(run: seq<(nat, Choice)>, t: nat)
    requires run != []
    requires TurnFits(PcOf(Reach(run[..|run| - 1]), t), TurnOf(run[..|run| - 1], t))
    ensures TurnFits(PcOf(Reach(run), t), TurnOf(run, t))
  {
    var k := |run| - 1;
    var was, x, c := run[..k], run[k].0, run[k].1;
    var s := Reach(was);
    assert Reach(run) == Step(s, x, c);
    ReachInv(was);
    hide Inv, Reach, MoveOf, TurnFits, NextTurn;
    OthersStay(s, x, c);
    if x == t {
      var pc := PcOf(s, t);
      if pc.Idle? {
        IdleTurn(s, t, c, TurnOf(was, t));
      } else {
        Known(s, t);
        MoveTurn(pc, s.services[HandleOf(pc)], s, c, TurnOf(was, t));
      }
    }
  }

  lemma IdleTurn(s: State, t: nat, c: Choice, turn: Turn)
    requires PcOf(s, t).Idle?
    ensures TurnFits(PcOf(Step(s, t, c), t), NextTurn(turn, Idle, s, c))
  {
  }

  /**
   * A thread that passes a mailbox on after its turn has called the service once, or with weight 'w'
   * as often as there were messages behind the first, divided by 2 to the 'w'.
   */
  lemma TurnTakes(run: seq<(nat, Choice)>, t: nat)
    requires PcOf(Reach(run), t).Done?
    ensures TurnOf(run, t).calls == if TurnOf(run, t).batch > 1 then TurnOf(run, t).batch else 1
  {
    TurnsFit(run, t);
  }

  // ---- Messages do not wait in vain ----

  /** The state after more steps. */
  function After(s: State, more: seq<(nat, Choice)>): State
    decreases |more|
  {
    if more == [] then s else After(Step(s, more[0].0, more[0].1), more[1..])
  }

  lemma {:induction false} AfterAdds(s: State, a: seq<(nat, Choice)>, b: seq<(nat, Choice)>)
    ensures After(s, a + b) == After(After(s, a), b)
    decreases |a|
  {
    hide Step;
    if a == [] {
      assert a + b == b;
    } else {
      assert (a + b)[1..] == a[1..] + b;
      AfterAdds(Step(s, a[0].0, a[0].1), a[1..], b);
    }
  }

  lemma {:induction false} AfterRun(run: seq<(nat, Choice)>, more: seq<(nat, Choice)>)
    ensures Reach(run + more) == After(Reach(run), more)
    decreases |more|
  {
    hide Step;
    if more == [] {
      assert run + more == run;
    } else {
      assert (run + [more[0]]) + more[1..] == run + more;
      assert (run + [more[0]])[..|run|] == run;
      AfterRun(run + [more[0]], more[1..]);
    }
  }

  lemma OneStep(s: State, t: nat, c: Choice)
    ensures After(s, [(t, c)]) == Step(s, t, c)
  {
    hide Step;
    assert [(t, c)][1..] == [];
  }

  /** The service has its handle, keeps it for now, and its oldest message is 'm'. */
  ghost predicate Awaits(s: State, h: nat, m: Message) {
    && Inv(s) && SameNext(s) && Registered(s, h) && s.services[h].box.msgs != [] && s.services[h].box.msgs[0] == m
    && forall x :: !Failing(PcOf(s, x), h)
  }

  /** Some thread calls the service with the message. */
  predicate CallsWith(s: State, t: nat, h: nat, m: Message) {
    var pc := PcOf(s, t);
    pc.Callback? && pc.q == h && pc.m == m
  }

  /** A step of a thread that does not take the message leaves it waiting. */
  lemma StillAwaits(s: State, t: nat, c: Choice, h: nat, m: Message)
    requires Awaits(s, h, m) && !c.Kill? && !c.Fail?
    requires !(PcOf(s, t).Take? && PcOf(s, t).q == h)
    ensures Awaits(Step(s, t, c), h, m)
  {
    hide Inv, MoveOf, SameNext, StepIdle, Step;
    StepKeeps(s, t, c);
    NextStep(s, t, c);
    OthersStay(s, t, c);
    if PcOf(s, t).Idle? { IdleAwaits(s, t, c, h, m); } else { MoveAwaits(s, t, c, h, m); }
  }

  lemma IdleAwaits(s: State, t: nat, c: Choice, h: nat, m: Message)
    requires Awaits(s, h, m) && PcOf(s, t).Idle? && !c.Kill?
    ensures var s' := Step(s, t, c);
            && Registered(s', h) && s'.services[h].box == s.services[h].box && !Failing(PcOf(s', t), h)
  {
    hide Inv, SameNext;
  }

  lemma MoveAwaits(s: State, t: nat, c: Choice, h: nat, m: Message)
    requires Awaits(s, h, m) && !PcOf(s, t).Idle? && !c.Fail? && !(PcOf(s, t).Take? && PcOf(s, t).q == h)
    ensures var s' := Step(s, t, c);
            && Registered(s', h) && s'.services[h].box.msgs != [] && s'.services[h].box.msgs[0] == m
            && !Failing(PcOf(s', t), h)
  {
    Known(s, t);
    hide Inv, MoveOf, Relied;
    var pc := PcOf(s, t);
    var sv := s.services[HandleOf(pc)];
    assert KeepsNext(pc);
    hide SameNext;
    MoveGoes(pc, sv, s.list, c, h);
    if HandleOf(pc) == h {
      MoveLeaves(pc, sv, s.list, c);
      MoveKeepsFirst(pc, sv, s.list, c, m);
    }
  }

  lemma MoveKeepsFirst(pc: Pc, sv: Service, list: seq<nat>, c: Choice, m: Message)
    requires !pc.Idle? && !pc.Take? && Relied(pc, sv, list) && sv.registered && sv.box.msgs != [] && sv.box.msgs[0] == m
    ensures var sv2 := MoveOf(pc, sv, list, c).sv; sv2.box.msgs != [] && sv2.box.msgs[0] == m
  {
    hide BatchSize;
  }

  /** A thread that is about to take the message takes it and calls the service with it. */
  lemma TakeCalls(s: State, t: nat, h: nat, m: Message) returns (more: seq<(nat, Choice)>)
    requires Awaits(s, h, m) && PcOf(s, t).Take? && PcOf(s, t).q == h
    ensures CallsWith(After(s, more), t, h, m)
  {
    var i, n := PcOf(s, t).i, PcOf(s, t).n;
    var s1 := Step(s, t, Succeed);
    assert PcOf(s1, t) == if i == 0 then Count(h, m, n) else Callback(h, m, i, n);
    OneStep(s, t, Succeed);
    more := [(t, Succeed)];
    if i == 0 {
      assert h in s1.services;
      CountCalls(s1, t, h, m);
      OneStep(s1, t, Weight(-1));
      AfterAdds(s, more, [(t, Weight(-1))]);
      more := more + [(t, Weight(-1))];
    }
  }

  lemma CountCalls(s: State, t: nat, h: nat, m: Message)
    requires h in s.services && PcOf(s, t).Count? && PcOf(s, t).q == h && PcOf(s, t).m == m
    ensures CallsWith(Step(s, t, Weight(-1)), t, h, m)
  {
  }

  /** How far a thread that has the mailbox is from taking a message or from queueing it. */
  function Rank(pc: Pc): nat {
    match pc
    case Has(_) => 1
    case Swap(_, _) => 4
    case Done(_) => 5
    case Callback(_, _, _, _) => 6
    case Count(_, _, _) => 7
    case Enqueue(_) => 1
    case Drop(_) => 1
    case Delete(_, _) => 2
    case SetInit(_) => 2
    case Unref(_, _) => 3
    case Init(_) => 4
    case _ => 0
  }

  /** What a thread chooses to get on. */
  function Onward(pc: Pc): Choice { if pc.Count? then Weight(-1) else Succeed }

  lemma HandMoves(pc: Pc, sv: Service, list: seq<nat>, h: nat)
    requires !pc.Idle? && h in Tokens(pc) && !pc.Take? && !pc.Dropping? && !Failing(pc, h) && KeepsNext(pc)
    requires pc == Has(h) ==> sv.registered
    requires pc == Drop(h) ==> !sv.box.release
    ensures var m := MoveOf(pc, sv, list, Onward(pc));
            h in m.list || (h in Tokens(m.pc) && Rank(m.pc) < Rank(pc))
  {
    hide PopBox, PushBox, MarkBox, BatchSize;
  }

  /** A registered service is not released. */
  lemma RegisteredLives(s: State, h: nat)
    requires Inv(s) && Registered(s, h)
    ensures !s.services[h].box.release
    ensures forall x :: PcOf(s, x) != Dropping(h)
  {
    Existing(s, h);
    forall x ensures PcOf(s, x) != Dropping(h) {
      if PcOf(s, x) == Dropping(h) { Known(s, x); }
    }
  }

  lemma {:induction false} HandCalls(s: State, t: nat, h: nat, m: Message) returns (more: seq<(nat, Choice)>, x: nat)
    requires Awaits(s, h, m) && h in Tokens(PcOf(s, t))
    ensures CallsWith(After(s, more), x, h, m)
    decreases Rank(PcOf(s, t))
  {
    hide Inv, MoveOf, StepIdle, Tokens, Rank, KeepsNext;
    var pc := PcOf(s, t);
    assert KeepsNext(pc);
    hide SameNext;
    x := t;
    if pc.Take? {
      TakeHolds(pc, h);
      more := TakeCalls(s, t, h, m);
    } else {
      var c := Onward(pc);
      var s1 := Step(s, t, c);
      RegisteredLives(s, h);
      IdleHolds(h);
      Known(s, t);
      if pc.Dropping? || pc.Has? || pc.Drop? { DropHolds(pc, h); }
      HandMoves(pc, s.services[HandleOf(pc)], s.list, h);
      StillAwaits(s, t, c, h, m);
      OneStep(s, t, c);
      var rest;
      if h in s1.list {
        var k :| 0 <= k < |s1.list| && s1.list[k] == h;
        rest, x := ListCalls(s1, k, h, m);
      } else {
        rest, x := HandCalls(s1, t, h, m);
      }
      AfterAdds(s, [(t, c)], rest);
      more := [(t, c)] + rest;
    }
  }

  lemma TakeHolds(pc: Pc, h: nat)
    requires pc.Take? && h in Tokens(pc)
    ensures pc.q == h
  {
  }

  lemma IdleHolds(h: nat)
    ensures h !in Tokens(Idle)
  {
  }

  lemma DropHolds(pc: Pc, h: nat)
    requires (pc.Dropping? || pc.Has? || pc.Drop?) && h in Tokens(pc)
    ensures pc.q == h
  {
  }

  lemma HasCalls(s: State, t: nat, h: nat, m: Message) returns (more: seq<(nat, Choice)>)
    requires Awaits(s, h, m) && PcOf(s, t) == Has(h)
    ensures CallsWith(After(s, more), t, h, m)
  {
    hide Inv, SameNext;
    var s1 := Step(s, t, Succeed);
    assert PcOf(s1, t) == Take(h, 0, 1);
    StillAwaits(s, t, Succeed, h, m);
    OneStep(s, t, Succeed);
    more := TakeCalls(s1, t, h, m);
    AfterAdds(s, [(t, Succeed)], more);
    more := [(t, Succeed)] + more;
  }

  /** A queued mailbox comes to the front and is taken. */
  lemma {:induction false} ListCalls(s: State, k: nat, h: nat, m: Message) returns (more: seq<(nat, Choice)>, x: nat)
    requires Awaits(s, h, m) && k < |s.list| && s.list[k] == h
    ensures CallsWith(After(s, more), x, h, m)
    decreases k
  {
    hide Inv, MoveOf, SameNext, Tokens;
    var u := NewThread(s.threads.Keys);
    var s1 := Step(s, u, GlobalPop);
    assert s1.list == s.list[1..] && PcOf(s1, u) == Has(s.list[0]);
    StillAwaits(s, u, GlobalPop, h, m);
    OneStep(s, u, GlobalPop);
    var rest;
    if k == 0 {
      rest := HasCalls(s1, u, h, m);
      x := u;
    } else {
      rest, x := ListCalls(s1, k - 1, h, m);
    }
    AfterAdds(s, [(u, GlobalPop)], rest);
    more := [(u, GlobalPop)] + rest;
  }

  lemma {:induction false} NewThread(used: set<nat>) returns (u: nat)
    ensures forall x | x in used :: x < u
  {
    if used == {} {
      u := 0;
    } else {
      var x :| x in used;
      u := NewThread(used - {x});
      assert used == used - {x} + {x};
      if x >= u { u := x + 1; }
    }
  }

  /**
   * Nobody is left waiting: whatever run led here, a message that waits for a registered service whose
   * initialisation did not fail can be brought to its callback, and it is the oldest one that is.
   */
  lemma CanBeCalled(run: seq<(nat, Choice)>, h: nat) returns (more: seq<(nat, Choice)>, t: nat)
    requires Registered(Reach(run), h) && !InitOf(run, h).Refused? && Reach(run).services[h].box.msgs != []
    ensures CallsWith(Reach(run + more), t, h, Reach(run).services[h].box.msgs[0])
  {
    var s := Reach(run);
    var m := s.services[h].box.msgs[0];
    ReachInv(run);
    Born(run);
    assert RunBornAt(run, h);
    OneHolder(run, h);
    assert Awaits(s, h, m);
    hide Awaits, Inv, Reach, Tokens, RunBorn, RunBornAt, InitOf;
    if h in s.list {
      var k :| 0 <= k < |s.list| && s.list[k] == h;
      more, t := ListCalls(s, k, h, m);
    } else {
      var x :| h in Tokens(PcOf(s, x));
      more, t := HandCalls(s, x, h, m);
    }
    AfterRun(run, more);
  }

  // ---- A service without a handle comes to its end ----

  ghost predicate Unlisted(s: State, h: nat) {
    Inv(s) && SameNext(s) && h in s.services && !s.services[h].registered
  }

  lemma StaysUnlisted(s: State, t: nat, c: Choice, h: nat)
    requires Unlisted(s, h)
    ensures var s' := Step(s, t, c); Unlisted(s', h) && (s.services[h].box.release ==> s'.services[h].box.release)
  {
    StepKeeps(s, t, c);
    NextStep(s, t, c);
    hide Inv, SameNext, MoveOf;
    if !PcOf(s, t).Idle? {
      Known(s, t);
      hide Relied;
      MoveUnlists(PcOf(s, t), s.services[HandleOf(PcOf(s, t))], s.list, c);
    }
  }

  lemma MoveUnlists(pc: Pc, sv: Service, list: seq<nat>, c: Choice)
    requires !pc.Idle?
    ensures var sv2 := MoveOf(pc, sv, list, c).sv;
            (!sv.registered ==> !sv2.registered) && (sv.box.release ==> sv2.box.release)
  {
    hide BatchSize;
  }

  /** How far a thread is from giving up its reference. */
  function HoldRank(pc: Pc): nat {
    match pc
    case Unref(_, _) => 1
    case Swap(_, _) => 2
    case Init(_) => 2
    case Push(_, _) => 2
    case Done(_) => 3
    case Callback(_, _, i, n) => 4 + if i < n then 3 * (n - i) else 0
    case Count(_, _, n) => 5 + 3 * n
    case Take(_, i, n) => 6 + if i < n then 3 * (n - i) else 0
    case _ => 0
  }

  lemma HolderMoves(pc: Pc, sv: Service, list: seq<nat>, h: nat)
    requires !pc.Idle? && HoldsRef(pc, h)
    ensures var m := MoveOf(pc, sv, list, Onward(pc)); HoldsRef(m.pc, h) ==> HoldRank(m.pc) < HoldRank(pc)
  {
    hide PopBox, PushBox, MarkBox;
  }

  lemma {:induction false} HolderLeaves(s: State, t: nat, h: nat) returns (more: seq<(nat, Choice)>)
    requires Unlisted(s, h)
    ensures var s' := After(s, more);
            Unlisted(s', h) && !HoldsRef(PcOf(s', t), h) && forall x | x != t :: PcOf(s', x) == PcOf(s, x)
    decreases if HoldsRef(PcOf(s, t), h) then 1 + HoldRank(PcOf(s, t)) else 0
  {
    hide Inv, MoveOf, SameNext, StepIdle, HoldsRef, HoldRank;
    more := [];
    NoneIdle(h);
    if HoldsRef(PcOf(s, t), h) {
      var c := Onward(PcOf(s, t));
      var s1 := Step(s, t, c);
      Known(s, t);
      HolderMoves(PcOf(s, t), s.services[HandleOf(PcOf(s, t))], s.list, h);
      OthersStay(s, t, c);
      StaysUnlisted(s, t, c, h);
      OneStep(s, t, c);
      var rest := HolderLeaves(s1, t, h);
      AfterAdds(s, [(t, c)], rest);
      more := [(t, c)] + rest;
    }
  }

  lemma {:induction false} HoldersLeave(s: State, h: nat) returns (more: seq<(nat, Choice)>)
    requires Unlisted(s, h)
    ensures Unlisted(After(s, more), h) && Holders(After(s, more), h) == {}
    decreases |Holders(s, h)|
  {
    hide Inv, HoldsRef, SameNext;
    more := [];
    if t :| t in Holders(s, h) {
      more := HolderLeaves(s, t, h);
      var s1 := After(s, more);
      FewerHolders(s, s1, t, h);
      var rest := HoldersLeave(s1, h);
      AfterAdds(s, more, rest);
      more := more + rest;
    }
  }

  lemma FewerHolders(s: State, s1: State, t: nat, h: nat)
    requires t in Holders(s, h) && !HoldsRef(PcOf(s1, t), h) && forall x | x != t :: PcOf(s1, x) == PcOf(s, x)
    ensures |Holders(s1, h)| < |Holders(s, h)|
  {
    hide HoldsRef;
    NoneIdle(h);
    forall x | x in Holders(s1, h) ensures x in Holders(s, h) - {t} {
      assert HoldsRef(PcOf(s1, x), h);
    }
    Within(Holders(s1, h), Holders(s, h) - {t});
  }

  lemma {:induction false} Within(a: set<nat>, b: set<nat>)
    requires a <= b
    ensures |a| <= |b|
  {
    if x :| x in a { Within(a - {x}, b - {x}); }
  }

  /** The last one that held it marks its mailbox. */
  lemma Marks(s: State, h: nat) returns (more: seq<(nat, Choice)>)
    requires Unlisted(s, h) && Holders(s, h) == {}
    ensures Unlisted(After(s, more), h) && After(s, more).services[h].box.release
  {
    more := [];
    if !s.services[h].box.release {
      var t := Deleter(s, h);
      hide Inv, SameNext;
      StaysUnlisted(s, t, Succeed, h);
      OneStep(s, t, Succeed);
      more := [(t, Succeed)];
    }
  }

  lemma Deleter(s: State, h: nat) returns (t: nat)
    requires Inv(s) && h in s.services && !s.services[h].registered && Holders(s, h) == {}
    requires !s.services[h].box.release
    ensures Deletes(s, t, h)
  {
    assert ServiceInv(s, h);
    t :| Deletes(s, t, h);
  }

  /** Its context is gone; its mailbox is still there. */
  ghost predicate Doomed(s: State, h: nat) { Unlisted(s, h) && s.services[h].box.release }

  predicate Freed(s: State, h: nat) { h in s.services && s.services[h].freed }

  lemma StaysDoomed(s: State, t: nat, c: Choice, h: nat)
    requires Doomed(s, h)
    ensures Doomed(Step(s, t, c), h)
  {
    hide Unlisted;
    StaysUnlisted(s, t, c, h);
  }

  /** The thread that drops its messages drops the last one some time. */
  lemma {:induction false} DropsAll(s: State, t: nat, h: nat) returns (more: seq<(nat, Choice)>)
    requires h in s.services && PcOf(s, t) == Dropping(h)
    ensures Freed(After(s, more), h)
    decreases |s.services[h].box.msgs|
  {
    var s1 := Step(s, t, Succeed);
    OneStep(s, t, Succeed);
    more := [(t, Succeed)];
    if s.services[h].box.msgs != [] {
      var rest := DropsAll(s1, t, h);
      AfterAdds(s, more, rest);
      more := more + rest;
    }
  }

  lemma HasFrees(s: State, t: nat, h: nat) returns (more: seq<(nat, Choice)>)
    requires Doomed(s, h) && PcOf(s, t) == Has(h)
    ensures Freed(After(s, more), h)
  {
    hide Inv, SameNext;
    var s1 := Step(s, t, Succeed);
    OneStep(s, t, Succeed);
    assert PcOf(s1, t) == Drop(h) && s1.services == s.services;
    var s2 := Step(s1, t, Succeed);
    OneStep(s1, t, Succeed);
    assert PcOf(s2, t) == Dropping(h) && s2.services == s.services;
    hide Step;
    more := DropsAll(s2, t, h);
    AfterAdds(s1, [(t, Succeed)], more);
    AfterAdds(s, [(t, Succeed)], [(t, Succeed)] + more);
    more := [(t, Succeed)] + ([(t, Succeed)] + more);
  }

  lemma {:induction false} ListFrees(s: State, k: nat, h: nat) returns (more: seq<(nat, Choice)>)
    requires Doomed(s, h) && k < |s.list| && s.list[k] == h
    ensures Freed(After(s, more), h)
    decreases k
  {
    hide Doomed, MoveOf;
    var u := NewThread(s.threads.Keys);
    var s1 := Step(s, u, GlobalPop);
    assert s1.list == s.list[1..] && PcOf(s1, u) == Has(s.list[0]);
    StaysDoomed(s, u, GlobalPop, h);
    OneStep(s, u, GlobalPop);
    hide Step;
    if k == 0 { more := HasFrees(s1, u, h); } else { more := ListFrees(s1, k - 1, h); }
    AfterAdds(s, [(u, GlobalPop)], more);
    more := [(u, GlobalPop)] + more;
  }

  /** How far a thread that has its mailbox is from dropping it or from queueing it. */
  function FreeRank(pc: Pc): nat {
    match pc
    case Drop(_) => 1
    case Enqueue(_) => 1
    case Has(_) => 2
    case Retire(_) => 2
    case SetInit(_) => 2
    case Delete(_, _) => 3
    case Unref(_, _) => 4
    case Swap(_, _) => 5
    case _ => 0
  }

  lemma HandFreeMoves(pc: Pc, sv: Service, list: seq<nat>, h: nat)
    requires !pc.Idle? && h in Tokens(pc) && !HoldsRef(pc, h) && !pc.Dropping? && KeepsNext(pc)
    requires pc == Has(h) || pc == Retire(h) ==> !sv.registered
    requires pc == Drop(h) ==> sv.box.release
    ensures var m := MoveOf(pc, sv, list, Onward(pc));
            h in m.list || (h in Tokens(m.pc) && FreeRank(m.pc) < FreeRank(pc))
  {
    hide PopBox, PushBox, MarkBox, BatchSize;
  }

  /** Nobody holds what is gone. */
  lemma DoomedFree(s: State, t: nat, h: nat)
    requires Doomed(s, h)
    ensures !HoldsRef(PcOf(s, t), h)
  {
    if HoldsRef(PcOf(s, t), h) { HolderCounts(s, t, h); }
  }

  lemma {:induction false} HandFrees(s: State, t: nat, h: nat) returns (more: seq<(nat, Choice)>)
    requires Doomed(s, h) && h in Tokens(PcOf(s, t))
    ensures Freed(After(s, more), h)
    decreases FreeRank(PcOf(s, t))
  {
    IdleHolds(h);
    DoomedFree(s, t, h);
    var pc := PcOf(s, t);
    assert KeepsNext(pc);
    hide Inv, MoveOf, SameNext, StepIdle, Tokens, FreeRank, KeepsNext, HoldsRef;
    if pc.Dropping? {
      DropHolds(pc, h);
      more := DropsAll(s, t, h);
    } else {
      var c := Onward(pc);
      var s1 := Step(s, t, c);
      Known(s, t);
      if pc.Has? || pc.Drop? { DropHolds(pc, h); }
      HandFreeMoves(pc, s.services[HandleOf(pc)], s.list, h);
      StaysDoomed(s, t, c, h);
      OneStep(s, t, c);
      if h in s1.list {
        var k :| 0 <= k < |s1.list| && s1.list[k] == h;
        more := ListFrees(s1, k, h);
      } else {
        more := HandFrees(s1, t, h);
      }
      AfterAdds(s, [(t, c)], more);
      more := [(t, c)] + more;
    }
  }

  /** A mailbox that is not freed is queued, or in some thread's hand. */
  lemma DoomedPlaced(s: State, h: nat)
    requires Doomed(s, h) && !Freed(s, h)
    ensures h in s.list || exists t :: h in Tokens(PcOf(s, t))
  {
    assert Flag(s, h);
    if h !in s.list {
      var t :| t in s.threads && h in Tokens(s.threads[t]);
      assert h in Tokens(PcOf(s, t));
    }
  }

  lemma DoomedFrees(s: State, h: nat) returns (more: seq<(nat, Choice)>)
    requires Doomed(s, h)
    ensures Freed(After(s, more), h)
  {
    more := [];
    if !Freed(s, h) {
      DoomedPlaced(s, h);
      hide Doomed, Tokens;
      if h in s.list {
        var k :| 0 <= k < |s.list| && s.list[k] == h;
        more := ListFrees(s, k, h);
      } else {
        var t :| h in Tokens(PcOf(s, t));
        more := HandFrees(s, t, h);
      }
    }
  }

  /**
   * Nothing of a service is left behind: whatever run led here, a service that has lost its handle can be
   * brought to its end, when its mailbox is freed and every message was delivered or dropped.
   */
  lemma CanBeFreed(run: seq<(nat, Choice)>, h: nat) returns (more: seq<(nat, Choice)>)
    requires h in Reach(run).services && !Registered(Reach(run), h)
    ensures Freed(Reach(run + more), h)
    ensures var sv := Reach(run + more).services[h]; sv.pushed == sv.delivered + sv.dropped
  {
    var s := Reach(run);
    ReachInv(run);
    Born(run);
    hide Inv, SameNext, Reach, Step, RunBornAt;
    more := HoldersLeave(s, h);
    var s1 := After(s, more);
    var a := Marks(s1, h);
    AfterAdds(s, more, a);
    var b := DoomedFrees(After(s1, a), h);
    AfterAdds(s, more + a, b);
    more := more + a + b;
    AfterRun(run, more);
    MessagesConserved(run + more, h);
  }
}
