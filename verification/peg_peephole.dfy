// The peephole pass: labels go to their final destinations, jumps become what they jump to.

module PegPeephole {
  import opened PegTree
  import opened PegMachine
  import opened PegCodegen
  import opened PegCalls

  /** The instruction with another offset. */
  function WithOff(i: Instr, off: int): (r: Instr)
    requires HasLabel(i)
    ensures SizeI(r) == SizeI(i)
  {
    match i
    case ITestAny(_) => ITestAny(off)
    case ITestChar(c, _) => ITestChar(c, off)
    case ITestSet(cs, _) => ITestSet(cs, off)
    case IChoice(_) => IChoice(off)
    case IJmp(_) => IJmp(off)
    case ICall(_) => ICall(off)
    case ICommit(_) => ICommit(off)
    case IPartialCommit(_) => IPartialCommit(off)
    case IBackCommit(_) => IBackCommit(off)
  }

  predicate InstrAt(code: seq<Slot>, x: int) { 0 <= x < |code| && code[x].I? }

  /** Instructions with unconditional implicit jumps. */
  predicate JumpsAway(i: Instr) { i.IRet? || i.IFail? || i.IFailTwice? || i.IEnd? }

  /** Instructions with unconditional explicit jumps. */
  predicate Commits(i: Instr) { i.ICommit? || i.IPartialCommit? || i.IBackCommit? }

  /** The label of the instruction at 'i' moved to its final destination. */
  ghost function Relabel(code: seq<Slot>, i: nat): (r: seq<Slot>)
    requires InstrAt(code, i) && HasLabel(code[i].instr)
    ensures |r| == |code|
  {
    code[i := I(WithOff(code[i].instr, FinalTarget(code, i + code[i].instr.off) - i))]
  }

  /** What the pass does to the instruction at 'i'. */
  ghost function PeepAt(code: seq<Slot>, i: nat): (r: seq<Slot>)
    requires InstrAt(code, i)
    ensures |r| == |code|
  {
    var instr := code[i].instr;
    if instr.IJmp? then
      var ft := FinalTarget(code, i);
      if InstrAt(code, ft) && JumpsAway(code[ft].instr) && i + 1 < |code| then
        code[i := code[ft]][i + 1 := I(IAny)]
      else if InstrAt(code, ft) && Commits(code[ft].instr) then
        var fft := FinalTarget(code, ft + code[ft].instr.off);
        Relabel(code[i := I(WithOff(code[ft].instr, fft - i))], i)
      else code[i := I(IJmp(ft - i))]
    else if HasLabel(instr) then Relabel(code, i)
    else code
  }

  /** The pass over the code from 'i' on. */
  ghost function Peephole(code: seq<Slot>, i: nat): (r: seq<Slot>)
    ensures |r| == |code|
    decreases |code| - i
  {
    if i >= |code| then code
    else if code[i].Pad? then Peephole(code, i + 1)
    else
      var code' := PeepAt(code, i);
      if code'[i].I? then Peephole(code', i + SizeI(code'[i].instr)) else code'
  }

  // ---- States that differ only in how far jumps were followed ----

  ghost predicate Reaches(code: seq<Slot>, x: int, y: int) {
    exists n: nat :: Chase(code, x, n) == y
  }

  ghost predicate FrameTo(code: seq<Slot>, f: Frame, f': Frame) {
    && Reaches(code, f.p, f'.p)
    && (f.Back? <==> f'.Back?)
    && (f.Back? ==> f.i == f'.i)
  }

  ghost predicate StackTo(code: seq<Slot>, stk: Stack, stk': Stack) {
    match (stk, stk')
    case (Empty, Empty) => true
    case (Push(f, r), Push(f', r')) => FrameTo(code, f, f') && StackTo(code, r, r')
    case _ => false
  }

  ghost predicate StateTo(code: seq<Slot>, st: State, st': State) {
    match (st, st')
    case (Run(p, i, stk), Run(p', i', stk')) => Reaches(code, p, p') && i == i' && StackTo(code, stk, stk')
    case _ => st == st'
  }

  lemma ReachesSelf(code: seq<Slot>, x: int)
    ensures Reaches(code, x, x)
  {
    assert Chase(code, x, 0) == x;
  }

  lemma {:induction false} FailToTo(code: seq<Slot>, stk: Stack, stk': Stack)
    requires StackTo(code, stk, stk')
    ensures StateTo(code, FailTo(stk), FailTo(stk'))
    decreases stk
  {
    if stk.Push? && stk.top.Ret? { FailToTo(code, stk.rest, stk'.rest); }
  }

  lemma {:induction false} StackToSelf(code: seq<Slot>, stk: Stack)
    ensures StackTo(code, stk, stk)
    decreases stk
  {
    if stk.Push? {
      ReachesSelf(code, stk.top.p);
      StackToSelf(code, stk.rest);
    }
  }

  lemma FinalReached(code: seq<Slot>, x: int)
    ensures Reaches(code, x, FinalTarget(code, x))
  {
    if !Ends(code, x) { ReachesSelf(code, x); }
  }

  /** The same instruction, at 'p' and at 'p'', up to how far its label was followed. */
  ghost predicate SameBut(code: seq<Slot>, a: Instr, p: int, b: Instr, p': int) {
    if HasLabel(a) then HasLabel(b) && b == WithOff(a, b.off) && Reaches(code, p + a.off, p' + b.off)
    else a == b && (p == p' || JumpsAway(a))
  }

  lemma ExecTo(code: seq<Slot>, s: Subject, a: Instr, p: int, b: Instr, p': int,
               i: nat, stk: Stack, stk': Stack)
    requires i <= |s| && SameBut(code, a, p, b, p') && StackTo(code, stk, stk')
    requires p == p' || JumpsAway(a) || Commits(a)
    ensures StateTo(code, Exec(a, s, p, i, stk), Exec(b, s, p', i, stk'))
  {
    hide Reaches, FailTo, SpanEnd, Exec;
    if HasLabel(a) {
      LabelExecTo(code, s, a, p, b, p', i, stk, stk');
    } else {
      PlainExecTo(code, s, a, p, p', i, stk, stk');
    }
  }

  lemma LabelExecTo(code: seq<Slot>, s: Subject, a: Instr, p: int, b: Instr, p': int,
                    i: nat, stk: Stack, stk': Stack)
    requires i <= |s| && HasLabel(a) && SameBut(code, a, p, b, p') && StackTo(code, stk, stk')
    requires p == p' || Commits(a)
    ensures StateTo(code, Exec(a, s, p, i, stk), Exec(b, s, p', i, stk'))
  {
    hide Reaches, FailTo, SpanEnd;
    ReachesSelf(code, p + 2);
    ReachesSelf(code, p + 10);
  }

  lemma PlainExecTo(code: seq<Slot>, s: Subject, a: Instr, p: int, p': int, i: nat, stk: Stack, stk': Stack)
    requires i <= |s| && !HasLabel(a) && (p == p' || JumpsAway(a)) && StackTo(code, stk, stk')
    ensures StateTo(code, Exec(a, s, p, i, stk), Exec(a, s, p', i, stk'))
  {
    hide Reaches, FailTo, SpanEnd;
    FailToTo(code, stk, stk');
    ReachesSelf(code, p + 1);
    ReachesSelf(code, p + 2);
    ReachesSelf(code, p + 9);
    if stk.Push? { FailToTo(code, stk.rest, stk'.rest); }
  }

  /** A run that answers follows a jump chain within its steps; 'd' of them are left. */
  lemma {:induction false} AnswerChase(code: seq<Slot>, s: Subject, x: int, i: nat, stk: Stack, o: Outcome,
                                       m: nat, n: nat) returns (d: nat)
    requires AnswersIn(code, s, Run(x, i, stk), o, m)
    ensures i <= |s| && 0 < d <= m && (Chase(code, x, n) != x ==> d < m)
    ensures AnswersIn(code, s, Run(Chase(code, x, n), i, stk), o, d)
    decreases n
  {
    if i > |s| { HaltStays(code, s, Stuck, m - 1); }
    if n == 0 || !IsJmpAt(code, x) {
      d := m;
    } else {
      d := AnswerChase(code, s, x + code[x].instr.off, i, stk, o, m - 1, n - 1);
    }
  }

  /** A run that answers does not sit in a cycle of jumps. */
  lemma {:induction false} AnswerEnds(code: seq<Slot>, s: Subject, x: int, i: nat, stk: Stack, o: Outcome, m: nat)
    requires AnswersIn(code, s, Run(x, i, stk), o, m)
    ensures Ends(code, x)
    decreases m
  {
    if i > |s| { HaltStays(code, s, Stuck, m - 1); }
    if IsJmpAt(code, x) {
      var y := x + code[x].instr.off;
      AnswerEnds(code, s, y, i, stk, o, m - 1);
      var n: nat :| EndsIn(code, y, n);
      assert EndsIn(code, x, n + 1);
    } else {
      assert EndsIn(code, x, 0);
    }
  }

  // ---- One rewriting keeps every answer ----

  /** What the new code does at 'p' the old code does there, or at the end of the jumps there. */
  ghost predicate Matches(before: seq<Slot>, after: seq<Slot>, p: int)
    requires InstrAt(before, p)
  {
    && InstrAt(after, p)
    && (|| SameBut(before, before[p].instr, p, after[p].instr, p)
        || (var ft := FinalTarget(before, p);
            && ft != p && InstrAt(before, ft)
            && (JumpsAway(before[ft].instr) || Commits(before[ft].instr))
            && SameBut(before, before[ft].instr, ft, after[p].instr, p)))
  }

  ghost predicate Rewrites(before: seq<Slot>, after: seq<Slot>) {
    && |after| == |before|
    && forall p | InstrAt(before, p) && Ends(before, p) :: Matches(before, after, p)
  }

  lemma {:induction false} Simulate(before: seq<Slot>, after: seq<Slot>, s: Subject, st: State, st': State,
                                    o: Outcome, m: nat)
    requires Rewrites(before, after) && StateTo(before, st, st') && AnswersIn(before, s, st, o, m)
    ensures Answers(after, s, st', o)
    decreases m
  {
    hide SameBut, Ends, FinalTarget, SizeI;
    match st
    case Halt(_) =>
      HaltStays(before, s, st, m);
      assert AnswersIn(after, s, st', o, 0);
    case Stuck => HaltStays(before, s, st, m);
    case Run(p, i, stk) =>
      var q := st'.p;
      var n: nat :| Chase(before, p, n) == q;
      var d := AnswerChase(before, s, p, i, stk, o, m, n);
      var u, u' := Step(before, s, Run(q, i, stk)), Step(after, s, st');
      if q != GIVEUP && !InstrAt(before, q) { HaltStays(before, s, Stuck, d - 1); }
      if q == GIVEUP {
        Simulate(before, after, s, u, u', o, d - 1);
      } else {
        AnswerEnds(before, s, q, i, stk, o, d);
        assert Matches(before, after, q);
        if SameBut(before, before[q].instr, q, after[q].instr, q) {
          ExecTo(before, s, before[q].instr, q, after[q].instr, q, i, stk, st'.stk);
          Simulate(before, after, s, u, u', o, d - 1);
        } else {
          var ft := FinalTarget(before, q);
          FinalReached(before, q);
          var k: nat :| Chase(before, q, k) == ft;
          var d2 := AnswerChase(before, s, q, i, stk, o, d, k);
          ExecTo(before, s, before[ft].instr, ft, after[q].instr, q, i, stk, st'.stk);
          Simulate(before, after, s, Step(before, s, Run(ft, i, stk)), u', o, d2 - 1);
        }
      }
      var k: nat :| AnswersIn(after, s, u', o, k);
      assert AnswersIn(after, s, st', o, k + 1);
  }

  lemma SameInstr(code: seq<Slot>, a: Instr, p: int)
    ensures SameBut(code, a, p, a, p)
  {
    if HasLabel(a) { ReachesSelf(code, p + a.off); }
  }

  lemma FinalPastJump(code: seq<Slot>, x: int)
    requires IsJmpAt(code, x) && Ends(code, x)
    ensures var ft := FinalTarget(code, x);
            ft != x && !IsJmpAt(code, ft) && Reaches(code, x + code[x].instr.off, ft)
  {
    var n: nat :| EndsIn(code, x, n) && FinalTarget(code, x) == Chase(code, x, n);
    assert Chase(code, x + code[x].instr.off, n - 1) == Chase(code, x, n);
  }

  lemma RelabelSame(code: seq<Slot>, a: Instr, p: int, b: Instr, q: int)
    requires HasLabel(a) && b == WithOff(a, FinalTarget(code, p + a.off) - q)
    ensures SameBut(code, a, p, b, q)
  {
    FinalReached(code, p + a.off);
  }

  lemma {:induction false} ReachesTrans(code: seq<Slot>, x: int, n: nat, z: int)
    requires Reaches(code, Chase(code, x, n), z)
    ensures Reaches(code, x, z)
    decreases n
  {
    if n > 0 && IsJmpAt(code, x) {
      var y := x + code[x].instr.off;
      ReachesTrans(code, y, n - 1, z);
      var k: nat :| Chase(code, y, k) == z;
      assert Chase(code, x, k + 1) == z;
    }
  }

  /** Taking a jump out of the code shortens chains. */
  lemma {:induction false} ChaseFewer(code: seq<Slot>, i: nat, slot: Slot, x: int, n: nat)
    requires i < |code| && !(slot.I? && slot.instr.IJmp?)
    ensures Reaches(code, x, Chase(code[i := slot], x, n))
    decreases n
  {
    var code' := code[i := slot];
    if n > 0 && IsJmpAt(code', x) {
      var y := x + code[x].instr.off;
      ChaseFewer(code, i, slot, y, n - 1);
      assert Chase(code, x, 1) == y;
      ReachesTrans(code, x, 1, Chase(code', x, n));
    } else {
      ReachesSelf(code, x);
    }
  }

  /** One step of the pass leaves at every place what was there, up to followed jumps. */
  lemma PeepAtRewrites(code: seq<Slot>, i: nat)
    requires InstrAt(code, i) && i + SizeI(code[i].instr) <= |code|
    requires forall k | i < k < i + SizeI(code[i].instr) :: code[k].Pad?
    ensures Rewrites(code, PeepAt(code, i))
  {
    var after := PeepAt(code, i);
    forall p | InstrAt(code, p) && Ends(code, p) ensures Matches(code, after, p) {
      if p != i {
        SameInstr(code, code[p].instr, p);
      } else if code[i].instr.IJmp? {
        JumpRewritten(code, i);
      } else if HasLabel(code[i].instr) {
        RelabelSame(code, code[i].instr, i, after[i].instr, i);
      } else {
        SameInstr(code, code[i].instr, i);
      }
    }
  }

  lemma JumpRewritten(code: seq<Slot>, i: nat)
    requires IsJmpAt(code, i) && Ends(code, i) && i + 1 < |code|
    ensures Matches(code, PeepAt(code, i), i)
  {
    var after := PeepAt(code, i);
    var ft := FinalTarget(code, i);
    FinalPastJump(code, i);
    if InstrAt(code, ft) && Commits(code[ft].instr) {
      var a := code[ft].instr;
      var fft := FinalTarget(code, ft + a.off);
      var slot := I(WithOff(a, fft - i));
      var code1 := code[i := slot];
      FinalReached(code1, fft);
      var n: nat :| Chase(code1, fft, n) == FinalTarget(code1, fft);
      ChaseFewer(code, i, slot, fft, n);
      FinalReached(code, ft + a.off);
      var m: nat :| Chase(code, ft + a.off, m) == fft;
      ReachesTrans(code, ft + a.off, m, FinalTarget(code1, fft));
      assert after[i].instr == WithOff(a, FinalTarget(code1, fft) - i);
      assert SameBut(code, a, ft, after[i].instr, i);
    } else if !(InstrAt(code, ft) && JumpsAway(code[ft].instr)) {
      assert after[i] == I(IJmp(ft - i));
    }
  }

  /** The pass keeps sizes, except that a jump may become two instructions of size one. */
  lemma PeepAtShape(code: seq<Slot>, i: nat)
    requires InstrAt(code, i) && i + SizeI(code[i].instr) <= |code|
    ensures var after := PeepAt(code, i);
            && InstrAt(after, i)
            && after[i + SizeI(code[i].instr)..] == code[i + SizeI(code[i].instr)..]
            && (|| (SizeI(after[i].instr) == SizeI(code[i].instr) &&
                    forall k | i < k < |code| :: after[k] == code[k])
                || (SizeI(after[i].instr) == 1 && SizeI(code[i].instr) == 2 && after[i + 1] == I(IAny)))
  {
  }

  lemma PeepAtTidy(code: seq<Slot>, i: nat)
    requires i < |code| && Tidy(code[i..])
    ensures InstrAt(code, i) && i + SizeI(code[i].instr) <= |code|
    ensures forall k | i < k < i + SizeI(code[i].instr) :: code[k].Pad?
    ensures var after := PeepAt(code, i);
            InstrAt(after, i) && i + SizeI(after[i].instr) <= |code| && Tidy(after[i + SizeI(after[i].instr)..])
  {
    hide PeepAt;
    TidyStep(code, i);
    PeepAtShape(code, i);
    var after := PeepAt(code, i);
    if SizeI(after[i].instr) != SizeI(code[i].instr) {
      TidyStep(after, i + 1);
    }
  }

  /** The pass keeps the answer of every run. */
  lemma {:induction false} PeepholeAnswers(code: seq<Slot>, i: nat, s: Subject, st: State, o: Outcome)
    requires i <= |code| && Tidy(code[i..])
    requires st.Run? && Answers(code, s, st, o)
    ensures Answers(Peephole(code, i), s, st, o)
    decreases |code| - i
  {
    hide PeepAt, Rewrites, Tidy, Steps;
    if i < |code| {
      PeepAtTidy(code, i);
      PeepAtRewrites(code, i);
      var after := PeepAt(code, i);
      var m: nat :| AnswersIn(code, s, st, o, m);
      ReachesSelf(code, st.p);
      StackToSelf(code, st.stk);
      Simulate(code, after, s, st, st, o, m);
      PeepholeAnswers(after, i + SizeI(after[i].instr), s, st, o);
    }
  }
}
