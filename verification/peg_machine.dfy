// The parsing machine of lpvm.c: instructions, the step function, and equivalence of states.

module PegMachine {
  import opened PegTree

  /** Instructions with their operands; offsets are relative to the instruction's own position. */
  datatype Instr =
    | IAny
    | IChar(c: Byte)
    | ISet(cs: Charset)
    | ITestAny(off: int)
    | ITestChar(c: Byte, off: int)
    | ITestSet(cs: Charset, off: int)
    | ISpan(cs: Charset)
    | IBehind(n: nat)
    | IRet
    | IEnd
    | IChoice(off: int)
    | IJmp(off: int)
    | ICall(off: int)
    | IOpenCall(key: nat)
    | ICommit(off: int)
    | IPartialCommit(off: int)
    | IBackCommit(off: int)
    | IFailTwice
    | IFail
    | IFullCapture(len: nat)
    | IOpenCapture
    | ICloseCapture

  /** One cell of the code array: the start of an instruction, or room for its operands. */
  datatype Slot = I(instr: Instr) | Pad

  /** Number of cells an instruction takes. */
  function SizeI(i: Instr): (n: nat)
    ensures 1 <= n <= 10
  {
    match i
    case ISet(_) => 9
    case ISpan(_) => 9
    case ITestSet(_, _) => 10
    case ITestChar(_, _) => 2
    case ITestAny(_) => 2
    case IChoice(_) => 2
    case IJmp(_) => 2
    case ICall(_) => 2
    case IOpenCall(_) => 2
    case ICommit(_) => 2
    case IPartialCommit(_) => 2
    case IBackCommit(_) => 2
    case _ => 1
  }

  /** Instructions that carry a label. */
  predicate HasLabel(i: Instr) {
    i.ITestAny? || i.ITestChar? || i.ITestSet? || i.IChoice? || i.IJmp? || i.ICall? ||
    i.ICommit? || i.IPartialCommit? || i.IBackCommit?
  }

  /** A stack entry: a saved choice (position and address) or a return address. */
  datatype Frame = Back(i: nat, p: int) | Ret(p: int)
  datatype Stack = Empty | Push(top: Frame, rest: Stack)

  /** A running machine, one that has answered, or one in a state the machine asserts away. */
  datatype State = Run(p: int, i: nat, stk: Stack) | Halt(o: Outcome) | Stuck

  // Address of the 'giveup' instruction, which lies outside the code.
  const GIVEUP := -1

  /** What a failure leads to: pending calls are dropped and the last choice resumed. */
  function FailTo(stk: Stack): (st: State)
    ensures !st.Halt?
  {
    match stk
    case Empty => Stuck
    case Push(Ret(_), rest) => FailTo(rest)
    case Push(Back(i, p), rest) => Run(p, i, rest)
  }

  /** Where a span over 'cs' that starts at 'i' stops. */
  function SpanEnd(cs: Charset, s: Subject, i: nat): (j: nat)
    requires i <= |s|
    ensures i <= j <= |s|
    ensures forall k | i <= k < j :: s[k] in cs
    ensures j < |s| ==> s[j] !in cs
    decreases |s| - i
  {
    if i < |s| && s[i] in cs then SpanEnd(cs, s, i + 1) else i
  }

  /** One instruction of the opcode interpreter. */
  function Step(code: seq<Slot>, s: Subject, st: State): State {
    match st
    case Halt(_) => st
    case Stuck => st
    case Run(p, i, stk) =>
      if i > |s| then Stuck
      else if p == GIVEUP then (if stk.Empty? then Halt(Fail) else Stuck)
      else if !(0 <= p < |code|) || code[p].Pad? then Stuck
      else Exec(code[p].instr, s, p, i, stk)
  }

  function Exec(instr: Instr, s: Subject, p: int, i: nat, stk: Stack): State
    requires i <= |s|
  {
    match instr
    case IEnd => if stk.Push? && stk.rest.Empty? then Halt(Ok(i)) else Stuck
    case IRet => if stk.Push? && stk.top.Ret? then Run(stk.top.p, i, stk.rest) else Stuck
    case IAny => if i < |s| then Run(p + 1, i + 1, stk) else FailTo(stk)
    case ITestAny(off) => if i < |s| then Run(p + 2, i, stk) else Run(p + off, i, stk)
    case IChar(c) => if i < |s| && s[i] == c then Run(p + 1, i + 1, stk) else FailTo(stk)
    case ITestChar(c, off) =>
      if i < |s| && s[i] == c then Run(p + 2, i, stk) else Run(p + off, i, stk)
    case ISet(cs) => if i < |s| && s[i] in cs then Run(p + 9, i + 1, stk) else FailTo(stk)
    case ITestSet(cs, off) =>
      if i < |s| && s[i] in cs then Run(p + 10, i, stk) else Run(p + off, i, stk)
    case IBehind(n) => if n > i then FailTo(stk) else Run(p + 1, i - n, stk)
    case ISpan(cs) => Run(p + 9, SpanEnd(cs, s, i), stk)
    case IJmp(off) => Run(p + off, i, stk)
    case IChoice(off) => Run(p + 2, i, Push(Back(i, p + off), stk))
    case ICall(off) => Run(p + off, i, Push(Ret(p + 2), stk))
    case IOpenCall(_) => Stuck
    case ICommit(off) =>
      if stk.Push? && stk.top.Back? then Run(p + off, i, stk.rest) else Stuck
    case IPartialCommit(off) =>
      if stk.Push? && stk.top.Back? then Run(p + off, i, Push(Back(i, stk.top.p), stk.rest)) else Stuck
    case IBackCommit(off) =>
      if stk.Push? && stk.top.Back? then Run(p + off, stk.top.i, stk.rest) else Stuck
    case IFailTwice => if stk.Push? then FailTo(stk.rest) else Stuck
    case IFail => FailTo(stk)
    case IFullCapture(_) => Run(p + 1, i, stk)
    case IOpenCapture => Run(p + 1, i, stk)
    case ICloseCapture => Run(p + 1, i, stk)
  }

  function Steps(code: seq<Slot>, s: Subject, st: State, n: nat): State
    decreases n
  {
    if n == 0 then st else Steps(code, s, Step(code, s, st), n - 1)
  }

  lemma {:induction false} StepsAdd(code: seq<Slot>, s: Subject, st: State, m: nat, n: nat)
    ensures Steps(code, s, st, m + n) == Steps(code, s, Steps(code, s, st, m), n)
    decreases m
  {
    if m > 0 { StepsAdd(code, s, Step(code, s, st), m - 1, n); }
  }

  /** Two states are equivalent when their runs meet. */
  ghost predicate Conv(code: seq<Slot>, s: Subject, a: State, b: State) {
    exists m: nat, n: nat :: Meet(code, s, a, b, m, n)
  }

  predicate Meet(code: seq<Slot>, s: Subject, a: State, b: State, m: nat, n: nat) {
    Steps(code, s, a, m) == Steps(code, s, b, n)
  }

  lemma ConvRefl(code: seq<Slot>, s: Subject, a: State)
    ensures Conv(code, s, a, a)
  {
    assert Meet(code, s, a, a, 0, 0);
  }

  lemma ConvSym(code: seq<Slot>, s: Subject, a: State, b: State)
    requires Conv(code, s, a, b)
    ensures Conv(code, s, b, a)
  {
    var m: nat, n: nat :| Meet(code, s, a, b, m, n);
    assert Meet(code, s, b, a, n, m);
  }

  lemma ConvTrans(code: seq<Slot>, s: Subject, a: State, b: State, c: State)
    requires Conv(code, s, a, b) && Conv(code, s, b, c)
    ensures Conv(code, s, a, c)
  {
    var m1: nat, n1: nat :| Meet(code, s, a, b, m1, n1);
    var m2: nat, n2: nat :| Meet(code, s, b, c, m2, n2);
    if n1 <= m2 {
      StepsAdd(code, s, a, m1, m2 - n1);
      StepsAdd(code, s, b, n1, m2 - n1);
      assert Meet(code, s, a, c, m1 + (m2 - n1), n2);
    } else {
      StepsAdd(code, s, c, n2, n1 - m2);
      StepsAdd(code, s, b, m2, n1 - m2);
      assert Meet(code, s, a, c, m1, n2 + (n1 - m2));
    }
  }

  /** A state is equivalent to the one after it, and to whatever that is equivalent to. */
  lemma ConvStep(code: seq<Slot>, s: Subject, a: State, b: State)
    requires Conv(code, s, Step(code, s, a), b)
    ensures Conv(code, s, a, b)
  {
    var m: nat, n: nat :| Meet(code, s, Step(code, s, a), b, m, n);
    assert Meet(code, s, a, b, m + 1, n);
  }

  lemma HaltStays(code: seq<Slot>, s: Subject, st: State, n: nat)
    requires !st.Run?
    ensures Steps(code, s, st, n) == st
    decreases n
  {
    if n > 0 { HaltStays(code, s, st, n - 1); }
  }

  /** The answer a run ends in. */
  ghost predicate Answers(code: seq<Slot>, s: Subject, st: State, o: Outcome) {
    exists n: nat :: AnswersIn(code, s, st, o, n)
  }

  predicate AnswersIn(code: seq<Slot>, s: Subject, st: State, o: Outcome, n: nat) {
    Steps(code, s, st, n) == Halt(o)
  }

  /** Runs that meet give the same answers. */
  lemma ConvAnswers(code: seq<Slot>, s: Subject, a: State, b: State, o: Outcome)
    requires Conv(code, s, a, b) && Answers(code, s, b, o)
    ensures Answers(code, s, a, o)
  {
    var m: nat, n: nat :| Meet(code, s, a, b, m, n);
    var k: nat :| AnswersIn(code, s, b, o, k);
    StepsAdd(code, s, b, n, k);
    StepsAdd(code, s, b, k, n);
    HaltStays(code, s, Halt(o), n);
    StepsAdd(code, s, a, m, k);
    assert AnswersIn(code, s, a, o, m + k);
  }
}
