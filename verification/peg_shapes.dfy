// How each shape of code runs on the machine, given how the code of its parts runs.

module PegShapes {
  import opened PegTree
  import opened PegAnalysis
  import opened PegMachine
  import opened PegCodegen

  /** The code being run, the subject, and where the rules of the grammar in force were put. */
  datatype Env = Env(code: seq<Slot>, s: Subject, pos: seq<int>)

  ghost predicate JumpsToRet(code: seq<Slot>, x: int) {
    exists n: nat :: IsRetAt(code, Chase(code, x, n))
  }

  predicate Cell(e: Env, q: int, i: Instr) {
    0 <= q < |e.code| && e.code[q] == I(i)
  }

  /** A cell of the code as generated, or an open call after it was closed. */
  ghost predicate SlotAt(e: Env, q: int, slot: Slot) {
    if slot.I? && slot.instr.IOpenCall? then
      && slot.instr.key < |e.pos|
      && (|| Cell(e, q, ICall(e.pos[slot.instr.key] - q))
          || (Cell(e, q, IJmp(e.pos[slot.instr.key] - q)) && JumpsToRet(e.code, q + 2)))
    else 0 <= q < |e.code| && e.code[q] == slot
  }

  /** The segment 'c' lies at 'a', with its open calls closed. */
  ghost predicate At(e: Env, a: int, c: seq<Slot>) {
    forall k | 0 <= k < |c| :: SlotAt(e, a + k, c[k])
  }

  lemma AtSplit(e: Env, a: int, x: seq<Slot>, y: seq<Slot>)
    ensures At(e, a, x + y) <==> At(e, a, x) && At(e, a + |x|, y)
  {
    var c := x + y;
    if At(e, a, c) {
      forall k | 0 <= k < |x| ensures SlotAt(e, a + k, x[k]) { assert c[k] == x[k]; }
      forall k | 0 <= k < |y| ensures SlotAt(e, a + |x| + k, y[k]) { assert c[|x| + k] == y[k]; }
    }
    if At(e, a, x) && At(e, a + |x|, y) {
      forall k | 0 <= k < |c| ensures SlotAt(e, a + k, c[k]) {
        if k >= |x| { assert SlotAt(e, a + |x| + (k - |x|), y[k - |x|]); }
      }
    }
  }

  lemma AtEmit(e: Env, a: int, i: Instr)
    requires At(e, a, Emit(i)) && !i.IOpenCall?
    ensures Cell(e, a, i)
  {
    assert SlotAt(e, a + 0, Emit(i)[0]);
  }

  /** The dominating test holds at position 'i'. */
  predicate TestHolds(s: Subject, i: nat, tt: Test) {
    match tt
    case NoTest => true
    case TestedChar(c) => i < |s| && s[i] == c
    case TestedSet(cs) => i < |s| && s[i] in cs
  }

  /** The next character exists and is in the set. */
  predicate Passes(s: Subject, i: nat, cs: Charset) {
    i < |s| && s[i] in cs
  }

  ghost predicate Eq(e: Env, a: State, b: State) {
    Conv(e.code, e.s, a, b)
  }

  /** Where a pattern with this outcome leaves the machine. */
  function After(end: int, o: Outcome, stk: Stack): State {
    if o.Ok? then Run(end, o.pos, stk) else FailTo(stk)
  }

  /** If the pattern stops before a character that cannot follow, what comes next will fail. */
  ghost predicate Followed(e: Env, end: int, o: Outcome, fl: Charset, stk: Stack) {
    o.Ok? && o.pos < |e.s| && e.s[o.pos] !in fl ==> Eq(e, Run(end, o.pos, stk), FailTo(stk))
  }

  /** The top of the stack is a choice that the code at 'end' commits to its own alternative. */
  ghost predicate Optional(e: Env, end: int, stk: Stack) {
    && stk.Push? && stk.top.Back?
    && forall i: nat, j: nat | j <= |e.s| :: Commits(e, end, stk.top.p, stk.rest, i, j)
  }

  ghost predicate Commits(e: Env, end: int, alt: int, rest: Stack, i: nat, j: nat) {
    Eq(e, Run(end, j, Push(Back(i, alt), rest)), Run(alt, j, rest))
  }

  // ---- Equivalence ----

  lemma StepEq(e: Env, a: State, b: State)
    requires Eq(e, Step(e.code, e.s, a), b)
    ensures Eq(e, a, b)
  {
    ConvStep(e.code, e.s, a, b);
  }

  lemma One(e: Env, a: State, b: State)
    requires Step(e.code, e.s, a) == b
    ensures Eq(e, a, b)
  {
    ConvRefl(e.code, e.s, b);
    ConvStep(e.code, e.s, a, b);
  }

  lemma Same(e: Env, a: State)
    ensures Eq(e, a, a)
  {
    ConvRefl(e.code, e.s, a);
  }

  lemma Trans(e: Env, a: State, b: State, c: State)
    requires Eq(e, a, b) && Eq(e, b, c)
    ensures Eq(e, a, c)
  {
    ConvTrans(e.code, e.s, a, b, c);
  }

  lemma Sym(e: Env, a: State, b: State)
    requires Eq(e, a, b)
    ensures Eq(e, b, a)
  {
    ConvSym(e.code, e.s, a, b);
  }

  /** Following jumps does not change what a run does. */
  lemma {:induction false} ChaseEq(e: Env, x: int, n: nat, i: nat, stk: Stack)
    requires i <= |e.s|
    ensures Eq(e, Run(x, i, stk), Run(Chase(e.code, x, n), i, stk))
    decreases n
  {
    if n == 0 || !IsJmpAt(e.code, x) {
      Same(e, Run(x, i, stk));
    } else {
      ChaseEq(e, x + e.code[x].instr.off, n - 1, i, stk);
      StepEq(e, Run(x, i, stk), Run(Chase(e.code, x, n), i, stk));
    }
  }

  // ---- Single instructions ----

  /** A test goes on iff the next character is in its set. */
  lemma TestStep(e: Env, a: int, f: First, rest: nat, i: nat, stk: Stack)
    requires At(e, a, CodeTest(f, rest))
    requires !f.empty && i <= |e.s|
    ensures Step(e.code, e.s, Run(a, i, stk)) ==
            Run(a + TestSize(f) + (if Passes(e.s, i, f.cs) then 0 else rest), i, stk)
    ensures Passes(e.s, i, f.cs) ==> TestHolds(e.s, i, TestOf(f))
  {
    AtEmit(e, a, TestInstr(f.cs, TestSize(f) + rest));
  }

  lemma CharRuns(e: Env, c: Byte, tt: Test, a: int, i: nat, stk: Stack)
    requires At(e, a, CodeChar(c, tt)) && i <= |e.s| && TestHolds(e.s, i, tt)
    ensures Eq(e, Run(a, i, stk),
               if Passes(e.s, i, {c}) then Run(a + |CodeChar(c, tt)|, i + 1, stk) else FailTo(stk))
  {
    assert SlotAt(e, a + 0, CodeChar(c, tt)[0]);
    One(e, Run(a, i, stk), Step(e.code, e.s, Run(a, i, stk)));
  }

  lemma CharsetRuns(e: Env, cs: Charset, tt: Test, a: int, i: nat, stk: Stack)
    requires At(e, a, CodeCharset(cs, tt)) && i <= |e.s| && TestHolds(e.s, i, tt)
    ensures Eq(e, Run(a, i, stk),
               if Passes(e.s, i, cs) then Run(a + |CodeCharset(cs, tt)|, i + 1, stk) else FailTo(stk))
  {
    assert SlotAt(e, a + 0, CodeCharset(cs, tt)[0]);
    One(e, Run(a, i, stk), Step(e.code, e.s, Run(a, i, stk)));
  }

  // ---- Not ----

  lemma NotLayout(e: Env, a: int, f: First, hf: bool, p: seq<Slot>)
    requires At(e, a, NotCode(f, hf, p))
    ensures var b := a + TestSize(f);
            if hf then At(e, a, CodeTest(f, 1)) && Cell(e, b, IFail)
            else
              && At(e, a, CodeTest(f, 2 + |p| + 1)) && Cell(e, b, IChoice(2 + |p| + 1))
              && At(e, b + 2, p) && Cell(e, b + 2 + |p|, IFailTwice)
  {
    var b := a + TestSize(f);
    if hf {
      AtSplit(e, a, CodeTest(f, 1), Emit(IFail));
      AtEmit(e, b, IFail);
    } else {
      var test, ch := CodeTest(f, 2 + |p| + 1), Emit(IChoice(2 + |p| + 1));
      AtSplit(e, a, test + ch + p, Emit(IFailTwice));
      AtSplit(e, a, test + ch, p);
      AtSplit(e, a, test, ch);
      AtEmit(e, b, IChoice(2 + |p| + 1));
      AtEmit(e, b + 2 + |p|, IFailTwice);
    }
  }

  function NotOf(o: Outcome, i: nat): Outcome {
    match o case Ok(_) => Fail case Fail => Ok(i) case Out => Out
  }

  lemma NotRuns(e: Env, a: int, f: First, hf: bool, p: seq<Slot>, i: nat, o: Outcome, stk: Stack)
    requires At(e, a, NotCode(f, hf, p)) && i <= |e.s| && o != Out && (o.Ok? ==> o.pos <= |e.s|)
    requires !f.empty && !Passes(e.s, i, f.cs) ==> o == Fail
    requires hf ==> !f.empty && (Passes(e.s, i, f.cs) ==> o.Ok?)
    requires !hf ==>
      var b := a + TestSize(f);
      var stk1 := Push(Back(i, b + 2 + |p| + 1), stk);
      Eq(e, Run(b + 2, i, stk1), After(b + 2 + |p|, o, stk1))
    ensures Eq(e, Run(a, i, stk), After(a + |NotCode(f, hf, p)|, NotOf(o, i), stk))
  {
    NotLayout(e, a, f, hf, p);
    var b := a + TestSize(f);
    var end := a + |NotCode(f, hf, p)|;
    var goal := After(end, NotOf(o, i), stk);
    if f.empty || Passes(e.s, i, f.cs) {
      if hf {
        One(e, Run(b, i, stk), goal);
      } else {
        var stk1 := Push(Back(i, end), stk);
        var m := b + 2 + |p|;
        if o.Ok? {
          One(e, Run(m, o.pos, stk1), goal);
          Trans(e, Run(b + 2, i, stk1), Run(m, o.pos, stk1), goal);
        }
        StepEq(e, Run(b, i, stk), goal);
      }
    } else {
      Same(e, goal);
    }
    if !f.empty {
      TestStep(e, a, f, if hf then 1 else 2 + |p| + 1, i, stk);
      StepEq(e, Run(a, i, stk), goal);
    }
  }

  // ---- And ----

  function AndOf(o: Outcome, i: nat): Outcome {
    if o.Ok? then Ok(i) else o
  }

  lemma AndShortRuns(e: Env, a: int, len: nat, p: seq<Slot>, i: nat, o: Outcome, stk: Stack)
    requires At(e, a, AndShortCode(len, p)) && i <= |e.s|
    requires o.Ok? ==> o.pos == i + len && o.pos <= |e.s|
    requires Eq(e, Run(a, i, stk), After(a + |p|, o, stk))
    ensures Eq(e, Run(a, i, stk), After(a + |AndShortCode(len, p)|, AndOf(o, i), stk))
  {
    AtSplit(e, a, p, BehindIf(len));
    if o.Ok? && len > 0 {
      AtEmit(e, a + |p|, IBehind(len));
      One(e, Run(a + |p|, o.pos, stk), Run(a + |p| + 1, i, stk));
      Trans(e, Run(a, i, stk), Run(a + |p|, o.pos, stk), Run(a + |p| + 1, i, stk));
    }
  }

  lemma AndLayout(e: Env, a: int, p: seq<Slot>)
    requires At(e, a, AndCode(p))
    ensures Cell(e, a, IChoice(2 + |p| + 2)) && At(e, a + 2, p)
    ensures Cell(e, a + 2 + |p|, IBackCommit(3)) && Cell(e, a + 4 + |p|, IFail)
  {
    var ch, bc := Emit(IChoice(2 + |p| + 2)), Emit(IBackCommit(3));
    AtSplit(e, a, ch + p + bc, Emit(IFail));
    AtSplit(e, a, ch + p, bc);
    AtSplit(e, a, ch, p);
    AtEmit(e, a, IChoice(2 + |p| + 2));
    AtEmit(e, a + 2 + |p|, IBackCommit(3));
    AtEmit(e, a + 4 + |p|, IFail);
  }

  lemma AndRuns(e: Env, a: int, p: seq<Slot>, i: nat, o: Outcome, stk: Stack)
    requires At(e, a, AndCode(p)) && i <= |e.s|
    requires o.Ok? ==> o.pos <= |e.s|
    requires var stk1 := Push(Back(i, a + 4 + |p|), stk);
             Eq(e, Run(a + 2, i, stk1), After(a + 2 + |p|, o, stk1))
    ensures Eq(e, Run(a, i, stk), After(a + |AndCode(p)|, AndOf(o, i), stk))
  {
    AndLayout(e, a, p);
    var stk1 := Push(Back(i, a + 4 + |p|), stk);
    var m, end := a + 2 + |p|, a + |AndCode(p)|;
    var goal := After(end, AndOf(o, i), stk);
    if o.Ok? {
      One(e, Run(m, o.pos, stk1), goal);
      Trans(e, Run(a + 2, i, stk1), Run(m, o.pos, stk1), goal);
    } else {
      One(e, Run(m + 2, i, stk), goal);
      Trans(e, Run(a + 2, i, stk1), Run(m + 2, i, stk), goal);
    }
    StepEq(e, Run(a, i, stk), goal);
  }

  // ---- Capture ----

  predicate ShortForm(short: bool, len: int) { short && len >= 0 }

  lemma CaptureLayout(e: Env, a: int, short: bool, len: int, p: seq<Slot>)
    requires At(e, a, CaptureCode(short, len, p))
    ensures if ShortForm(short, len) then At(e, a, p) && Cell(e, a + |p|, IFullCapture(len))
            else Cell(e, a, IOpenCapture) && At(e, a + 1, p) && Cell(e, a + 1 + |p|, ICloseCapture)
  {
    if ShortForm(short, len) {
      AtSplit(e, a, p, Emit(IFullCapture(len)));
      AtEmit(e, a + |p|, IFullCapture(len));
    } else {
      AtSplit(e, a, Emit(IOpenCapture) + p, Emit(ICloseCapture));
      AtSplit(e, a, Emit(IOpenCapture), p);
      AtEmit(e, a, IOpenCapture);
      AtEmit(e, a + 1 + |p|, ICloseCapture);
    }
  }

  /**
   * What a full capture is told is the length of what its pattern matched, so it starts where the
   * pattern did. It is used only for patterns without captures in them.
   */
  lemma FullCaptureSpans(c: Ctx, p: Tree, tt: Test, fl: Charset, len: nat, s: Subject, i: nat, n: nat)
    requires i <= |s| && Peg(c.g, p, s, i, n).Ok?
    requires var code := Gen(c, TCapture(p), false, tt, fl); code != [] && code[|code| - 1] == I(IFullCapture(len))
    ensures Peg(c.g, p, s, i, n).pos - len == i && len <= MAXOFF && !HasCaptures(c.g, p, c.live)
  {
    FixedLenSound(c.g, p, c.live, s, i, n);
  }

  /** The instruction behind the captured pattern only moves on. */
  lemma CaptureEnd(e: Env, a: int, short: bool, len: int, p: seq<Slot>, j: nat, stk: Stack)
    requires At(e, a, CaptureCode(short, len, p)) && j <= |e.s|
    ensures var m := a + (if ShortForm(short, len) then 0 else 1) + |p|;
            Eq(e, Run(m, j, stk), Run(a + |CaptureCode(short, len, p)|, j, stk))
  {
    CaptureLayout(e, a, short, len, p);
    var m := a + (if ShortForm(short, len) then 0 else 1) + |p|;
    One(e, Run(m, j, stk), Run(m + 1, j, stk));
  }

  lemma CaptureRuns(e: Env, a: int, short: bool, len: int, p: seq<Slot>, i: nat, o: Outcome, stk: Stack)
    requires At(e, a, CaptureCode(short, len, p)) && i <= |e.s|
    requires o.Ok? ==> o.pos <= |e.s|
    requires var b := a + (if ShortForm(short, len) then 0 else 1);
             Eq(e, Run(b, i, stk), After(b + |p|, o, stk))
    ensures Eq(e, Run(a, i, stk), After(a + |CaptureCode(short, len, p)|, o, stk))
  {
    CaptureLayout(e, a, short, len, p);
    var b := a + (if ShortForm(short, len) then 0 else 1);
    var goal := After(a + |CaptureCode(short, len, p)|, o, stk);
    if o.Ok? {
      CaptureEnd(e, a, short, len, p, o.pos, stk);
      Trans(e, Run(b, i, stk), Run(b + |p|, o.pos, stk), goal);
    }
    if b != a { StepEq(e, Run(a, i, stk), goal); }
  }

  // ---- Choice ----

  lemma ChoiceByTestLayout(e: Env, a: int, f: First, p1: seq<Slot>, p2: seq<Slot>, emptyp2: bool)
    requires At(e, a, ChoiceByTestCode(f, p1, p2, emptyp2))
    ensures var b := a + TestSize(f);
            var l1 := b + |p1| + (if emptyp2 then 0 else 2);
            && a + |ChoiceByTestCode(f, p1, p2, emptyp2)| == l1 + |p2|
            && At(e, a, CodeTest(f, l1 - b)) && At(e, b, p1) && At(e, l1, p2)
            && (!emptyp2 ==> Cell(e, b + |p1|, IJmp(2 + |p2|)))
  {
    hide At, CodeTest, TestSize, CharsetType;
    var jmp := JmpIf(!emptyp2, 2 + |p2|);
    var test := CodeTest(f, |p1| + |jmp|);
    AtSplit(e, a, test + p1 + jmp, p2);
    AtSplit(e, a, test + p1, jmp);
    AtSplit(e, a, test, p1);
    if !emptyp2 { AtEmit(e, a + |test| + |p1|, IJmp(2 + |p2|)); }
  }

  /** Behind the first alternative the machine goes on behind the second. */
  lemma ChoiceByTestJoin(e: Env, a: int, f: First, p1: seq<Slot>, p2: seq<Slot>, emptyp2: bool,
                         j: nat, stk: Stack)
    requires At(e, a, ChoiceByTestCode(f, p1, p2, emptyp2)) && (emptyp2 ==> p2 == []) && j <= |e.s|
    ensures Eq(e, Run(a + TestSize(f) + |p1|, j, stk),
               Run(a + |ChoiceByTestCode(f, p1, p2, emptyp2)|, j, stk))
  {
    hide ChoiceByTestCode, At, Conv, CodeTest, CharsetType;
    ChoiceByTestLayout(e, a, f, p1, p2, emptyp2);
    var m := a + TestSize(f) + |p1|;
    if emptyp2 { Same(e, Run(m, j, stk)); } else { One(e, Run(m, j, stk), Run(m + 2 + |p2|, j, stk)); }
  }

  function ChoiceOf(o1: Outcome, o2: Outcome): Outcome {
    if o1.Fail? then o2 else o1
  }

  /** 'l1' and 'end': where the second alternative starts and ends. */
  lemma ChoiceByTestRuns(e: Env, a: int, f: First, p1: seq<Slot>, p2: seq<Slot>, emptyp2: bool,
                         i: nat, o1: Outcome, o2: Outcome, stk: Stack, l1: int, end: int)
    requires At(e, a, ChoiceByTestCode(f, p1, p2, emptyp2)) && i <= |e.s|
    requires !f.empty && (emptyp2 ==> p2 == []) && o1 != Out && (o1.Ok? ==> o1.pos <= |e.s|)
    requires l1 == a + TestSize(f) + |p1| + (if emptyp2 then 0 else 2) && end == l1 + |p2|
    requires if Passes(e.s, i, f.cs) then
               && Eq(e, Run(a + TestSize(f), i, stk), After(a + TestSize(f) + |p1|, o1, stk))
               // A first alternative that fails beyond the test leaves no chance to the second.
               && (o1.Fail? ==> Eq(e, After(end, o2, stk), FailTo(stk)))
             else o1.Fail? && Eq(e, Run(l1, i, stk), After(end, o2, stk))
    ensures Eq(e, Run(a, i, stk), After(end, ChoiceOf(o1, o2), stk))
  {
    hide ChoiceByTestCode, At, Conv, CodeTest, CharsetType;
    ChoiceByTestLayout(e, a, f, p1, p2, emptyp2);
    var b := a + TestSize(f);
    var goal := After(end, ChoiceOf(o1, o2), stk);
    TestStep(e, a, f, l1 - b, i, stk);
    if Passes(e.s, i, f.cs) {
      if o1.Ok? {
        ChoiceByTestJoin(e, a, f, p1, p2, emptyp2, o1.pos, stk);
        Trans(e, Run(b, i, stk), Run(b + |p1|, o1.pos, stk), goal);
      } else {
        Sym(e, goal, FailTo(stk));
        Trans(e, Run(b, i, stk), FailTo(stk), goal);
      }
    }
    StepEq(e, Run(a, i, stk), goal);
  }

  lemma ChoiceReusedLayout(e: Env, a: int, p1: seq<Slot>)
    requires At(e, a, ChoiceReusedCode(p1))
    ensures Cell(e, a, IPartialCommit(2)) && At(e, a + 2, p1)
  {
    AtSplit(e, a, Emit(IPartialCommit(2)), p1);
    AtEmit(e, a, IPartialCommit(2));
  }

  lemma ChoiceReusedRuns(e: Env, a: int, p1: seq<Slot>, i: nat, o1: Outcome, stk: Stack)
    requires At(e, a, ChoiceReusedCode(p1)) && i <= |e.s|
    requires o1 != Out && (o1.Ok? ==> o1.pos <= |e.s|)
    requires Optional(e, a + 2 + |p1|, stk)
    requires var stk1 := Push(Back(i, stk.top.p), stk.rest);
             Eq(e, Run(a + 2, i, stk1), After(a + 2 + |p1|, o1, stk1))
    ensures Eq(e, Run(a, i, stk), After(a + |ChoiceReusedCode(p1)|, ChoiceOf(o1, Ok(i)), stk))
  {
    ChoiceReusedLayout(e, a, p1);
    var alt, end := stk.top.p, a + 2 + |p1|;
    var stk1 := Push(Back(i, alt), stk.rest);
    var j := if o1.Ok? then o1.pos else i;
    if o1.Ok? {
      assert Commits(e, end, alt, stk.rest, i, j);
      Trans(e, Run(a + 2, i, stk1), Run(end, j, stk1), Run(alt, j, stk.rest));
    }
    assert Commits(e, end, alt, stk.rest, stk.top.i, j);
    Sym(e, Run(end, j, stk), Run(alt, j, stk.rest));
    Trans(e, Run(a + 2, i, stk1), Run(alt, j, stk.rest), Run(end, j, stk));
    StepEq(e, Run(a, i, stk), Run(end, j, stk));
  }

  lemma ChoiceStackedLayout(e: Env, a: int, f: First, p1: seq<Slot>, p2: seq<Slot>)
    requires At(e, a, ChoiceStackedCode(f, p1, p2))
    ensures var b := a + TestSize(f);
            && a + |ChoiceStackedCode(f, p1, p2)| == b + 4 + |p1| + |p2|
            && At(e, a, CodeTest(f, 2 + |p1| + 2)) && Cell(e, b, IChoice(2 + |p1| + 2))
            && At(e, b + 2, p1) && Cell(e, b + 2 + |p1|, ICommit(2 + |p2|)) && At(e, b + 4 + |p1|, p2)
  {
    var b := a + TestSize(f);
    var test, ch, cm := CodeTest(f, 2 + |p1| + 2), Emit(IChoice(2 + |p1| + 2)), Emit(ICommit(2 + |p2|));
    AtSplit(e, a, test + ch + p1 + cm, p2);
    AtSplit(e, a, test + ch + p1, cm);
    AtSplit(e, a, test + ch, p1);
    AtSplit(e, a, test, ch);
    AtEmit(e, b, IChoice(2 + |p1| + 2));
    AtEmit(e, b + 2 + |p1|, ICommit(2 + |p2|));
  }

  /** A commit right before an empty alternative makes the choice on the stack reusable. */
  lemma EmptyAlternative(e: Env, m: int, i: nat, stk: Stack)
    requires Cell(e, m, ICommit(2)) && m >= 0
    ensures Optional(e, m, Push(Back(i, m + 2), stk))
  {
    var alt := m + 2;
    forall k: nat, j: nat | j <= |e.s| ensures Commits(e, m, alt, stk, k, j) {
      One(e, Run(m, j, Push(Back(k, alt), stk)), Run(alt, j, stk));
    }
  }

  lemma ChoiceStackedRuns(e: Env, a: int, f: First, p1: seq<Slot>, p2: seq<Slot>,
                          i: nat, o1: Outcome, o2: Outcome, stk: Stack)
    requires At(e, a, ChoiceStackedCode(f, p1, p2)) && i <= |e.s| && o1 != Out
    requires o1.Ok? ==> o1.pos <= |e.s|
    requires !f.empty && !Passes(e.s, i, f.cs) ==> o1 == Fail
    requires var b := a + TestSize(f);
             var l1 := b + 4 + |p1|;
             var stk1 := Push(Back(i, l1), stk);
             && (f.empty || Passes(e.s, i, f.cs) ==> Eq(e, Run(b + 2, i, stk1), After(b + 2 + |p1|, o1, stk1)))
             && (o1.Fail? ==> Eq(e, Run(l1, i, stk), After(l1 + |p2|, o2, stk)))
    ensures Eq(e, Run(a, i, stk), After(a + |ChoiceStackedCode(f, p1, p2)|, ChoiceOf(o1, o2), stk))
  {
    ChoiceStackedLayout(e, a, f, p1, p2);
    var b := a + TestSize(f);
    var m := b + 2 + |p1|;
    var l1 := m + 2;
    var goal := After(l1 + |p2|, ChoiceOf(o1, o2), stk);
    if f.empty || Passes(e.s, i, f.cs) {
      var stk1 := Push(Back(i, l1), stk);
      if o1.Ok? {
        One(e, Run(m, o1.pos, stk1), goal);
        Trans(e, Run(b + 2, i, stk1), Run(m, o1.pos, stk1), goal);
      } else {
        Trans(e, Run(b + 2, i, stk1), Run(l1, i, stk), goal);
      }
      StepEq(e, Run(b, i, stk), goal);
    }
    if !f.empty {
      TestStep(e, a, f, 2 + |p1| + 2, i, stk);
      StepEq(e, Run(a, i, stk), goal);
    }
  }

  // ---- Loops ----

  lemma RepByTestLayout(e: Env, a: int, f: First, p: seq<Slot>)
    requires At(e, a, RepByTestCode(f, p))
    ensures var b := a + TestSize(f);
            && a + |RepByTestCode(f, p)| == b + |p| + 2
            && At(e, a, CodeTest(f, |p| + 2)) && At(e, b, p)
            && Cell(e, b + |p|, IJmp(-(TestSize(f) + |p|)))
  {
    hide At, CodeTest, TestSize, CharsetType;
    var test, jmp := CodeTest(f, |p| + 2), IJmp(-(TestSize(f) + |p|));
    AtSplit(e, a, test + p, Emit(jmp));
    AtSplit(e, a, test, p);
    AtEmit(e, a + |test| + |p|, jmp);
  }

  /** One round of a loop decided by its test; 'o' is the outcome of the whole loop. */
  lemma RepByTestRuns(e: Env, a: int, f: First, p: seq<Slot>, i: nat, o1: Outcome, o: Outcome, stk: Stack)
    requires At(e, a, RepByTestCode(f, p)) && i <= |e.s| && a >= 0
    requires !f.empty && o.Ok? && (o1.Ok? ==> o1.pos <= |e.s|) && o1 != Out
    requires !Passes(e.s, i, f.cs) ==> o1 == Fail
    requires o1.Fail? ==> o == Ok(i)
    requires var b := a + TestSize(f);
             && (Passes(e.s, i, f.cs) ==> Eq(e, Run(b, i, stk), After(b + |p|, o1, stk)))
             && (o1.Ok? ==> Eq(e, Run(a, o1.pos, stk), Run(b + |p| + 2, o.pos, stk)))
             // A body that fails beyond the test means that what follows fails too.
             && (Passes(e.s, i, f.cs) && o1.Fail? ==> Eq(e, Run(b + |p| + 2, i, stk), FailTo(stk)))
    ensures Eq(e, Run(a, i, stk), Run(a + |RepByTestCode(f, p)|, o.pos, stk))
  {
    RepByTestLayout(e, a, f, p);
    var b := a + TestSize(f);
    var m := b + |p|;
    var goal := Run(m + 2, o.pos, stk);
    TestStep(e, a, f, |p| + 2, i, stk);
    if Passes(e.s, i, f.cs) {
      if o1.Ok? {
        StepEq(e, Run(m, o1.pos, stk), goal);
        Trans(e, Run(b, i, stk), Run(m, o1.pos, stk), goal);
      } else {
        Sym(e, goal, FailTo(stk));
        Trans(e, Run(b, i, stk), FailTo(stk), goal);
      }
    } else {
      Same(e, goal);
    }
    StepEq(e, Run(a, i, stk), goal);
  }

  lemma RepStackedLayout(e: Env, a: int, f: First, p: seq<Slot>, opt: bool)
    requires At(e, a, RepStackedCode(f, p, opt))
    ensures var b := a + TestSize(f);
            && a + |RepStackedCode(f, p, opt)| == b + |p| + 4
            && At(e, a, CodeTest(f, 2 + |p| + 2)) && Cell(e, b, RepEntry(p, opt))
            && At(e, b + 2, p) && Cell(e, b + 2 + |p|, IPartialCommit(-|p|))
  {
    var b := a + TestSize(f);
    var test, open := CodeTest(f, 2 + |p| + 2), Emit(RepEntry(p, opt));
    AtSplit(e, a, test + open + p, Emit(IPartialCommit(-|p|)));
    AtSplit(e, a, test + open, p);
    AtSplit(e, a, test, open);
    AtEmit(e, b, RepEntry(p, opt));
    AtEmit(e, b + 2 + |p|, IPartialCommit(-|p|));
  }

  lemma RepStackedRuns(e: Env, a: int, f: First, p: seq<Slot>, opt: bool, i: nat, j: nat, stk: Stack)
    requires At(e, a, RepStackedCode(f, p, opt)) && i <= |e.s| && j <= |e.s| && a >= 0
    requires !f.empty && !Passes(e.s, i, f.cs) ==> j == i
    requires opt ==> Optional(e, a + |RepStackedCode(f, p, opt)|, stk)
    // The loop proper, entered with its choice on the stack, ends in that choice.
    requires var l2 := a + TestSize(f) + 2;
             var alt := if opt then stk.top.p else l2 + |p| + 2;
             var rest := if opt then stk.rest else stk;
             f.empty || Passes(e.s, i, f.cs) ==>
               Eq(e, Run(l2, i, Push(Back(i, alt), rest)), Run(alt, j, rest))
    ensures Eq(e, Run(a, i, stk), Run(a + |RepStackedCode(f, p, opt)|, j, stk))
  {
    RepStackedLayout(e, a, f, p, opt);
    var b := a + TestSize(f);
    var l2 := b + 2;
    var end := l2 + |p| + 2;
    var goal := Run(end, j, stk);
    if f.empty || Passes(e.s, i, f.cs) {
      if opt {
        var alt := stk.top.p;
        assert Commits(e, end, alt, stk.rest, stk.top.i, j);
        Sym(e, goal, Run(alt, j, stk.rest));
        Trans(e, Run(l2, i, Push(Back(i, alt), stk.rest)), Run(alt, j, stk.rest), goal);
      }
      StepEq(e, Run(b, i, stk), goal);
    } else {
      Same(e, goal);
    }
    if !f.empty {
      TestStep(e, a, f, 2 + |p| + 2, i, stk);
      StepEq(e, Run(a, i, stk), goal);
    }
  }
}
