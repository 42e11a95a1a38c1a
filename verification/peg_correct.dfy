// The generated code does what the pattern means.

module PegCorrect {
  import opened PegTree
  import opened PegAnalysis
  import opened PegMachine
  import opened PegCodegen
  import opened PegShapes
  import opened PegCalls

  /** Every rule of the grammar in force lies at its position, followed by a return. */
  ghost predicate RulesAt(e: Env, c: Ctx) {
    && |e.pos| == |c.g|
    && forall r | 0 <= r < |c.g| :: RuleAt(e, c, r)
  }

  ghost predicate RuleAt(e: Env, c: Ctx, r: nat)
    requires r < |c.g| == |e.pos|
  {
    && WellFormed(c, c.g[r]) && e.pos[r] >= 0
    && At(e, e.pos[r], RuleCode(c, r))
    && Cell(e, e.pos[r] + |RuleCode(c, r)|, IRet)
  }

  ghost function RuleCode(c: Ctx, r: nat): seq<Slot>
    requires r < |c.g|
  {
    Gen(c, c.g[r], false, NoTest, FULL)
  }

  /** What the code of 't' at 'a' may rely on. */
  ghost predicate Ready(e: Env, c: Ctx, t: Tree, opt: bool, tt: Test, fl: Charset, a: int,
                        i: nat, stk: Stack, n: nat) {
    && a >= 0 && i <= |e.s| && RulesAt(e, c) && WellFormed(c, t)
    && At(e, a, Gen(c, t, opt, tt, fl))
    && TestHolds(e.s, i, tt)
    && Peg(c.g, t, e.s, i, n) != Out
    && (opt ==> Optional(e, a + |Gen(c, t, opt, tt, fl)|, stk))
    && Followed(e, a + |Gen(c, t, opt, tt, fl)|, Peg(c.g, t, e.s, i, n), fl, stk)
  }

  /** The machine goes from the start of the code of 't' to where the meaning of 't' says. */
  ghost predicate Correct(e: Env, c: Ctx, t: Tree, opt: bool, tt: Test, fl: Charset, a: int,
                          i: nat, stk: Stack, n: nat)
    requires i <= |e.s|
  {
    Eq(e, Run(a, i, stk), After(a + |Gen(c, t, opt, tt, fl)|, Peg(c.g, t, e.s, i, n), stk))
  }

  // ---- One level of code, meaning and well-formedness, constructor by constructor ----

  lemma UnfoldSeq(c: Ctx, t: Tree, opt: bool, tt: Test, fl: Charset, s: Subject, i: nat, n: nat)
    requires t.TSeq? && i <= |s|
    ensures Gen(c, t, opt, tt, fl) ==
            Gen(c, t.p1, false, tt, SeqFollow(c, t.p1, t.p2, fl)) +
            Gen(c, t.p2, opt, SeqTest(c, t.p1, tt), fl)
    ensures var o1 := Peg(c.g, t.p1, s, i, n);
            Peg(c.g, t, s, i, n) == if o1.Ok? then Peg(c.g, t.p2, s, o1.pos, n) else o1
    ensures WellFormed(c, t) ==> WellFormed(c, t.p1) && WellFormed(c, t.p2)
  {
  }

  lemma UnfoldCapture(c: Ctx, t: Tree, opt: bool, tt: Test, fl: Charset, s: Subject, i: nat, n: nat)
    requires t.TCapture? && i <= |s|
    ensures Gen(c, t, opt, tt, fl) ==
            CaptureCode(ShortCapture(c, t.p), FixedLen(c.g, t.p, c.live), Gen(c, t.p, false, tt, fl))
    ensures Peg(c.g, t, s, i, n) == Peg(c.g, t.p, s, i, n)
    ensures WellFormed(c, t) ==> WellFormed(c, t.p)
  {
  }

  lemma UnfoldBehind(c: Ctx, t: Tree, opt: bool, tt: Test, fl: Charset, s: Subject, i: nat, n: nat)
    requires t.TBehind? && i <= |s|
    ensures Gen(c, t, opt, tt, fl) == BehindIf(t.n) + Gen(c, t.p, false, NoTest, FULL)
    ensures Peg(c.g, t, s, i, n) ==
            if t.n > i then Fail
            else var o := Peg(c.g, t.p, s, i - t.n, n); if o.Ok? && o.pos != i then Fail else o
    ensures WellFormed(c, t) ==> WellFormed(c, t.p) && FixedLen(c.g, t.p, c.live) == t.n
  {
    hide FixedLen, HasCaptures, CheckAux, GetFirst, HeadFail, NeedFollow, CharsetType, CorrectCalls, Emit, TestInstr;
  }

  lemma UnfoldNot(c: Ctx, t: Tree, opt: bool, tt: Test, fl: Charset, s: Subject, i: nat, n: nat)
    requires t.TNot? && i <= |s|
    ensures Gen(c, t, opt, tt, fl) ==
            NotCode(FirstOf(c, t.p, FULL), HeadFail(c.g, t.p, c.k), Gen(c, t.p, false, NoTest, FULL))
    ensures Peg(c.g, t, s, i, n) == NotOf(Peg(c.g, t.p, s, i, n), i)
    ensures WellFormed(c, t) ==> WellFormed(c, t.p)
  {
  }

  lemma UnfoldAnd(c: Ctx, t: Tree, opt: bool, tt: Test, fl: Charset, s: Subject, i: nat, n: nat)
    requires t.TAnd? && i <= |s|
    ensures Gen(c, t, opt, tt, fl) ==
            var p := Gen(c, t.p, false, tt, FULL);
            if ShortAnd(c, t.p) then AndShortCode(FixedLen(c.g, t.p, c.live), p) else AndCode(p)
    ensures Peg(c.g, t, s, i, n) == AndOf(Peg(c.g, t.p, s, i, n), i)
    ensures WellFormed(c, t) ==> WellFormed(c, t.p)
  {
  }

  lemma UnfoldCall(c: Ctx, t: Tree, opt: bool, tt: Test, fl: Charset, s: Subject, i: nat, n: nat)
    requires t.TCall? && i <= |s|
    ensures Gen(c, t, opt, tt, fl) == Emit(IOpenCall(t.rule))
    ensures Peg(c.g, t, s, i, n) ==
            if n > 0 && t.rule < |c.g| then Peg(c.g, c.g[t.rule], s, i, n - 1) else Out
  {
  }

  lemma UnfoldChoice(c: Ctx, t: Tree, opt: bool, tt: Test, fl: Charset, s: Subject, i: nat, n: nat)
    requires t.TChoice? && i <= |s|
    ensures Gen(c, t, opt, tt, fl) ==
            var f := FirstOf(c, t.p1, FULL);
            if TestDecides(c, t.p1, t.p2, fl) then
              var f0 := First(false, f.cs);
              ChoiceByTestCode(f0, Gen(c, t.p1, false, TestOf(f0), fl),
                               Gen(c, t.p2, opt, NoTest, fl), t.p2.TTrue?)
            else if opt && t.p2.TTrue? then ChoiceReusedCode(Gen(c, t.p1, true, NoTest, FULL))
            else ChoiceStackedCode(f, Gen(c, t.p1, t.p2.TTrue?, TestOf(f), FULL),
                                   Gen(c, t.p2, opt, NoTest, fl))
    ensures t.p2.TTrue? ==> Gen(c, t.p2, opt, NoTest, fl) == [] && Peg(c.g, t.p2, s, i, n) == Ok(i)
    ensures Peg(c.g, t, s, i, n) == ChoiceOf(Peg(c.g, t.p1, s, i, n), Peg(c.g, t.p2, s, i, n))
    ensures WellFormed(c, t) ==> WellFormed(c, t.p1) && WellFormed(c, t.p2)
  {
  }

  lemma UnfoldRep(c: Ctx, t: Tree, opt: bool, tt: Test, fl: Charset, s: Subject, i: nat, n: nat)
    requires t.TRep? && i <= |s|
    ensures Gen(c, t, opt, tt, fl) ==
            var f := FirstOf(c, t.p, FULL);
            if IsCharPattern(t.p) then Emit(ISpan(ToCharset(t.p)))
            else if TestLeaves(c, t.p, fl) then
              var f0 := First(false, f.cs);
              RepByTestCode(f0, Gen(c, t.p, false, TestOf(f0), FULL))
            else RepStackedCode(f, Gen(c, t.p, false, NoTest, FULL), opt)
    ensures var o1 := Peg(c.g, t.p, s, i, n);
            && (o1.Ok? && n > 0 ==> Peg(c.g, t, s, i, n) == Peg(c.g, t, s, o1.pos, n - 1))
            && (o1.Fail? ==> Peg(c.g, t, s, i, n) == Ok(i))
            && (Peg(c.g, t, s, i, n) != Out ==> o1 != Out && (o1.Ok? ==> n > 0))
    ensures WellFormed(c, t) ==> WellFormed(c, t.p)
  {
  }

  lemma UnfoldRepMeaning(c: Ctx, q: Tree, s: Subject, i: nat, n: nat)
    requires i <= |s|
    ensures var o1 := Peg(c.g, q, s, i, n);
            && (o1.Ok? && n > 0 ==> Peg(c.g, TRep(q), s, i, n) == Peg(c.g, TRep(q), s, o1.pos, n - 1))
            && (o1.Fail? ==> Peg(c.g, TRep(q), s, i, n) == Ok(i))
            && (Peg(c.g, TRep(q), s, i, n) != Out ==> o1 != Out && (o1.Ok? ==> n > 0))
  {
  }

  lemma UnfoldGrammar(c: Ctx, t: Tree, opt: bool, tt: Test, fl: Charset, s: Subject, i: nat, n: nat)
    requires t.TGrammar? && i <= |s|
    ensures Gen(c, t, opt, tt, fl) == GrammarCode(GrammarBody(c, t.rules))
    ensures |t.rules| > 0 ==> Peg(c.g, t, s, i, n) == Peg(t.rules, t.rules[0], s, i, n)
    ensures WellFormed(c, t) ==> |t.rules| > 0
    ensures WellFormed(c, t) ==>
            forall r | 0 <= r < |t.rules| :: WellFormed(c.(g := t.rules), t.rules[r])
  {
  }

  /**
   * Code generation preserves meaning. Code for 't' at 'a' takes the machine to the end of that
   * code, at the position that the meaning of 't' gives and with the same stack, or to a failure;
   * up to states whose runs meet.
   */
  lemma {:induction false} GenCorrect(e: Env, c: Ctx, t: Tree, opt: bool, tt: Test, fl: Charset, a: int,
                                      i: nat, stk: Stack, n: nat)
    requires Ready(e, c, t, opt, tt, fl, a, i, stk, n)
    ensures Correct(e, c, t, opt, tt, fl, a, i, stk, n)
    decreases n, t, 2
  {
    match t
    case TChar(ch) => CharRuns(e, ch, tt, a, i, stk);
    case TAny =>
      AtEmit(e, a, IAny);
      One(e, Run(a, i, stk), After(a + 1, Peg(c.g, t, e.s, i, n), stk));
    case TSet(cs) => CharsetRuns(e, cs, tt, a, i, stk);
    case TTrue => Same(e, Run(a, i, stk));
    case TFalse =>
      AtEmit(e, a, IFail);
      One(e, Run(a, i, stk), FailTo(stk));
    case TChoice(_, _) => ChoiceCorrect(e, c, t, opt, tt, fl, a, i, stk, n);
    case TRep(_) => RepCorrect(e, c, t, opt, tt, fl, a, i, stk, n);
    case TBehind(_, _) => BehindCorrect(e, c, t, opt, tt, fl, a, i, stk, n);
    case TNot(_) => NotCorrect(e, c, t, opt, tt, fl, a, i, stk, n);
    case TAnd(_) => AndCorrect(e, c, t, opt, tt, fl, a, i, stk, n);
    case TCapture(_) => CaptureCorrect(e, c, t, opt, tt, fl, a, i, stk, n);
    case TGrammar(_) => GrammarCorrect(e, c, t, opt, tt, fl, a, i, stk, n);
    case TCall(_, _) => CallCorrect(e, c, t, opt, tt, fl, a, i, stk, n);
    case TSeq(_, _) => SeqCorrect(e, c, t, opt, tt, fl, a, i, stk, n);
  }

  lemma {:induction false} SeqCorrect(e: Env, c: Ctx, t: Tree, opt: bool, tt: Test, fl: Charset, a: int,
                                      i: nat, stk: Stack, n: nat)
    requires t.TSeq? && Ready(e, c, t, opt, tt, fl, a, i, stk, n)
    ensures Correct(e, c, t, opt, tt, fl, a, i, stk, n)
    decreases n, t, 1
  {
    hide Gen, Peg, WellFormed, FixedLen, CheckAux, GetFirst, HeadFail, HasCaptures, NeedFollow, Conv;
    UnfoldSeq(c, t, opt, tt, fl, e.s, i, n);
    var fl1, tt2 := SeqFollow(c, t.p1, t.p2, fl), SeqTest(c, t.p1, tt);
    var c1, c2 := Gen(c, t.p1, false, tt, fl1), Gen(c, t.p2, opt, tt2, fl);
    AtSplit(e, a, c1, c2);
    var mid, end := a + |c1|, a + |c1| + |c2|;
    var o1 := Peg(c.g, t.p1, e.s, i, n);
    if o1.Ok? {
      if FixedLen(c.g, t.p1, c.live) == 0 { FixedLenSound(c.g, t.p1, c.live, e.s, i, n); }
      GenCorrect(e, c, t.p2, opt, tt2, fl, mid, o1.pos, stk, n);
      var o2 := Peg(c.g, t.p2, e.s, o1.pos, n);
      if o1.pos < |e.s| && e.s[o1.pos] !in fl1 {
        GetFirstSound(c.g, t.p2, fl, c.k, e.s, o1.pos, n);
        if o2.Ok? {
          Trans(e, Run(mid, o1.pos, stk), Run(end, o2.pos, stk), FailTo(stk));
        }
      }
      GenCorrect(e, c, t.p1, false, tt, fl1, a, i, stk, n);
      Trans(e, Run(a, i, stk), Run(mid, o1.pos, stk), After(end, o2, stk));
    } else {
      GenCorrect(e, c, t.p1, false, tt, fl1, a, i, stk, n);
    }
  }

  lemma {:induction false} CaptureCorrect(e: Env, c: Ctx, t: Tree, opt: bool, tt: Test, fl: Charset, a: int,
                                          i: nat, stk: Stack, n: nat)
    requires t.TCapture? && Ready(e, c, t, opt, tt, fl, a, i, stk, n)
    ensures Correct(e, c, t, opt, tt, fl, a, i, stk, n)
    decreases n, t, 1
  {
    hide Gen, Peg, WellFormed, FixedLen, CheckAux, GetFirst, HeadFail, HasCaptures, NeedFollow, Conv, At,
         CaptureCode, AndCode, RulesAt;
    UnfoldCapture(c, t, opt, tt, fl, e.s, i, n);
    var short, len := ShortCapture(c, t.p), FixedLen(c.g, t.p, c.live);
    var p := Gen(c, t.p, false, tt, fl);
    var o := Peg(c.g, t.p, e.s, i, n);
    CaptureLayout(e, a, short, len, p);
    var b := a + (if ShortForm(short, len) then 0 else 1);
    if o.Ok? && o.pos < |e.s| && e.s[o.pos] !in fl {
      CaptureEnd(e, a, short, len, p, o.pos, stk);
      Trans(e, Run(b + |p|, o.pos, stk), Run(a + |CaptureCode(short, len, p)|, o.pos, stk), FailTo(stk));
    }
    GenCorrect(e, c, t.p, false, tt, fl, b, i, stk, n);
    CaptureRuns(e, a, short, len, p, i, o, stk);
  }

  lemma {:induction false} BehindCorrect(e: Env, c: Ctx, t: Tree, opt: bool, tt: Test, fl: Charset, a: int,
                                         i: nat, stk: Stack, n: nat)
    requires t.TBehind? && Ready(e, c, t, opt, tt, fl, a, i, stk, n)
    ensures Correct(e, c, t, opt, tt, fl, a, i, stk, n)
    decreases n, t, 1
  {
    hide Gen, Peg, WellFormed, FixedLen, CheckAux, GetFirst, HeadFail, HasCaptures, NeedFollow, Conv;
    UnfoldBehind(c, t, opt, tt, fl, e.s, i, n);
    var p := Gen(c, t.p, false, NoTest, FULL);
    AtSplit(e, a, BehindIf(t.n), p);
    var b := a + |BehindIf(t.n)|;
    if t.n > 0 { AtEmit(e, a, IBehind(t.n)); }
    if t.n > i {
      One(e, Run(a, i, stk), FailTo(stk));
    } else {
      GenCorrect(e, c, t.p, false, NoTest, FULL, b, i - t.n, stk, n);
      FixedLenSound(c.g, t.p, c.live, e.s, i - t.n, n);
      if t.n > 0 { StepEq(e, Run(a, i, stk), After(b + |p|, Peg(c.g, t, e.s, i, n), stk)); }
    }
  }

  lemma {:induction false} NotCorrect(e: Env, c: Ctx, t: Tree, opt: bool, tt: Test, fl: Charset, a: int,
                                      i: nat, stk: Stack, n: nat)
    requires t.TNot? && Ready(e, c, t, opt, tt, fl, a, i, stk, n)
    ensures Correct(e, c, t, opt, tt, fl, a, i, stk, n)
    decreases n, t, 1
  {
    hide Gen, Peg, WellFormed, FixedLen, CheckAux, GetFirst, HeadFail, HasCaptures, NeedFollow, Conv;
    hide NotCode, ChoiceByTestCode, ChoiceStackedCode, RepByTestCode, RepStackedCode;
    hide At, CodeTest, TestSize, TestOf, CharsetType, Step;
    UnfoldNot(c, t, opt, tt, fl, e.s, i, n);
    var f, hf := FirstOf(c, t.p, FULL), HeadFail(c.g, t.p, c.k);
    var p := Gen(c, t.p, false, NoTest, FULL);
    var o := Peg(c.g, t.p, e.s, i, n);
    NotLayout(e, a, f, hf, p);
    GetFirstSound(c.g, t.p, FULL, c.k, e.s, i, n);
    if hf {
      HeadFailExact(c.g, t.p, c.k, e.s, i, n);
    } else {
      var b := a + TestSize(f);
      GenCorrect(e, c, t.p, false, NoTest, FULL, b + 2, i, Push(Back(i, b + 2 + |p| + 1), stk), n);
    }
    NotRuns(e, a, f, hf, p, i, o, stk);
  }

  lemma {:induction false} AndCorrect(e: Env, c: Ctx, t: Tree, opt: bool, tt: Test, fl: Charset, a: int,
                                      i: nat, stk: Stack, n: nat)
    requires t.TAnd? && Ready(e, c, t, opt, tt, fl, a, i, stk, n)
    ensures Correct(e, c, t, opt, tt, fl, a, i, stk, n)
    decreases n, t, 1
  {
    hide Gen, Peg, WellFormed, FixedLen, CheckAux, GetFirst, HeadFail, HasCaptures, NeedFollow, Conv, At,
         CaptureCode, AndCode, RulesAt;
    UnfoldAnd(c, t, opt, tt, fl, e.s, i, n);
    var p := Gen(c, t.p, false, tt, FULL);
    var o := Peg(c.g, t.p, e.s, i, n);
    if ShortAnd(c, t.p) {
      var len := FixedLen(c.g, t.p, c.live);
      AtSplit(e, a, p, BehindIf(len));
      GenCorrect(e, c, t.p, false, tt, FULL, a, i, stk, n);
      FixedLenSound(c.g, t.p, c.live, e.s, i, n);
      AndShortRuns(e, a, len, p, i, o, stk);
    } else {
      AndLayout(e, a, p);
      GenCorrect(e, c, t.p, false, tt, FULL, a + 2, i, Push(Back(i, a + 4 + |p|), stk), n);
      AndRuns(e, a, p, i, o, stk);
    }
  }

  lemma {:induction false} CallCorrect(e: Env, c: Ctx, t: Tree, opt: bool, tt: Test, fl: Charset, a: int,
                                       i: nat, stk: Stack, n: nat)
    requires t.TCall? && Ready(e, c, t, opt, tt, fl, a, i, stk, n)
    ensures Correct(e, c, t, opt, tt, fl, a, i, stk, n)
    decreases n, t, 1
  {
    hide Gen, Peg, WellFormed, FixedLen, CheckAux, GetFirst, HeadFail, HasCaptures, NeedFollow, Conv;
    UnfoldCall(c, t, opt, tt, fl, e.s, i, n);
    var r := t.rule;
    var o := Peg(c.g, c.g[r], e.s, i, n - 1);
    assert RuleAt(e, c, r);
    assert SlotAt(e, a + 0, Emit(IOpenCall(r))[0]);
    var start, ret := e.pos[r], e.pos[r] + |RuleCode(c, r)|;
    if Cell(e, a, ICall(start - a)) {
      var stk1 := Push(Ret(a + 2), stk);
      GenCorrect(e, c, c.g[r], false, NoTest, FULL, start, i, stk1, n - 1);
      if o.Ok? {
        One(e, Run(ret, o.pos, stk1), Run(a + 2, o.pos, stk));
        Trans(e, Run(start, i, stk1), Run(ret, o.pos, stk1), Run(a + 2, o.pos, stk));
      }
    } else {
      GenCorrect(e, c, c.g[r], false, NoTest, FULL, start, i, stk, n - 1);
      if o.Ok? {
        BothReturn(e, ret, a + 2, o.pos, stk);
        Trans(e, Run(start, i, stk), Run(ret, o.pos, stk), Run(a + 2, o.pos, stk));
      }
    }
    StepEq(e, Run(a, i, stk), After(a + 2, o, stk));
  }

  /** A return and a place from which jumps lead to a return pop the same entry. */
  lemma BothReturn(e: Env, ret: int, q: int, j: nat, stk: Stack)
    requires Cell(e, ret, IRet) && JumpsToRet(e.code, q) && j <= |e.s|
    ensures Eq(e, Run(ret, j, stk), Run(q, j, stk))
  {
    var m: nat :| IsRetAt(e.code, Chase(e.code, q, m));
    var x := Chase(e.code, q, m);
    var popped := Step(e.code, e.s, Run(x, j, stk));
    One(e, Run(ret, j, stk), popped);
    ChaseEq(e, q, m, j, stk);
    One(e, Run(x, j, stk), popped);
    Trans(e, Run(q, j, stk), Run(x, j, stk), popped);
    Sym(e, Run(q, j, stk), popped);
    Trans(e, Run(ret, j, stk), popped, Run(q, j, stk));
  }

  lemma {:induction false} ChoiceCorrect(e: Env, c: Ctx, t: Tree, opt: bool, tt: Test, fl: Charset, a: int,
                                         i: nat, stk: Stack, n: nat)
    requires t.TChoice? && Ready(e, c, t, opt, tt, fl, a, i, stk, n)
    ensures Correct(e, c, t, opt, tt, fl, a, i, stk, n)
    decreases n, t, 1
  {
    hide Gen, Peg, WellFormed, FixedLen, CheckAux, GetFirst, HeadFail, HasCaptures, NeedFollow, Conv;
    hide ChoiceByTestCode, ChoiceStackedCode, CodeTest, TestSize, TestOf, CharsetType, At;
    UnfoldChoice(c, t, opt, tt, fl, e.s, i, n);
    if TestDecides(c, t.p1, t.p2, fl) {
      ChoiceByTestCorrect(e, c, t, opt, tt, fl, a, i, stk, n);
    } else if opt && t.p2.TTrue? {
      var p1 := Gen(c, t.p1, true, NoTest, FULL);
      var stk1 := Push(Back(i, stk.top.p), stk.rest);
      ChoiceReusedLayout(e, a, p1);
      GenCorrect(e, c, t.p1, true, NoTest, FULL, a + 2, i, stk1, n);
      ChoiceReusedRuns(e, a, p1, i, Peg(c.g, t.p1, e.s, i, n), stk);
    } else {
      ChoiceStackedCorrect(e, c, t, opt, tt, fl, a, i, stk, n);
    }
  }

  lemma {:induction false} ChoiceByTestCorrect(e: Env, c: Ctx, t: Tree, opt: bool, tt: Test, fl: Charset,
                                               a: int, i: nat, stk: Stack, n: nat)
    requires t.TChoice? && Ready(e, c, t, opt, tt, fl, a, i, stk, n)
    requires TestDecides(c, t.p1, t.p2, fl)
    ensures Correct(e, c, t, opt, tt, fl, a, i, stk, n)
    decreases n, t, 0
  {
    hide Gen, Peg, WellFormed, FixedLen, CheckAux, GetFirst, HeadFail, HasCaptures, NeedFollow, Conv;
    hide NotCode, ChoiceByTestCode, ChoiceStackedCode, RepByTestCode, RepStackedCode;
    hide At, CodeTest, TestSize, TestOf, CharsetType, Step;
    UnfoldChoice(c, t, opt, tt, fl, e.s, i, n);
    var f := First(false, FirstOf(c, t.p1, FULL).cs);
    var p1, p2 := Gen(c, t.p1, false, TestOf(f), fl), Gen(c, t.p2, opt, NoTest, fl);
    ChoiceByTestLayout(e, a, f, p1, p2, t.p2.TTrue?);
    var b := a + TestSize(f);
    var l1 := b + |p1| + (if t.p2.TTrue? then 0 else 2);
    var end := l1 + |p2|;
    var o1 := Peg(c.g, t.p1, e.s, i, n);
    var o2 := if o1.Fail? then Peg(c.g, t.p2, e.s, i, n) else Out;
    GetFirstSound(c.g, t.p1, FULL, c.k, e.s, i, n);
    if HeadFail(c.g, t.p1, c.k) { HeadFailExact(c.g, t.p1, c.k, e.s, i, n); }
    if Passes(e.s, i, f.cs) {
      TestStep(e, a, f, l1 - b, i, stk);
      if o1.Ok? {
        ChoiceByTestJoin(e, a, f, p1, p2, t.p2.TTrue?, o1.pos, stk);
        if o1.pos < |e.s| && e.s[o1.pos] !in fl {
          Trans(e, Run(b + |p1|, o1.pos, stk), Run(end, o1.pos, stk), FailTo(stk));
        }
      } else {
        // The first alternative failed further on; the second cannot start with this character.
        GetFirstSound(c.g, t.p2, fl, c.k, e.s, i, n);
        if !o2.Ok? { Same(e, FailTo(stk)); }
      }
      GenCorrect(e, c, t.p1, false, TestOf(f), fl, b, i, stk, n);
    } else {
      GenCorrect(e, c, t.p2, opt, NoTest, fl, l1, i, stk, n);
    }
    ChoiceByTestRuns(e, a, f, p1, p2, t.p2.TTrue?, i, o1, o2, stk, l1, end);
  }

  lemma {:induction false} ChoiceStackedCorrect(e: Env, c: Ctx, t: Tree, opt: bool, tt: Test, fl: Charset,
                                                a: int, i: nat, stk: Stack, n: nat)
    requires t.TChoice? && Ready(e, c, t, opt, tt, fl, a, i, stk, n)
    requires !TestDecides(c, t.p1, t.p2, fl) && !(opt && t.p2.TTrue?)
    ensures Correct(e, c, t, opt, tt, fl, a, i, stk, n)
    decreases n, t, 0
  {
    hide Gen, Peg, WellFormed, FixedLen, CheckAux, GetFirst, HeadFail, HasCaptures, NeedFollow, Conv;
    hide NotCode, ChoiceByTestCode, ChoiceStackedCode, RepByTestCode, RepStackedCode;
    hide At, CodeTest, TestSize, CharsetType, Step;
    UnfoldChoice(c, t, opt, tt, fl, e.s, i, n);
    var f := FirstOf(c, t.p1, FULL);
    var p1, p2 := Gen(c, t.p1, t.p2.TTrue?, TestOf(f), FULL), Gen(c, t.p2, opt, NoTest, fl);
    ChoiceStackedLayout(e, a, f, p1, p2);
    var b := a + TestSize(f);
    var m := b + 2 + |p1|;
    var o1 := Peg(c.g, t.p1, e.s, i, n);
    var o2 := if o1.Fail? then Peg(c.g, t.p2, e.s, i, n) else Out;
    GetFirstSound(c.g, t.p1, FULL, c.k, e.s, i, n);
    if f.empty || Passes(e.s, i, f.cs) {
      if !f.empty { TestStep(e, a, f, 2 + |p1| + 2, i, stk); }
      if t.p2.TTrue? { EmptyAlternative(e, m, i, stk); }
      GenCorrect(e, c, t.p1, t.p2.TTrue?, TestOf(f), FULL, b + 2, i, Push(Back(i, m + 2), stk), n);
    }
    if o1.Fail? { GenCorrect(e, c, t.p2, opt, NoTest, fl, m + 2, i, stk, n); }
    ChoiceStackedRuns(e, a, f, p1, p2, i, o1, o2, stk);
  }

  lemma {:induction false} RepCorrect(e: Env, c: Ctx, t: Tree, opt: bool, tt: Test, fl: Charset, a: int,
                                      i: nat, stk: Stack, n: nat)
    requires t.TRep? && Ready(e, c, t, opt, tt, fl, a, i, stk, n)
    ensures Correct(e, c, t, opt, tt, fl, a, i, stk, n)
    decreases n, t, 1
  {
    hide Gen, Peg, WellFormed, FixedLen, CheckAux, GetFirst, HeadFail, HasCaptures, NeedFollow, Conv;
    UnfoldRep(c, t, opt, tt, fl, e.s, i, n);
    if IsCharPattern(t.p) {
      AtEmit(e, a, ISpan(ToCharset(t.p)));
      RepOfChar(c.g, t.p, e.s, i, n);
      One(e, Run(a, i, stk), After(a + 9, Peg(c.g, t, e.s, i, n), stk));
    } else if TestLeaves(c, t.p, fl) {
      RepByTestCorrect(e, c, t, opt, tt, fl, a, i, stk, n);
    } else {
      RepStackedCorrect(e, c, t, opt, tt, fl, a, i, stk, n);
    }
  }

  /** A loop over characters stops where a span stops. */
  lemma {:induction false} RepOfChar(g: seq<Tree>, p: Tree, s: Subject, i: nat, n: nat)
    requires i <= |s| && IsCharPattern(p) && Peg(g, TRep(p), s, i, n) != Out
    ensures Peg(g, TRep(p), s, i, n) == Ok(SpanEnd(ToCharset(p), s, i))
    decreases n
  {
    if i < |s| && s[i] in ToCharset(p) {
      assert Peg(g, p, s, i, n) == Ok(i + 1);
      RepOfChar(g, p, s, i + 1, n - 1);
    } else {
      assert Peg(g, p, s, i, n) == Fail;
    }
  }

  lemma {:induction false} RepByTestCorrect(e: Env, c: Ctx, t: Tree, opt: bool, tt: Test, fl: Charset,
                                            a: int, i: nat, stk: Stack, n: nat)
    requires t.TRep? && Ready(e, c, t, opt, tt, fl, a, i, stk, n)
    requires !IsCharPattern(t.p) && TestLeaves(c, t.p, fl)
    ensures Correct(e, c, t, opt, tt, fl, a, i, stk, n)
    decreases n, t, 0
  {
    hide Gen, Peg, WellFormed, FixedLen, CheckAux, GetFirst, HeadFail, HasCaptures, NeedFollow, Conv;
    hide NotCode, ChoiceByTestCode, ChoiceStackedCode, RepByTestCode, RepStackedCode;
    hide At, CodeTest, TestSize, TestOf, CharsetType, Step;
    UnfoldRep(c, t, opt, tt, fl, e.s, i, n);
    var f := First(false, FirstOf(c, t.p, FULL).cs);
    var p := Gen(c, t.p, false, TestOf(f), FULL);
    RepByTestLayout(e, a, f, p);
    var b := a + TestSize(f);
    var o1, o := Peg(c.g, t.p, e.s, i, n), Peg(c.g, t, e.s, i, n);
    RepNeverFails(c.g, t.p, e.s, i, n);
    GetFirstSound(c.g, t.p, FULL, c.k, e.s, i, n);
    if HeadFail(c.g, t.p, c.k) { HeadFailExact(c.g, t.p, c.k, e.s, i, n); }
    if Passes(e.s, i, f.cs) {
      TestStep(e, a, f, |p| + 2, i, stk);
      GenCorrect(e, c, t.p, false, TestOf(f), FULL, b, i, stk, n);
    }
    if o1.Ok? {
      UnfoldRep(c, t, opt, NoTest, fl, e.s, i, n);
      GenCorrect(e, c, t, opt, NoTest, fl, a, o1.pos, stk, n - 1);
    }
    RepByTestRuns(e, a, f, p, i, o1, o, stk);
  }

  lemma {:induction false} RepStackedCorrect(e: Env, c: Ctx, t: Tree, opt: bool, tt: Test, fl: Charset,
                                             a: int, i: nat, stk: Stack, n: nat)
    requires t.TRep? && Ready(e, c, t, opt, tt, fl, a, i, stk, n)
    requires !IsCharPattern(t.p) && !TestLeaves(c, t.p, fl)
    ensures Correct(e, c, t, opt, tt, fl, a, i, stk, n)
    decreases n, t, 0, 1
  {
    hide Gen, Peg, WellFormed, FixedLen, CheckAux, GetFirst, HeadFail, HasCaptures, NeedFollow, Conv;
    hide NotCode, ChoiceByTestCode, ChoiceStackedCode, RepByTestCode, RepStackedCode;
    hide At, CodeTest, TestSize, TestOf, CharsetType, Step;
    UnfoldRep(c, t, opt, tt, fl, e.s, i, n);
    var f := FirstOf(c, t.p, FULL);
    var p := Gen(c, t.p, false, NoTest, FULL);
    RepStackedLayout(e, a, f, p, opt);
    var l2 := a + TestSize(f) + 2;
    var o := Peg(c.g, t, e.s, i, n);
    RepNeverFails(c.g, t.p, e.s, i, n);
    GetFirstSound(c.g, t.p, FULL, c.k, e.s, i, n);
    if opt {
      RepLoop(e, c, t.p, l2, stk.top.p, i, stk.rest, n);
    } else {
      RepLoop(e, c, t.p, l2, l2 + |p| + 2, i, stk, n);
    }
    RepStackedRuns(e, a, f, p, opt, i, o.pos, stk);
  }

  /** The inside of a loop whose choice is on the stack: it ends by failing into that choice. */
  lemma {:induction false} RepLoop(e: Env, c: Ctx, q: Tree, l2: int, alt: int, i: nat, rest: Stack, n: nat)
    requires l2 >= 0 && i <= |e.s| && RulesAt(e, c) && WellFormed(c, q)
    requires At(e, l2, Gen(c, q, false, NoTest, FULL))
    requires var p := Gen(c, q, false, NoTest, FULL); Cell(e, l2 + |p|, IPartialCommit(-|p|))
    requires Peg(c.g, TRep(q), e.s, i, n).Ok?
    ensures Eq(e, Run(l2, i, Push(Back(i, alt), rest)), Run(alt, Peg(c.g, TRep(q), e.s, i, n).pos, rest))
    decreases n, TRep(q), 0, 0
  {
    hide Gen, Peg, WellFormed, FixedLen, CheckAux, GetFirst, HeadFail, HasCaptures, NeedFollow, Conv;
    UnfoldRepMeaning(c, q, e.s, i, n);
    var m := l2 + |Gen(c, q, false, NoTest, FULL)|;
    var o1, o := Peg(c.g, q, e.s, i, n), Peg(c.g, TRep(q), e.s, i, n);
    var stk := Push(Back(i, alt), rest);
    GenCorrect(e, c, q, false, NoTest, FULL, l2, i, stk, n);
    if o1.Ok? {
      RepLoop(e, c, q, l2, alt, o1.pos, rest, n - 1);
      StepEq(e, Run(m, o1.pos, stk), Run(alt, o.pos, rest));
      Trans(e, Run(l2, i, stk), Run(m, o1.pos, stk), Run(alt, o.pos, rest));
    }
  }

  lemma {:induction false} GrammarCorrect(e: Env, c: Ctx, t: Tree, opt: bool, tt: Test, fl: Charset, a: int,
                                          i: nat, stk: Stack, n: nat)
    requires t.TGrammar? && Ready(e, c, t, opt, tt, fl, a, i, stk, n)
    ensures Correct(e, c, t, opt, tt, fl, a, i, stk, n)
    decreases n, t, 1
  {
    hide Gen, Peg, WellFormed, FixedLen, CheckAux, GetFirst, HeadFail, HasCaptures, NeedFollow, Conv;
    UnfoldGrammar(c, t, opt, tt, fl, e.s, i, n);
    var rules := t.rules;
    var body := GrammarBody(c, rules);
    var start := a + 4;
    AtSplit(e, a, Emit(ICall(4)) + Emit(IJmp(2 + |body|)), body);
    AtSplit(e, a, Emit(ICall(4)), Emit(IJmp(2 + |body|)));
    AtEmit(e, a, ICall(4));
    AtEmit(e, a + 2, IJmp(2 + |body|));
    var e1, c1 := e.(pos := Shifted(RulePositions(c.(g := rules), rules), start)), c.(g := rules);
    InnerRules(e, c, rules, start);
    assert RuleAt(e1, c1, 0);
    var ret := start + |RuleCode(c1, 0)|;
    var stk1 := Push(Ret(a + 2), stk);
    var o := Peg(rules, rules[0], e.s, i, n);
    GenCorrect(e1, c1, rules[0], false, NoTest, FULL, start, i, stk1, n);
    if o.Ok? {
      One(e, Run(a + 2, o.pos, stk), Run(start + |body|, o.pos, stk));
      StepEq(e, Run(ret, o.pos, stk1), Run(start + |body|, o.pos, stk));
      Trans(e, Run(start, i, stk1), Run(ret, o.pos, stk1), Run(start + |body|, o.pos, stk));
    }
    StepEq(e, Run(a, i, stk), After(start + |body|, o, stk));
  }

  function Shifted(ps: seq<int>, d: int): (r: seq<int>)
    ensures |r| == |ps| && forall k | 0 <= k < |ps| :: r[k] == ps[k] + d
  {
    seq(|ps|, k requires 0 <= k < |ps| => ps[k] + d)
  }

  /** Jump chains do not depend on where the code lies. */
  lemma {:induction false} ChaseShift(code: seq<Slot>, body: seq<Slot>, d: int, x: int, n: nat)
    requires 0 <= d && d + |body| <= |code|
    requires forall k | 0 <= k < |body| :: code[d + k] == body[k]
    requires IsRetAt(body, Chase(body, x, n))
    ensures Chase(code, x + d, n) == Chase(body, x, n) + d && IsRetAt(code, Chase(code, x + d, n))
    decreases n
  {
    if n > 0 && IsJmpAt(body, x) {
      assert code[d + x] == body[x];
      ChaseShift(code, body, d, x + body[x].instr.off, n - 1);
    } else {
      assert code[d + x] == body[x];
    }
  }

  /** Where the rules lie in the body of a grammar. */
  lemma {:induction false} RuleInside(c: Ctx, rules: seq<Tree>, r: nat, m: nat)
    requires r < m <= |rules| && c.g == rules
    ensures var raw, q := GenRules(c, rules, m), |GenRules(c, rules, r)|;
            && q + |RuleCode(c, r)| < |raw|
            && raw[q..q + |RuleCode(c, r)|] == RuleCode(c, r)
            && raw[q + |RuleCode(c, r)|] == I(IRet)
    decreases m
  {
    hide Gen;
    var raw, q := GenRules(c, rules, m), |GenRules(c, rules, r)|;
    var prev := GenRules(c, rules, m - 1);
    if r < m - 1 {
      RuleInside(c, rules, r, m - 1);
      assert raw[q..q + |RuleCode(c, r)|] == prev[q..q + |RuleCode(c, r)|];
    } else {
      assert raw == prev + RuleCode(c, r) + Emit(IRet);
    }
  }

  /** The rules of a nested grammar lie where its calls go. */
  lemma InnerRules(e: Env, c: Ctx, rules: seq<Tree>, start: int)
    requires start >= 0 && At(e, start, GrammarBody(c, rules))
    requires forall r | 0 <= r < |rules| :: WellFormed(c.(g := rules), rules[r])
    ensures var c1 := c.(g := rules);
            RulesAt(e.(pos := Shifted(RulePositions(c1, rules), start)), c1)
  {
    hide Gen, GrammarBody, GenRules, WellFormed, SlotAt, RuleAt, CorrectCalls, Tidy;
    var c1 := c.(g := rules);
    var raw, ps := GenRules(c1, rules, |rules|), RulePositions(c1, rules);
    var e1 := e.(pos := Shifted(ps, start));
    RulesSound(c1, rules, |rules|);
    assert raw[0..] == raw;
    assert At(e1, start, raw) by {
      forall k | 0 <= k < |raw| ensures SlotAt(e1, start + k, raw[k]) {
        InnerSlot(e, c, rules, start, k);
      }
    }
    forall r | 0 <= r < |rules| ensures RuleAt(e1, c1, r) {
      InnerRule(e1, c1, r, start);
    }
  }

  lemma InnerRule(e: Env, c: Ctx, r: nat, start: int)
    requires start >= 0 && r < |c.g| && WellFormed(c, c.g[r]) && At(e, start, GenRules(c, c.g, |c.g|))
    requires e.pos == Shifted(RulePositions(c, c.g), start)
    ensures RuleAt(e, c, r)
  {
    hide Gen, GenRules, WellFormed;
    var raw, q, x := GenRules(c, c.g, |c.g|), |GenRules(c, c.g, r)|, RuleCode(c, r);
    RuleInside(c, c.g, r, |c.g|);
    assert raw == raw[..q] + raw[q..q + |x|] + raw[q + |x|..];
    AtSplit(e, start, raw[..q] + raw[q..q + |x|], raw[q + |x|..]);
    AtSplit(e, start, raw[..q], raw[q..q + |x|]);
    assert SlotAt(e, start + (q + |x|), raw[q + |x|]);
  }

  lemma InnerSlot(e: Env, c: Ctx, rules: seq<Tree>, start: int, k: nat)
    requires start >= 0 && At(e, start, GrammarBody(c, rules))
    requires forall r | 0 <= r < |rules| :: WellFormed(c.(g := rules), rules[r])
    requires k < |GenRules(c.(g := rules), rules, |rules|)|
    ensures var c1 := c.(g := rules);
            SlotAt(e.(pos := Shifted(RulePositions(c1, rules), start)), start + k,
                   GenRules(c1, rules, |rules|)[k])
  {
    hide Gen, GenRules, WellFormed, Peg, FixedLen, CheckAux, GetFirst, HeadFail, HasCaptures, CorrectCalls, Tidy, Conv;
    var c1 := c.(g := rules);
    var raw, ps, body := GenRules(c1, rules, |rules|), RulePositions(c1, rules), GrammarBody(c, rules);
    RulesSound(c1, rules, |rules|);
    assert raw[0..] == raw;
    CorrectTidy(raw, ps, 0);
    CorrectCloses(raw, ps, 0, k);
    forall j | 0 <= j < |body| ensures start + j < |e.code| && e.code[start + j] == body[j] {
      assert SlotAt(e, start + j, body[j]);
    }
    if |body| > 0 { assert SlotAt(e, start + (|body| - 1), body[|body| - 1]); }
    if IsOpenCall(raw[k]) && body[k].instr.IJmp? {
      var m: nat :| IsRetAt(body, Chase(body, k + 2, m));
      ChaseShift(e.code, body, start, k + 2, m);
      assert IsRetAt(e.code, Chase(e.code, start + k + 2, m));
    }
  }
}
