// Every label of generated code lies inside that code, or right behind it.

module PegLabels {
  import opened PegTree
  import opened PegAnalysis
  import opened PegMachine
  import opened PegCodegen
  import opened PegShapes
  import opened PegCalls
  import opened PegCorrect

  /** The labels of 'c', seen from its start, lie between 'lo' and 'hi'. */
  predicate LabelsIn(c: seq<Slot>, lo: int, hi: int) {
    forall k | 0 <= k < |c| && c[k].I? && HasLabel(c[k].instr) :: lo <= k + c[k].instr.off <= hi
  }

  predicate Inside(c: seq<Slot>) { LabelsIn(c, 0, |c|) }

  lemma EmitIn(i: Instr, lo: int, hi: int)
    requires HasLabel(i) ==> lo <= i.off <= hi
    ensures LabelsIn(Emit(i), lo, hi)
  {
  }

  lemma ConcatIn(x: seq<Slot>, y: seq<Slot>, lo: int, hi: int)
    requires LabelsIn(x, lo, hi) && LabelsIn(y, lo - |x|, hi - |x|)
    ensures LabelsIn(x + y, lo, hi)
  {
    var c := x + y;
    forall k | 0 <= k < |c| && c[k].I? && HasLabel(c[k].instr) ensures lo <= k + c[k].instr.off <= hi {
      if k >= |x| { assert c[k] == y[k - |x|]; } else { assert c[k] == x[k]; }
    }
  }

  lemma TestIn(f: First, rest: nat, lo: int, hi: int)
    requires lo <= 0 && TestSize(f) + rest <= hi
    ensures LabelsIn(CodeTest(f, rest), lo, hi)
  {
    if !f.empty { EmitIn(TestInstr(f.cs, TestSize(f) + rest), lo, hi); }
  }

  lemma Concat3In(x: seq<Slot>, y: seq<Slot>, z: seq<Slot>, lo: int, hi: int)
    requires LabelsIn(x, lo, hi) && LabelsIn(y, lo - |x|, hi - |x|)
    requires LabelsIn(z, lo - |x| - |y|, hi - |x| - |y|)
    ensures LabelsIn(x + y + z, lo, hi)
  {
    ConcatIn(x, y, lo, hi);
    ConcatIn(x + y, z, lo, hi);
  }

  lemma Concat4In(x: seq<Slot>, y: seq<Slot>, z: seq<Slot>, u: seq<Slot>, lo: int, hi: int)
    requires LabelsIn(x, lo, hi) && LabelsIn(y, lo - |x|, hi - |x|)
    requires LabelsIn(z, lo - |x| - |y|, hi - |x| - |y|)
    requires LabelsIn(u, lo - |x| - |y| - |z|, hi - |x| - |y| - |z|)
    ensures LabelsIn(x + y + z + u, lo, hi)
  {
    Concat3In(x, y, z, lo, hi);
    ConcatIn(x + y + z, u, lo, hi);
  }

  lemma NotIn(f: First, hf: bool, p: seq<Slot>)
    requires Inside(p)
    ensures Inside(NotCode(f, hf, p))
  {
    var n := |NotCode(f, hf, p)|;
    if hf {
      TestIn(f, 1, 0, n);
      ConcatIn(CodeTest(f, 1), Emit(IFail), 0, n);
    } else {
      TestIn(f, 2 + |p| + 1, 0, n);
      Concat4In(CodeTest(f, 2 + |p| + 1), Emit(IChoice(2 + |p| + 1)), p, Emit(IFailTwice), 0, n);
    }
  }

  lemma AndIn(p: seq<Slot>)
    requires Inside(p)
    ensures Inside(AndCode(p))
  {
    Concat4In(Emit(IChoice(2 + |p| + 2)), p, Emit(IBackCommit(3)), Emit(IFail), 0, |AndCode(p)|);
  }

  lemma AndShortIn(len: nat, p: seq<Slot>)
    requires Inside(p)
    ensures Inside(AndShortCode(len, p))
  {
    ConcatIn(p, BehindIf(len), 0, |AndShortCode(len, p)|);
  }

  lemma CaptureIn(short: bool, len: int, p: seq<Slot>)
    requires Inside(p)
    ensures Inside(CaptureCode(short, len, p))
  {
    var n := |CaptureCode(short, len, p)|;
    if ShortForm(short, len) {
      ConcatIn(p, Emit(IFullCapture(len)), 0, n);
    } else {
      Concat3In(Emit(IOpenCapture), p, Emit(ICloseCapture), 0, n);
    }
  }

  lemma ChoiceByTestIn(f: First, p1: seq<Slot>, p2: seq<Slot>, emptyp2: bool)
    requires Inside(p1) && Inside(p2)
    ensures Inside(ChoiceByTestCode(f, p1, p2, emptyp2))
  {
    var n := |ChoiceByTestCode(f, p1, p2, emptyp2)|;
    var jmp := JmpIf(!emptyp2, 2 + |p2|);
    TestIn(f, |p1| + |jmp|, 0, n);
    Concat4In(CodeTest(f, |p1| + |jmp|), p1, jmp, p2, 0, n);
  }

  lemma ChoiceReusedIn(p1: seq<Slot>)
    requires Inside(p1)
    ensures Inside(ChoiceReusedCode(p1))
  {
    ConcatIn(Emit(IPartialCommit(2)), p1, 0, |ChoiceReusedCode(p1)|);
  }

  lemma ChoiceStackedIn(f: First, p1: seq<Slot>, p2: seq<Slot>)
    requires Inside(p1) && Inside(p2)
    ensures Inside(ChoiceStackedCode(f, p1, p2))
  {
    var n := |ChoiceStackedCode(f, p1, p2)|;
    var test, ch, cm := CodeTest(f, 2 + |p1| + 2), Emit(IChoice(2 + |p1| + 2)), Emit(ICommit(2 + |p2|));
    TestIn(f, 2 + |p1| + 2, 0, n);
    Concat4In(test, ch, p1, cm, 0, n);
    ConcatIn(test + ch + p1 + cm, p2, 0, n);
  }

  lemma RepByTestIn(f: First, p: seq<Slot>)
    requires Inside(p)
    ensures Inside(RepByTestCode(f, p))
  {
    var n := |RepByTestCode(f, p)|;
    TestIn(f, |p| + 2, 0, n);
    Concat3In(CodeTest(f, |p| + 2), p, Emit(IJmp(-(TestSize(f) + |p|))), 0, n);
  }

  lemma RepStackedIn(f: First, p: seq<Slot>, opt: bool)
    requires Inside(p)
    ensures Inside(RepStackedCode(f, p, opt))
  {
    var n := |RepStackedCode(f, p, opt)|;
    TestIn(f, 2 + |p| + 2, 0, n);
    Concat4In(CodeTest(f, 2 + |p| + 2), Emit(RepEntry(p, opt)), p, Emit(IPartialCommit(-|p|)), 0, n);
  }

  /** No label of generated code leads outside it. */
  lemma {:induction false} GenInside(c: Ctx, t: Tree, opt: bool, tt: Test, fl: Charset)
    requires WellFormed(c, t)
    ensures Inside(Gen(c, t, opt, tt, fl))
    decreases t, 1
  {
    hide Gen, WellFormed, FixedLen, CheckAux, GetFirst, HeadFail, HasCaptures, NeedFollow, Peg;
    hide LabelsIn, NotCode, AndCode, CaptureCode;
    match t
    case TChoice(_, _) => ChoiceInside(c, t, opt, tt, fl);
    case TRep(p) =>
      UnfoldRep(c, t, opt, tt, fl, [], 0, 0);
      RepInside(c, t, opt, tt, fl);
    case TBehind(n, p) =>
      UnfoldBehind(c, t, opt, tt, fl, [], 0, 0);
      var code := Gen(c, p, false, NoTest, FULL);
      GenInside(c, p, false, NoTest, FULL);
      BehindFirst(n, code);
    case TNot(p) =>
      UnfoldNot(c, t, opt, tt, fl, [], 0, 0);
      GenInside(c, p, false, NoTest, FULL);
      NotIn(FirstOf(c, p, FULL), HeadFail(c.g, p, c.k), Gen(c, p, false, NoTest, FULL));
    case TAnd(p) =>
      UnfoldAnd(c, t, opt, tt, fl, [], 0, 0);
      var code := Gen(c, p, false, tt, FULL);
      GenInside(c, p, false, tt, FULL);
      AndIn(code);
      if ShortAnd(c, p) { AndShortIn(FixedLen(c.g, p, c.live), code); }
    case TCapture(p) =>
      UnfoldCapture(c, t, opt, tt, fl, [], 0, 0);
      GenInside(c, p, false, tt, fl);
      CaptureIn(ShortCapture(c, p), FixedLen(c.g, p, c.live), Gen(c, p, false, tt, fl));
    case TGrammar(rules) =>
      UnfoldGrammar(c, t, opt, tt, fl, [], 0, 0);
      GrammarInside(c, rules);
    case TSeq(p1, p2) =>
      UnfoldSeq(c, t, opt, tt, fl, [], 0, 0);
      var fl1, tt2 := SeqFollow(c, p1, p2, fl), SeqTest(c, p1, tt);
      var c1, c2 := Gen(c, p1, false, tt, fl1), Gen(c, p2, opt, tt2, fl);
      GenInside(c, p1, false, tt, fl1);
      GenInside(c, p2, opt, tt2, fl);
      Widen(c1, 0, |c1|, 0, |c1 + c2|);
      Widen(c2, 0, |c2|, -|c1|, |c2|);
      ConcatIn(c1, c2, 0, |c1 + c2|);
    case _ => LeafInside(c, t, opt, tt, fl);
  }

  lemma Widen(c: seq<Slot>, lo: int, hi: int, lo2: int, hi2: int)
    requires LabelsIn(c, lo, hi) && lo2 <= lo && hi <= hi2
    ensures LabelsIn(c, lo2, hi2)
  {
  }

  lemma BehindFirst(n: nat, p: seq<Slot>)
    requires Inside(p)
    ensures Inside(BehindIf(n) + p)
  {
    ConcatIn(BehindIf(n), p, 0, |BehindIf(n) + p|);
  }

  lemma LeafInside(c: Ctx, t: Tree, opt: bool, tt: Test, fl: Charset)
    requires t.TChar? || t.TAny? || t.TSet? || t.TTrue? || t.TFalse? || t.TCall?
    ensures Inside(Gen(c, t, opt, tt, fl))
  {
  }

  lemma {:induction false} ChoiceInside(c: Ctx, t: Tree, opt: bool, tt: Test, fl: Charset)
    requires t.TChoice? && WellFormed(c, t)
    ensures Inside(Gen(c, t, opt, tt, fl))
    decreases t, 0
  {
    hide Gen, WellFormed, FixedLen, CheckAux, GetFirst, HeadFail, Peg;
    hide LabelsIn, ChoiceByTestCode, ChoiceStackedCode, ChoiceReusedCode, CharsetType;
    UnfoldChoice(c, t, opt, tt, fl, [], 0, 0);
    var f := FirstOf(c, t.p1, FULL);
    GenInside(c, t.p2, opt, NoTest, fl);
    var p2 := Gen(c, t.p2, opt, NoTest, fl);
    if TestDecides(c, t.p1, t.p2, fl) {
      var f0 := First(false, f.cs);
      GenInside(c, t.p1, false, TestOf(f0), fl);
      ChoiceByTestIn(f0, Gen(c, t.p1, false, TestOf(f0), fl), p2, t.p2.TTrue?);
    } else if opt && t.p2.TTrue? {
      GenInside(c, t.p1, true, NoTest, FULL);
      ChoiceReusedIn(Gen(c, t.p1, true, NoTest, FULL));
    } else {
      GenInside(c, t.p1, t.p2.TTrue?, TestOf(f), FULL);
      ChoiceStackedIn(f, Gen(c, t.p1, t.p2.TTrue?, TestOf(f), FULL), p2);
    }
  }

  lemma {:induction false} RepInside(c: Ctx, t: Tree, opt: bool, tt: Test, fl: Charset)
    requires t.TRep? && WellFormed(c, t)
    ensures Inside(Gen(c, t, opt, tt, fl))
    decreases t, 0
  {
    hide Gen, WellFormed, FixedLen, CheckAux, GetFirst, HeadFail, Peg;
    hide LabelsIn, RepByTestCode, RepStackedCode, CharsetType;
    UnfoldRep(c, t, opt, tt, fl, [], 0, 0);
    var f := FirstOf(c, t.p, FULL);
    if IsCharPattern(t.p) {
      EmitIn(ISpan(ToCharset(t.p)), 0, 9);
    } else if TestLeaves(c, t.p, fl) {
      var f0 := First(false, f.cs);
      GenInside(c, t.p, false, TestOf(f0), FULL);
      RepByTestIn(f0, Gen(c, t.p, false, TestOf(f0), FULL));
    } else {
      GenInside(c, t.p, false, NoTest, FULL);
      RepStackedIn(f, Gen(c, t.p, false, NoTest, FULL), opt);
    }
  }

  lemma {:induction false} RulesInside(c: Ctx, rules: seq<Tree>, m: nat)
    requires m <= |rules| && c.g == rules
    requires forall r | 0 <= r < |rules| :: WellFormed(c, rules[r])
    ensures Inside(GenRules(c, rules, m))
    ensures forall k | 0 <= k < |GenRules(c, rules, m)| && GenRules(c, rules, m)[k].I? &&
              HasLabel(GenRules(c, rules, m)[k].instr) ::
              k + GenRules(c, rules, m)[k].instr.off < |GenRules(c, rules, m)|
    decreases rules, m
  {
    hide Gen, WellFormed;
    if m > 0 {
      RulesInside(c, rules, m - 1);
      GenInside(c, rules[m - 1], false, NoTest, FULL);
      var before, code := GenRules(c, rules, m - 1), Gen(c, rules[m - 1], false, NoTest, FULL);
      var n := |before| + |code|;
      Widen(before, 0, |before|, 0, n);
      Widen(code, 0, |code|, -|before|, |code|);
      Concat3In(before, code, Emit(IRet), 0, n);
      assert GenRules(c, rules, m) == before + code + Emit(IRet);
    }
  }

  lemma {:induction false} RuleStartInside(c: Ctx, rules: seq<Tree>, r: nat, m: nat)
    requires r < m <= |rules|
    ensures |GenRules(c, rules, r)| < |GenRules(c, rules, m)|
    decreases m
  {
    if r < m - 1 { RuleStartInside(c, rules, r, m - 1); }
  }

  lemma {:induction false} GrammarInside(c: Ctx, rules: seq<Tree>)
    requires forall r | 0 <= r < |rules| :: WellFormed(c.(g := rules), rules[r])
    ensures Inside(GrammarCode(GrammarBody(c, rules)))
    decreases rules, |rules| + 2
  {
    hide Gen, GenRules, CorrectCalls, Tidy, WellFormed;
    var c1, body := c.(g := rules), GrammarBody(c, rules);
    var raw, ps := GenRules(c1, rules, |rules|), RulePositions(c1, rules);
    RulesInside(c1, rules, |rules|);
    RulesSound(c1, rules, |rules|);
    assert raw[0..] == raw;
    CorrectOnlyCalls(raw, ps, 0);
    forall k | 0 <= k < |body| && body[k].I? && HasLabel(body[k].instr)
      ensures 0 <= k + body[k].instr.off <= |body|
    {
      CorrectCloses(raw, ps, 0, k);
      if IsOpenCall(raw[k]) { RuleStartInside(c1, rules, raw[k].instr.key, |rules|); }
    }
    var n := |GrammarCode(body)|;
    assert LabelsIn(body, 0, |body|);
    Widen(body, 0, |body|, -4, |body|);
    Concat3In(Emit(ICall(4)), Emit(IJmp(2 + |body|)), body, 0, n);
  }
}
