// The compiled code of an accepted pattern does not depend on how far the analyses follow calls.

module PegStable {
  import opened Options
  import opened PegTree
  import opened PegAnalysis
  import opened PegCodegen
  import opened PegCorrect
  import opened PegCompile
  import opened PegGraph
  import opened PegAdvance
  import opened PegVerify
  import opened PegAccept
  import opened PegSettle
  import opened PegMatch

  /** Code for 't' may be generated with either depth. */
  ghost predicate Both(c: Ctx, u: set<nat>, t: Tree, d: nat, k0: nat, k: nat) {
    && PartAhead(c.g, u, t, d, k0, c.k) && PartAhead(c.g, u, t, d, k0, k)
    && c.k >= Bound(d + 2) && k >= Bound(d + 2)
  }

  lemma BothParts(c: Ctx, u: set<nat>, t: Tree, d: nat, k0: nat, k: nat)
    requires Both(c, u, t, d, k0, k)
    ensures t.TRep? || t.TNot? || t.TAnd? || t.TCapture? || t.TBehind? ==> Both(c, u, t.p, d, k0, k)
    ensures t.TSeq? || t.TChoice? ==> Both(c, u, t.p1, d, k0, k) && Both(c, u, t.p2, d, k0, k)
  {
  }

  lemma SameFirst(c: Ctx, u: set<nat>, t: Tree, d: nat, k0: nat, k: nat, fl: Charset)
    requires Both(c, u, t, d, k0, k)
    ensures FirstOf(c.(k := k), t, fl) == FirstOf(c, t, fl)
    ensures HeadFail(c.g, t, k) == HeadFail(c.g, t, c.k)
  {
    PartFirst(c.g, u, t, d, k0, fl, c.k, k);
    PartHead(c.g, u, t, d, k0, c.k, k);
  }

  /** Any part of an accepted pattern. */
  lemma {:induction false} GenSettles(c: Ctx, u: set<nat>, t: Tree, d: nat, k0: nat, k: nat,
                                      opt: bool, tt: Test, fl: Charset)
    requires Both(c, u, t, d, k0, k)
    ensures Gen(c.(k := k), t, opt, tt, fl) == Gen(c, t, opt, tt, fl)
    decreases t, 1
  {
    hide PartAhead, GetFirst, HeadFail, CheckAux, FixedLen, HasCaptures, NeedFollow, Bound;
    hide NotCode, AndCode, CaptureCode, ChoiceByTestCode, ChoiceStackedCode, RepByTestCode, RepStackedCode, GrammarBody;
    var c2 := c.(k := k);
    BothParts(c, u, t, d, k0, k);
    match t
    case TSeq(p1, p2) =>
      SameFirst(c, u, p2, d, k0, k, fl);
      GenSettles(c, u, p1, d, k0, k, false, tt, SeqFollow(c, p1, p2, fl));
      GenSettles(c, u, p2, d, k0, k, opt, SeqTest(c, p1, tt), fl);
    case TChoice(p1, p2) => ChoiceSettles(c, u, t, d, k0, k, opt, tt, fl);
    case TRep(p) =>
      SameFirst(c, u, p, d, k0, k, FULL);
      var f0 := First(false, FirstOf(c, p, FULL).cs);
      GenSettles(c, u, p, d, k0, k, false, TestOf(f0), FULL);
      GenSettles(c, u, p, d, k0, k, false, NoTest, FULL);
      UnfoldRep(c, t, opt, tt, fl, [], 0, 0);
      UnfoldRep(c2, t, opt, tt, fl, [], 0, 0);
    case TNot(p) =>
      SameFirst(c, u, p, d, k0, k, FULL);
      GenSettles(c, u, p, d, k0, k, false, NoTest, FULL);
    case TAnd(p) => GenSettles(c, u, p, d, k0, k, false, tt, FULL);
    case TCapture(p) => GenSettles(c, u, p, d, k0, k, false, tt, fl);
    case TBehind(_, p) => GenSettles(c, u, p, d, k0, k, false, NoTest, FULL);
    case TGrammar(rules) => GrammarSettles(c, u, rules, d, k0, k);
    case _ =>
  }

  lemma {:induction false} ChoiceSettles(c: Ctx, u: set<nat>, t: Tree, d: nat, k0: nat, k: nat,
                                         opt: bool, tt: Test, fl: Charset)
    requires t.TChoice? && Both(c, u, t, d, k0, k)
    ensures Gen(c.(k := k), t, opt, tt, fl) == Gen(c, t, opt, tt, fl)
    decreases t, 0
  {
    hide PartAhead, GetFirst, HeadFail, CheckAux, Bound, Gen;
    hide ChoiceByTestCode, ChoiceReusedCode, ChoiceStackedCode;
    var c2 := c.(k := k);
    BothParts(c, u, t, d, k0, k);
    SameFirst(c, u, t.p1, d, k0, k, FULL);
    SameFirst(c, u, t.p2, d, k0, k, fl);
    var f := FirstOf(c, t.p1, FULL);
    GenSettles(c, u, t.p1, d, k0, k, false, TestOf(First(false, f.cs)), fl);
    GenSettles(c, u, t.p1, d, k0, k, true, NoTest, FULL);
    GenSettles(c, u, t.p1, d, k0, k, t.p2.TTrue?, TestOf(f), FULL);
    GenSettles(c, u, t.p2, d, k0, k, opt, NoTest, fl);
    UnfoldChoice(c, t, opt, tt, fl, [], 0, 0);
    UnfoldChoice(c2, t, opt, tt, fl, [], 0, 0);
    assert TestDecides(c2, t.p1, t.p2, fl) == TestDecides(c, t.p1, t.p2, fl);
  }

  /** The rules of a nested grammar, those that nothing calls included. */
  lemma {:induction false} RulesSettle(c: Ctx, u: set<nat>, rules: seq<Tree>, m: nat, d: nat, k0: nat, k: nat)
    requires m <= |rules| && c.g == rules && forall r | 0 <= r < |rules| :: Both(c, u, rules[r], d, k0, k)
    ensures GenRules(c.(k := k), rules, m) == GenRules(c, rules, m)
    decreases rules, m
  {
    hide PartAhead, Gen, Bound;
    if m > 0 {
      RulesSettle(c, u, rules, m - 1, d, k0, k);
      GenSettles(c, u, rules[m - 1], d, k0, k, false, NoTest, FULL);
    }
  }

  lemma {:induction false} GrammarSettles(c: Ctx, u: set<nat>, rules: seq<Tree>, d: nat, k0: nat, k: nat)
    requires Both(c, u, TGrammar(rules), d, k0, k)
    ensures GrammarBody(c.(k := k), rules) == GrammarBody(c, rules)
    decreases rules, |rules| + 2
  {
    var v := GrammarAhead(c, u, rules, d, k0, k);
    hide Both, PartAhead, Gen, GenRules, CorrectCalls, Bound;
    var c1 := c.(g := rules);
    forall r: nat | r <= |rules| ensures GenRules(c1.(k := k), rules, r) == GenRules(c1, rules, r) {
      RulesSettle(c1, v, rules, r, d - 1, k0, k);
    }
    assert RulePositions(c1.(k := k), rules) == RulePositions(c1, rules);
  }

  lemma GrammarAhead(c: Ctx, u: set<nat>, rules: seq<Tree>, d: nat, k0: nat, k: nat) returns (v: set<nat>)
    requires Both(c, u, TGrammar(rules), d, k0, k)
    ensures d > 0 && forall r | 0 <= r < |rules| :: Both(c.(g := rules), v, rules[r], d - 1, k0, k)
  {
    v := UsedRules(rules);
    EnterRules(rules, d, k0);
  }

  /**
   * The code of an accepted pattern is the same for every depth above the bound: it is what the
   * analyses of the code, which know no bound, generate.
   */
  lemma CompileSettles(c: Ctx, t: Tree, k0: nat, k: nat)
    requires Accepted(c, t, k0) && k0 >= Bound(Depth(t) + 1)
    requires c.k >= Bound(Depth(t) + 2) && k >= Bound(Depth(t) + 2)
    ensures Compile(c.(k := k), t) == Compile(c, t)
  {
    NoCalls(c, t);
    hide Gen, Bound, Depth, PartAhead, Accepted;
    GenSettles(c, {}, t, Depth(t), k0, k, false, NoTest, FULL);
    assert Generated(c.(k := k), t) == Generated(c, t);
  }

  // ---- What is accepted settles too ----

  /** The left-recursion check of a grammar whose nested grammars are accepted. */
  lemma {:induction false} VerifySettles(g: seq<Tree>, t: Tree, np: nat, nb: bool, d: nat, k0: nat, k: nat)
    requires Built(t, k0) && Depth(t) <= d && forall r | 0 <= r < |g| :: Built(g[r], k0) && Depth(g[r]) <= d
    requires k0 >= Bound(d + 1) && k >= Bound(d + 1)
    ensures VerifyKept(g, t, np, nb, k) == VerifyKept(g, t, np, nb, k0)
    decreases MAXRULES - np, t
  {
    match t
    case TNot(p) => VerifySettles(g, p, np, true, d, k0, k);
    case TAnd(p) => VerifySettles(g, p, np, true, d, k0, k);
    case TRep(p) => VerifySettles(g, p, np, true, d, k0, k);
    case TCapture(p) => VerifySettles(g, p, np, nb, d, k0, k);
    case TCall(_, r) => if np < MAXRULES && r < |g| { VerifySettles(g, g[r], np + 1, nb, d, k0, k); }
    case TSeq(p1, p2) =>
      VerifySettles(g, p1, np, false, d, k0, k);
      VerifySettles(g, p2, np, nb, d, k0, k);
    case TChoice(p1, p2) =>
      VerifySettles(g, p1, np, nb, d, k0, k);
      VerifySettles(g, p2, np, true, d, k0, k);
      VerifySettles(g, p2, np, false, d, k0, k);
    case TGrammar(rules) =>
      var v := EnterGrammar(rules, d, k0, k);
      RuleChecks(rules, v, rules[0], d - 1, k0, 0, false, Nullable, k, k0);
    case _ =>
  }

  lemma {:induction false} LoopsSettle(g: seq<Tree>, u: set<nat>, t: Tree, d: nat, k0: nat, k: nat)
    requires PartAhead(g, u, t, d, k0, k) && PartAhead(g, u, t, d, k0, k0)
    ensures CheckLoops(g, t, k) == CheckLoops(g, t, k0)
    decreases t
  {
    match t
    case TRep(p) =>
      PartChecks(g, u, p, d, k0, Nullable, k, k0);
      LoopsSettle(g, u, p, d, k0, k);
    case TNot(p) => LoopsSettle(g, u, p, d, k0, k);
    case TAnd(p) => LoopsSettle(g, u, p, d, k0, k);
    case TCapture(p) => LoopsSettle(g, u, p, d, k0, k);
    case TBehind(_, p) => LoopsSettle(g, u, p, d, k0, k);
    case TSeq(p1, p2) =>
      LoopsSettle(g, u, p1, d, k0, k);
      LoopsSettle(g, u, p2, d, k0, k);
    case TChoice(p1, p2) =>
      LoopsSettle(g, u, p1, d, k0, k);
      LoopsSettle(g, u, p2, d, k0, k);
    case _ =>
  }

  lemma {:induction false} ShortestSettles(g: seq<Tree>, u: set<nat>, t: Tree, d: nat, k0: nat, k: nat)
    requires PartAhead(g, u, t, d, k0, k) && PartAhead(g, u, t, d, k0, k0)
    ensures Shortest(g, t, k) == Shortest(g, t, k0)
    decreases t
  {
    match t
    case TCapture(p) => ShortestSettles(g, u, p, d, k0, k);
    case TSeq(p1, p2) =>
      ShortestSettles(g, u, p1, d, k0, k);
      ShortestSettles(g, u, p2, d, k0, k);
    case TChoice(p1, p2) =>
      ShortestSettles(g, u, p1, d, k0, k);
      ShortestSettles(g, u, p2, d, k0, k);
    case TCall(_, _) => PartChecks(g, u, t, d, k0, Nullable, k, k0);
    case TGrammar(_) => PartChecks(g, u, t, d, k0, Nullable, k, k0);
    case _ =>
  }

  lemma {:induction false} SitesSettle(g: seq<Tree>, u: set<nat>, t: Tree, d: nat, k0: nat, k: nat,
                                       lo: int, hi: Option<int>, back: bool)
    requires PartAhead(g, u, t, d, k0, k) && PartAhead(g, u, t, d, k0, k0)
    ensures Sites(g, t, lo, hi, back, k) == Sites(g, t, lo, hi, back, k0)
    decreases t
  {
    match t
    case TRep(p) => SitesSettle(g, u, p, d, k0, k, lo, None, back);
    case TNot(p) => SitesSettle(g, u, p, d, k0, k, lo, hi, back);
    case TAnd(p) => SitesSettle(g, u, p, d, k0, k, lo, hi, back);
    case TCapture(p) => SitesSettle(g, u, p, d, k0, k, lo, hi, back);
    case TBehind(n, p) => SitesSettle(g, u, p, d, k0, k, lo - n, Earlier(hi, n), true);
    case TSeq(p1, p2) =>
      ShortestSettles(g, u, p1, d, k0, k);
      SitesSettle(g, u, p1, d, k0, k, lo, hi, back);
      SitesSettle(g, u, p2, d, k0, k, lo + Shortest(g, p1, k0), Plus(hi, Longest(p1)), back);
    case TChoice(p1, p2) =>
      SitesSettle(g, u, p1, d, k0, k, lo, hi, back);
      SitesSettle(g, u, p2, d, k0, k, lo, hi, back);
    case _ =>
  }

  lemma {:induction false} BuiltSettles(t: Tree, d: nat, k0: nat, k: nat)
    requires Built(t, k0) && Depth(t) <= d && k0 >= Bound(d + 1) && k >= Bound(d + 1)
    ensures Built(t, k)
    decreases t
  {
    match t
    case TRep(p) => BuiltSettles(p, d, k0, k);
    case TNot(p) => BuiltSettles(p, d, k0, k);
    case TAnd(p) => BuiltSettles(p, d, k0, k);
    case TCapture(p) => BuiltSettles(p, d, k0, k);
    case TBehind(_, p) => BuiltSettles(p, d, k0, k);
    case TSeq(p1, p2) =>
      BuiltSettles(p1, d, k0, k);
      BuiltSettles(p2, d, k0, k);
    case TChoice(p1, p2) =>
      BuiltSettles(p1, d, k0, k);
      BuiltSettles(p2, d, k0, k);
    case TGrammar(rules) =>
      forall r | 0 <= r < |rules| ensures Built(rules[r], k) {
        BuiltSettles(rules[r], d, k0, k);
      }
      RulesSettled(rules, d, k0, k);
    case _ =>
  }

  /** The rules of an accepted grammar have the same loops and the same calls. */
  lemma RulesSettled(rules: seq<Tree>, d: nat, k0: nat, k: nat)
    requires Built(TGrammar(rules), k0) && Depth(TGrammar(rules)) <= d
    requires k0 >= Bound(d + 1) && k >= Bound(d + 1)
    ensures RuleGraph(rules, k) == RuleGraph(rules, k0)
    ensures forall r | 0 <= r < |rules| :: CheckLoops(rules, rules[r], k) == CheckLoops(rules, rules[r], k0)
  {
    EnterRules(rules, d, k0);
    var u := UsedRules(rules);
    forall r | 0 <= r < |rules|
      ensures RuleGraph(rules, k)[r] == RuleGraph(rules, k0)[r]
      ensures CheckLoops(rules, rules[r], k) == CheckLoops(rules, rules[r], k0)
    {
      SitesSettle(rules, u, rules[r], d - 1, k0, k, 0, Some(0), false);
      LoopsSettle(rules, u, rules[r], d - 1, k0, k);
    }
  }

  /** Acceptance itself does not depend on the depth. */
  lemma AcceptedSettles(c: Ctx, t: Tree, k0: nat, k: nat)
    requires k0 >= Bound(Depth(t) + 1) && k >= Bound(Depth(t) + 1)
    ensures Accepted(c, t, k) <==> Accepted(c, t, k0)
  {
    if Accepted(c, t, k0) {
      AcceptedAt(c, t, k0, k);
    }
    if Accepted(c, t, k) {
      AcceptedAt(c, t, k, k0);
    }
  }

  lemma AcceptedAt(c: Ctx, t: Tree, k0: nat, k: nat)
    requires Accepted(c, t, k0) && k0 >= Bound(Depth(t) + 1) && k >= Bound(Depth(t) + 1)
    ensures Accepted(c, t, k)
  {
    NoCalls(c, t);
    BuiltSettles(t, Depth(t), k0, k);
    LoopsSettle([], {}, t, Depth(t), k0, k);
  }
}
