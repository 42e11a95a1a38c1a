// What the checks of the code miss: exactly the grammars with a rule that comes back without leading on.

module PegGaps {
  import opened Options
  import opened PegTree
  import opened PegAnalysis
  import opened PegGraph
  import opened PegAdvance
  import opened PegVerify
  import opened PegAccept
  import opened PegSettle
  import opened PegMachine
  import opened PegCodegen
  import opened PegCorrect
  import opened PegCompile
  import opened PegMatch
  import opened PegTargets

  /** What the constructors and the checks let through, as they are written. */
  predicate CodeAccepts(c: Ctx, t: Tree, k: nat) {
    Closed(c, t) && CodeBuilt(t, k) && !CheckLoops([], t, k)
  }

  /** What is accepted here is what the code accepts, less the patterns with a trapped rule. */
  lemma AcceptedIff(c: Ctx, t: Tree, k: nat)
    ensures Accepted(c, t, k) <==> CodeAccepts(c, t, k) && !AnyTrapped(t, k)
  {
    BuiltIff(t, k);
  }

  // ---- A look-behind that calls its own rule ----

  /** Looks for rule 'r' at the current position, as a look-behind of length 0. */
  function Looks(site: nat, r: nat): Tree { TBehind(0, TAnd(TCall(site, r))) }

  lemma LooksParts(g: seq<Tree>, site: nat, r: nat, lo: int, hi: Option<int>, k: nat)
    ensures var t := Looks(site, r);
            && Calls(t) == {r} && Built(t, k) && CodeBuilt(t, k) && !CheckLoops(g, t, k)
            && Sites(g, t, lo, hi, false, k) == [Arc(r, lo, Earlier(hi, 0), true)]
  {
    var call := TCall(site, r);
    var ahead := TAnd(call);
    assert Calls(call) == {r} && Calls(ahead) == {r};
    assert Built(call, k) && Built(ahead, k) && CodeBuilt(call, k) && CodeBuilt(ahead, k);
    assert !CheckLoops(g, call, k) && !CheckLoops(g, ahead, k);
    var xs := [Arc(r, lo, Earlier(hi, 0), true)];
    assert Sites(g, call, lo, Earlier(hi, 0), true, k) == xs == Sites(g, ahead, lo, Earlier(hi, 0), true, k);
  }

  /**
   * The code takes look-behinds for free of calls. It accepts a rule that looks for itself behind
   * nothing, which never answers: no fuel suffices, anywhere in any subject.
   */
  lemma {:induction false} BehindDiverges(site: nat, k: nat, s: Subject, i: nat, n: nat)
    requires i <= |s|
    ensures var rule := Looks(site, 0);
            && Verify([rule], rule, 0, false, k) == VerifyKept([rule], rule, 0, false, k) == Passes(true)
            && CodeBuilt(TGrammar([rule]), k) && !CheckLoops([], TGrammar([rule]), k)
            && Peg([], TGrammar([rule]), s, i, n) == Out
    decreases n
  {
    var call, rule := TCall(site, 0), Looks(site, 0);
    LooksParts([rule], site, 0, 0, Some(0), k);
    if n > 0 {
      BehindDiverges(site, k, s, i, n - 1);
      assert Peg([rule], call, s, i, n) == Peg([rule], rule, s, i, n - 1);
    }
    assert Peg([rule], TAnd(call), s, i, n) == Out;
    assert Peg([rule], rule, s, i, n) == Out;
  }

  lemma BehindTrapped(site: nat, k: nat)
    ensures Trapped(RuleGraph([Looks(site, 0)], k), 0)
  {
    var rule := Looks(site, 0);
    var g, w := RuleGraph([rule], k), [Arc(0, 0, Some(0), true)];
    LooksParts([rule], site, 0, 0, Some(0), k);
    assert w[1..] == [];
    assert g[0] == w && Walk(g, 0, w, 0);
    assert Stays(g, 0, w) && Holds(g, 0, w);
  }

  /** The code of the rule is a call, no more. */
  lemma BehindCode(c: Ctx, site: nat)
    requires site in c.live && c.g == [Looks(site, 0)]
    ensures WellFormed(c, c.g[0]) && Gen(c, c.g[0], false, NoTest, FULL) == Emit(IOpenCall(0))
  {
    var call := TCall(site, 0);
    var ahead := TAnd(call);
    var rule := TBehind(0, ahead);
    assert FixedLen(c.g, ahead, c.live) == 0;
    assert FixedLen(c.g, call, c.live) == FixedLen(c.g, rule, c.live - {site}) == 0;
    NoCaptures(site, c.live - {site});
    assert !HasCaptures(c.g, call, c.live);
    hide FixedLen, HasCaptures, Emit;
    assert Gen(c, call, false, NoTest, FULL) == Emit(IOpenCall(0));
    assert Gen(c, ahead, false, NoTest, FULL) == Emit(IOpenCall(0)) + BehindIf(0) == Emit(IOpenCall(0));
    assert Gen(c, rule, false, NoTest, FULL) == BehindIf(0) + Emit(IOpenCall(0)) == Emit(IOpenCall(0));
    assert WellFormed(c, call) && WellFormed(c, ahead);
  }

  /** In front of the return it becomes a jump, to itself. */
  lemma BehindClosed(c: Ctx, rule: Tree)
    requires Gen(c.(g := [rule]), rule, false, NoTest, FULL) == Emit(IOpenCall(0))
    ensures GrammarBody(c, [rule]) == [I(IJmp(0)), Pad, I(IRet)]
  {
    hide Gen, CorrectCalls, FinalTarget;
    var c1 := c.(g := [rule]);
    var raw, ps := GenRules(c1, [rule], 1), RulePositions(c1, [rule]);
    assert GenRules(c1, [rule], 0) == [];
    assert raw == Emit(IOpenCall(0)) + Emit(IRet) == [I(IOpenCall(0)), Pad, I(IRet)];
    assert ps == [0];
    SelfClosed(raw, ps);
  }

  lemma SelfClosed(raw: seq<Slot>, ps: seq<int>)
    requires raw == [I(IOpenCall(0)), Pad, I(IRet)] && ps == [0]
    ensures CorrectCalls(raw, ps, 0) == [I(IJmp(0)), Pad, I(IRet)]
  {
    assert EndsIn(raw, 2, 0);
    FinalIs(raw, 2, 0);
    hide FinalTarget;
    var closed := CloseAt(raw, ps, 0);
    assert closed == [I(IJmp(0)), Pad, I(IRet)];
    assert CorrectCalls(closed, ps, 3) == closed;
    assert CorrectCalls(closed, ps, 2) == closed;
  }

  /** So its code is a jump to itself, which the pass over jumps follows for ever. */
  lemma BehindJumps(c: Ctx, site: nat)
    requires c.g == [] && site in c.live
    ensures var t := TGrammar([Looks(site, 0)]);
            Closed(c, t) && !Ends(Generated(c, t), 4)
  {
    var rule := Looks(site, 0);
    BehindCode(c.(g := [rule]), site);
    BehindClosed(c, rule);
    assert Closed(c, TGrammar([rule]));
    hide Gen, GrammarBody, WellFormed;
    var t, body := TGrammar([rule]), GrammarBody(c, [rule]);
    UnfoldGrammar(c, t, false, NoTest, FULL, [], 0, 0);
    var code := Generated(c, t);
    BodyFirst(body, Emit(IEnd));
    hide Generated, Emit, GrammarCode;
    forall n: nat ensures !EndsIn(code, 4, n) {
      SelfJump(code, 4, n);
    }
  }

  lemma BodyFirst(body: seq<Slot>, rest: seq<Slot>)
    requires body != []
    ensures |GrammarCode(body)| > 4 && (GrammarCode(body) + rest)[4] == body[0]
  {
  }

  lemma {:induction false} SelfJump(code: seq<Slot>, x: nat, n: nat)
    requires x < |code| && code[x] == I(IJmp(0))
    ensures !EndsIn(code, x, n)
    decreases n
  {
    if n > 0 { SelfJump(code, x, n - 1); }
  }

  lemma {:induction false} NoCaptures(site: nat, live: set<nat>)
    ensures !HasCaptures([Looks(site, 0)], Looks(site, 0), live)
    decreases live
  {
    var call := TCall(site, 0);
    var rule := TBehind(0, TAnd(call));
    if site in live { NoCaptures(site, live - {site}); }
    assert !HasCaptures([rule], call, live);
    assert !HasCaptures([rule], TAnd(call), live);
  }

  // ---- Which rules are trapped ----

  predicate TakesBack(w: seq<Arc>) { exists x: Arc | x in w :: x.back }

  /** Some way around that may not lead forward takes a call inside a look-behind, and some may not lead back. */
  ghost predicate TrappedBehind(g: Graph, r: nat) {
    && (exists w :: Stays(g, r, w) && TakesBack(w))
    && (exists w :: Holds(g, r, w))
  }

  /** Calls outside of look-behinds are made no earlier than the tree is entered. */
  lemma {:induction false} SitesAhead(g: seq<Tree>, t: Tree, lo: int, hi: Option<int>, back: bool, k: nat)
    ensures forall x | x in Sites(g, t, lo, hi, back, k) :: (back ==> x.back) && (x.back || x.lo >= lo)
    decreases t
  {
    match t
    case TRep(p) => SitesAhead(g, p, lo, None, back, k);
    case TNot(p) => SitesAhead(g, p, lo, hi, back, k);
    case TAnd(p) => SitesAhead(g, p, lo, hi, back, k);
    case TCapture(p) => SitesAhead(g, p, lo, hi, back, k);
    case TBehind(n, p) => SitesAhead(g, p, lo - n, Earlier(hi, n), true, k);
    case TSeq(p1, p2) =>
      SitesAhead(g, p1, lo, hi, back, k);
      SitesAhead(g, p2, lo + Shortest(g, p1, k), Plus(hi, Longest(p1)), back, k);
    case TChoice(p1, p2) =>
      SitesAhead(g, p1, lo, hi, back, k);
      SitesAhead(g, p2, lo, hi, back, k);
    case _ =>
  }

  /** A left call that the check follows. */
  lemma {:induction false} LeftCallVerified(g: seq<Tree>, u: set<nat>, t: Tree, d: nat, k: nat, np: nat, nb: bool,
                                            hi: Option<int>, x: Arc)
    requires RuleAhead(g, u, t, d, k, np, nb, k) && x in Sites(g, t, 0, hi, false, k) && !x.back && x.lo == 0
    ensures np < MAXRULES && x.to in u && VerifyKept(g, g[x.to], np + 1, false, k) != LeftRecursive
    decreases t
  {
    match t
    case TRep(p) => LeftCallVerified(g, u, p, d, k, np, true, None, x);
    case TNot(p) => LeftCallVerified(g, u, p, d, k, np, true, hi, x);
    case TAnd(p) => LeftCallVerified(g, u, p, d, k, np, true, hi, x);
    case TCapture(p) => LeftCallVerified(g, u, p, d, k, np, nb, hi, x);
    case TBehind(n, p) => SitesAhead(g, t, 0, hi, false, k); SitesAhead(g, p, 0 - n, Earlier(hi, n), true, k);
    case TSeq(p1, p2) =>
      if x in Sites(g, p1, 0, hi, false, k) {
        LeftCallVerified(g, u, p1, d, k, np, false, hi, x);
      } else {
        SitesAhead(g, p2, Shortest(g, p1, k), Plus(hi, Longest(p1)), false, k);
        ShortestZero(g, p1, k);
        RuleChecks(g, u, p1, d, k, np, false, Nullable, k, k);
        LeftCallVerified(g, u, p2, d, k, np, nb, Plus(hi, Longest(p1)), x);
      }
    case TChoice(p1, p2) =>
      if x in Sites(g, p1, 0, hi, false, k) {
        LeftCallVerified(g, u, p1, d, k, np, nb, hi, x);
      } else {
        LeftCallVerified(g, u, p2, d, k, np, VerifyKept(g, p1, np, nb, k).nb, hi, x);
      }
    case TCall(_, r) =>
      RejectsChains(g, g[r], np + 1, nb, k);
      RejectsChains(g, g[r], np + 1, false, k);
    case _ =>
  }

  predicate LeftWalk(w: seq<Arc>) { forall x | x in w :: !x.back && x.lo == 0 }

  /** So a walk of left calls is no longer than the check allows. */
  lemma {:induction false} LeftWalkEnds(g: seq<Tree>, u: set<nat>, d: nat, k: nat, r: nat, w: seq<Arc>, q: nat, np: nat)
    requires RulesOk(g, u, d, k) && k >= Bound(d + 1) && r in u && np <= MAXRULES
    requires Walk(RuleGraph(g, k), r, w, q) && LeftWalk(w)
    requires VerifyKept(g, g[r], np, false, k) != LeftRecursive
    ensures np + |w| <= MAXRULES
    decreases |w|
  {
    if w != [] {
      LeftCallVerified(g, u, g[r], d, k, np, false, Some(0), w[0]);
      LeftWalkEnds(g, u, d, k, w[0].to, w[1..], q, np + 1);
    }
  }

  /** Going round often enough. */
  lemma {:induction false} Around(g: Graph, r: nat, w: seq<Arc>, n: nat) returns (v: seq<Arc>)
    requires Round(g, r, w) && LeftWalk(w)
    ensures Walk(g, r, v, r) && LeftWalk(v) && |v| >= n
  {
    v := [];
    if n > 0 {
      v := Around(g, r, w, n - 1);
      WalkJoins(g, r, w, r, v, r);
      v := w + v;
    }
  }

  /** A way around that may not lead forward takes left calls only, or calls in look-behinds. */
  lemma {:induction false} StaysLeft(g: seq<Tree>, k: nat, r: nat, w: seq<Arc>, q: nat)
    requires Walk(RuleGraph(g, k), r, w, q) && !TakesBack(w)
    ensures Lo(w) >= 0 && (Lo(w) == 0 ==> LeftWalk(w))
    decreases |w|
  {
    if w != [] {
      var x := w[0];
      assert x in w && !x.back;
      SitesAhead(g, g[r], 0, Some(0), false, k);
      assert !TakesBack(w[1..]);
      StaysLeft(g, k, x.to, w[1..], q);
      assert w == [x] + w[1..];
    }
  }

  /** The rules of a grammar whose nested grammars are accepted, and which has no empty loops. */
  ghost predicate Listed(rules: seq<Tree>, d: nat, k: nat) {
    && 0 < |rules| <= MAXRULES && k >= Bound(d + 1)
    && (forall r | 0 <= r < |rules| ::
          && Built(rules[r], k) && Depth(rules[r]) <= d
          && (forall q | q in Calls(rules[r]) :: q < |rules|))
    && forall r | r in UsedRules(rules) :: !CheckLoops(rules, rules[r], k)
  }

  lemma ListedWithin(rules: seq<Tree>, d: nat, k: nat)
    requires Listed(rules, d, k)
    ensures forall r | 0 <= r < |rules| :: Calls(rules[r]) <= UsedRules(rules)
    ensures Within(RuleGraph(rules, k), UsedRules(rules))
  {
    var u := UsedRules(rules);
    forall r, q | 0 <= r < |rules| && q in Calls(rules[r]) ensures q in u {
      assert Used(rules, q);
    }
    GraphWithin(rules, u, k);
  }

  lemma ListedBuilt(rules: seq<Tree>, d: nat, k: nat)
    requires Listed(rules, d, k)
    ensures Built(TGrammar(rules), k) <==> Advances(RuleGraph(rules, k), UsedRules(rules))
  {
    assert forall r | 0 <= r < |rules| && Used(rules, r) :: r in UsedRules(rules);
  }

  /** Where the corrected check finds nothing, a trapped rule comes back through a look-behind. */
  lemma TrappedThrough(rules: seq<Tree>, d: nat, k: nat, r: nat)
    requires Listed(rules, d, k) && r in UsedRules(rules) && Trapped(RuleGraph(rules, k), r)
    requires forall q | q in UsedRules(rules) :: VerifyKept(rules, rules[q], 0, false, k) != LeftRecursive
    ensures TrappedBehind(RuleGraph(rules, k), r)
  {
    var g, u := RuleGraph(rules, k), UsedRules(rules);
    ListedWithin(rules, d, k);
    var w :| Stays(g, r, w);
    if !TakesBack(w) {
      StaysLeft(rules, k, r, w, r);
      var v := Around(g, r, w, MAXRULES + 1);
      LeftWalkEnds(rules, u, d, k, r, v, r, 0);
      assert false;
    }
  }

  /**
   * A grammar has a trapped rule if and only if the corrected check rejects one, or a rule is trapped
   * by a call inside a look-behind.
   */
  lemma TrappedIff(rules: seq<Tree>, d: nat, k: nat)
    requires Listed(rules, d, k)
    ensures var g, u := RuleGraph(rules, k), UsedRules(rules);
            (exists r | r in u :: Trapped(g, r)) <==>
              || (exists r | r in u :: VerifyKept(rules, rules[r], 0, false, k) == LeftRecursive)
              || (exists r | r in u :: TrappedBehind(g, r))
  {
    var g, u := RuleGraph(rules, k), UsedRules(rules);
    ListedWithin(rules, d, k);
    AdvancesIff(g, u);
    if r :| r in u && VerifyKept(rules, rules[r], 0, false, k) == LeftRecursive {
      if Advances(g, u) { AdvanceVerified(rules, u, r, k); }
    } else if r :| r in u && Trapped(g, r) {
      TrappedThrough(rules, d, k, r);
    }
  }

  /** In a grammar that the code accepts, these are its two gaps. */
  lemma RefusedIff(rules: seq<Tree>, d: nat, k: nat)
    requires Listed(rules, d, k)
    requires forall r | r in UsedRules(rules) :: Verify(rules, rules[r], 0, false, k) != LeftRecursive
    ensures var g, u := RuleGraph(rules, k), UsedRules(rules);
            !Built(TGrammar(rules), k) <==>
              || (exists r | r in u ::
                    LeftChain(rules, rules[r], 0, true, k) && !LeftChain(rules, rules[r], 0, false, k))
              || (exists r | r in u :: TrappedBehind(g, r))
  {
    hide Built, Advances, Trapped, TrappedBehind, Listed, VerifyKept, Verify, LeftChain;
    var g, u := RuleGraph(rules, k), UsedRules(rules);
    TrappedIff(rules, d, k);
    ListedWithin(rules, d, k);
    AdvancesIff(g, u);
    ListedBuilt(rules, d, k);
    forall r | r in u
      ensures VerifyKept(rules, rules[r], 0, false, k) == LeftRecursive <==>
              LeftChain(rules, rules[r], 0, true, k) && !LeftChain(rules, rules[r], 0, false, k)
    {
      MissedIff(rules, rules[r], 0, false, k);
    }
  }

  // ---- Calls in look-behinds that do no harm ----

  /** No call inside a look-behind comes back to its rule. */
  ghost predicate BehindsLeave(g: Graph, u: set<nat>) {
    forall r | r in u && r < |g| :: forall x | x in g[r] && x.back :: !Reaches(g, x.to, r)
  }

  lemma {:induction false} NoBackRound(g: Graph, u: set<nat>, r: nat, w: seq<Arc>, q: nat)
    requires Within(g, u) && BehindsLeave(g, u) && r in u && Walk(g, r, w, q) && Reaches(g, q, r)
    ensures !TakesBack(w)
    decreases |w|
  {
    if w != [] {
      var x, v := w[0], w[1..];
      var back :| Walk(g, q, back, r);
      WalkJoins(g, x.to, v, q, back, r);
      assert [x][1..] == [];
      WalkJoins(g, q, back, r, [x], x.to);
      NoBackRound(g, u, x.to, v, q);
      assert w == [x] + v;
    }
  }

  /** If so, the corrected check on left recursion is enough. */
  lemma LeaveAdvances(rules: seq<Tree>, d: nat, k: nat)
    requires Listed(rules, d, k) && BehindsLeave(RuleGraph(rules, k), UsedRules(rules))
    requires forall r | r in UsedRules(rules) :: VerifyKept(rules, rules[r], 0, false, k) != LeftRecursive
    ensures Built(TGrammar(rules), k)
  {
    var g, u := RuleGraph(rules, k), UsedRules(rules);
    ListedWithin(rules, d, k);
    AdvancesIff(g, u);
    forall r | r in u ensures !Trapped(g, r) {
      if Trapped(g, r) {
        TrappedThrough(rules, d, k, r);
        var w :| Stays(g, r, w) && TakesBack(w);
        assert Walk(g, r, [], r);
        NoBackRound(g, u, r, w, r);
        assert false;
      }
    }
    ListedBuilt(rules, d, k);
  }

  lemma CharFirst(g: seq<Tree>, c: Byte, p: Tree, k: nat)
    requires Built(p, k) && !CheckLoops(g, p, k)
    ensures var t := TSeq(TChar(c), p);
            && Calls(t) == Calls(p) && Built(t, k) && !CheckLoops(g, t, k)
            && Sites(g, t, 0, Some(0), false, k) == Sites(g, p, 1, Some(1), false, k)
  {
    assert Built(TChar(c), k) && !CheckLoops(g, TChar(c), k);
  }

  /** The called rule never comes back. */
  lemma LeavingAccepted(c: Byte, d: Byte, site: nat, k: nat)
    ensures Built(TGrammar([TSeq(TChar(c), Looks(site, 1)), TChar(d)]), k)
  {
    var look := Looks(site, 1);
    var rule := TSeq(TChar(c), look);
    var rules := [rule, TChar(d)];
    LooksParts(rules, site, 1, 1, Some(1), k);
    CharFirst(rules, c, look, k);
    hide Looks, Calls, Sites;
    assert Falling(RuleGraph(rules, k), UsedRules(rules), [Level(1, 0, 0), Level(0, 0, 0)]);
  }

  /** It comes back, but further on. */
  lemma ForwardAccepted(c: Byte, site: nat, site2: nat, k: nat)
    ensures Built(TGrammar([Looks(site, 1), TSeq(TChar(c), TCall(site2, 0))]), k)
  {
    var look, back := Looks(site, 1), TCall(site2, 0);
    var rule := TSeq(TChar(c), back);
    var rules := [look, rule];
    LooksParts(rules, site, 1, 0, Some(0), k);
    assert Calls(back) == {0} && Built(back, k) && !CheckLoops(rules, back, k);
    CharFirst(rules, c, back, k);
    hide Looks;
    var x, y := Arc(1, 0, Some(0), true), Arc(0, 1, Some(1), false);
    assert Sites(rules, back, 1, Some(1), false, k) == [y];
    var m := [Level(0, 2, 1), Level(0, 2, 0)];
    assert Falls(m, m[0], x) && Falls(m, m[1], y);
    assert Falling(RuleGraph(rules, k), UsedRules(rules), m);
  }

  /** It comes back, but always further to the front. */
  lemma BackwardAccepted(site: nat, k: nat)
    ensures Built(TGrammar([TBehind(1, TSeq(TAnd(TCall(site, 0)), TAny))]), k)
  {
    var body := TSeq(TAnd(TCall(site, 0)), TAny);
    var rule := TBehind(1, body);
    var rules, x := [rule], Arc(0, -1, Some(-1), true);
    BackwardParts(rules, site, k);
    assert Calls(rule) == {0} && Built(rule, k) && !CheckLoops(rules, rule, k);
    assert Sites(rules, rule, 0, Some(0), false, k) == [x];
    var m := [Level(0, -1, 0)];
    assert Falls(m, m[0], x);
    assert Falling(RuleGraph(rules, k), UsedRules(rules), m);
  }

  lemma BackwardParts(g: seq<Tree>, site: nat, k: nat)
    ensures var body := TSeq(TAnd(TCall(site, 0)), TAny);
            && Calls(body) == {0} && Built(body, k) && !CheckLoops(g, body, k)
            && Sites(g, body, -1, Some(-1), true, k) == [Arc(0, -1, Some(-1), true)]
  {
    var call := TCall(site, 0);
    var ahead := TAnd(call);
    assert Calls(call) == {0} && Calls(ahead) == {0} && Built(call, k) && Built(ahead, k);
    assert !CheckLoops(g, call, k) && !CheckLoops(g, ahead, k);
    var xs := [Arc(0, -1, Some(-1), true)];
    assert Sites(g, call, -1, Some(-1), true, k) == xs == Sites(g, ahead, -1, Some(-1), true, k);
  }
}
