// Patterns as they are accepted: what the constructors and the checks on grammars let through.

module PegAccept {
  import opened Options
  import opened PegTree
  import opened PegAnalysis
  import opened PegGraph
  import opened PegAdvance
  import opened PegVerify

  /** A rule is used when it is the initial one or some rule calls it. */
  predicate Used(rules: seq<Tree>, r: nat) {
    r < |rules| && (r == 0 || exists q | 0 <= q < |rules| :: r in Calls(rules[q]))
  }

  function UsedRules(rules: seq<Tree>): set<nat> { set r: nat | r < |rules| && Used(rules, r) }

  /**
   * Every nested grammar was verified when it was built, its used rules that is: no loop of them has
   * an empty body, and their calls advance.
   */
  ghost predicate Built(t: Tree, k: nat)
    decreases t
  {
    match t
    case TRep(p) => Built(p, k)
    case TNot(p) => Built(p, k)
    case TAnd(p) => Built(p, k)
    case TCapture(p) => Built(p, k)
    case TBehind(_, p) => Built(p, k)
    case TSeq(p1, p2) => Built(p1, k) && Built(p2, k)
    case TChoice(p1, p2) => Built(p1, k) && Built(p2, k)
    case TGrammar(rules) =>
      && 0 < |rules| <= MAXRULES
      && (forall r | 0 <= r < |rules| ::
            && Built(rules[r], k)
            && (forall q | q in Calls(rules[r]) :: q < |rules|)
            && (Used(rules, r) ==> !CheckLoops(rules, rules[r], k)))
      && Advances(RuleGraph(rules, k), UsedRules(rules))
    case _ => true
  }

  /** How deep grammars and look-behinds are nested. */
  function Depth(t: Tree): nat
    decreases t, 0
  {
    match t
    case TRep(p) => Depth(p)
    case TNot(p) => Depth(p)
    case TAnd(p) => Depth(p)
    case TCapture(p) => Depth(p)
    case TSeq(p1, p2) => Max(Depth(p1), Depth(p2))
    case TChoice(p1, p2) => Max(Depth(p1), Depth(p2))
    case TBehind(_, p) => 1 + Depth(p)
    case TGrammar(rules) => 1 + DepthOf(rules, |rules|)
    case _ => 0
  }

  function Max(x: nat, y: nat): nat { if x < y then y else x }

  function DepthOf(rules: seq<Tree>, m: nat): (d: nat)
    requires m <= |rules|
    ensures forall r | 0 <= r < m :: Depth(rules[r]) <= d
    decreases rules, m
  {
    if m == 0 then 0 else Max(Depth(rules[m - 1]), DepthOf(rules, m - 1))
  }

  // ---- Rules that advance pass the check on left recursion ----

  /** The calls of a tree fall below 'at'. */
  predicate AllFall(m: seq<Level>, at: Level, xs: seq<Arc>) { forall x | x in xs :: Falls(m, at, x) }

  predicate Lower(a: Level, b: Level) { a.rank < b.rank || (a.rank == b.rank && a.pot < b.pot) }

  function LowerRules(u: set<nat>, m: seq<Level>, at: Level): set<nat> {
    set r | r in u && r < |m| && Lower(m[r], at)
  }

  /** A pattern that the check lets pass is nullable. */
  lemma {:induction false} PassNullable(g: seq<Tree>, t: Tree, np: nat, k0: nat, k: nat)
    requires VerifyKept(g, t, np, false, k0) == Passes(true) && k <= k0
    ensures CheckAux(g, t, Nullable, k)
    decreases k, t
  {
    match t
    case TCapture(p) => PassNullable(g, p, np, k0, k);
    case TCall(_, r) => if k > 0 { PassNullable(g, g[r], np + 1, k0, k - 1); }
    case TSeq(p1, p2) =>
      PassNullable(g, p1, np, k0, k);
      PassNullable(g, p2, np, k0, k);
    case TChoice(p1, p2) =>
      if VerifyKept(g, p1, np, false, k0) == Passes(true) {
        PassNullable(g, p1, np, k0, k);
      } else {
        PassNullable(g, p2, np, k0, k);
      }
    case TGrammar(_) => FewerCalls(g, t, k0, k);
    case _ =>
  }

  /** Following fewer calls finds more patterns nullable. */
  lemma {:induction false} FewerCalls(g: seq<Tree>, t: Tree, k0: nat, k: nat)
    requires CheckAux(g, t, Nullable, k0) && k <= k0
    ensures CheckAux(g, t, Nullable, k)
    decreases k0, t
  {
    match t
    case TSeq(p1, p2) =>
      FewerCalls(g, p1, k0, k);
      FewerCalls(g, p2, k0, k);
    case TChoice(p1, p2) =>
      if CheckAux(g, p2, Nullable, k0) { FewerCalls(g, p2, k0, k); } else { FewerCalls(g, p1, k0, k); }
    case TCapture(p) => FewerCalls(g, p, k0, k);
    case TGrammar(rules) => if |rules| > 0 { FewerCalls(rules, rules[0], k0, k); }
    case TCall(_, r) => if k > 0 && r < |g| { FewerCalls(g, g[r], k0 - 1, k - 1); }
    case _ =>
  }

  /** A left call that falls leads to a lower rule. */
  lemma LeftCallLowers(m: seq<Level>, at: Level, x: Arc)
    requires Falls(m, at, x) && x.lo == 0 && (x.hi.Some? ==> x.hi.value >= 0)
    ensures Lower(m[x.to], at)
  {
    if at.step < 0 { if x.hi.Some? { TimesGrows(at.step, 0, x.hi.value); } }
  }

  /** There are fewer and fewer rules left for a chain of left calls. */
  lemma {:induction false} NoLeftChain(g: seq<Tree>, u: set<nat>, m: seq<Level>, at: Level, t: Tree,
                                       hi: Option<int>, back: bool, np: nat, nb: bool, k: nat)
    requires |m| == |g| && (forall r | r in u :: r < |g| && Calls(g[r]) <= u) && Falling(RuleGraph(g, k), u, m)
    requires Calls(t) <= u && AllFall(m, at, Sites(g, t, 0, hi, back, k)) && (hi.Some? ==> hi.value >= 0)
    requires np + |LowerRules(u, m, at)| <= MAXRULES
    ensures VerifyKept(g, t, np, nb, k) != LeftRecursive
    decreases MAXRULES - np, t
  {
    match t
    case TRep(p) => NoLeftChain(g, u, m, at, p, None, back, np, true, k);
    case TNot(p) => NoLeftChain(g, u, m, at, p, hi, back, np, true, k);
    case TAnd(p) => NoLeftChain(g, u, m, at, p, hi, back, np, true, k);
    case TCapture(p) => NoLeftChain(g, u, m, at, p, hi, back, np, nb, k);
    case TSeq(p1, p2) =>
      NoLeftChain(g, u, m, at, p1, hi, back, np, false, k);
      if VerifyKept(g, p1, np, false, k) == Passes(true) {
        PassNullable(g, p1, np, k, k);
        ShortestZero(g, p1, k);
        ShortestLongest(g, p1, k);
        NoLeftChain(g, u, m, at, p2, Plus(hi, Longest(p1)), back, np, nb, k);
      }
    case TChoice(p1, p2) =>
      NoLeftChain(g, u, m, at, p1, hi, back, np, nb, k);
      NoLeftChain(g, u, m, at, p2, hi, back, np, VerifyKept(g, p1, np, nb, k).nb, k);
    case TCall(_, r) =>
      var x := Arc(r, 0, hi, back);
      assert x in Sites(g, t, 0, hi, back, k);
      LeftCallLowers(m, at, x);
      var lower, lowest := LowerRules(u, m, at), LowerRules(u, m, m[r]);
      assert lowest <= lower - {r} && r in lower;
      Smaller(lowest, lower - {r});
      NoLeftChain(g, u, m, m[r], g[r], Some(0), false, np + 1, nb, k);
    case _ =>
  }

  /** Rules that advance are not left recursive. */
  lemma AdvanceVerified(g: seq<Tree>, u: set<nat>, r: nat, k: nat)
    requires |g| <= MAXRULES && (forall q | q in u :: q < |g| && Calls(g[q]) <= u)
    requires Advances(RuleGraph(g, k), u) && r in u
    ensures VerifyKept(g, g[r], 0, false, k) != LeftRecursive
  {
    var m :| Falling(RuleGraph(g, k), u, m);
    var lower := LowerRules(u, m, m[r]);
    assert r !in lower;
    Below(lower + {r}, |g|);
    NoLeftChain(g, u, m, m[r], g[r], Some(0), false, 0, false, k);
  }

  /** The used rules of a grammar are closed under calls, and the checks find nothing wrong with them. */
  lemma UsedVerified(rules: seq<Tree>, k: nat)
    requires Built(TGrammar(rules), k)
    ensures var u := UsedRules(rules);
            && 0 in u
            && (forall r | 0 <= r < |rules| :: Calls(rules[r]) <= u)
            && forall r | r in u :: RuleVerified(rules, r, k)
  {
    var u := UsedRules(rules);
    assert Used(rules, 0);
    forall r | 0 <= r < |rules| ensures Calls(rules[r]) <= u {
      forall q | q in Calls(rules[r]) ensures q in u {
        assert Used(rules, q);
      }
    }
    forall r | r in u ensures RuleVerified(rules, r, k) {
      AdvanceVerified(rules, u, r, k);
    }
  }

  /** The checks find nothing wrong with a used rule. */
  predicate RuleVerified(rules: seq<Tree>, r: nat, k: nat)
    requires r < |rules|
  {
    && VerifyKept(rules, rules[r], 0, false, k) != LeftRecursive
    && !CheckLoops(rules, rules[r], k)
  }

  /** The rules 'u' of the grammar in force, closed under calls and verified. */
  ghost predicate RulesOk(g: seq<Tree>, u: set<nat>, d: nat, k: nat) {
    forall r | r in u ::
      && r < |g| && RuleVerified(g, r, k) && Built(g[r], k)
      && Calls(g[r]) <= u && Depth(g[r]) <= d
  }

  ghost predicate TreeOk(g: seq<Tree>, u: set<nat>, t: Tree, d: nat, k: nat) {
    Built(t, k) && !CheckLoops(g, t, k) && Calls(t) <= u && Depth(t) <= d
  }

  /** The rules of a nested grammar. */
  lemma EnterRules(rules: seq<Tree>, d: nat, k: nat)
    requires Built(TGrammar(rules), k) && Depth(TGrammar(rules)) <= d
    ensures d > 0 && 0 in UsedRules(rules) && RulesOk(rules, UsedRules(rules), d - 1, k)
    ensures forall r | 0 <= r < |rules| :: Calls(rules[r]) <= UsedRules(rules)
  {
    UsedVerified(rules, k);
  }

  // ---- What the code lets through ----

  /** The same with the checks as they are written. */
  predicate CodeBuilt(t: Tree, k: nat)
    decreases t
  {
    match t
    case TRep(p) => CodeBuilt(p, k)
    case TNot(p) => CodeBuilt(p, k)
    case TAnd(p) => CodeBuilt(p, k)
    case TCapture(p) => CodeBuilt(p, k)
    case TBehind(_, p) => CodeBuilt(p, k)
    case TSeq(p1, p2) => CodeBuilt(p1, k) && CodeBuilt(p2, k)
    case TChoice(p1, p2) => CodeBuilt(p1, k) && CodeBuilt(p2, k)
    case TGrammar(rules) =>
      && 0 < |rules| <= MAXRULES
      && forall r | 0 <= r < |rules| ::
           && CodeBuilt(rules[r], k)
           && (forall q | q in Calls(rules[r]) :: q < |rules|)
           && (Used(rules, r) ==>
                 Verify(rules, rules[r], 0, false, k) != LeftRecursive && !CheckLoops(rules, rules[r], k))
    case _ => true
  }

  /** A used rule of a nested grammar comes back to itself without leading on. */
  ghost predicate AnyTrapped(t: Tree, k: nat)
    decreases t
  {
    match t
    case TRep(p) => AnyTrapped(p, k)
    case TNot(p) => AnyTrapped(p, k)
    case TAnd(p) => AnyTrapped(p, k)
    case TCapture(p) => AnyTrapped(p, k)
    case TBehind(_, p) => AnyTrapped(p, k)
    case TSeq(p1, p2) => AnyTrapped(p1, k) || AnyTrapped(p2, k)
    case TChoice(p1, p2) => AnyTrapped(p1, k) || AnyTrapped(p2, k)
    case TGrammar(rules) =>
      || (exists r | 0 <= r < |rules| :: AnyTrapped(rules[r], k))
      || exists r | r in UsedRules(rules) :: Trapped(RuleGraph(rules, k), r)
    case _ => false
  }

  /** What is accepted here is what the code accepts, less the grammars with a trapped rule. */
  lemma {:induction false} BuiltIff(t: Tree, k: nat)
    ensures Built(t, k) <==> CodeBuilt(t, k) && !AnyTrapped(t, k)
    decreases t
  {
    match t
    case TRep(p) => BuiltIff(p, k);
    case TNot(p) => BuiltIff(p, k);
    case TAnd(p) => BuiltIff(p, k);
    case TCapture(p) => BuiltIff(p, k);
    case TBehind(_, p) => BuiltIff(p, k);
    case TSeq(p1, p2) =>
      BuiltIff(p1, k);
      BuiltIff(p2, k);
    case TChoice(p1, p2) =>
      BuiltIff(p1, k);
      BuiltIff(p2, k);
    case TGrammar(rules) =>
      forall r | 0 <= r < |rules| ensures Built(rules[r], k) <==> CodeBuilt(rules[r], k) && !AnyTrapped(rules[r], k) {
        BuiltIff(rules[r], k);
      }
      GrammarIff(rules, k);
    case _ =>
  }

  lemma GrammarIff(rules: seq<Tree>, k: nat)
    ensures var u := UsedRules(rules);
            0 < |rules| && (forall r, q | 0 <= r < |rules| && q in Calls(rules[r]) :: q < |rules|) ==>
              && (Advances(RuleGraph(rules, k), u) <==> forall r | r in u :: !Trapped(RuleGraph(rules, k), r))
              && (Advances(RuleGraph(rules, k), u) && |rules| <= MAXRULES ==>
                    forall r | r in u :: Verify(rules, rules[r], 0, false, k) != LeftRecursive)
  {
    var u := UsedRules(rules);
    if 0 < |rules| && forall r, q | 0 <= r < |rules| && q in Calls(rules[r]) :: q < |rules| {
      forall r, q | 0 <= r < |rules| && q in Calls(rules[r]) ensures q in u {
        assert Used(rules, q);
      }
      GraphWithin(rules, u, k);
      AdvancesIff(RuleGraph(rules, k), u);
      if Advances(RuleGraph(rules, k), u) && |rules| <= MAXRULES {
        forall r | r in u ensures Verify(rules, rules[r], 0, false, k) != LeftRecursive {
          AdvanceVerified(rules, u, r, k);
          HidesIff(rules, rules[r], 0, false, k);
        }
      }
    }
  }
}
