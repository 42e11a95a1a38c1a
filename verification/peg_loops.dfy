// What the checks on empty matches find, in terms of what patterns mean: on the empty subject, where
// predicates are taken for granted, 'checkaux' is exact, and 'checkloops' refuses exactly the patterns
// with a loop that never ends.

module PegLoops {
  import opened PegTree
  import opened PegAnalysis
  import opened PegGraph
  import opened PegAdvance
  import opened PegVerify
  import opened PegAccept
  import opened PegSettle

  /**
   * The pattern as 'checkaux' sees it: not-predicates and look-behinds may match and may fail, so each
   * question takes the worse for it; an and-predicate may match, and fails only where its pattern does.
   */
  function Strip(t: Tree, pred: Pred): Tree
    decreases t
  {
    match t
    case TNot(_) => if pred.Nullable? then TTrue else TFalse
    case TBehind(_, _) => if pred.Nullable? then TTrue else TFalse
    case TAnd(p) => if pred.Nullable? then TTrue else Strip(p, pred)
    case TRep(p) => TRep(Strip(p, pred))
    case TCapture(p) => TCapture(Strip(p, pred))
    case TSeq(p1, p2) => TSeq(Strip(p1, pred), Strip(p2, pred))
    case TChoice(p1, p2) => TChoice(Strip(p1, pred), Strip(p2, pred))
    case TGrammar(rules) => TGrammar(StripAll(rules, pred))
    case _ => t
  }

  function StripAll(rules: seq<Tree>, pred: Pred): (r: seq<Tree>)
    ensures |r| == |rules| && forall i | 0 <= i < |rules| :: r[i] == Strip(rules[i], pred)
    decreases rules
  {
    seq(|rules|, i requires 0 <= i < |rules| => Strip(rules[i], pred))
  }

  /** What the pattern answers on the empty subject. */
  function OnEmpty(g: seq<Tree>, t: Tree, pred: Pred, n: nat): Outcome {
    Peg(StripAll(g, pred), Strip(t, pred), [], 0, n)
  }

  /** Where that is an answer at all, 'checkaux' gives it: it is nullable, or nofail, iff it matches. */
  lemma {:induction false} CheckAuxMeans(g: seq<Tree>, t: Tree, pred: Pred, k: nat, n: nat)
    requires OnEmpty(g, t, pred, n) != Out && n <= k
    ensures CheckAux(g, t, pred, k) <==> OnEmpty(g, t, pred, n) == Ok(0)
    decreases n, t
  {
    match t
    case TRep(p) =>
      if OnEmpty(g, p, pred, n).Ok? { EmptyLoopDiverges(StripAll(g, pred), Strip(p, pred), [], 0, n); }
    case TSeq(p1, p2) =>
      CheckAuxMeans(g, p1, pred, k, n);
      if OnEmpty(g, p1, pred, n).Ok? { CheckAuxMeans(g, p2, pred, k, n); }
    case TChoice(p1, p2) =>
      CheckAuxMeans(g, p1, pred, k, n);
      if OnEmpty(g, p1, pred, n).Fail? { CheckAuxMeans(g, p2, pred, k, n); }
    case TAnd(p) => if pred.NoFail? { CheckAuxMeans(g, p, pred, k, n); }
    case TCapture(p) => CheckAuxMeans(g, p, pred, k, n);
    case TGrammar(rules) => if |rules| > 0 { CheckAuxMeans(rules, rules[0], pred, k, n); }
    case TCall(_, r) => if n > 0 && r < |g| { CheckAuxMeans(g, g[r], pred, k - 1, n - 1); }
    case _ =>
  }

  // ---- Loops ----

  /** The bodies of the loops of a tree; those of nested grammars are left alone. */
  function Bodies(t: Tree): set<Tree> {
    match t
    case TRep(p) => {p} + Bodies(p)
    case TNot(p) => Bodies(p)
    case TAnd(p) => Bodies(p)
    case TBehind(_, p) => Bodies(p)
    case TCapture(p) => Bodies(p)
    case TSeq(p1, p2) => Bodies(p1) + Bodies(p2)
    case TChoice(p1, p2) => Bodies(p1) + Bodies(p2)
    case _ => {}
  }

  /** A loop over 'p' never ends on the empty subject, whatever the fuel. */
  ghost predicate Idles(g: seq<Tree>, p: Tree) { forall n: nat :: OnEmpty(g, TRep(p), Nullable, n) == Out }

  lemma {:induction false} RefusedBody(g: seq<Tree>, t: Tree, k: nat) returns (p: Tree)
    requires CheckLoops(g, t, k)
    ensures p in Bodies(t) && CheckAux(g, p, Nullable, k)
    decreases t
  {
    match t
    case TRep(body) => if CheckAux(g, body, Nullable, k) { p := body; } else { p := RefusedBody(g, body, k); }
    case TNot(q) => p := RefusedBody(g, q, k);
    case TAnd(q) => p := RefusedBody(g, q, k);
    case TBehind(_, q) => p := RefusedBody(g, q, k);
    case TCapture(q) => p := RefusedBody(g, q, k);
    case TSeq(p1, p2) => if CheckLoops(g, p1, k) { p := RefusedBody(g, p1, k); } else { p := RefusedBody(g, p2, k); }
    case TChoice(p1, p2) =>
      if CheckLoops(g, p1, k) { p := RefusedBody(g, p1, k); } else { p := RefusedBody(g, p2, k); }
  }

  /** A loop body is a part of its tree, and the check looks at it. */
  lemma {:induction false} BodyInside(g: seq<Tree>, t: Tree, p: Tree, k: nat)
    requires p in Bodies(t)
    ensures !CheckLoops(g, t, k) ==> !CheckAux(g, p, Nullable, k) && !CheckLoops(g, p, k)
    ensures Built(t, k) ==> Built(p, k)
    ensures Calls(p) <= Calls(t) && Depth(p) <= Depth(t)
    decreases t
  {
    match t
    case TRep(q) => if p != q { BodyInside(g, q, p, k); }
    case TNot(q) => BodyInside(g, q, p, k);
    case TAnd(q) => BodyInside(g, q, p, k);
    case TBehind(_, q) => BodyInside(g, q, p, k);
    case TCapture(q) => BodyInside(g, q, p, k);
    case TSeq(p1, p2) => if p in Bodies(p1) { BodyInside(g, p1, p, k); } else { BodyInside(g, p2, p, k); }
    case TChoice(p1, p2) => if p in Bodies(p1) { BodyInside(g, p1, p, k); } else { BodyInside(g, p2, p, k); }
    case _ =>
  }

  /** A body that 'checkaux' finds nullable matches the empty subject, if it answers: the loop never ends. */
  lemma NullableIdles(g: seq<Tree>, u: set<nat>, p: Tree, d: nat, k: nat)
    requires PartAhead(g, u, p, d, k, k) && CheckAux(g, p, Nullable, k)
    ensures Idles(g, p)
  {
    forall n: nat ensures OnEmpty(g, TRep(p), Nullable, n) == Out {
      if OnEmpty(g, p, Nullable, n) != Out {
        var m := Max(n, k);
        PartChecks(g, u, p, d, k, Nullable, k, m);
        CheckAuxMeans(g, p, Nullable, m, n);
        EmptyLoopDiverges(StripAll(g, Nullable), Strip(p, Nullable), [], 0, n);
      }
    }
  }

  /** Where no loop of the rules is refused, what is reached by left calls answers on the empty subject. */
  lemma {:induction false} RuleAnswers(g: seq<Tree>, u: set<nat>, t: Tree, d: nat, k0: nat, np: nat, nb: bool, k: nat)
    requires RuleAhead(g, u, t, d, k0, np, nb, k)
    requires !CheckLoops(g, t, k0) && forall r | r in u :: !CheckLoops(g, g[r], k0)
    ensures OnEmpty(g, t, Nullable, k) != Out
    decreases d, MAXRULES - np, t
  {
    match t
    case TRep(p) =>
      RuleAnswers(g, u, p, d, k0, np, true, k);
      CheckAuxMeans(g, p, Nullable, k, k);
      RuleChecks(g, u, p, d, k0, np, true, Nullable, k, k0);
    case TSeq(p1, p2) =>
      RuleAnswers(g, u, p1, d, k0, np, false, k);
      if OnEmpty(g, p1, Nullable, k).Ok? {
        CheckAuxMeans(g, p1, Nullable, k, k);
        RuleChecks(g, u, p1, d, k0, np, false, Nullable, k, k0);
        RuleAnswers(g, u, p2, d, k0, np, nb, k);
      }
    case TChoice(p1, p2) =>
      RuleAnswers(g, u, p1, d, k0, np, nb, k);
      RuleAnswers(g, u, p2, d, k0, np, VerifyKept(g, p1, np, nb, k0).nb, k);
    case TCapture(p) => RuleAnswers(g, u, p, d, k0, np, nb, k);
    case TCall(_, r) => RuleAnswers(g, u, g[r], d, k0, np + 1, nb, k - 1);
    case TGrammar(rules) =>
      EnterRules(rules, d, k0);
      RuleAnswers(rules, UsedRules(rules), rules[0], d - 1, k0, 0, false, k);
    case _ =>
  }

  lemma {:induction false} PartAnswers(g: seq<Tree>, u: set<nat>, t: Tree, d: nat, k: nat)
    requires PartAhead(g, u, t, d, k, k)
    requires !CheckLoops(g, t, k) && forall r | r in u :: !CheckLoops(g, g[r], k)
    ensures OnEmpty(g, t, Nullable, k) != Out
    decreases t
  {
    match t
    case TRep(p) =>
      PartAnswers(g, u, p, d, k);
      CheckAuxMeans(g, p, Nullable, k, k);
    case TSeq(p1, p2) =>
      PartAnswers(g, u, p1, d, k);
      PartAnswers(g, u, p2, d, k);
    case TChoice(p1, p2) =>
      PartAnswers(g, u, p1, d, k);
      PartAnswers(g, u, p2, d, k);
    case TCapture(p) => PartAnswers(g, u, p, d, k);
    case TCall(_, r) => RuleAnswers(g, u, g[r], d, k, 0, false, k - 1);
    case TGrammar(rules) =>
      EnterRules(rules, d, k);
      RuleAnswers(rules, UsedRules(rules), rules[0], d - 1, k, 0, false, k);
    case _ =>
  }

  /** So a loop that is not refused ends there: its body fails. */
  lemma LoopEnds(g: seq<Tree>, u: set<nat>, t: Tree, p: Tree, d: nat, k: nat)
    requires PartAhead(g, u, t, d, k, k) && p in Bodies(t)
    requires !CheckLoops(g, t, k) && forall r | r in u :: !CheckLoops(g, g[r], k)
    ensures OnEmpty(g, TRep(p), Nullable, k) == Ok(0) && !Idles(g, p)
  {
    BodyInside(g, t, p, k);
    PartAnswers(g, u, p, d, k);
    CheckAuxMeans(g, p, Nullable, k, k);
  }

  ghost predicate AnyIdles(g: seq<Tree>, t: Tree) { exists p :: p in Bodies(t) && Idles(g, p) }

  /**
   * 'checkloops' refuses a pattern if and only if one of its loops never ends on the empty subject, once
   * predicates and look-behinds are taken to match. So it refuses no loop over a body that takes a
   * character, such as the one over "ab".
   */
  lemma LoopsIff(t: Tree, k: nat)
    requires Built(t, k) && Calls(t) == {} && k >= Bound(Depth(t) + 1)
    ensures CheckLoops([], t, k) <==> AnyIdles([], t)
  {
    if CheckLoops([], t, k) {
      var p := RefusedBody([], t, k);
      BodyInside([], t, p, k);
      NullableIdles([], {}, p, Depth(t), k);
    } else {
      forall p | p in Bodies(t) ensures !Idles([], p) {
        LoopEnds([], {}, t, p, Depth(t), k);
      }
    }
  }

  /** The same for the rules of a grammar that passes the other checks: some used rule is refused iff it idles. */
  lemma RuleLoopsIff(rules: seq<Tree>, d: nat, k: nat)
    requires var u := UsedRules(rules);
             RulesAhead(rules, u, d, k) && k >= Bound(d + 1)
    ensures (exists r | r in UsedRules(rules) :: CheckLoops(rules, rules[r], k)) <==>
            (exists r | r in UsedRules(rules) :: AnyIdles(rules, rules[r]))
  {
    hide RulesAhead, CheckLoops, AnyIdles, UsedRules;
    var u := UsedRules(rules);
    RuleAheads(rules, u, d, k);
    if r :| r in u && CheckLoops(rules, rules[r], k) {
      RuleIdles(rules, u, r, d, k);
      assert AnyIdles(rules, rules[r]);
    } else {
      forall r | r in u ensures !AnyIdles(rules, rules[r]) {
        RuleEndsLoops(rules, u, r, d, k);
      }
    }
  }

  lemma RuleAheads(g: seq<Tree>, u: set<nat>, d: nat, k: nat)
    requires RulesAhead(g, u, d, k) && k >= Bound(d + 1)
    ensures forall r | r in u :: r < |g| && PartAhead(g, u, g[r], d, k, k)
  {
  }

  lemma RuleIdles(g: seq<Tree>, u: set<nat>, r: nat, d: nat, k: nat)
    requires r in u && r < |g| && PartAhead(g, u, g[r], d, k, k) && CheckLoops(g, g[r], k)
    ensures AnyIdles(g, g[r])
  {
    var p := RefusedBody(g, g[r], k);
    BodyInside(g, g[r], p, k);
    NullableIdles(g, u, p, d, k);
  }

  lemma RuleEndsLoops(g: seq<Tree>, u: set<nat>, r: nat, d: nat, k: nat)
    requires r in u && r < |g| && PartAhead(g, u, g[r], d, k, k)
    requires forall q | q in u :: q < |g| && !CheckLoops(g, g[q], k)
    ensures !AnyIdles(g, g[r])
  {
    forall p | p in Bodies(g[r]) ensures !Idles(g, p) {
      LoopEnds(g, u, g[r], p, d, k);
    }
  }

  // ---- Acceptance, without the checks ----

  /** The rules of every nested grammar advance, and no loop of a used one idles. */
  ghost predicate Fine(t: Tree, k: nat)
    decreases t
  {
    match t
    case TRep(p) => Fine(p, k)
    case TNot(p) => Fine(p, k)
    case TAnd(p) => Fine(p, k)
    case TCapture(p) => Fine(p, k)
    case TBehind(_, p) => Fine(p, k)
    case TSeq(p1, p2) => Fine(p1, k) && Fine(p2, k)
    case TChoice(p1, p2) => Fine(p1, k) && Fine(p2, k)
    case TGrammar(rules) =>
      && 0 < |rules| <= MAXRULES
      && (forall r | 0 <= r < |rules| :: Fine(rules[r], k) && forall q | q in Calls(rules[r]) :: q < |rules|)
      && Advances(RuleGraph(rules, k), UsedRules(rules))
      && (forall r | r in UsedRules(rules) :: !AnyIdles(rules, rules[r]))
    case _ => true
  }

  lemma GrammarFine(rules: seq<Tree>, k: nat)
    requires k >= Bound(Depth(TGrammar(rules)) + 1)
    requires forall r | 0 <= r < |rules| :: Built(rules[r], k) <==> Fine(rules[r], k)
    ensures Built(TGrammar(rules), k) <==> Fine(TGrammar(rules), k)
  {
    hide CheckLoops, AnyIdles;
    var u, d := UsedRules(rules), DepthOf(rules, |rules|);
    if && 0 < |rules| <= MAXRULES && Advances(RuleGraph(rules, k), u)
       && forall r | 0 <= r < |rules| :: Built(rules[r], k) && forall q | q in Calls(rules[r]) :: q < |rules| {
      forall r | r in u ensures Calls(rules[r]) <= u {
        forall q | q in Calls(rules[r]) ensures q in u {
          assert Used(rules, q);
        }
      }
      forall r | r in u ensures VerifyKept(rules, rules[r], 0, false, k) != LeftRecursive {
        AdvanceVerified(rules, u, r, k);
      }
      assert RulesAhead(rules, u, d, k);
      RuleLoopsIff(rules, d, k);
      assert forall r: nat | r < |rules| :: Used(rules, r) <==> r in u;
    }
  }

  lemma {:induction false} BuiltFine(t: Tree, k: nat)
    requires k >= Bound(Depth(t) + 1)
    ensures Built(t, k) <==> Fine(t, k)
    decreases t
  {
    hide AnyIdles, CheckLoops;
    match t
    case TRep(p) => BuiltFine(p, k);
    case TNot(p) => BuiltFine(p, k);
    case TAnd(p) => BuiltFine(p, k);
    case TCapture(p) => BuiltFine(p, k);
    case TBehind(_, p) => BuiltFine(p, k);
    case TSeq(p1, p2) =>
      BuiltFine(p1, k);
      BuiltFine(p2, k);
    case TChoice(p1, p2) =>
      BuiltFine(p1, k);
      BuiltFine(p2, k);
    case TGrammar(rules) =>
      forall r | 0 <= r < |rules| ensures Built(rules[r], k) <==> Fine(rules[r], k) {
        BuiltFine(rules[r], k);
      }
      GrammarFine(rules, k);
    case _ =>
  }

  /**
   * What is accepted, without the checks: a pattern no loop of which idles, with grammars whose used
   * rules have no such loop either and advance by their calls.
   */
  lemma AcceptedMeans(t: Tree, k: nat)
    requires Calls(t) == {} && k >= Bound(Depth(t) + 1)
    ensures Built(t, k) && !CheckLoops([], t, k) <==> Fine(t, k) && !AnyIdles([], t)
  {
    BuiltFine(t, k);
    if Built(t, k) { LoopsIff(t, k); }
  }

  // ---- Patterns without predicates ----

  /** No predicates and no look-behinds. */
  predicate Plain(t: Tree)
    decreases t
  {
    match t
    case TNot(_) => false
    case TAnd(_) => false
    case TBehind(_, _) => false
    case TRep(p) => Plain(p)
    case TCapture(p) => Plain(p)
    case TSeq(p1, p2) => Plain(p1) && Plain(p2)
    case TChoice(p1, p2) => Plain(p1) && Plain(p2)
    case TGrammar(rules) => forall r | 0 <= r < |rules| :: Plain(rules[r])
    case _ => true
  }

  lemma {:induction false} PlainStays(t: Tree, pred: Pred)
    requires Plain(t)
    ensures Strip(t, pred) == t
    decreases t
  {
    match t
    case TRep(p) => PlainStays(p, pred);
    case TCapture(p) => PlainStays(p, pred);
    case TSeq(p1, p2) =>
      PlainStays(p1, pred);
      PlainStays(p2, pred);
    case TChoice(p1, p2) =>
      PlainStays(p1, pred);
      PlainStays(p2, pred);
    case TGrammar(rules) =>
      forall r | 0 <= r < |rules| ensures Strip(rules[r], pred) == rules[r] {
        PlainStays(rules[r], pred);
      }
      assert StripAll(rules, pred) == rules;
    case _ =>
  }

  /** Of these, 'checkaux' says exactly whether they match the empty subject, for either question. */
  lemma PlainChecks(g: seq<Tree>, t: Tree, pred: Pred, k: nat, n: nat)
    requires Plain(t) && (forall r | 0 <= r < |g| :: Plain(g[r])) && Peg(g, t, [], 0, n) != Out && n <= k
    ensures CheckAux(g, t, pred, k) <==> Peg(g, t, [], 0, n) == Ok(0)
  {
    PlainStays(t, pred);
    PlainStays(TGrammar(g), pred);
    CheckAuxMeans(g, t, pred, k, n);
  }

  lemma {:induction false} PlainBodies(t: Tree, p: Tree)
    requires Plain(t) && p in Bodies(t)
    ensures Plain(p)
    decreases t
  {
    match t
    case TRep(q) => if p != q { PlainBodies(q, p); }
    case TCapture(q) => PlainBodies(q, p);
    case TSeq(p1, p2) => if p in Bodies(p1) { PlainBodies(p1, p); } else { PlainBodies(p2, p); }
    case TChoice(p1, p2) => if p in Bodies(p1) { PlainBodies(p1, p); } else { PlainBodies(p2, p); }
    case _ =>
  }

  /** The loop itself never ends on the empty subject. */
  ghost predicate Stalls(p: Tree) { forall n: nat :: Peg([], TRep(p), [], 0, n) == Out }

  lemma PlainIdles(p: Tree)
    requires Plain(p)
    ensures Idles([], p) <==> Stalls(p)
  {
    PlainStays(TRep(p), Nullable);
    assert StripAll([], Nullable) == [];
    hide Peg, Strip, StripAll;
    forall n: nat ensures OnEmpty([], TRep(p), Nullable, n) == Peg([], TRep(p), [], 0, n) {
    }
    if Idles([], p) {
      forall n: nat ensures Peg([], TRep(p), [], 0, n) == Out {
        assert OnEmpty([], TRep(p), Nullable, n) == Out;
      }
    }
  }

  /** And 'checkloops' refuses exactly those with a loop that never ends on the empty subject. */
  lemma PlainLoopsIff(t: Tree, k: nat)
    requires Plain(t) && Built(t, k) && Calls(t) == {} && k >= Bound(Depth(t) + 1)
    ensures CheckLoops([], t, k) <==> exists p :: p in Bodies(t) && Stalls(p)
  {
    hide Idles, Stalls, CheckLoops;
    LoopsIff(t, k);
    forall p | p in Bodies(t) ensures Idles([], p) <==> Stalls(p) {
      PlainBodies(t, p);
      PlainIdles(p);
    }
  }
}
