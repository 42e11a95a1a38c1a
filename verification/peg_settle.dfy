// For accepted patterns the recursive analyses end: the bound on followed calls never matters.

module PegSettle {
  import opened PegTree
  import opened PegAnalysis
  import opened PegAdvance
  import opened PegVerify
  import opened PegAccept

  /** Calls that can follow each other on one path through 'd' nested grammars. */
  function Bound(d: nat): nat { (MAXRULES + 1) * d }

  /** The rules 'u' of the grammar in force pass the check on left recursion; loops do not matter here. */
  ghost predicate RulesAhead(g: seq<Tree>, u: set<nat>, d: nat, k: nat) {
    forall r | r in u ::
      && r < |g| && VerifyKept(g, g[r], 0, false, k) != LeftRecursive && Built(g[r], k)
      && Calls(g[r]) <= u && Depth(g[r]) <= d
  }

  /** A rule reached after 'np' left calls; 'k0' is the depth at which the grammar was verified. */
  ghost predicate RuleAhead(g: seq<Tree>, u: set<nat>, t: Tree, d: nat, k0: nat, np: nat, nb: bool, k: nat) {
    && RulesAhead(g, u, d, k0) && Built(t, k0) && Calls(t) <= u && Depth(t) <= d && np <= MAXRULES
    && VerifyKept(g, t, np, nb, k0) != LeftRecursive
    && k0 >= Bound(d + 1) && k >= MAXRULES - np + Bound(d)
  }

  /** Any part of a pattern whose nested grammars are accepted; rules that nothing calls are not checked. */
  ghost predicate PartAhead(g: seq<Tree>, u: set<nat>, t: Tree, d: nat, k0: nat, k: nat) {
    && RulesAhead(g, u, d, k0) && Built(t, k0) && Calls(t) <= u && Depth(t) <= d
    && k0 >= Bound(d + 1) && k >= Bound(d + 1)
  }

  /** The rules of a nested grammar are ahead, with one level of nesting less. */
  lemma EnterGrammar(rules: seq<Tree>, d: nat, k0: nat, k: nat) returns (u: set<nat>)
    requires Built(TGrammar(rules), k0) && Depth(TGrammar(rules)) <= d
    requires k0 >= Bound(d + 1) && k >= Bound(d)
    ensures d > 0 && RuleAhead(rules, u, rules[0], d - 1, k0, 0, false, k)
  {
    u := UsedRules(rules);
    EnterRules(rules, d, k0);
  }

  /** On its way through left calls 'checkaux' meets nothing that the verification did not. */
  lemma {:induction false} RuleChecks(g: seq<Tree>, u: set<nat>, t: Tree, d: nat, k0: nat, np: nat, nb: bool,
                                      pred: Pred, k1: nat, k2: nat)
    requires RuleAhead(g, u, t, d, k0, np, nb, k1) && RuleAhead(g, u, t, d, k0, np, nb, k2)
    ensures CheckAux(g, t, pred, k1) == CheckAux(g, t, pred, k2)
    ensures CheckAux(g, t, pred, k1) ==> VerifyKept(g, t, np, nb, k0) == Passes(true)
    decreases d, MAXRULES - np, t
  {
    if nb { KeptWorks(g, t, np, k0); }
    if t.TRep? || t.TNot? || t.TAnd? { KeptWorks(g, t.p, np, k0); }
    match t
    case TAnd(p) => RuleChecks(g, u, p, d, k0, np, true, pred, k1, k2);
    case TCapture(p) => RuleChecks(g, u, p, d, k0, np, nb, pred, k1, k2);
    case TSeq(p1, p2) =>
      RuleChecks(g, u, p1, d, k0, np, false, pred, k1, k2);
      if CheckAux(g, p1, pred, k1) { RuleChecks(g, u, p2, d, k0, np, nb, pred, k1, k2); }
    case TChoice(p1, p2) =>
      RuleChecks(g, u, p1, d, k0, np, nb, pred, k1, k2);
      var b := VerifyKept(g, p1, np, nb, k0).nb;
      RuleChecks(g, u, p2, d, k0, np, b, pred, k1, k2);
      if b { KeptWorks(g, p2, np, k0); }
    case TCall(_, r) => RuleChecks(g, u, g[r], d, k0, np + 1, nb, pred, k1 - 1, k2 - 1);
    case TGrammar(rules) =>
      var v := EnterGrammar(rules, d, k0, k1);
      RuleChecks(rules, v, rules[0], d - 1, k0, 0, false, pred, k1, k2);
      RuleChecks(rules, v, rules[0], d - 1, k0, 0, false, pred, k1, k0);
      if CheckAux(g, t, NoFail, k0) { NoFailFirst(g, t, k0); }
    case _ =>
  }

  /** The same from any place in an accepted pattern. */
  lemma {:induction false} PartChecks(g: seq<Tree>, u: set<nat>, t: Tree, d: nat, k0: nat,
                                      pred: Pred, k1: nat, k2: nat)
    requires PartAhead(g, u, t, d, k0, k1) && PartAhead(g, u, t, d, k0, k2)
    ensures CheckAux(g, t, pred, k1) == CheckAux(g, t, pred, k2)
    decreases t
  {
    match t
    case TAnd(p) => PartChecks(g, u, p, d, k0, pred, k1, k2);
    case TCapture(p) => PartChecks(g, u, p, d, k0, pred, k1, k2);
    case TSeq(p1, p2) =>
      PartChecks(g, u, p1, d, k0, pred, k1, k2);
      PartChecks(g, u, p2, d, k0, pred, k1, k2);
    case TChoice(p1, p2) =>
      PartChecks(g, u, p1, d, k0, pred, k1, k2);
      PartChecks(g, u, p2, d, k0, pred, k1, k2);
    case TCall(_, r) => RuleChecks(g, u, g[r], d, k0, 0, false, pred, k1 - 1, k2 - 1);
    case TGrammar(rules) =>
      var v := EnterGrammar(rules, d, k0, k1);
      RuleChecks(rules, v, rules[0], d - 1, k0, 0, false, pred, k1, k2);
    case _ =>
  }

  /** First sets settle. */
  lemma {:induction false} RuleFirst(g: seq<Tree>, u: set<nat>, t: Tree, d: nat, k0: nat, np: nat, nb: bool,
                                     follow: Charset, k1: nat, k2: nat)
    requires RuleAhead(g, u, t, d, k0, np, nb, k1) && RuleAhead(g, u, t, d, k0, np, nb, k2)
    ensures GetFirst(g, t, follow, k1) == GetFirst(g, t, follow, k2)
    decreases d, MAXRULES - np, t
  {
    if nb { KeptWorks(g, t, np, k0); }
    match t
    case TRep(p) => RuleFirst(g, u, p, d, k0, np, true, follow, k1, k2);
    case TAnd(p) => RuleFirst(g, u, p, d, k0, np, true, follow, k1, k2);
    case TCapture(p) => RuleFirst(g, u, p, d, k0, np, nb, follow, k1, k2);
    case TSeq(p1, p2) =>
      RuleChecks(g, u, p1, d, k0, np, false, Nullable, k1, k2);
      if CheckAux(g, p1, Nullable, k1) {
        RuleFirst(g, u, p2, d, k0, np, nb, follow, k1, k2);
        RuleFirst(g, u, p1, d, k0, np, false, GetFirst(g, p2, follow, k1).cs, k1, k2);
      } else {
        RuleFirst(g, u, p1, d, k0, np, false, FULL, k1, k2);
      }
    case TChoice(p1, p2) =>
      RuleFirst(g, u, p1, d, k0, np, nb, follow, k1, k2);
      RuleFirst(g, u, p2, d, k0, np, VerifyKept(g, p1, np, nb, k0).nb, follow, k1, k2);
    case TCall(_, r) => RuleFirst(g, u, g[r], d, k0, np + 1, nb, follow, k1 - 1, k2 - 1);
    case TGrammar(rules) =>
      var v := EnterGrammar(rules, d, k0, k1);
      RuleFirst(rules, v, rules[0], d - 1, k0, 0, false, follow, k1, k2);
    case _ =>
  }

  lemma {:induction false} PartFirst(g: seq<Tree>, u: set<nat>, t: Tree, d: nat, k0: nat,
                                     follow: Charset, k1: nat, k2: nat)
    requires PartAhead(g, u, t, d, k0, k1) && PartAhead(g, u, t, d, k0, k2)
    ensures GetFirst(g, t, follow, k1) == GetFirst(g, t, follow, k2)
    decreases t
  {
    match t
    case TRep(p) => PartFirst(g, u, p, d, k0, follow, k1, k2);
    case TAnd(p) => PartFirst(g, u, p, d, k0, follow, k1, k2);
    case TCapture(p) => PartFirst(g, u, p, d, k0, follow, k1, k2);
    case TSeq(p1, p2) =>
      PartChecks(g, u, p1, d, k0, Nullable, k1, k2);
      PartFirst(g, u, p2, d, k0, follow, k1, k2);
      PartFirst(g, u, p1, d, k0, GetFirst(g, p2, follow, k1).cs, k1, k2);
      PartFirst(g, u, p1, d, k0, FULL, k1, k2);
    case TChoice(p1, p2) =>
      PartFirst(g, u, p1, d, k0, follow, k1, k2);
      PartFirst(g, u, p2, d, k0, follow, k1, k2);
    case TCall(_, r) => RuleFirst(g, u, g[r], d, k0, 0, false, follow, k1 - 1, k2 - 1);
    case TGrammar(rules) =>
      var v := EnterGrammar(rules, d, k0, k1);
      RuleFirst(rules, v, rules[0], d - 1, k0, 0, false, follow, k1, k2);
    case _ =>
  }

  /** 'headfail' settles. */
  lemma {:induction false} RuleHead(g: seq<Tree>, u: set<nat>, t: Tree, d: nat, k0: nat, np: nat, nb: bool,
                                    k1: nat, k2: nat)
    requires RuleAhead(g, u, t, d, k0, np, nb, k1) && RuleAhead(g, u, t, d, k0, np, nb, k2)
    requires k1 >= MAXRULES - np + Bound(d + 1) && k2 >= MAXRULES - np + Bound(d + 1)
    ensures HeadFail(g, t, k1) == HeadFail(g, t, k2)
    decreases d, MAXRULES - np, t
  {
    match t
    case TAnd(p) => RuleHead(g, u, p, d, k0, np, true, k1, k2);
    case TCapture(p) => RuleHead(g, u, p, d, k0, np, nb, k1, k2);
    case TSeq(p1, p2) =>
      RuleHead(g, u, p1, d, k0, np, false, k1, k2);
      PartChecks(g, u, p2, d, k0, NoFail, k1, k2);
    case TChoice(p1, p2) =>
      RuleHead(g, u, p1, d, k0, np, nb, k1, k2);
      RuleHead(g, u, p2, d, k0, np, VerifyKept(g, p1, np, nb, k0).nb, k1, k2);
    case TCall(_, r) => RuleHead(g, u, g[r], d, k0, np + 1, nb, k1 - 1, k2 - 1);
    case TGrammar(rules) =>
      var v := EnterGrammar(rules, d, k0, k1);
      RuleHead(rules, v, rules[0], d - 1, k0, 0, false, k1, k2);
    case _ =>
  }

  lemma {:induction false} PartHead(g: seq<Tree>, u: set<nat>, t: Tree, d: nat, k0: nat, k1: nat, k2: nat)
    requires PartAhead(g, u, t, d, k0, k1) && PartAhead(g, u, t, d, k0, k2)
    requires k1 >= Bound(d + 2) && k2 >= Bound(d + 2)
    ensures HeadFail(g, t, k1) == HeadFail(g, t, k2)
    decreases t
  {
    match t
    case TAnd(p) => PartHead(g, u, p, d, k0, k1, k2);
    case TCapture(p) => PartHead(g, u, p, d, k0, k1, k2);
    case TSeq(p1, p2) =>
      PartHead(g, u, p1, d, k0, k1, k2);
      PartChecks(g, u, p2, d, k0, NoFail, k1, k2);
    case TChoice(p1, p2) =>
      PartHead(g, u, p1, d, k0, k1, k2);
      PartHead(g, u, p2, d, k0, k1, k2);
    case TCall(_, r) => RuleHead(g, u, g[r], d, k0, 0, false, k1 - 1, k2 - 1);
    case TGrammar(rules) =>
      var v := EnterGrammar(rules, d, k0, k1);
      RuleHead(rules, v, rules[0], d - 1, k0, 0, false, k1, k2);
    case _ =>
  }
}
