// The checks of lptree.c on grammars, and what they miss.

module PegVerify {
  import opened PegTree
  import opened PegAnalysis

  /** The outcome of the left-recursion check: an error, or whether the pattern may be passed. */
  datatype Verdict = LeftRecursive | Passes(nb: bool)

  /**
   * Checks left calls. 'np' counts the rules entered without taking a character; 'nb' is an
   * accumulator that should make the result true. A nested grammar ignores it, and look-behinds are not
   * looked into.
   */
  function Verify(g: seq<Tree>, t: Tree, np: nat, nb: bool, k: nat): Verdict
    decreases MAXRULES - np, t
  {
    match t
    case TChar(_) => Passes(nb)
    case TSet(_) => Passes(nb)
    case TAny => Passes(nb)
    case TFalse => Passes(nb)
    case TTrue => Passes(true)
    case TBehind(_, _) => Passes(true)
    case TNot(p) => Verify(g, p, np, true, k)
    case TAnd(p) => Verify(g, p, np, true, k)
    case TRep(p) => Verify(g, p, np, true, k)
    case TCapture(p) => Verify(g, p, np, nb, k)
    case TCall(_, r) =>
      if np >= MAXRULES || r >= |g| then LeftRecursive else Verify(g, g[r], np + 1, nb, k)
    case TSeq(p1, p2) => (
      match Verify(g, p1, np, false, k)
      case LeftRecursive => LeftRecursive
      case Passes(b) => if b then Verify(g, p2, np, nb, k) else Passes(nb))
    case TChoice(p1, p2) => (
      match Verify(g, p1, np, nb, k)
      case LeftRecursive => LeftRecursive
      case Passes(b) => Verify(g, p2, np, b, k))
    case TGrammar(_) => Passes(CheckAux(g, t, Nullable, k))
  }

  /** The same check with the accumulator kept at nested grammars. */
  function VerifyKept(g: seq<Tree>, t: Tree, np: nat, nb: bool, k: nat): Verdict
    decreases MAXRULES - np, t
  {
    match t
    case TChar(_) => Passes(nb)
    case TSet(_) => Passes(nb)
    case TAny => Passes(nb)
    case TFalse => Passes(nb)
    case TTrue => Passes(true)
    case TBehind(_, _) => Passes(true)
    case TNot(p) => VerifyKept(g, p, np, true, k)
    case TAnd(p) => VerifyKept(g, p, np, true, k)
    case TRep(p) => VerifyKept(g, p, np, true, k)
    case TCapture(p) => VerifyKept(g, p, np, nb, k)
    case TCall(_, r) =>
      if np >= MAXRULES || r >= |g| then LeftRecursive else VerifyKept(g, g[r], np + 1, nb, k)
    case TSeq(p1, p2) => (
      match VerifyKept(g, p1, np, false, k)
      case LeftRecursive => LeftRecursive
      case Passes(b) => if b then VerifyKept(g, p2, np, nb, k) else Passes(nb))
    case TChoice(p1, p2) => (
      match VerifyKept(g, p1, np, nb, k)
      case LeftRecursive => LeftRecursive
      case Passes(b) => VerifyKept(g, p2, np, b, k))
    case TGrammar(_) => Passes(nb || CheckAux(g, t, Nullable, k))
  }

  /** Whether a loop body in the tree may match the empty string; nested grammars are left alone. */
  predicate CheckLoops(g: seq<Tree>, t: Tree, k: nat)
    decreases t
  {
    match t
    case TRep(p) => CheckAux(g, p, Nullable, k) || CheckLoops(g, p, k)
    case TNot(p) => CheckLoops(g, p, k)
    case TAnd(p) => CheckLoops(g, p, k)
    case TBehind(_, p) => CheckLoops(g, p, k)
    case TCapture(p) => CheckLoops(g, p, k)
    case TSeq(p1, p2) => CheckLoops(g, p1, k) || CheckLoops(g, p2, k)
    case TChoice(p1, p2) => CheckLoops(g, p1, k) || CheckLoops(g, p2, k)
    case _ => false
  }

  /** The check ends at a nested grammar that is not nullable, which forgets the accumulator. */
  predicate LosesFlag(g: seq<Tree>, t: Tree, np: nat, k: nat)
    decreases MAXRULES - np, t
  {
    match t
    case TNot(p) => LosesFlag(g, p, np, k)
    case TAnd(p) => LosesFlag(g, p, np, k)
    case TRep(p) => LosesFlag(g, p, np, k)
    case TCapture(p) => LosesFlag(g, p, np, k)
    case TCall(_, r) => np < MAXRULES && r < |g| && LosesFlag(g, g[r], np + 1, k)
    case TSeq(p1, p2) => Verify(g, p1, np, false, k) == Passes(true) && LosesFlag(g, p2, np, k)
    case TChoice(p1, p2) =>
      if LosesFlag(g, p1, np, k) then Verify(g, p2, np, false, k) != Passes(true) else LosesFlag(g, p2, np, k)
    case TGrammar(_) => !CheckAux(g, t, Nullable, k)
    case _ => false
  }

  /**
   * The accumulator is meant to make the result true. It does, if and only if the check does not
   * end at a nested grammar that is not nullable.
   */
  lemma {:induction false} FlagKept(g: seq<Tree>, t: Tree, np: nat, k: nat)
    requires Verify(g, t, np, true, k) != LeftRecursive
    ensures Verify(g, t, np, true, k) == Passes(true) <==> !LosesFlag(g, t, np, k)
    decreases MAXRULES - np, t
  {
    match t
    case TNot(p) => FlagKept(g, p, np, k);
    case TAnd(p) => FlagKept(g, p, np, k);
    case TRep(p) => FlagKept(g, p, np, k);
    case TCapture(p) => FlagKept(g, p, np, k);
    case TCall(_, r) => FlagKept(g, g[r], np + 1, k);
    case TSeq(p1, p2) => if Verify(g, p1, np, false, k) == Passes(true) { FlagKept(g, p2, np, k); }
    case TChoice(p1, p2) =>
      FlagKept(g, p1, np, k);
      if !LosesFlag(g, p1, np, k) { FlagKept(g, p2, np, k); }
    case _ =>
  }

  /**
   * A rule that loops over a nested grammar and then calls itself is left recursive wherever that
   * grammar does not match, yet the check accepts it and no fuel ever suffices at the end of a
   * subject.
   */
  lemma {:induction false} LostFlagDiverges(rules: seq<Tree>, site: nat, k: nat, s: Subject, n: nat)
    requires |rules| > 0 && !CheckAux([], TGrammar(rules), Nullable, k)
    ensures var rule := TSeq(TRep(TGrammar(rules)), TCall(site, 0));
            && Verify([rule], rule, 0, false, k) == Passes(false)
            && LosesFlag([rule], TRep(TGrammar(rules)), 0, k)
            && Peg([rule], rule, s, |s|, n) == Out
    decreases n
  {
    var sub := TGrammar(rules);
    var rule := TSeq(TRep(sub), TCall(site, 0));
    assert CheckAux([rule], sub, Nullable, k) == CheckAux([], sub, Nullable, k);
    assert Verify([rule], TRep(sub), 0, false, k) == Passes(false);
    NullableSound([rule], sub, k, s, |s|, n);
    assert Peg([rule], sub, s, |s|, n) != Ok(|s|);
    if Peg([rule], sub, s, |s|, n) == Fail && n > 0 {
      LostFlagDiverges(rules, site, k, s, n - 1);
      assert Peg([rule], TCall(site, 0), s, |s|, n) == Peg([rule], rule, s, |s|, n - 1);
    }
  }

  // ---- The check that keeps the accumulator ----

  /** There the accumulator always makes the result true. */
  lemma {:induction false} KeptWorks(g: seq<Tree>, t: Tree, np: nat, k: nat)
    requires VerifyKept(g, t, np, true, k) != LeftRecursive
    ensures VerifyKept(g, t, np, true, k) == Passes(true)
    decreases MAXRULES - np, t
  {
    match t
    case TNot(p) => KeptWorks(g, p, np, k);
    case TAnd(p) => KeptWorks(g, p, np, k);
    case TRep(p) => KeptWorks(g, p, np, k);
    case TCapture(p) => KeptWorks(g, p, np, k);
    case TCall(_, r) => KeptWorks(g, g[r], np + 1, k);
    case TSeq(p1, p2) => if VerifyKept(g, p1, np, false, k) == Passes(true) { KeptWorks(g, p2, np, k); }
    case TChoice(p1, p2) =>
      KeptWorks(g, p1, np, k);
      KeptWorks(g, p2, np, k);
    case _ =>
  }

  /** A pattern that it does not let pass never matches without taking a character. */
  lemma {:induction false} KeptSound(g: seq<Tree>, t: Tree, np: nat, nb: bool, k: nat, s: Subject, i: nat, n: nat)
    requires i <= |s| && VerifyKept(g, t, np, nb, k) == Passes(false)
    ensures Peg(g, t, s, i, n) != Ok(i)
    decreases MAXRULES - np, t
  {
    if nb { KeptWorks(g, t, np, k); }
    if t.TRep? || t.TNot? || t.TAnd? { KeptWorks(g, t.p, np, k); }
    match t
    case TCapture(p) => KeptSound(g, p, np, nb, k, s, i, n);
    case TCall(_, r) => if n > 0 { KeptSound(g, g[r], np + 1, nb, k, s, i, n - 1); }
    case TSeq(p1, p2) =>
      if VerifyKept(g, p1, np, false, k) == Passes(false) {
        KeptSound(g, p1, np, false, k, s, i, n);
      } else if Peg(g, p1, s, i, n) == Ok(i) {
        KeptSound(g, p2, np, nb, k, s, i, n);
      }
    case TChoice(p1, p2) =>
      var b := VerifyKept(g, p1, np, nb, k).nb;
      if b { KeptWorks(g, p2, np, k); }
      KeptSound(g, p1, np, nb, k, s, i, n);
      KeptSound(g, p2, np, b, k, s, i, n);
    case TGrammar(_) => NullableSound(g, t, k, s, i, n);
    case _ =>
  }

  /** It rejects the rules that the code accepts although they never answer. */
  lemma {:induction false} KeptRejects(rules: seq<Tree>, site: nat, k: nat, np: nat, nb: bool)
    ensures var rule := TSeq(TRep(TGrammar(rules)), TCall(site, 0));
            VerifyKept([rule], rule, np, nb, k) == LeftRecursive
    decreases MAXRULES - np
  {
    var rule := TSeq(TRep(TGrammar(rules)), TCall(site, 0));
    assert VerifyKept([rule], TRep(TGrammar(rules)), np, false, k) == Passes(true);
    if np < MAXRULES { KeptRejects(rules, site, k, np + 1, nb); }
    assert VerifyKept([rule], TCall(site, 0), np, nb, k) == LeftRecursive;
  }

  /** It accepts rules that lose the flag where that does no harm. */
  lemma KeptAccepts(rules: seq<Tree>, c: Byte, k: nat)
    ensures var rule := TSeq(TRep(TGrammar(rules)), TChar(c));
            VerifyKept([rule], rule, 0, false, k) == Passes(false)
  {
    var rule := TSeq(TRep(TGrammar(rules)), TChar(c));
    assert VerifyKept([rule], TRep(TGrammar(rules)), 0, false, k) == Passes(true);
  }

  predicate Through(g: seq<Tree>, p: Tree, np: nat, kept: bool, k: nat) {
    (if kept then VerifyKept(g, p, np, false, k) else Verify(g, p, np, false, k)) == Passes(true)
  }

  /**
   * A chain of more left calls than there may be rules. It leads behind the first part of a sequence
   * that the check in question lets through.
   */
  predicate LeftChain(g: seq<Tree>, t: Tree, np: nat, kept: bool, k: nat)
    decreases MAXRULES - np, t
  {
    match t
    case TNot(p) => LeftChain(g, p, np, kept, k)
    case TAnd(p) => LeftChain(g, p, np, kept, k)
    case TRep(p) => LeftChain(g, p, np, kept, k)
    case TCapture(p) => LeftChain(g, p, np, kept, k)
    case TCall(_, r) => np >= MAXRULES || r >= |g| || LeftChain(g, g[r], np + 1, kept, k)
    case TSeq(p1, p2) => LeftChain(g, p1, np, kept, k) || (Through(g, p1, np, kept, k) && LeftChain(g, p2, np, kept, k))
    case TChoice(p1, p2) => LeftChain(g, p1, np, kept, k) || LeftChain(g, p2, np, kept, k)
    case _ => false
  }

  /** Each check rejects exactly the patterns with such a chain. */
  lemma {:induction false} RejectsChains(g: seq<Tree>, t: Tree, np: nat, nb: bool, k: nat)
    ensures Verify(g, t, np, nb, k) == LeftRecursive <==> LeftChain(g, t, np, false, k)
    ensures VerifyKept(g, t, np, nb, k) == LeftRecursive <==> LeftChain(g, t, np, true, k)
    decreases MAXRULES - np, t
  {
    match t
    case TNot(p) => RejectsChains(g, p, np, true, k);
    case TAnd(p) => RejectsChains(g, p, np, true, k);
    case TRep(p) => RejectsChains(g, p, np, true, k);
    case TCapture(p) => RejectsChains(g, p, np, nb, k);
    case TCall(_, r) => if np < MAXRULES && r < |g| { RejectsChains(g, g[r], np + 1, nb, k); }
    case TSeq(p1, p2) =>
      RejectsChains(g, p1, np, false, k);
      RejectsChains(g, p2, np, nb, k);
    case TChoice(p1, p2) =>
      RejectsChains(g, p1, np, nb, k);
      RejectsChains(g, p2, np, true, k);
      RejectsChains(g, p2, np, false, k);
    case _ =>
  }

  /**
   * The pattern may be passed, but the code does not see it: what decides is a nested grammar that is
   * not nullable, reached with the accumulator set.
   */
  predicate Hides(g: seq<Tree>, t: Tree, np: nat, nb: bool, k: nat)
    decreases MAXRULES - np, t
  {
    match t
    case TNot(p) => Hides(g, p, np, true, k)
    case TAnd(p) => Hides(g, p, np, true, k)
    case TRep(p) => Hides(g, p, np, true, k)
    case TCapture(p) => Hides(g, p, np, nb, k)
    case TCall(_, r) => np < MAXRULES && r < |g| && Hides(g, g[r], np + 1, nb, k)
    case TSeq(p1, p2) =>
      if Through(g, p1, np, false, k) then Hides(g, p2, np, nb, k)
      else !nb && Hides(g, p1, np, false, k) && Through(g, p2, np, true, k)
    case TChoice(p1, p2) =>
      if Verify(g, p1, np, nb, k) == Passes(true) then Hides(g, p2, np, true, k)
      else if Hides(g, p1, np, nb, k) then !Through(g, p2, np, false, k)
      else Hides(g, p2, np, false, k)
    case TGrammar(_) => nb && !CheckAux(g, t, Nullable, k)
    case _ => false
  }

  /** Where the corrected check lets a pattern through and the code does not. */
  lemma {:induction false} HidesIff(g: seq<Tree>, t: Tree, np: nat, nb: bool, k: nat)
    requires VerifyKept(g, t, np, nb, k) != LeftRecursive
    ensures Verify(g, t, np, nb, k) != LeftRecursive
    ensures Verify(g, t, np, nb, k) == Passes(true) ==> VerifyKept(g, t, np, nb, k) == Passes(true)
    ensures VerifyKept(g, t, np, nb, k) == Passes(true) && Verify(g, t, np, nb, k) == Passes(false) <==>
            Hides(g, t, np, nb, k)
    decreases MAXRULES - np, t
  {
    if nb { KeptWorks(g, t, np, k); }
    match t
    case TNot(p) => HidesIff(g, p, np, true, k);
    case TAnd(p) => HidesIff(g, p, np, true, k);
    case TRep(p) => HidesIff(g, p, np, true, k);
    case TCapture(p) => HidesIff(g, p, np, nb, k);
    case TCall(_, r) => HidesIff(g, g[r], np + 1, nb, k);
    case TSeq(p1, p2) =>
      HidesIff(g, p1, np, false, k);
      if Through(g, p1, np, true, k) { HidesIff(g, p2, np, nb, k); }
    case TChoice(p1, p2) =>
      HidesIff(g, p1, np, nb, k);
      RejectsChains(g, p2, np, true, k);
      RejectsChains(g, p2, np, false, k);
      HidesIff(g, p2, np, true, k);
      HidesIff(g, p2, np, false, k);
      KeptWorks(g, p2, np, k);
    case _ =>
  }

  /**
   * The code accepts a pattern that the corrected check rejects, if and only if there is a chain of
   * left calls, but only behind sequences whose first part hides that it may be passed.
   */
  lemma MissedIff(g: seq<Tree>, t: Tree, np: nat, nb: bool, k: nat)
    ensures Verify(g, t, np, nb, k) != LeftRecursive && VerifyKept(g, t, np, nb, k) == LeftRecursive <==>
            LeftChain(g, t, np, true, k) && !LeftChain(g, t, np, false, k)
    ensures forall p | VerifyKept(g, p, np, false, k) != LeftRecursive ::
              Through(g, p, np, true, k) && !Through(g, p, np, false, k) <==> Hides(g, p, np, false, k)
  {
    RejectsChains(g, t, np, nb, k);
    forall p | VerifyKept(g, p, np, false, k) != LeftRecursive
      ensures Through(g, p, np, true, k) && !Through(g, p, np, false, k) <==> Hides(g, p, np, false, k)
    {
      HidesIff(g, p, np, false, k);
    }
  }
}
