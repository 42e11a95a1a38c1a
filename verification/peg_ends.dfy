// Accepted patterns answer: why every match ends.

module PegEnds {
  import opened Options
  import opened PegTree
  import opened PegAnalysis
  import opened PegGraph
  import opened PegAdvance
  import opened PegVerify
  import opened PegAccept

  /** What is left at position 'i' of a subject of length 'len', for a rule of level 'at'. */
  function Room(at: Level, i: nat, len: nat): nat
    requires i <= len
  {
    at.pot + (if at.step < 0 then Times(-at.step, i) else Times(at.step, len - i))
  }

  /** A call that falls leaves less room, wherever in its span it is made. */
  lemma CallFalls(m: seq<Level>, at: Level, x: Arc, i0: nat, i: nat, len: nat)
    requires i0 <= len && i <= len && Falls(m, at, x)
    requires i0 + x.lo <= i && (x.hi.Some? ==> i <= i0 + x.hi.value)
    ensures m[x.to].rank < at.rank || (m[x.to].rank == at.rank && Room(m[x.to], i, len) < Room(at, i0, len))
  {
    var step := at.step;
    if m[x.to].rank == at.rank {
      if step < 0 {
        TimesGrows(step, i - i0, x.hi.value);
        TimesAdds(-step, i0, i - i0);
      } else {
        TimesGrows(step, x.lo, i - i0);
        TimesAdds(step, len - i, i - i0);
      }
    }
  }

  /** Two answers with the same fuel. */
  lemma SeqFuel(g: seq<Tree>, p1: Tree, p2: Tree, s: Subject, i: nat, n1: nat, n2: nat) returns (n: nat)
    requires i <= |s| && Peg(g, p1, s, i, n1).Ok?
    requires Peg(g, p2, s, Peg(g, p1, s, i, n1).pos, n2) != Out
    ensures Peg(g, TSeq(p1, p2), s, i, n) != Out
  {
    n := Max(n1, n2);
    PegMono(g, p1, s, i, n1, n);
    PegMono(g, p2, s, Peg(g, p1, s, i, n1).pos, n2, n);
  }

  lemma ChoiceFuel(g: seq<Tree>, p1: Tree, p2: Tree, s: Subject, i: nat, n1: nat, n2: nat) returns (n: nat)
    requires i <= |s| && Peg(g, p1, s, i, n1) == Fail && Peg(g, p2, s, i, n2) != Out
    ensures Peg(g, TChoice(p1, p2), s, i, n) != Out
  {
    n := Max(n1, n2);
    PegMono(g, p1, s, i, n1, n);
    PegMono(g, p2, s, i, n2, n);
  }

  lemma RepFuel(g: seq<Tree>, p: Tree, s: Subject, i: nat, n1: nat, n2: nat) returns (n: nat)
    requires i <= |s| && Peg(g, p, s, i, n1).Ok?
    requires Peg(g, TRep(p), s, Peg(g, p, s, i, n1).pos, n2) != Out
    ensures Peg(g, TRep(p), s, i, n) != Out
  {
    n := Max(n1, n2) + 1;
    PegMono(g, p, s, i, n1, n);
    PegMono(g, TRep(p), s, Peg(g, p, s, i, n1).pos, n2, n - 1);
  }

  /** The position lies in the span behind the place where the rule was entered. */
  predicate InSpan(i0: nat, lo: int, hi: Option<int>, i: nat) {
    i0 + lo <= i && (hi.Some? ==> i <= i0 + hi.value)
  }

  /** A part of a rule of level 'at' that was entered at 'i0'. */
  ghost predicate Inside(g: seq<Tree>, u: set<nat>, m: seq<Level>, at: Level, t: Tree, lo: int, hi: Option<int>,
                         back: bool, d: nat, k: nat) {
    && |m| == |g| && RulesOk(g, u, d, k) && Falling(RuleGraph(g, k), u, m)
    && TreeOk(g, u, t, d, k) && AllFall(m, at, Sites(g, t, lo, hi, back, k))
  }

  /** Any part of an accepted pattern answers at every position. */
  lemma {:induction false} PartEnds(g: seq<Tree>, u: set<nat>, m: seq<Level>, at: Level, t: Tree, i0: nat,
                                    lo: int, hi: Option<int>, back: bool, d: nat, k: nat, s: Subject, i: nat)
    returns (n: nat)
    requires i <= |s| && i0 <= |s| && InSpan(i0, lo, hi, i) && Inside(g, u, m, at, t, lo, hi, back, d, k)
    ensures Peg(g, t, s, i, n) != Out
    decreases d, at.rank, Room(at, i0, |s|), Depth(t), |s| - i, t, 1
  {
    hide Room, Falls, Shortest, Longest, CheckAux, UsedRules, VerifyKept;
    match t
    case TRep(p) =>
      n := PartEnds(g, u, m, at, p, i0, lo, None, back, d, k, s, i);
      var o := Peg(g, p, s, i, n);
      if o.Ok? {
        NullableSound(g, p, k, s, i, n);
        var n2 := PartEnds(g, u, m, at, t, i0, lo, None, back, d, k, s, o.pos);
        n := RepFuel(g, p, s, i, n, n2);
      }
    case TSeq(p1, p2) =>
      n := PartEnds(g, u, m, at, p1, i0, lo, hi, back, d, k, s, i);
      var o := Peg(g, p1, s, i, n);
      if o.Ok? {
        ShortestSound(g, p1, k, s, i, n);
        LongestSound(g, p1, s, i, n);
        var lo2, hi2 := lo + Shortest(g, p1, k), Plus(hi, Longest(p1));
        var n2 := PartEnds(g, u, m, at, p2, i0, lo2, hi2, back, d, k, s, o.pos);
        n := SeqFuel(g, p1, p2, s, i, n, n2);
      }
    case TChoice(p1, p2) =>
      n := PartEnds(g, u, m, at, p1, i0, lo, hi, back, d, k, s, i);
      if Peg(g, p1, s, i, n) == Fail {
        var n2 := PartEnds(g, u, m, at, p2, i0, lo, hi, back, d, k, s, i);
        n := ChoiceFuel(g, p1, p2, s, i, n, n2);
      }
    case TNot(p) => n := PartEnds(g, u, m, at, p, i0, lo, hi, back, d, k, s, i);
    case TAnd(p) => n := PartEnds(g, u, m, at, p, i0, lo, hi, back, d, k, s, i);
    case TCapture(p) => n := PartEnds(g, u, m, at, p, i0, lo, hi, back, d, k, s, i);
    case TBehind(b, p) =>
      n := 0;
      if b <= i { n := PartEnds(g, u, m, at, p, i0, lo - b, Earlier(hi, b), true, d, k, s, i - b); }
    case TCall(_, r) =>
      assert Arc(r, lo, hi, back) in Sites(g, t, lo, hi, back, k);
      CallFalls(m, at, Arc(r, lo, hi, back), i0, i, |s|);
      n := PartEnds(g, u, m, m[r], g[r], i, 0, Some(0), false, d, k, s, i);
      n := n + 1;
    case TGrammar(rules) => n := GrammarEnds(rules, d, k, s, i);
    case _ => n := 0;
  }

  /** A nested grammar answers at every position. */
  lemma {:induction false} GrammarEnds(rules: seq<Tree>, d: nat, k: nat, s: Subject, i: nat)
    returns (n: nat)
    requires i <= |s| && Built(TGrammar(rules), k) && Depth(TGrammar(rules)) <= d
    ensures Peg(rules, rules[0], s, i, n) != Out
    decreases d, 0, 0, 0, |s| - i, TGrammar(rules), 1
  {
    EnterRules(rules, d, k);
    n := RuleEnds(rules, 0, d, k, s, i);
  }

  /**
   * What the left-recursion check promises: a used rule of an accepted grammar answers, and one that
   * the check says cannot be passed never matches the empty string.
   */
  lemma {:induction false} RuleEnds(rules: seq<Tree>, r: nat, d: nat, k: nat, s: Subject, i: nat)
    returns (n: nat)
    requires i <= |s| && Built(TGrammar(rules), k) && Depth(TGrammar(rules)) <= d && r in UsedRules(rules)
    ensures Peg(rules, rules[r], s, i, n) != Out
    ensures VerifyKept(rules, rules[r], 0, false, k) == Passes(false) ==> Peg(rules, rules[r], s, i, n) != Ok(i)
    decreases d, 0, 0, 0, |s| - i, TGrammar(rules), 0
  {
    EnterRules(rules, d, k);
    var u := UsedRules(rules);
    var m :| Falling(RuleGraph(rules, k), u, m);
    n := PartEnds(rules, u, m, m[r], rules[r], i, 0, Some(0), false, d - 1, k, s, i);
    if VerifyKept(rules, rules[r], 0, false, k) == Passes(false) {
      KeptSound(rules, rules[r], 0, false, k, s, i, n);
    }
  }

  /** A pattern outside of grammars makes no calls. */
  lemma {:induction false} NoSites(t: Tree, lo: int, hi: Option<int>, back: bool, k: nat)
    requires Calls(t) == {}
    ensures Sites([], t, lo, hi, back, k) == []
    decreases t
  {
    match t
    case TRep(p) => NoSites(p, lo, None, back, k);
    case TNot(p) => NoSites(p, lo, hi, back, k);
    case TAnd(p) => NoSites(p, lo, hi, back, k);
    case TCapture(p) => NoSites(p, lo, hi, back, k);
    case TBehind(n, p) => NoSites(p, lo - n, Earlier(hi, n), true, k);
    case TSeq(p1, p2) =>
      NoSites(p1, lo, hi, back, k);
      NoSites(p2, lo + Shortest([], p1, k), Plus(hi, Longest(p1)), back, k);
    case TChoice(p1, p2) =>
      NoSites(p1, lo, hi, back, k);
      NoSites(p2, lo, hi, back, k);
    case _ =>
  }

  /** An accepted pattern answers at every position of every subject. */
  lemma PatternEnds(t: Tree, k: nat, s: Subject, i: nat) returns (n: nat)
    requires i <= |s| && Built(t, k) && !CheckLoops([], t, k) && Calls(t) == {}
    ensures Peg([], t, s, i, n) != Out
  {
    NoSites(t, 0, Some(0), false, k);
    n := PartEnds([], {}, [], Level(0, 0, 0), t, i, 0, Some(0), false, Depth(t), k, s, i);
  }
}
