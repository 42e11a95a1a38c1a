// How far patterns lead: bounds on what they take, and the graph of the calls that rules make.

module PegAdvance {
  import opened Options
  import opened PegTree
  import opened PegAnalysis
  import opened PegGraph

  /** The least number of characters a match is known to take. */
  function Shortest(g: seq<Tree>, t: Tree, k: nat): nat {
    match t
    case TChar(_) => 1
    case TSet(_) => 1
    case TAny => 1
    case TFalse => 1
    case TCapture(p) => Shortest(g, p, k)
    case TSeq(p1, p2) => Shortest(g, p1, k) + Shortest(g, p2, k)
    case TChoice(p1, p2) =>
      var n1, n2 := Shortest(g, p1, k), Shortest(g, p2, k);
      if n1 < n2 then n1 else n2
    case TCall(_, _) => if CheckAux(g, t, Nullable, k) then 0 else 1
    case TGrammar(_) => if CheckAux(g, t, Nullable, k) then 0 else 1
    case _ => 0
  }

  /** The greatest number of characters a match may take, if one is known. */
  function Longest(t: Tree): Option<int> {
    match t
    case TChar(_) => Some(1)
    case TSet(_) => Some(1)
    case TAny => Some(1)
    case TFalse => Some(1)
    case TCapture(p) => Longest(p)
    case TSeq(p1, p2) => Plus(Longest(p1), Longest(p2))
    case TChoice(p1, p2) =>
      var n1, n2 := Longest(p1), Longest(p2);
      if n1.Some? && n2.Some? && n1.value > n2.value then n1 else if n1.Some? then n2 else None
    case TRep(_) => None
    case TCall(_, _) => None
    case TGrammar(_) => None
    case _ => Some(0)
  }

  function Earlier(hi: Option<int>, n: nat): Option<int> { if hi.Some? then Some(hi.value - n) else None }

  /** The calls of a tree that is entered between 'lo' and 'hi' characters behind its rule. */
  function Sites(g: seq<Tree>, t: Tree, lo: int, hi: Option<int>, back: bool, k: nat): seq<Arc>
    decreases t
  {
    match t
    case TCall(_, r) => [Arc(r, lo, hi, back)]
    case TRep(p) => Sites(g, p, lo, None, back, k)
    case TNot(p) => Sites(g, p, lo, hi, back, k)
    case TAnd(p) => Sites(g, p, lo, hi, back, k)
    case TCapture(p) => Sites(g, p, lo, hi, back, k)
    case TBehind(n, p) => Sites(g, p, lo - n, Earlier(hi, n), true, k)
    case TSeq(p1, p2) =>
      Sites(g, p1, lo, hi, back, k) + Sites(g, p2, lo + Shortest(g, p1, k), Plus(hi, Longest(p1)), back, k)
    case TChoice(p1, p2) => Sites(g, p1, lo, hi, back, k) + Sites(g, p2, lo, hi, back, k)
    case _ => []
  }

  function RuleGraph(g: seq<Tree>, k: nat): (r: Graph)
    ensures |r| == |g|
  {
    seq(|g|, r requires 0 <= r < |g| => Sites(g, g[r], 0, Some(0), false, k))
  }

  /** The rules of the grammar in force that a tree calls. */
  function Calls(t: Tree): set<nat> {
    match t
    case TCall(_, r) => {r}
    case TRep(p) => Calls(p)
    case TNot(p) => Calls(p)
    case TAnd(p) => Calls(p)
    case TCapture(p) => Calls(p)
    case TBehind(_, p) => Calls(p)
    case TSeq(p1, p2) => Calls(p1) + Calls(p2)
    case TChoice(p1, p2) => Calls(p1) + Calls(p2)
    case _ => {}
  }

  // ---- What the bounds promise ----

  lemma {:induction false} ShortestSound(g: seq<Tree>, t: Tree, k: nat, s: Subject, i: nat, n: nat)
    requires i <= |s|
    ensures var o := Peg(g, t, s, i, n); o.Ok? ==> o.pos >= i + Shortest(g, t, k)
    decreases t
  {
    match t
    case TSeq(p1, p2) =>
      ShortestSound(g, p1, k, s, i, n);
      var o := Peg(g, p1, s, i, n);
      if o.Ok? { ShortestSound(g, p2, k, s, o.pos, n); }
    case TChoice(p1, p2) =>
      ShortestSound(g, p1, k, s, i, n);
      ShortestSound(g, p2, k, s, i, n);
    case TCapture(p) => ShortestSound(g, p, k, s, i, n);
    case TCall(_, _) => if !CheckAux(g, t, Nullable, k) { NullableSound(g, t, k, s, i, n); }
    case TGrammar(_) => if !CheckAux(g, t, Nullable, k) { NullableSound(g, t, k, s, i, n); }
    case _ =>
  }

  lemma {:induction false} LongestSound(g: seq<Tree>, t: Tree, s: Subject, i: nat, n: nat)
    requires i <= |s|
    ensures var o := Peg(g, t, s, i, n); o.Ok? && Longest(t).Some? ==> o.pos <= i + Longest(t).value
    decreases t
  {
    match t
    case TSeq(p1, p2) =>
      LongestSound(g, p1, s, i, n);
      var o := Peg(g, p1, s, i, n);
      if o.Ok? { LongestSound(g, p2, s, o.pos, n); }
    case TChoice(p1, p2) =>
      LongestSound(g, p1, s, i, n);
      LongestSound(g, p2, s, i, n);
    case TCapture(p) => LongestSound(g, p, s, i, n);
    case _ =>
  }

  /** A pattern may take nothing exactly when it is nullable. */
  lemma {:induction false} ShortestZero(g: seq<Tree>, t: Tree, k: nat)
    ensures Shortest(g, t, k) == 0 <==> CheckAux(g, t, Nullable, k)
    decreases t
  {
    match t
    case TSeq(p1, p2) => ShortestZero(g, p1, k); ShortestZero(g, p2, k);
    case TChoice(p1, p2) => ShortestZero(g, p1, k); ShortestZero(g, p2, k);
    case TCapture(p) => ShortestZero(g, p, k);
    case _ =>
  }

  lemma {:induction false} ShortestLongest(g: seq<Tree>, t: Tree, k: nat)
    ensures Longest(t).Some? ==> Shortest(g, t, k) <= Longest(t).value
    decreases t
  {
    match t
    case TSeq(p1, p2) => ShortestLongest(g, p1, k); ShortestLongest(g, p2, k);
    case TChoice(p1, p2) => ShortestLongest(g, p1, k); ShortestLongest(g, p2, k);
    case TCapture(p) => ShortestLongest(g, p, k);
    case _ =>
  }

  lemma {:induction false} SitesCall(g: seq<Tree>, t: Tree, lo: int, hi: Option<int>, back: bool, k: nat)
    requires hi.Some? ==> lo <= hi.value
    ensures forall x | x in Sites(g, t, lo, hi, back, k) :: x.to in Calls(t) && (x.hi.Some? ==> x.lo <= x.hi.value)
    decreases t
  {
    match t
    case TRep(p) => SitesCall(g, p, lo, None, back, k);
    case TNot(p) => SitesCall(g, p, lo, hi, back, k);
    case TAnd(p) => SitesCall(g, p, lo, hi, back, k);
    case TCapture(p) => SitesCall(g, p, lo, hi, back, k);
    case TBehind(n, p) => SitesCall(g, p, lo - n, Earlier(hi, n), true, k);
    case TSeq(p1, p2) =>
      ShortestLongest(g, p1, k);
      SitesCall(g, p1, lo, hi, back, k);
      SitesCall(g, p2, lo + Shortest(g, p1, k), Plus(hi, Longest(p1)), back, k);
    case TChoice(p1, p2) =>
      SitesCall(g, p1, lo, hi, back, k);
      SitesCall(g, p2, lo, hi, back, k);
    case _ =>
  }

  lemma GraphWithin(g: seq<Tree>, u: set<nat>, k: nat)
    requires forall r | r in u :: r < |g| && Calls(g[r]) <= u
    ensures Within(RuleGraph(g, k), u)
  {
    forall r | r in u ensures forall x | x in RuleGraph(g, k)[r] :: x.to in u && (x.hi.Some? ==> x.lo <= x.hi.value) {
      SitesCall(g, g[r], 0, Some(0), false, k);
    }
  }
}
