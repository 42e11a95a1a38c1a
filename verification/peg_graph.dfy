// Calls of rules as a graph: when each way around leads forward, or each leads back, and how to measure it.

module PegGraph {
  import opened Options

  /**
   * A call of rule 'to', made between 'lo' and 'hi' characters behind the place where the calling
   * rule was entered (with no upper limit when there is no 'hi'); 'back': inside a look-behind.
   */
  datatype Arc = Arc(to: nat, lo: int, hi: Option<int>, back: bool)

  type Graph = seq<seq<Arc>>

  /** The vertices 'u' are some of the graph, and no arc leaves them. */
  predicate Within(g: Graph, u: set<nat>) {
    forall r | r in u ::
      r < |g| && forall x | x in g[r] :: x.to in u && (x.hi.Some? ==> x.lo <= x.hi.value)
  }

  // ---- Measures ----

  /** Between calls of one rank 'step' is what a character counts for; the potential makes up for the rest. */
  datatype Level = Level(rank: nat, step: int, pot: nat)

  function Times(a: int, b: int): int { a * b }

  lemma TimesAdds(a: int, b: int, c: int)
    ensures Times(a, b + c) == Times(a, b) + Times(a, c)
  {
  }

  lemma TimesGrows(a: int, b: int, c: int)
    requires b <= c
    ensures if a >= 0 then Times(a, b) <= Times(a, c) else Times(a, c) <= Times(a, b)
  {
  }

  /** The least that an arc gains, counting 'step' for a character. */
  function Gain(step: int, x: Arc): int
    requires step < 0 ==> x.hi.Some?
  {
    Times(step, if step < 0 then x.hi.value else x.lo)
  }

  predicate Falls(m: seq<Level>, at: Level, x: Arc) {
    && x.to < |m|
    && var to := m[x.to];
       || to.rank < at.rank
       || (to.rank == at.rank && to.step == at.step
           && (at.step < 0 ==> x.hi.Some?) && to.pot < at.pot + Gain(at.step, x))
  }

  predicate Falling(g: Graph, u: set<nat>, m: seq<Level>) {
    |m| == |g| && forall r | r in u && r < |g| :: forall x | x in g[r] :: Falls(m, m[r], x)
  }

  ghost predicate Advances(g: Graph, u: set<nat>) { exists m :: Falling(g, u, m) }

  // ---- Walks ----

  predicate Walk(g: Graph, r: nat, w: seq<Arc>, q: nat)
    decreases |w|
  {
    if w == [] then r == q else r < |g| && w[0] in g[r] && Walk(g, w[0].to, w[1..], q)
  }

  /** The least, and the most, that a walk may lead forward. */
  function Lo(w: seq<Arc>): int { if w == [] then 0 else w[0].lo + Lo(w[1..]) }

  function Plus(a: Option<int>, b: Option<int>): Option<int> {
    if a.Some? && b.Some? then Some(a.value + b.value) else None
  }

  function Hi(w: seq<Arc>): Option<int> { if w == [] then Some(0) else Plus(w[0].hi, Hi(w[1..])) }

  predicate Round(g: Graph, r: nat, w: seq<Arc>) { w != [] && Walk(g, r, w, r) }

  /** A way around that may not lead forward. */
  predicate Stays(g: Graph, r: nat, w: seq<Arc>) { Round(g, r, w) && Lo(w) <= 0 }

  /** A way around that may not lead back. */
  predicate Holds(g: Graph, r: nat, w: seq<Arc>) { Round(g, r, w) && (Hi(w).Some? ==> Hi(w).value >= 0) }

  /** Some way around may not lead forward, and some way around may not lead back. */
  ghost predicate Trapped(g: Graph, r: nat) { (exists w :: Stays(g, r, w)) && (exists w :: Holds(g, r, w)) }

  lemma {:induction false} WalkJoins(g: Graph, r: nat, w: seq<Arc>, q: nat, v: seq<Arc>, z: nat)
    requires Walk(g, r, w, q) && Walk(g, q, v, z)
    ensures Walk(g, r, w + v, z) && Lo(w + v) == Lo(w) + Lo(v) && Hi(w + v) == Plus(Hi(w), Hi(v))
    decreases |w|
  {
    if w == [] {
      assert w + v == v;
    } else {
      WalkJoins(g, w[0].to, w[1..], q, v, z);
      assert (w + v)[1..] == w[1..] + v;
    }
  }

  lemma {:induction false} WalkStays(g: Graph, u: set<nat>, r: nat, w: seq<Arc>, q: nat)
    requires Within(g, u) && r in u && Walk(g, r, w, q)
    ensures q in u
    decreases |w|
  {
    if w != [] { WalkStays(g, u, w[0].to, w[1..], q); }
  }

  // ---- A measure shows that nothing is trapped ----

  /** Along a walk the rank falls, or the potential changes by less than the walk gains. */
  lemma {:induction false} WalkFalls(g: Graph, u: set<nat>, m: seq<Level>, r: nat, w: seq<Arc>, q: nat)
    requires Within(g, u) && Falling(g, u, m) && r in u && Walk(g, r, w, q)
    ensures q < |m| && m[q].rank <= m[r].rank
    ensures m[q].rank == m[r].rank ==>
              && m[q].step == m[r].step
              && (m[r].step >= 0 ==> m[q].pot + |w| <= m[r].pot + Times(m[r].step, Lo(w)))
              && (m[r].step < 0 ==> Hi(w).Some? && m[q].pot + |w| <= m[r].pot + Times(m[r].step, Hi(w).value))
    decreases |w|
  {
    hide Times;
    if w == [] {
      TimesAdds(m[r].step, 0, 0);
    } else {
      var x := w[0];
      assert Falls(m, m[r], x);
      WalkFalls(g, u, m, x.to, w[1..], q);
      if m[q].rank == m[r].rank {
        var step := m[r].step;
        if step >= 0 { TimesAdds(step, x.lo, Lo(w[1..])); } else { TimesAdds(step, x.hi.value, Hi(w[1..]).value); }
      }
    }
  }

  lemma NotTrapped(g: Graph, u: set<nat>, m: seq<Level>, r: nat)
    requires Within(g, u) && Falling(g, u, m) && r in u
    ensures !Trapped(g, r)
  {
    if Trapped(g, r) {
      var w :| Stays(g, r, w);
      var v :| Holds(g, r, v);
      WalkFalls(g, u, m, r, w, r);
      WalkFalls(g, u, m, r, v, r);
      TimesGrows(m[r].step, Lo(w), 0);
      if m[r].step < 0 { TimesGrows(m[r].step, 0, Hi(v).value); }
    }
  }

  // ---- Where nothing is trapped there is a measure ----

  ghost predicate Reaches(g: Graph, r: nat, q: nat) { exists w :: Walk(g, r, w, q) }

  /** Every way around leads forward. */
  ghost predicate Forward(g: Graph, r: nat) { forall w | Round(g, r, w) :: Lo(w) > 0 }

  ghost function Pace(g: Graph, r: nat): int { if Forward(g, r) then |g| + 1 else -(|g| + 1) }

  /** An arc that some way around takes. */
  ghost predicate Inner(g: Graph, r: nat, x: Arc) { r < |g| && x in g[r] && Reaches(g, x.to, r) }

  ghost predicate Free(g: Graph, u: set<nat>) { Within(g, u) && forall r | r in u :: !Trapped(g, r) }

  lemma Sooner(g: Graph, u: set<nat>, r: nat, w: seq<Arc>)
    requires Within(g, u) && r in u && Walk(g, r, w, r)
    ensures Hi(w).Some? ==> Lo(w) <= Hi(w).value
  {
    Ordered(g, u, r, w, r);
  }

  lemma {:induction false} Ordered(g: Graph, u: set<nat>, r: nat, w: seq<Arc>, q: nat)
    requires Within(g, u) && r in u && Walk(g, r, w, q)
    ensures Hi(w).Some? ==> Lo(w) <= Hi(w).value
    decreases |w|
  {
    if w != [] { Ordered(g, u, w[0].to, w[1..], q); }
  }

  lemma OneWay(g: Graph, r: nat, w: seq<Arc>)
    requires !Trapped(g, r) && Round(g, r, w)
    ensures Forward(g, r) || (Hi(w).Some? && Hi(w).value < 0)
  {
    if !Forward(g, r) {
      var v :| Round(g, r, v) && Lo(v) <= 0;
      assert Stays(g, r, v);
      assert !Holds(g, r, w);
    }
  }

  /** Rules on one way around go the same way. */
  lemma SameStep(g: Graph, u: set<nat>, r: nat, x: Arc)
    requires Free(g, u) && r in u && Inner(g, r, x)
    ensures x.to in u && Pace(g, x.to) == Pace(g, r)
    ensures !Forward(g, r) ==> x.hi.Some?
  {
    var w :| Walk(g, x.to, w, r);
    assert [x][1..] == [] && ([x] + w)[0] == x && ([x] + w)[1..] == w;
    assert Walk(g, r, [x], x.to);
    WalkJoins(g, r, [x], x.to, w, r);
    WalkJoins(g, x.to, w, r, [x], x.to);
    var there, back := [x] + w, w + [x];
    assert Round(g, r, there) && Round(g, x.to, back);
    assert Lo(there) == Lo(back) && Hi(there) == Hi(back);
    Sooner(g, u, r, there);
    OneWay(g, r, there);
    OneWay(g, x.to, back);
  }

  // ---- The heaviest walks of rules on ways around ----

  /** What is missing along an arc: a call counts one, against what the arc gains. */
  ghost function Worth(g: Graph, r: nat, x: Arc): int {
    var step := Pace(g, r);
    if step < 0 && x.hi.None? then 0 else 1 - Gain(step, x)
  }

  ghost predicate InnerWalk(g: Graph, r: nat, w: seq<Arc>)
    decreases |w|
  {
    w == [] || (Inner(g, r, w[0]) && InnerWalk(g, w[0].to, w[1..]))
  }

  ghost function Value(g: Graph, r: nat, w: seq<Arc>): int
    decreases |w|
  {
    if w == [] then 0 else Worth(g, r, w[0]) + Value(g, w[0].to, w[1..])
  }

  /** The heaviest walk of at most 'n' arcs, the first of which is not before the 'j'-th of 'r'. */
  ghost function Best(g: Graph, r: nat, n: nat, j: nat): (b: nat)
    decreases n, if r < |g| then |g[r]| - j else 0
  {
    if n == 0 || r >= |g| || j >= |g[r]| then 0
    else
      var x, rest := g[r][j], Best(g, r, n, j + 1);
      var b := Worth(g, r, x) + Best(g, x.to, n - 1, 0);
      if Inner(g, r, x) && b > rest then b else rest
  }

  function IndexOf(xs: seq<Arc>, x: Arc): (i: nat)
    requires x in xs
    ensures i < |xs| && xs[i] == x
  {
    if xs[0] == x then 0 else 1 + IndexOf(xs[1..], x)
  }

  lemma {:induction false} BestBounds(g: Graph, r: nat, w: seq<Arc>, n: nat, j: nat, i: nat)
    requires InnerWalk(g, r, w) && |w| <= n
    requires w == [] || (j <= i < |g[r]| && g[r][i] == w[0])
    ensures Value(g, r, w) <= Best(g, r, n, j)
    decreases n, i - j
  {
    if w != [] {
      if i == j {
        var rest, q := w[1..], w[0].to;
        var i2: nat := if rest == [] then 0 else IndexOf(g[q], rest[0]);
        BestBounds(g, q, rest, n - 1, 0, i2);
      } else {
        BestBounds(g, r, w, n, j + 1, i);
      }
    }
  }

  lemma BestOf(g: Graph, r: nat, w: seq<Arc>, n: nat)
    requires InnerWalk(g, r, w) && |w| <= n
    ensures Value(g, r, w) <= Best(g, r, n, 0)
  {
    var i: nat := if w == [] then 0 else IndexOf(g[r], w[0]);
    BestBounds(g, r, w, n, 0, i);
  }

  lemma {:induction false} BestWalk(g: Graph, r: nat, n: nat, j: nat) returns (w: seq<Arc>)
    ensures InnerWalk(g, r, w) && |w| <= n && Value(g, r, w) == Best(g, r, n, j)
    decreases n, if r < |g| then |g[r]| - j else 0
  {
    w := [];
    if n > 0 && r < |g| && j < |g[r]| {
      var x := g[r][j];
      w := BestWalk(g, r, n, j + 1);
      var v := BestWalk(g, x.to, n - 1, 0);
      if Inner(g, r, x) && Worth(g, r, x) + Best(g, x.to, n - 1, 0) > Best(g, r, n, j + 1) {
        w := [x] + v;
        assert w[1..] == v;
      }
    }
  }

  /** Where a walk from 'r' is after 'i' arcs. */
  function Place(r: nat, w: seq<Arc>, i: nat): nat
    requires i <= |w|
  {
    if i == 0 then r else w[i - 1].to
  }

  lemma {:induction false} InnerJoins(g: Graph, r: nat, w: seq<Arc>, v: seq<Arc>)
    requires InnerWalk(g, r, w) && InnerWalk(g, Place(r, w, |w|), v)
    ensures InnerWalk(g, r, w + v)
    ensures Value(g, r, w + v) == Value(g, r, w) + Value(g, Place(r, w, |w|), v)
    decreases |w|
  {
    if w == [] {
      assert w + v == v;
    } else {
      assert Place(w[0].to, w[1..], |w| - 1) == Place(r, w, |w|);
      InnerJoins(g, w[0].to, w[1..], v);
      assert (w + v)[1..] == w[1..] + v;
    }
  }

  lemma {:induction false} InnerCut(g: Graph, r: nat, w: seq<Arc>, i: nat)
    requires InnerWalk(g, r, w) && i <= |w|
    ensures InnerWalk(g, r, w[..i]) && InnerWalk(g, Place(r, w, i), w[i..])
    ensures Place(r, w[..i], i) == Place(r, w, i)
    decreases i
  {
    if i > 0 {
      InnerCut(g, w[0].to, w[1..], i - 1);
      assert w[..i][1..] == w[1..][..i - 1] && w[1..][i - 1..] == w[i..];
      assert Place(w[0].to, w[1..], i - 1) == Place(r, w, i);
    } else {
      assert w[0..] == w && w[..0] == [];
    }
  }

  /** Such a walk is worth its arcs, less what it gains. */
  lemma {:induction false} InnerGains(g: Graph, u: set<nat>, r: nat, w: seq<Arc>)
    requires Free(g, u) && r in u && InnerWalk(g, r, w)
    ensures Walk(g, r, w, Place(r, w, |w|)) && Place(r, w, |w|) in u
    ensures !Forward(g, r) ==> Hi(w).Some?
    ensures Value(g, r, w) == |w| - Times(Pace(g, r), if Forward(g, r) then Lo(w) else Hi(w).value)
    decreases |w|
  {
    hide Times, Trapped, Free, Forward;
    if w == [] {
      TimesAdds(Pace(g, r), 0, 0);
    } else {
      var x, rest, step := w[0], w[1..], Pace(g, r);
      SameStep(g, u, r, x);
      InnerGains(g, u, x.to, rest);
      assert Place(x.to, rest, |rest|) == Place(r, w, |w|);
      if Forward(g, r) {
        TimesAdds(step, x.lo, Lo(rest));
      } else {
        TimesAdds(step, x.hi.value, Hi(rest).value);
      }
    }
  }

  /** A way around with no more arcs than there are rules is worth less than nothing. */
  lemma RoundLoses(g: Graph, u: set<nat>, r: nat, w: seq<Arc>)
    requires Free(g, u) && r in u && InnerWalk(g, r, w) && 0 < |w| <= |g| && Place(r, w, |w|) == r
    ensures Value(g, r, w) < 0
  {
    InnerGains(g, u, r, w);
    assert Round(g, r, w) && !Trapped(g, r);
    OneWay(g, r, w);
    hide Free, InnerWalk, Value, Round, Walk, Lo, Hi, Trapped;
    if Forward(g, r) {
      TimesGrows(|g| + 1, 1, Lo(w));
    } else {
      TimesGrows(-(|g| + 1), Hi(w).value, -1);
    }
  }

  /** Among more places than rules one occurs twice. */
  lemma {:induction false} Twice(r: nat, w: seq<Arc>, n: nat, m: nat) returns (i: nat, j: nat)
    requires n <= m <= |w| && forall k: nat | k <= m :: Place(r, w, k) < n
    ensures i < j <= m && Place(r, w, i) == Place(r, w, j)
  {
    var s: set<nat> := {};
    j := 0;
    while Place(r, w, j) !in s
      invariant j <= m && |s| == j
      invariant forall x | x in s :: x < n && exists k: nat :: k < j && Place(r, w, k) == x
      decreases m - j
    {
      s := s + {Place(r, w, j)};
      if j == m {
        Below(s, n);
      }
      j := j + 1;
    }
    i :| i < j && Place(r, w, i) == Place(r, w, j);
  }

  lemma {:induction false} Below(s: set<nat>, n: nat)
    requires forall x | x in s :: x < n
    ensures |s| <= n
    decreases n
  {
    if n == 0 {
      assert s == {};
    } else {
      Below(s - {n - 1}, n - 1);
    }
  }

  lemma {:induction false} InnerPlaces(g: Graph, u: set<nat>, r: nat, w: seq<Arc>, i: nat)
    requires Free(g, u) && r in u && InnerWalk(g, r, w) && i <= |w|
    ensures Place(r, w, i) in u && Place(r, w, i) < |g|
    decreases i
  {
    if i > 0 {
      InnerPlaces(g, u, w[0].to, w[1..], i - 1);
      assert Place(w[0].to, w[1..], i - 1) == Place(r, w, i);
    }
  }

  /** A walk with more arcs than rules is no better than a shorter one. */
  lemma Shorter(g: Graph, u: set<nat>, r: nat, w: seq<Arc>) returns (v: seq<Arc>)
    requires Free(g, u) && r in u && InnerWalk(g, r, w) && |w| > |g|
    ensures InnerWalk(g, r, v) && |v| < |w| && Value(g, r, v) >= Value(g, r, w)
  {
    hide Free, InnerWalk, Value;
    forall k: nat | k <= |w| ensures Place(r, w, k) < |g| {
      InnerPlaces(g, u, r, w, k);
    }
    var i, j := Twice(r, w, |g|, |g|);
    var head, mid, tail := w[..i], w[i..j], w[j..];
    var q := Place(r, w, i);
    InnerCut(g, r, w, j);
    InnerCut(g, r, w[..j], i);
    assert w[..j][..i] == head && w[..j][i..] == mid;
    assert Place(q, mid, |mid|) == q;
    InnerPlaces(g, u, r, w, i);
    RoundLoses(g, u, q, mid);
    InnerJoins(g, r, head, mid);
    InnerJoins(g, r, head + mid, tail);
    InnerJoins(g, r, head, tail);
    assert w == head + mid + tail;
    v := head + tail;
  }

  /** So longer walks do not help. */
  lemma Settled(g: Graph, u: set<nat>, r: nat)
    requires Free(g, u) && r in u
    ensures Best(g, r, |g| + 1, 0) <= Best(g, r, |g|, 0)
  {
    hide Free, InnerWalk, Value, Best;
    var w := BestWalk(g, r, |g| + 1, 0);
    if |w| > |g| { w := Shorter(g, u, r, w); }
    BestOf(g, r, w, |g|);
  }

  // ---- The measure ----

  ghost function Ahead(g: Graph, u: set<nat>, r: nat): set<nat> { set q | q in u && Reaches(g, r, q) }

  ghost function Levels(g: Graph, u: set<nat>): (m: seq<Level>)
    ensures |m| == |g|
  {
    seq(|g|, r requires 0 <= r < |g| => Level(|Ahead(g, u, r)|, Pace(g, r), Best(g, r, |g|, 0)))
  }

  /** What an arc leads to reaches no more. */
  lemma RankFalls(g: Graph, u: set<nat>, r: nat, x: Arc)
    requires Within(g, u) && r in u && x in g[r]
    ensures |Ahead(g, u, x.to)| <= |Ahead(g, u, r)|
    ensures !Reaches(g, x.to, r) ==> |Ahead(g, u, x.to)| < |Ahead(g, u, r)|
  {
    var less, more := Ahead(g, u, x.to), Ahead(g, u, r);
    forall q | q in less ensures q in more {
      var w :| Walk(g, x.to, w, q);
      assert ([x] + w)[1..] == w;
      assert Walk(g, r, [x] + w, q);
    }
    Smaller(less, more);
    if !Reaches(g, x.to, r) {
      assert Walk(g, r, [], r);
      assert r in more - less;
      Smaller(less, more - {r});
    }
  }

  lemma Smaller<T>(a: set<T>, b: set<T>)
    requires a <= b
    ensures |a| <= |b|
  {
    assert b == a + (b - a);
  }

  lemma LevelsFall(g: Graph, u: set<nat>, r: nat, x: Arc)
    requires Free(g, u) && r in u && x in g[r]
    ensures Falls(Levels(g, u), Levels(g, u)[r], x)
  {
    RankFalls(g, u, r, x);
    if Reaches(g, x.to, r) {
      SameStep(g, u, r, x);
      var w := BestWalk(g, x.to, |g|, 0);
      assert ([x] + w)[1..] == w;
      BestOf(g, r, [x] + w, |g| + 1);
      Settled(g, u, r);
    }
  }

  /** There is a measure that every call lowers, if and only if no rule is trapped. */
  lemma AdvancesIff(g: Graph, u: set<nat>)
    requires Within(g, u)
    ensures Advances(g, u) <==> forall r | r in u :: !Trapped(g, r)
  {
    if Advances(g, u) {
      var m :| Falling(g, u, m);
      forall r | r in u ensures !Trapped(g, r) {
        NotTrapped(g, u, m, r);
      }
    }
    if forall r | r in u :: !Trapped(g, r) {
      forall r, x | r in u && x in g[r] ensures Falls(Levels(g, u), Levels(g, u)[r], x) {
        LevelsFall(g, u, r, x);
      }
      assert Falling(g, u, Levels(g, u));
    }
  }
}
