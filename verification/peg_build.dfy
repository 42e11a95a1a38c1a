// How patterns are put together (the constructors of lptree.c), and that their short cuts keep the meaning.

module PegBuild {
  import opened Options
  import opened PegTree
  import opened PegAnalysis
  import opened PegMachine
  import opened PegCodegen
  import opened PegVerify
  import opened PegAccept
  import opened PegCompile
  import opened PegMatch

  // ---- Strings and numbers ----

  /** A string as a pattern: a character after the other. */
  function Literal(w: seq<Byte>): Tree {
    if w == [] then TTrue else if |w| == 1 then TChar(w[0]) else TSeq(TChar(w[0]), Literal(w[1..]))
  }

  function Anys(n: nat): Tree
    requires n > 0
  {
    if n == 1 then TAny else TSeq(TAny, Anys(n - 1))
  }

  /** A number as a pattern: that many characters; a negative one matches where fewer are left. */
  function Number(n: int): Tree { if n == 0 then TTrue else if n > 0 then Anys(n) else TNot(Anys(-n)) }

  predicate Occurs(w: seq<Byte>, s: Subject, i: nat) { i + |w| <= |s| && s[i..i + |w|] == w }

  lemma {:induction false} LiteralMeans(g: seq<Tree>, w: seq<Byte>, s: Subject, i: nat, n: nat)
    requires i <= |s|
    ensures Peg(g, Literal(w), s, i, n) == if Occurs(w, s, i) then Ok(i + |w|) else Fail
    decreases |w|
  {
    if |w| > 1 {
      if i < |s| {
        LiteralMeans(g, w[1..], s, i + 1, n);
        if s[i] == w[0] { OccursLater(w, s, i); }
        if Occurs(w, s, i) { assert s[i] == s[i..i + |w|][0] == w[0]; }
      }
    } else if |w| == 1 && i < |s| {
      assert s[i..i + 1] == [s[i]] && w == [w[0]];
    }
  }

  lemma OccursLater(w: seq<Byte>, s: Subject, i: nat)
    requires w != [] && i < |s| && s[i] == w[0]
    ensures Occurs(w, s, i) <==> Occurs(w[1..], s, i + 1)
  {
    if i + |w| <= |s| {
      assert s[i..i + |w|] == [s[i]] + s[i + 1..i + 1 + |w[1..]|] && w == [w[0]] + w[1..];
      assert s[i + 1..i + 1 + |w[1..]|] == s[i..i + |w|][1..];
    }
  }

  lemma {:induction false} AnysMeans(g: seq<Tree>, m: nat, s: Subject, i: nat, n: nat)
    requires i <= |s| && m > 0
    ensures Peg(g, Anys(m), s, i, n) == if i + m <= |s| then Ok(i + m) else Fail
    decreases m
  {
    if m > 1 && i < |s| { AnysMeans(g, m - 1, s, i + 1, n); }
  }

  lemma NumberMeans(g: seq<Tree>, m: int, s: Subject, i: nat, n: nat)
    requires i <= |s|
    ensures Peg(g, Number(m), s, i, n) ==
            if m >= 0 then (if i + m <= |s| then Ok(i + m) else Fail) else if i - m <= |s| then Fail else Ok(i)
  {
    if m != 0 { AnysMeans(g, if m > 0 then m else -m, s, i, n); }
  }

  // ---- Sequences, choices and differences ----

  function SeqOf(p1: Tree, p2: Tree): Tree {
    if p1.TFalse? || p2.TTrue? then p1 else if p1.TTrue? then p2 else TSeq(p1, p2)
  }

  function ChoiceOf(g: seq<Tree>, p1: Tree, p2: Tree, k: nat): Tree {
    if IsCharPattern(p1) && IsCharPattern(p2) then TSet(ToCharset(p1) + ToCharset(p2))
    else if CheckAux(g, p1, NoFail, k) || p2.TFalse? then p1
    else if p1.TFalse? then p2
    else TChoice(p1, p2)
  }

  function Minus(p1: Tree, p2: Tree): Tree {
    if IsCharPattern(p1) && IsCharPattern(p2) then TSet(ToCharset(p1) - ToCharset(p2))
    else TSeq(TNot(p2), p1)
  }

  lemma SeqMeans(g: seq<Tree>, p1: Tree, p2: Tree, s: Subject, i: nat, n: nat)
    requires i <= |s|
    ensures Peg(g, SeqOf(p1, p2), s, i, n) == Peg(g, TSeq(p1, p2), s, i, n)
  {
  }

  lemma CharMeans(g: seq<Tree>, p: Tree, s: Subject, i: nat, n: nat)
    requires i <= |s| && IsCharPattern(p)
    ensures Peg(g, p, s, i, n) == if i < |s| && s[i] in ToCharset(p) then Ok(i + 1) else Fail
  {
    if i < |s| { assert s[i] in FULL; }
  }

  lemma ChoiceMeans(g: seq<Tree>, p1: Tree, p2: Tree, k: nat, s: Subject, i: nat, n: nat)
    requires i <= |s|
    ensures Peg(g, ChoiceOf(g, p1, p2, k), s, i, n) == Peg(g, TChoice(p1, p2), s, i, n)
  {
    if IsCharPattern(p1) && IsCharPattern(p2) {
      CharMeans(g, p1, s, i, n);
      CharMeans(g, p2, s, i, n);
    } else if CheckAux(g, p1, NoFail, k) {
      NoFailSound(g, p1, k, s, i, n);
    }
  }

  /** Where the second pattern does not match, the first one does what it does. */
  lemma MinusMeans(g: seq<Tree>, p1: Tree, p2: Tree, s: Subject, i: nat, n: nat)
    requires i <= |s| && Peg(g, p2, s, i, n) != Out
    ensures Peg(g, Minus(p1, p2), s, i, n) == if Peg(g, p2, s, i, n).Ok? then Fail else Peg(g, p1, s, i, n)
  {
    if IsCharPattern(p1) && IsCharPattern(p2) {
      CharMeans(g, p1, s, i, n);
      CharMeans(g, p2, s, i, n);
    }
  }

  // ---- Repetition ----

  function AtLeast(p: Tree, m: nat): Tree { if m == 0 then TRep(p) else TSeq(p, AtLeast(p, m - 1)) }

  function AtMost(p: Tree, m: nat): Tree
    requires m > 0
  {
    TChoice(if m == 1 then p else TSeq(p, AtMost(p, m - 1)), TTrue)
  }

  /** 'p' at least 'm' times or, for a negative number, at most '-m' times; a loop over nothing is refused. */
  function Star(g: seq<Tree>, p: Tree, m: int, k: nat): Option<Tree> {
    if m < 0 then Some(AtMost(p, -m)) else if CheckAux(g, p, Nullable, k) then None else Some(AtLeast(p, m))
  }

  /** It refuses exactly what 'checkloops' finds wrong with the loop itself. */
  lemma {:induction false} StarChecked(g: seq<Tree>, p: Tree, m: nat, k: nat)
    ensures CheckLoops(g, AtLeast(p, m), k) <==> Star(g, p, m, k).None? || CheckLoops(g, p, k)
    decreases m
  {
    if m > 0 { StarChecked(g, p, m - 1, k); }
  }

  ghost predicate Gives(g: seq<Tree>, p: Tree, s: Subject, i: nat, o: Outcome)
    requires i <= |s|
  {
    exists n: nat :: Peg(g, p, s, i, n) == o
  }

  /** 'p' matches 'm' times in a row, from 'i' to 'j'. */
  ghost predicate Turns(g: seq<Tree>, p: Tree, s: Subject, i: nat, m: nat, j: nat)
    requires i <= |s|
    decreases m
  {
    if m == 0 then j == i
    else exists x: nat :: i <= x <= |s| && Gives(g, p, s, i, Ok(x)) && Turns(g, p, s, x, m - 1, j)
  }

  /** It does so and fails then. */
  ghost predicate Stops(g: seq<Tree>, p: Tree, s: Subject, i: nat, m: nat, j: nat)
    requires i <= |s|
  {
    Turns(g, p, s, i, m, j) && j <= |s| && Gives(g, p, s, j, Fail)
  }

  lemma TurnMore(g: seq<Tree>, p: Tree, s: Subject, i: nat, x: nat, m: nat, j: nat, n: nat)
    requires i <= x <= |s| && Peg(g, p, s, i, n) == Ok(x)
    ensures Turns(g, p, s, x, m, j) ==> Turns(g, p, s, i, m + 1, j)
    ensures Stops(g, p, s, x, m, j) ==> Stops(g, p, s, i, m + 1, j)
  {
    assert Gives(g, p, s, i, Ok(x));
  }

  lemma StopsHere(g: seq<Tree>, p: Tree, s: Subject, i: nat, n: nat)
    requires i <= |s| && Peg(g, p, s, i, n) == Fail
    ensures Stops(g, p, s, i, 0, i)
  {
    assert Gives(g, p, s, i, Fail);
  }

  lemma NoTurns(g: seq<Tree>, p: Tree, s: Subject, i: nat)
    requires i <= |s|
    ensures Turns(g, p, s, i, 0, i)
  {
  }

  /** A loop matches as often as it can. */
  lemma {:induction false} RepMeans(g: seq<Tree>, p: Tree, s: Subject, i: nat, n: nat) returns (m: nat)
    requires i <= |s| && Peg(g, TRep(p), s, i, n) != Out
    ensures var o := Peg(g, TRep(p), s, i, n); o.Ok? && Stops(g, p, s, i, m, o.pos)
    decreases n
  {
    hide Stops;
    var o := Peg(g, p, s, i, n);
    if o.Fail? {
      StopsHere(g, p, s, i, n);
      m := 0;
    } else {
      var more := RepMeans(g, p, s, o.pos, n - 1);
      TurnMore(g, p, s, i, o.pos, more, Peg(g, TRep(p), s, i, n).pos, n);
      m := more + 1;
    }
  }

  /** And fails where it cannot match often enough. */
  lemma {:induction false} AtLeastMeans(g: seq<Tree>, p: Tree, least: nat, s: Subject, i: nat, n: nat)
    returns (m: nat, j: nat)
    requires i <= |s| && Peg(g, AtLeast(p, least), s, i, n) != Out
    ensures Stops(g, p, s, i, m, j) && Peg(g, AtLeast(p, least), s, i, n) == if m >= least then Ok(j) else Fail
    decreases least
  {
    hide Stops;
    if least == 0 {
      m := RepMeans(g, p, s, i, n);
      j := Peg(g, TRep(p), s, i, n).pos;
    } else {
      var o := Peg(g, p, s, i, n);
      if o.Fail? {
        StopsHere(g, p, s, i, n);
        m, j := 0, i;
      } else {
        m, j := AtLeastMeans(g, p, least - 1, s, o.pos, n);
        TurnMore(g, p, s, i, o.pos, m, j, n);
        m := m + 1;
      }
    }
  }

  /** At most so often: it stops there, or where the pattern fails, and never fails. */
  lemma {:induction false} AtMostMeans(g: seq<Tree>, p: Tree, most: nat, s: Subject, i: nat, n: nat)
    returns (m: nat, j: nat)
    requires i <= |s| && most > 0 && Peg(g, AtMost(p, most), s, i, n) != Out
    ensures Peg(g, AtMost(p, most), s, i, n) == Ok(j)
    ensures m <= most && if m < most then Stops(g, p, s, i, m, j) else Turns(g, p, s, i, m, j)
    decreases most
  {
    hide Stops, Turns;
    var o := Peg(g, p, s, i, n);
    if o.Fail? {
      StopsHere(g, p, s, i, n);
      m, j := 0, i;
    } else if most == 1 {
      NoTurns(g, p, s, o.pos);
      TurnMore(g, p, s, i, o.pos, 0, o.pos, n);
      m, j := 1, o.pos;
    } else {
      m, j := AtMostMeans(g, p, most - 1, s, o.pos, n);
      TurnMore(g, p, s, i, o.pos, m, j, n);
      m := m + 1;
    }
  }

  // ---- Look-behinds and grammars ----

  /**
   * Some way through the pattern takes 'm' characters. Predicates take none, loops and calls that are
   * already being followed any number.
   */
  ghost predicate Takes(g: seq<Tree>, t: Tree, live: set<nat>, m: nat)
    decreases live, t
  {
    match t
    case TChar(_) => m == 1
    case TSet(_) => m == 1
    case TAny => m == 1
    case TSeq(p1, p2) => exists a: nat, b: nat :: a + b == m && Takes(g, p1, live, a) && Takes(g, p2, live, b)
    case TChoice(p1, p2) => Takes(g, p1, live, m) || Takes(g, p2, live, m)
    case TCapture(p) => Takes(g, p, live, m)
    case TGrammar(rules) => |rules| == 0 || Takes(rules, rules[0], live, m)
    case TCall(site, r) => site !in live || r >= |g| || Takes(g, g[r], live - {site}, m)
    case TRep(_) => true
    case _ => m == 0
  }

  /** 'fixedlen' gives a length if and only if every way takes that many: else there are two that differ. */
  lemma {:induction false} FixedLenIff(g: seq<Tree>, t: Tree, live: set<nat>) returns (m1: nat, m2: nat)
    ensures Takes(g, t, live, m1) && Takes(g, t, live, m2)
    ensures var n := FixedLen(g, t, live);
            if n >= 0 then forall m: nat :: Takes(g, t, live, m) <==> m == n else m1 != m2
    decreases live, t
  {
    match t
    case TSeq(p1, p2) =>
      var a1, a2 := FixedLenIff(g, p1, live);
      var b1, b2 := FixedLenIff(g, p2, live);
      m1, m2 := a1 + b1, if a1 != a2 then a2 + b1 else a1 + b2;
    case TChoice(p1, p2) =>
      m1, m2 := FixedLenIff(g, p1, live);
      var b1, b2 := FixedLenIff(g, p2, live);
      if m1 == m2 { m2 := if b1 != m1 then b1 else b2; }
    case TCapture(p) => m1, m2 := FixedLenIff(g, p, live);
    case TGrammar(rules) => if |rules| > 0 { m1, m2 := FixedLenIff(rules, rules[0], live); } else { m1, m2 := 0, 1; }
    case TCall(site, r) =>
      if site in live && r < |g| { m1, m2 := FixedLenIff(g, g[r], live - {site}); } else { m1, m2 := 0, 1; }
    case TRep(_) => m1, m2 := 0, 1;
    case TChar(_) => m1, m2 := 1, 1;
    case TSet(_) => m1, m2 := 1, 1;
    case TAny => m1, m2 := 1, 1;
    case _ => m1, m2 := 0, 0;
  }

  /** 'lp_behind': the pattern has to take a fixed number of characters, not too many, and capture nothing. */
  function Behind(g: seq<Tree>, p: Tree, live: set<nat>): Option<Tree> {
    var n := FixedLen(g, p, live);
    if 0 <= n <= MAXBEHIND && !HasCaptures(g, p, live) then Some(TBehind(n, p)) else None
  }

  /** It matches where the pattern, started that much earlier, matches: that always ends here. */
  lemma BehindEndsHere(g: seq<Tree>, p: Tree, live: set<nat>, s: Subject, i: nat, n: nat)
    requires i <= |s| && Behind(g, p, live).Some?
    ensures var b := Behind(g, p, live).value;
            Peg(g, b, s, i, n) == if b.n > i then Fail else
              var o := Peg(g, p, s, i - b.n, n);
              if o.Ok? then Ok(i) else o
  {
    var m := FixedLen(g, p, live);
    if m <= i { FixedLenSound(g, p, live, s, i - m, n); }
  }

  /** A look-behind for a string looks whether it ends here. */
  lemma BehindMeans(g: seq<Tree>, w: seq<Byte>, s: Subject, i: nat, n: nat)
    requires i <= |s|
    ensures Peg(g, TBehind(|w|, Literal(w)), s, i, n) ==
            if |w| <= i && s[i - |w|..i] == w then Ok(i) else Fail
  {
    if |w| <= i { LiteralMeans(g, w, s, i - |w|, n); }
  }

  /** The and-predicate is the not-predicate of the not-predicate. */
  lemma AndMeans(g: seq<Tree>, p: Tree, s: Subject, i: nat, n: nat)
    requires i <= |s|
    ensures Peg(g, TAnd(p), s, i, n) == Peg(g, TNot(TNot(p)), s, i, n)
  {
    assert Peg(g, TNot(p), s, i, n).Ok? ==> Peg(g, TNot(p), s, i, n) == Ok(i);
  }

  /** The rule 'S <- a S b / nothing'. */
  function Pairs(site: nat, a: Byte, b: Byte): Tree {
    TChoice(TSeq(TChar(a), TSeq(TCall(site, 0), TChar(b))), TTrue)
  }

  /** It matches as many 'b' as it found 'a'. */
  lemma {:induction false} PairsMatch(site: nat, a: Byte, b: Byte, m: nat, s: Subject, i: nat, n: nat)
    requires i + 2 * m <= |s| && n >= m && (i + m < |s| ==> s[i + m] != a)
    requires forall x | i <= x < i + m :: s[x] == a
    requires forall x | i + m <= x < i + 2 * m :: s[x] == b
    ensures Peg([Pairs(site, a, b)], Pairs(site, a, b), s, i, n) == Ok(i + 2 * m)
    decreases m
  {
    if m > 0 {
      var rule, call := Pairs(site, a, b), TCall(site, 0);
      var g, rest := [rule], TSeq(call, TChar(b));
      PairsMatch(site, a, b, m - 1, s, i + 1, n - 1);
      assert Peg(g, call, s, i + 1, n) == Peg(g, rule, s, i + 1, n - 1) == Ok(i + 2 * m - 1);
      assert Peg(g, TChar(b), s, i + 2 * m - 1, n) == Ok(i + 2 * m);
      assert Peg(g, rest, s, i + 1, n) == Ok(i + 2 * m);
      assert Peg(g, TChar(a), s, i, n) == Ok(i + 1);
      assert Peg(g, TSeq(TChar(a), rest), s, i, n) == Ok(i + 2 * m);
    } else {
      assert Peg([Pairs(site, a, b)], TChar(a), s, i, n) == Fail;
    }
  }

  /** The grammar 'S <- a T / nothing; T <- a S'. */
  function Even(site: nat, a: Byte): seq<Tree> {
    [TChoice(TSeq(TChar(a), TCall(site, 1)), TTrue), TSeq(TChar(a), TCall(site + 1, 0))]
  }

  /** It starts with its first rule, and matches as many as it can, but an even number of them. */
  lemma {:induction false} EvenMatch(g: seq<Tree>, site: nat, a: Byte, m: nat, s: Subject, i: nat, n: nat)
    requires i + m <= |s| && n >= m + 1 && (i + m < |s| ==> s[i + m] != a)
    requires forall x | i <= x < i + m :: s[x] == a
    ensures Peg(g, TGrammar(Even(site, a)), s, i, n) == Ok(i + m - m % 2)
    decreases m
  {
    var rules := Even(site, a);
    var first, one := rules[0], TChar(a);
    assert Peg(g, TGrammar(rules), s, i, n) == Peg(rules, first, s, i, n);
    assert Peg(rules, one, s, i, n) == if m > 0 then Ok(i + 1) else Fail;
    if m > 0 {
      var back, other := TCall(site + 1, 0), TCall(site, 1);
      assert Peg(rules, other, s, i + 1, n) == Peg(rules, rules[1], s, i + 1, n - 1);
      assert Peg(rules, one, s, i + 1, n - 1) == if m > 1 then Ok(i + 2) else Fail;
      if m > 1 {
        EvenMatch(g, site, a, m - 2, s, i + 2, n - 2);
        assert Peg(rules, back, s, i + 2, n - 1) == Peg(rules, first, s, i + 2, n - 2);
        assert (m - 2) % 2 == m % 2;
      }
      assert Peg(rules, TSeq(one, other), s, i, n) == if m > 1 then Ok(i + m - m % 2) else Fail;
    }
  }

  // ---- Searching ----

  /** The usual pattern for a search: '(1 - w)^0 * w'. */
  function Search(w: seq<Byte>): Tree { SeqOf(TRep(Minus(TAny, Literal(w))), Literal(w)) }

  /** The first place from 'i' on where 'w' occurs, if there is one. */
  function FirstPlace(w: seq<Byte>, s: Subject, i: nat): (r: Option<nat>)
    requires i <= |s|
    ensures r.Some? ==> i <= r.value <= |s| && Occurs(w, s, r.value) && forall x | i <= x < r.value :: !Occurs(w, s, x)
    ensures r.None? ==> forall x | i <= x <= |s| :: !Occurs(w, s, x)
    decreases |s| - i
  {
    if Occurs(w, s, i) then Some(i) else if i == |s| then None else FirstPlace(w, s, i + 1)
  }

  lemma {:induction false} SkipMeans(g: seq<Tree>, w: seq<Byte>, s: Subject, i: nat, n: nat)
    requires i <= |s| && n >= |s| - i
    ensures Peg(g, TRep(Minus(TAny, Literal(w))), s, i, n) ==
            Ok(if FirstPlace(w, s, i).Some? then FirstPlace(w, s, i).value else |s|)
    decreases |s| - i
  {
    LiteralMeans(g, w, s, i, n);
    MinusMeans(g, TAny, Literal(w), s, i, n);
    if i < |s| && !Occurs(w, s, i) { SkipMeans(g, w, s, i + 1, n - 1); }
  }

  /** It finds the first occurrence of the string, and fails if there is none. */
  lemma SearchFinds(g: seq<Tree>, w: seq<Byte>, s: Subject, i: nat, n: nat)
    requires i <= |s| && n >= |s| - i
    ensures Peg(g, Search(w), s, i, n) ==
            if FirstPlace(w, s, i).Some? then Ok(FirstPlace(w, s, i).value + |w|) else Fail
  {
    var skip := TRep(Minus(TAny, Literal(w)));
    SeqMeans(g, skip, Literal(w), s, i, n);
    SkipMeans(g, w, s, i, n);
    LiteralMeans(g, w, s, Peg(g, skip, s, i, n).pos, n);
  }

  lemma {:induction false} LiteralAccepted(c: Ctx, w: seq<Byte>, k: nat)
    ensures WellFormed(c, Literal(w)) && Built(Literal(w), k) && !CheckLoops([], Literal(w), k)
    decreases |w|
  {
    if |w| > 1 { LiteralAccepted(c, w[1..], k); }
  }

  lemma SearchAccepted(c: Ctx, w: seq<Byte>, k: nat)
    requires c.g == []
    ensures Accepted(c, Search(w), k)
  {
    LiteralAccepted(c, w, k);
    var lit, step := Literal(w), Minus(TAny, Literal(w));
    assert WellFormed(c, TNot(lit)) && Built(TNot(lit), k) && !CheckLoops([], TNot(lit), k);
    assert WellFormed(c, step) && Built(step, k) && !CheckLoops([], step, k) && !CheckAux([], step, Nullable, k);
    assert WellFormed(c, TRep(step)) && Built(TRep(step), k) && !CheckLoops([], TRep(step), k);
  }

  /** So does its compiled code, and it answers nothing else. */
  lemma SearchCompiled(c: Ctx, w: seq<Byte>, s: Subject, i: nat)
    requires c.g == [] && i <= |s|
    ensures var found := FirstPlace(w, s, i);
            forall o :: Answers(Compile(c, Search(w)), s, Start(i), o) <==>
                        o == if found.Some? then Ok(found.value + |w|) else Fail
  {
    SearchAccepted(c, w, 0);
    hide Accepted, Compile, Search, Answers;
    var n := MatchDecides(c, Search(w), 0, s, i);
    SearchFinds([], w, s, i, |s|);
    PegUnique([], Search(w), s, i, n, |s|);
  }
}
