// The analyses of lpcode.c and what each of them promises about the meaning of a pattern.

module PegAnalysis {
  import opened PegTree

  datatype Pred = Nullable | NoFail

  /** How a tree may behave on the empty string; 'k' bounds the calls followed on one path. */
  predicate CheckAux(g: seq<Tree>, t: Tree, pred: Pred, k: nat)
    decreases k, t
  {
    match t
    case TChar(_) => false
    case TSet(_) => false
    case TAny => false
    case TFalse => false
    case TRep(_) => true
    case TTrue => true
    case TNot(_) => pred == Nullable
    case TBehind(_, _) => pred == Nullable
    case TAnd(p) => pred == Nullable || CheckAux(g, p, pred, k)
    case TSeq(p1, p2) => CheckAux(g, p1, pred, k) && CheckAux(g, p2, pred, k)
    case TChoice(p1, p2) => CheckAux(g, p2, pred, k) || CheckAux(g, p1, pred, k)
    case TCapture(p) => CheckAux(g, p, pred, k)
    case TGrammar(rules) => if |rules| > 0 then CheckAux(rules, rules[0], pred, k) else pred == Nullable
    case TCall(_, r) => if k > 0 && r < |g| then CheckAux(g, g[r], pred, k - 1) else pred == Nullable
  }

  /**
   * Number of characters every match takes, or -1 if that varies. 'live' holds the call nodes
   * whose key is still set; a call clears its key while its rule is visited.
   */
  function FixedLen(g: seq<Tree>, t: Tree, live: set<nat>): (n: int)
    ensures n >= -1
    decreases live, t
  {
    match t
    case TChar(_) => 1
    case TSet(_) => 1
    case TAny => 1
    case TFalse => 0
    case TTrue => 0
    case TNot(_) => 0
    case TAnd(_) => 0
    case TBehind(_, _) => 0
    case TRep(_) => -1
    case TCapture(p) => FixedLen(g, p, live)
    case TGrammar(rules) => if |rules| > 0 then FixedLen(rules, rules[0], live) else -1
    case TCall(site, r) =>
      if site in live && r < |g| then FixedLen(g, g[r], live - {site}) else -1
    case TSeq(p1, p2) =>
      var n1 := FixedLen(g, p1, live);
      if n1 < 0 then -1 else
        var n2 := FixedLen(g, p2, live);
        if n2 < 0 then -1 else n1 + n2
    case TChoice(p1, p2) =>
      var n1 := FixedLen(g, p1, live);
      var n2 := FixedLen(g, p2, live);
      if n1 != n2 || n1 < 0 then -1 else n1
  }

  /** Whether a capture can be reached from a tree. */
  predicate HasCaptures(g: seq<Tree>, t: Tree, live: set<nat>)
    decreases live, t
  {
    match t
    case TCapture(_) => true
    case TCall(site, r) => site in live && r < |g| && HasCaptures(g, g[r], live - {site})
    case TGrammar(rules) => |rules| > 0 && HasCaptures(rules, rules[0], live)
    case TRep(p) => HasCaptures(g, p, live)
    case TNot(p) => HasCaptures(g, p, live)
    case TAnd(p) => HasCaptures(g, p, live)
    case TBehind(_, p) => HasCaptures(g, p, live)
    case TSeq(p1, p2) => HasCaptures(g, p1, live) || HasCaptures(g, p2, live)
    case TChoice(p1, p2) => HasCaptures(g, p1, live) || HasCaptures(g, p2, live)
    case _ => false
  }

  predicate IsCharPattern(t: Tree) { t.TSet? || t.TChar? || t.TAny? }

  /** The set of a 'char' pattern. */
  function ToCharset(t: Tree): Charset
    requires IsCharPattern(t)
  {
    match t
    case TSet(cs) => cs
    case TChar(c) => {c}
    case TAny => FULL
  }

  /** First set of a pattern and whether the pattern may accept the empty subject. */
  datatype First = First(empty: bool, cs: Charset)

  function GetFirst(g: seq<Tree>, t: Tree, follow: Charset, k: nat): First
    decreases k, t
  {
    match t
    case TChar(_) => First(false, ToCharset(t))
    case TSet(_) => First(false, ToCharset(t))
    case TAny => First(false, ToCharset(t))
    case TTrue => First(true, follow)
    case TFalse => First(false, {})
    case TChoice(p1, p2) =>
      var f1 := GetFirst(g, p1, follow, k);
      var f2 := GetFirst(g, p2, follow, k);
      First(f1.empty || f2.empty, f1.cs + f2.cs)
    case TSeq(p1, p2) =>
      if !CheckAux(g, p1, Nullable, k) then GetFirst(g, p1, FULL, k)
      else
        var f2 := GetFirst(g, p2, follow, k);
        var f1 := GetFirst(g, p1, f2.cs, k);
        First(f1.empty && f2.empty, f1.cs)
    case TRep(p) => First(true, GetFirst(g, p, follow, k).cs + follow)
    case TCapture(p) => GetFirst(g, p, follow, k)
    case TGrammar(rules) =>
      if |rules| > 0 then GetFirst(rules, rules[0], follow, k) else First(true, FULL)
    case TCall(_, r) =>
      if k > 0 && r < |g| then GetFirst(g, g[r], follow, k - 1) else First(true, FULL)
    case TAnd(p) =>
      var f := GetFirst(g, p, follow, k);
      First(f.empty, f.cs * follow)
    case TNot(p) => First(true, if IsCharPattern(p) then FULL - ToCharset(p) else follow)
    case TBehind(_, _) => First(true, follow)
  }

  /** Whether a tree can fail only because of the next character of the subject. */
  predicate HeadFail(g: seq<Tree>, t: Tree, k: nat)
    decreases k, t
  {
    match t
    case TChar(_) => true
    case TSet(_) => true
    case TAny => true
    case TFalse => true
    case TTrue => false
    case TRep(_) => false
    case TNot(_) => false
    case TBehind(_, _) => false
    case TCapture(p) => HeadFail(g, p, k)
    case TAnd(p) => HeadFail(g, p, k)
    case TGrammar(rules) => |rules| > 0 && HeadFail(rules, rules[0], k)
    case TCall(_, r) => k > 0 && r < |g| && HeadFail(g, g[r], k - 1)
    case TSeq(p1, p2) => CheckAux(g, p2, NoFail, k) && HeadFail(g, p1, k)
    case TChoice(p1, p2) => HeadFail(g, p1, k) && HeadFail(g, p2, k)
  }

  /** Whether code generation for a tree makes use of a follow set. */
  predicate NeedFollow(t: Tree) {
    match t
    case TChoice(_, _) => true
    case TRep(_) => true
    case TCapture(p) => NeedFollow(p)
    case TSeq(_, p2) => NeedFollow(p2)
    case _ => false
  }

  // ---- What the analyses promise ----

  /** A pattern that is not nullable never matches without taking a character. */
  lemma {:induction false} NullableSound(g: seq<Tree>, t: Tree, k: nat, s: Subject, i: nat, n: nat)
    requires i <= |s|
    requires !CheckAux(g, t, Nullable, k)
    ensures Peg(g, t, s, i, n) != Ok(i)
    decreases k, t
  {
    match t
    case TSeq(p1, p2) =>
      var o := Peg(g, p1, s, i, n);
      if !CheckAux(g, p1, Nullable, k) {
        NullableSound(g, p1, k, s, i, n);
      } else if o == Ok(i) {
        NullableSound(g, p2, k, s, i, n);
      }
    case TChoice(p1, p2) =>
      NullableSound(g, p1, k, s, i, n);
      NullableSound(g, p2, k, s, i, n);
    case TCapture(p) => NullableSound(g, p, k, s, i, n);
    case TGrammar(rules) => NullableSound(rules, rules[0], k, s, i, n);
    case TCall(_, r) => if n > 0 { NullableSound(g, g[r], k - 1, s, i, n - 1); }
    case _ =>
  }

  /** A 'nofail' pattern never fails. */
  lemma {:induction false} NoFailSound(g: seq<Tree>, t: Tree, k: nat, s: Subject, i: nat, n: nat)
    requires i <= |s|
    requires CheckAux(g, t, NoFail, k)
    ensures Peg(g, t, s, i, n) != Fail
    decreases k, t, n
  {
    match t
    case TRep(p) => RepNeverFails(g, p, s, i, n);
    case TAnd(p) => NoFailSound(g, p, k, s, i, n);
    case TSeq(p1, p2) =>
      NoFailSound(g, p1, k, s, i, n);
      var o := Peg(g, p1, s, i, n);
      if o.Ok? { NoFailSound(g, p2, k, s, o.pos, n); }
    case TChoice(p1, p2) =>
      if CheckAux(g, p2, NoFail, k) {
        NoFailSound(g, p2, k, s, i, n);
      } else {
        NoFailSound(g, p1, k, s, i, n);
      }
    case TCapture(p) => NoFailSound(g, p, k, s, i, n);
    case TGrammar(rules) => NoFailSound(rules, rules[0], k, s, i, n);
    case TCall(_, r) => if n > 0 { NoFailSound(g, g[r], k - 1, s, i, n - 1); }
    case _ =>
  }

  lemma {:induction false} RepNeverFails(g: seq<Tree>, p: Tree, s: Subject, i: nat, n: nat)
    requires i <= |s|
    ensures Peg(g, TRep(p), s, i, n) != Fail
    decreases n
  {
    var o := Peg(g, p, s, i, n);
    if o.Ok? && n > 0 { RepNeverFails(g, p, s, o.pos, n - 1); }
  }

  /** A pattern of fixed length takes exactly that many characters whenever it matches. */
  lemma {:induction false} FixedLenSound(g: seq<Tree>, t: Tree, live: set<nat>, s: Subject, i: nat, n: nat)
    requires i <= |s|
    requires FixedLen(g, t, live) >= 0
    ensures var o := Peg(g, t, s, i, n); o.Ok? ==> o.pos == i + FixedLen(g, t, live)
    decreases live, t
  {
    match t
    case TSeq(p1, p2) =>
      FixedLenSound(g, p1, live, s, i, n);
      var o := Peg(g, p1, s, i, n);
      if o.Ok? { FixedLenSound(g, p2, live, s, o.pos, n); }
    case TChoice(p1, p2) =>
      FixedLenSound(g, p1, live, s, i, n);
      FixedLenSound(g, p2, live, s, i, n);
    case TCapture(p) => FixedLenSound(g, p, live, s, i, n);
    case TGrammar(rules) => FixedLenSound(rules, rules[0], live, s, i, n);
    case TCall(site, r) => if n > 0 { FixedLenSound(g, g[r], live - {site}, s, i, n - 1); }
    case _ =>
  }

  /**
   * The contract of 'getfirst'. A pattern that meets a character outside its first set fails, or
   * matches the empty string in front of a character that cannot follow it; a pattern that does
   * not accept the empty subject fails at the end of the subject.
   */
  lemma {:induction false} GetFirstSound(g: seq<Tree>, t: Tree, follow: Charset, k: nat,
                                         s: Subject, i: nat, n: nat)
    requires i <= |s|
    requires Peg(g, t, s, i, n) != Out
    ensures var f := GetFirst(g, t, follow, k);
            var o := Peg(g, t, s, i, n);
            && (i < |s| && s[i] !in f.cs ==> o == Fail || (o == Ok(i) && s[i] !in follow))
            && (i == |s| && !f.empty ==> o == Fail)
    decreases k, t
  {
    match t
    case TRep(p) =>
      var o := Peg(g, p, s, i, n);
      if o == Ok(i) {
        EmptyLoopDiverges(g, p, s, i, n);
      }
      GetFirstSound(g, p, follow, k, s, i, n);
    case TSeq(p1, p2) =>
      var o := Peg(g, p1, s, i, n);
      if !CheckAux(g, p1, Nullable, k) {
        GetFirstSound(g, p1, FULL, k, s, i, n);
      } else {
        GetFirstSound(g, p1, GetFirst(g, p2, follow, k).cs, k, s, i, n);
        if o.Ok? { GetFirstSound(g, p2, follow, k, s, o.pos, n); }
      }
    case TChoice(p1, p2) =>
      GetFirstSound(g, p1, follow, k, s, i, n);
      if Peg(g, p1, s, i, n) == Fail { GetFirstSound(g, p2, follow, k, s, i, n); }
    case TAnd(p) => GetFirstSound(g, p, follow, k, s, i, n);
    case TCapture(p) => GetFirstSound(g, p, follow, k, s, i, n);
    case TGrammar(rules) =>
      GetFirstSound(rules, rules[0], follow, k, s, i, n);
    case TCall(_, r) =>
      if k > 0 && r < |g| { GetFirstSound(g, g[r], follow, k - 1, s, i, n - 1); }
    case _ =>
  }

  /** A pattern that cannot fail is nullable, and everything may come first in it. */
  lemma {:induction false} NoFailFirst(g: seq<Tree>, t: Tree, k: nat)
    requires CheckAux(g, t, NoFail, k)
    ensures CheckAux(g, t, Nullable, k)
    ensures GetFirst(g, t, FULL, k).cs == FULL
    decreases k, t
  {
    match t
    case TAnd(p) => NoFailFirst(g, p, k);
    case TSeq(p1, p2) =>
      NoFailFirst(g, p1, k);
      NoFailFirst(g, p2, k);
    case TChoice(p1, p2) =>
      if CheckAux(g, p2, NoFail, k) { NoFailFirst(g, p2, k); } else { NoFailFirst(g, p1, k); }
    case TCapture(p) => NoFailFirst(g, p, k);
    case TGrammar(rules) => NoFailFirst(rules, rules[0], k);
    case TCall(_, r) => NoFailFirst(g, g[r], k - 1);
    case _ =>
  }

  /**
   * For a 'headfail' pattern the first set under the full follow set is exact: the pattern rejects
   * the empty subject, and it succeeds if and only if the next character is in the set.
   */
  lemma {:induction false} HeadFailExact(g: seq<Tree>, t: Tree, k: nat, s: Subject, i: nat, n: nat)
    requires i <= |s|
    requires HeadFail(g, t, k)
    requires Peg(g, t, s, i, n) != Out
    ensures var f := GetFirst(g, t, FULL, k);
            && !f.empty
            && (Peg(g, t, s, i, n).Ok? <==> i < |s| && s[i] in f.cs)
    decreases k, t
  {
    GetFirstSound(g, t, FULL, k, s, i, n);
    match t
    case TSeq(p1, p2) =>
      HeadFailExact(g, p1, k, s, i, n);
      NoFailFirst(g, p2, k);
      var o := Peg(g, p1, s, i, n);
      if o.Ok? { NoFailSound(g, p2, k, s, o.pos, n); }
    case TChoice(p1, p2) =>
      HeadFailExact(g, p1, k, s, i, n);
      HeadFailReject(g, p2, k);
      if Peg(g, p1, s, i, n) == Fail { HeadFailExact(g, p2, k, s, i, n); }
    case TAnd(p) => HeadFailExact(g, p, k, s, i, n);
    case TCapture(p) => HeadFailExact(g, p, k, s, i, n);
    case TGrammar(rules) => HeadFailExact(rules, rules[0], k, s, i, n);
    case TCall(_, r) => HeadFailExact(g, g[r], k - 1, s, i, n - 1);
    case _ =>
  }

  lemma {:induction false} HeadFailReject(g: seq<Tree>, t: Tree, k: nat)
    requires HeadFail(g, t, k)
    ensures !GetFirst(g, t, FULL, k).empty
    decreases k, t
  {
    match t
    case TSeq(p1, p2) =>
      HeadFailReject(g, p1, k);
      NoFailFirst(g, p2, k);
    case TChoice(p1, p2) =>
      HeadFailReject(g, p1, k);
      HeadFailReject(g, p2, k);
    case TAnd(p) => HeadFailReject(g, p, k);
    case TCapture(p) => HeadFailReject(g, p, k);
    case TGrammar(rules) => HeadFailReject(rules, rules[0], k);
    case TCall(_, r) => HeadFailReject(g, g[r], k - 1);
    case _ =>
  }
}
