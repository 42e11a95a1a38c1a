// Parsing expression grammars: pattern trees, subjects and the meaning of a pattern.

module PegTree {

  type Byte = b: int | 0 <= b < 256
  type Charset = set<Byte>
  type Subject = seq<Byte>

  const FULL: Charset := set b: Byte | 0 <= b < 256 :: b

  // Longest look-behind and longest full capture (lptypes.h).
  const MAXBEHIND := 255
  const MAXOFF := 15
  const MAXRULES := 250

  /**
   * A fixed pattern tree. 'site' names the call node itself, 'rule' the rule of the innermost
   * enclosing grammar that the node refers to. A grammar lists its rules, initial rule first.
   */
  datatype Tree =
    | TChar(c: Byte)
    | TSet(cs: Charset)
    | TAny
    | TTrue
    | TFalse
    | TRep(p: Tree)
    | TSeq(p1: Tree, p2: Tree)
    | TChoice(p1: Tree, p2: Tree)
    | TNot(p: Tree)
    | TAnd(p: Tree)
    | TCall(site: nat, rule: nat)
    | TGrammar(rules: seq<Tree>)
    | TBehind(n: nat, p: Tree)
    | TCapture(p: Tree)

  /** What a match attempt ends in: a new position, a failure, or the fuel ran out. */
  datatype Outcome = Ok(pos: nat) | Fail | Out

  /**
   * The meaning of pattern 't' at position 'i' of 's', where calls go to the rules 'g'. The fuel
   * 'n' bounds calls and loop iterations; 'Out' means that the bound was too small.
   */
  function Peg(g: seq<Tree>, t: Tree, s: Subject, i: nat, n: nat): (o: Outcome)
    requires i <= |s|
    ensures o.Ok? ==> i <= o.pos <= |s|
    decreases n, t
  {
    match t
    case TChar(c) => if i < |s| && s[i] == c then Ok(i + 1) else Fail
    case TSet(cs) => if i < |s| && s[i] in cs then Ok(i + 1) else Fail
    case TAny => if i < |s| then Ok(i + 1) else Fail
    case TTrue => Ok(i)
    case TFalse => Fail
    case TRep(p) => (
      match Peg(g, p, s, i, n)
      case Ok(j) => if n == 0 then Out else Peg(g, t, s, j, n - 1)
      case Fail => Ok(i)
      case Out => Out)
    case TSeq(p1, p2) => (
      match Peg(g, p1, s, i, n)
      case Ok(j) => Peg(g, p2, s, j, n)
      case Fail => Fail
      case Out => Out)
    case TChoice(p1, p2) => (
      match Peg(g, p1, s, i, n)
      case Ok(j) => Ok(j)
      case Fail => Peg(g, p2, s, i, n)
      case Out => Out)
    case TNot(p) => (
      match Peg(g, p, s, i, n)
      case Ok(_) => Fail
      case Fail => Ok(i)
      case Out => Out)
    case TAnd(p) => (
      match Peg(g, p, s, i, n)
      case Ok(_) => Ok(i)
      case Fail => Fail
      case Out => Out)
    case TCall(_, r) => if n > 0 && r < |g| then Peg(g, g[r], s, i, n - 1) else Out
    case TGrammar(rules) => if |rules| > 0 then Peg(rules, rules[0], s, i, n) else Out
    case TBehind(k, p) =>
      if k > i then Fail else (
      match Peg(g, p, s, i - k, n)
      case Ok(j) => if j == i then Ok(i) else Fail
      case Fail => Fail
      case Out => Out)
    case TCapture(p) => Peg(g, p, s, i, n)
  }

  /** More fuel never changes an answer. */
  lemma {:induction false} PegMono(g: seq<Tree>, t: Tree, s: Subject, i: nat, n: nat, m: nat)
    requires i <= |s| && n <= m
    requires Peg(g, t, s, i, n) != Out
    ensures Peg(g, t, s, i, m) == Peg(g, t, s, i, n)
    decreases n, t
  {
    match t
    case TRep(p) =>
      PegMono(g, p, s, i, n, m);
      var o := Peg(g, p, s, i, n);
      if o.Ok? { PegMono(g, t, s, o.pos, n - 1, m - 1); }
    case TSeq(p1, p2) =>
      PegMono(g, p1, s, i, n, m);
      var o := Peg(g, p1, s, i, n);
      if o.Ok? { PegMono(g, p2, s, o.pos, n, m); }
    case TChoice(p1, p2) =>
      PegMono(g, p1, s, i, n, m);
      if Peg(g, p1, s, i, n).Fail? { PegMono(g, p2, s, i, n, m); }
    case TNot(p) => PegMono(g, p, s, i, n, m);
    case TAnd(p) => PegMono(g, p, s, i, n, m);
    case TCall(_, r) => PegMono(g, g[r], s, i, n - 1, m - 1);
    case TGrammar(rules) => PegMono(rules, rules[0], s, i, n, m);
    case TBehind(k, p) => if k <= i { PegMono(g, p, s, i - k, n, m); }
    case TCapture(p) => PegMono(g, p, s, i, n, m);
    case _ =>
  }

  /** The answer of a pattern does not depend on which sufficient fuel was used. */
  lemma PegUnique(g: seq<Tree>, t: Tree, s: Subject, i: nat, n: nat, m: nat)
    requires i <= |s|
    requires Peg(g, t, s, i, n) != Out && Peg(g, t, s, i, m) != Out
    ensures Peg(g, t, s, i, n) == Peg(g, t, s, i, m)
  {
    if n <= m { PegMono(g, t, s, i, n, m); } else { PegMono(g, t, s, i, m, n); }
  }

  /** A loop whose body matches the empty string here never ends. */
  lemma {:induction false} EmptyLoopDiverges(g: seq<Tree>, p: Tree, s: Subject, i: nat, n: nat)
    requires i <= |s|
    requires Peg(g, p, s, i, n) == Ok(i)
    ensures Peg(g, TRep(p), s, i, n) == Out
    decreases n
  {
    if n > 0 {
      var o := Peg(g, p, s, i, n - 1);
      if o != Out {
        PegMono(g, p, s, i, n - 1, n);
        EmptyLoopDiverges(g, p, s, i, n - 1);
      }
    }
  }
}
