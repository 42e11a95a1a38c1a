// What code generation (lpcode.c) emits for a tree, as a function of the tree.

module PegCodegen {
  import opened PegTree
  import opened PegAnalysis
  import opened PegMachine

  /** The rules of the enclosing grammar, the call depth of the analyses and the live call nodes. */
  datatype Ctx = Ctx(g: seq<Tree>, k: nat, live: set<nat>)

  /** A dominating test, as far as code generation looks at it. */
  datatype Test = NoTest | TestedChar(c: Byte) | TestedSet(cs: Charset)

  datatype SetKind = EmptySet | FullSet | OneChar(c: Byte) | Other

  /** The kind of a set: empty, full, a single character, or none of these. */
  function CharsetType(cs: Charset): (r: SetKind)
    ensures r == EmptySet <==> cs == {}
    ensures r == FullSet <==> cs == FULL
    ensures r.OneChar? ==> cs == {r.c}
    ensures r.Other? ==> forall c: Byte :: cs != {c}
  {
    assert 0 in FULL && 1 in FULL;
    if cs == {} then EmptySet
    else if cs == FULL then FullSet
    else
      var c := Least(cs, 0);
      if cs == {c} then OneChar(c) else Other
  }

  /** The least character of a set that is not below 'from'. */
  function Least(cs: Charset, from: nat): (c: Byte)
    requires exists b | b in cs :: b >= from
    ensures c in cs
    decreases 256 - from
  {
    if from < 256 && from in cs then from else Least(cs, from + 1)
  }

  /** An instruction followed by the room for its operands. */
  function Emit(i: Instr): (c: seq<Slot>)
    ensures |c| == SizeI(i) && c[0] == I(i)
    ensures forall k | 1 <= k < |c| :: c[k] == Pad
  {
    [I(i)] + seq(SizeI(i) - 1, _ => Pad)
  }

  function CodeChar(c: Byte, tt: Test): seq<Slot> {
    if tt == TestedChar(c) then Emit(IAny) else Emit(IChar(c))
  }

  function CodeCharset(cs: Charset, tt: Test): seq<Slot> {
    match CharsetType(cs)
    case OneChar(c) => CodeChar(c, tt)
    case Other => if tt == TestedSet(cs) then Emit(IAny) else Emit(ISet(cs))
    case EmptySet => Emit(IFail)
    case FullSet => Emit(IAny)
  }

  /** The instruction of a test for 'cs' that goes 'off' cells on when it does not hold. */
  function TestInstr(cs: Charset, off: int): Instr {
    match CharsetType(cs)
    case EmptySet => IJmp(off)
    case FullSet => ITestAny(off)
    case OneChar(c) => ITestChar(c, off)
    case Other => ITestSet(cs, off)
  }

  function TestSize(f: First): (n: nat) {
    if f.empty then 0 else SizeI(TestInstr(f.cs, 0))
  }

  /** A test that skips 'rest' cells of code behind it; none when the empty subject is accepted. */
  function CodeTest(f: First, rest: nat): (c: seq<Slot>)
    ensures |c| == TestSize(f)
  {
    if f.empty then [] else Emit(TestInstr(f.cs, TestSize(f) + rest))
  }

  /** What later code may look at in that test. */
  function TestOf(f: First): Test {
    if f.empty then NoTest
    else match CharsetType(f.cs)
      case OneChar(c) => TestedChar(c)
      case Other => TestedSet(f.cs)
      case _ => NoTest
  }

  function FirstOf(c: Ctx, t: Tree, fl: Charset): First {
    GetFirst(c.g, t, fl, c.k)
  }

  /** Whether a choice can be decided by a test alone. */
  predicate TestDecides(c: Ctx, p1: Tree, p2: Tree, fl: Charset) {
    var f1 := FirstOf(c, p1, FULL);
    HeadFail(c.g, p1, c.k) || (!f1.empty && f1.cs !! FirstOf(c, p2, fl).cs)
  }

  /** Whether a loop can be left by a test alone. */
  predicate TestLeaves(c: Ctx, p: Tree, fl: Charset) {
    var f := FirstOf(c, p, FULL);
    HeadFail(c.g, p, c.k) || (!f.empty && f.cs !! fl)
  }

  function JmpIf(b: bool, off: int): seq<Slot> {
    if b then Emit(IJmp(off)) else []
  }

  /** The short form of '&p': match the pattern, then walk back. */
  predicate ShortAnd(c: Ctx, p: Tree) {
    0 <= FixedLen(c.g, p, c.live) <= MAXBEHIND && !HasCaptures(c.g, p, c.live)
  }

  predicate ShortCapture(c: Ctx, p: Tree) {
    0 <= FixedLen(c.g, p, c.live) <= MAXOFF && !HasCaptures(c.g, p, c.live)
  }

  function BehindIf(n: nat): seq<Slot> {
    if n > 0 then Emit(IBehind(n)) else []
  }

  /** The follow set and the test that the two halves of a sequence see. */
  function SeqFollow(c: Ctx, p1: Tree, p2: Tree, fl: Charset): Charset {
    if NeedFollow(p1) then FirstOf(c, p2, fl).cs else FULL
  }

  function SeqTest(c: Ctx, p1: Tree, tt: Test): Test {
    if FixedLen(c.g, p1, c.live) != 0 then NoTest else tt
  }

  /** Patterns as the constructors build them: calls have rules, look-behinds a fixed length. */
  predicate WellFormed(c: Ctx, t: Tree)
    decreases t
  {
    match t
    case TRep(p) => WellFormed(c, p)
    case TNot(p) => WellFormed(c, p)
    case TAnd(p) => WellFormed(c, p)
    case TCapture(p) => WellFormed(c, p)
    case TSeq(p1, p2) => WellFormed(c, p1) && WellFormed(c, p2)
    case TChoice(p1, p2) => WellFormed(c, p1) && WellFormed(c, p2)
    case TCall(_, r) => r < |c.g|
    case TBehind(n, p) => FixedLen(c.g, p, c.live) == n && WellFormed(c, p)
    case TGrammar(rules) =>
      |rules| > 0 && forall r | 0 <= r < |rules| :: WellFormed(c.(g := rules), rules[r])
    case _ => true
  }

  // ---- The shapes of code, given the code of the parts ----

  /** test(fail(p)) -> L1; fail; L1:   or   test(fail(p)) -> L1; choice L1; p; failtwice; L1: */
  function NotCode(f: First, headFail: bool, p: seq<Slot>): seq<Slot> {
    if headFail then CodeTest(f, 1) + Emit(IFail)
    else CodeTest(f, 2 + |p| + 1) + Emit(IChoice(2 + |p| + 1)) + p + Emit(IFailTwice)
  }

  /** p; behind n */
  function AndShortCode(len: nat, p: seq<Slot>): seq<Slot> {
    p + BehindIf(len)
  }

  /** choice L1; p; backcommit L2; L1: fail; L2: */
  function AndCode(p: seq<Slot>): seq<Slot> {
    Emit(IChoice(2 + |p| + 2)) + p + Emit(IBackCommit(3)) + Emit(IFail)
  }

  /** p; fullcapture   or   opencapture; p; closecapture */
  function CaptureCode(short: bool, len: int, p: seq<Slot>): seq<Slot> {
    if short && len >= 0 then p + Emit(IFullCapture(len))
    else Emit(IOpenCapture) + p + Emit(ICloseCapture)
  }

  /** test(fail(p1)) -> L1; p1; jmp L2; L1: p2; L2:   (no jump when p2 is empty) */
  function ChoiceByTestCode(f: First, p1: seq<Slot>, p2: seq<Slot>, emptyp2: bool): seq<Slot> {
    var jmp := JmpIf(!emptyp2, 2 + |p2|);
    CodeTest(f, |p1| + |jmp|) + p1 + jmp + p2
  }

  /** partialcommit L1; L1: p1 */
  function ChoiceReusedCode(p1: seq<Slot>): seq<Slot> {
    Emit(IPartialCommit(2)) + p1
  }

  /** test(first(p1)) -> L1; choice L1; p1; commit L2; L1: p2; L2: */
  function ChoiceStackedCode(f: First, p1: seq<Slot>, p2: seq<Slot>): seq<Slot> {
    CodeTest(f, 2 + |p1| + 2) + Emit(IChoice(2 + |p1| + 2)) + p1 + Emit(ICommit(2 + |p2|)) + p2
  }

  /** L1: test(fail(p)) -> L2; p; jmp L1; L2: */
  function RepByTestCode(f: First, p: seq<Slot>): seq<Slot> {
    CodeTest(f, |p| + 2) + p + Emit(IJmp(-(TestSize(f) + |p|)))
  }

  /** test(fail(p)) -> L2; choice L2; L1: p; partialcommit L1; L2:   (a partialcommit for the choice under 'opt') */
  function RepStackedCode(f: First, p: seq<Slot>, opt: bool): seq<Slot> {
    CodeTest(f, 2 + |p| + 2) + Emit(RepEntry(p, opt)) + p + Emit(IPartialCommit(-|p|))
  }

  function RepEntry(p: seq<Slot>, opt: bool): (i: Instr)
    ensures SizeI(i) == 2
  {
    if opt then IPartialCommit(2) else IChoice(2 + |p| + 2)
  }

  /** call L1; jmp L2; L1: rule 1; ret; rule 2; ret; ...; L2: */
  function GrammarCode(body: seq<Slot>): seq<Slot> {
    Emit(ICall(4)) + Emit(IJmp(2 + |body|)) + body
  }

  /**
   * The code of a tree. 'opt': the code is the last thing inside an optional pattern, whose choice
   * is on top of the stack. 'tt': the test that protects the code. 'fl': what may follow it.
   */
  ghost function Gen(c: Ctx, t: Tree, opt: bool, tt: Test, fl: Charset): seq<Slot>
    decreases t
  {
    match t
    case TChar(ch) => CodeChar(ch, tt)
    case TAny => Emit(IAny)
    case TSet(cs) => CodeCharset(cs, tt)
    case TTrue => []
    case TFalse => Emit(IFail)
    case TChoice(p1, p2) =>
      var f := FirstOf(c, p1, FULL);
      if TestDecides(c, p1, p2, fl) then
        var f0 := First(false, f.cs);
        ChoiceByTestCode(f0, Gen(c, p1, false, TestOf(f0), fl), Gen(c, p2, opt, NoTest, fl), p2.TTrue?)
      else if opt && p2.TTrue? then ChoiceReusedCode(Gen(c, p1, true, NoTest, FULL))
      else ChoiceStackedCode(f, Gen(c, p1, p2.TTrue?, TestOf(f), FULL), Gen(c, p2, opt, NoTest, fl))
    case TRep(p) =>
      var f := FirstOf(c, p, FULL);
      if IsCharPattern(p) then Emit(ISpan(ToCharset(p)))
      else if TestLeaves(c, p, fl) then
        var f0 := First(false, f.cs);
        RepByTestCode(f0, Gen(c, p, false, TestOf(f0), FULL))
      else RepStackedCode(f, Gen(c, p, false, NoTest, FULL), opt)
    case TBehind(n, p) => BehindIf(n) + Gen(c, p, false, NoTest, FULL)
    case TNot(p) => NotCode(FirstOf(c, p, FULL), HeadFail(c.g, p, c.k), Gen(c, p, false, NoTest, FULL))
    case TAnd(p) =>
      var code := Gen(c, p, false, tt, FULL);
      if ShortAnd(c, p) then AndShortCode(FixedLen(c.g, p, c.live), code) else AndCode(code)
    case TCapture(p) =>
      CaptureCode(ShortCapture(c, p), FixedLen(c.g, p, c.live), Gen(c, p, false, tt, fl))
    case TGrammar(rules) => GrammarCode(GrammarBody(c, rules))
    case TCall(_, r) => Emit(IOpenCall(r))
    case TSeq(p1, p2) =>
      Gen(c, p1, false, tt, SeqFollow(c, p1, p2, fl)) + Gen(c, p2, opt, SeqTest(c, p1, tt), fl)
  }

  /** Each of the first 'm' rules followed by a return. */
  ghost function GenRules(c: Ctx, rules: seq<Tree>, m: nat): seq<Slot>
    requires m <= |rules|
    decreases rules, m
  {
    if m == 0 then []
    else GenRules(c, rules, m - 1) + Gen(c, rules[m - 1], false, NoTest, FULL) + Emit(IRet)
  }

  /** Where each rule starts. */
  ghost function RulePositions(c: Ctx, rules: seq<Tree>): (ps: seq<int>)
    ensures |ps| == |rules|
    ensures forall r | 0 <= r < |rules| :: ps[r] == |GenRules(c, rules, r)|
    decreases rules, |rules| + 1
  {
    seq(|rules|, r requires 0 <= r < |rules| => |GenRules(c, rules, r)|)
  }

  ghost function GrammarBody(c: Ctx, rules: seq<Tree>): seq<Slot>
    decreases rules, |rules| + 2
  {
    var c' := c.(g := rules);
    CorrectCalls(GenRules(c', rules, |rules|), RulePositions(c', rules), 0)
  }

  // ---- Jump chains and calls ----

  predicate IsJmpAt(code: seq<Slot>, x: int) {
    0 <= x < |code| && code[x].I? && code[x].instr.IJmp?
  }

  /** At most 'n' jumps of the chain that starts at 'x'. */
  function Chase(code: seq<Slot>, x: int, n: nat): int
    decreases n
  {
    if n == 0 || !IsJmpAt(code, x) then x else Chase(code, x + code[x].instr.off, n - 1)
  }

  /** The chain from 'x' leaves the jumps after at most 'n' of them. */
  predicate EndsIn(code: seq<Slot>, x: int, n: nat) {
    !IsJmpAt(code, Chase(code, x, n))
  }

  ghost predicate Ends(code: seq<Slot>, x: int) {
    exists n: nat :: EndsIn(code, x, n)
  }

  /** Final destination of a sequence of jumps. */
  ghost function FinalTarget(code: seq<Slot>, x: int): int {
    if Ends(code, x) then
      var n: nat :| EndsIn(code, x, n);
      Chase(code, x, n)
    else x
  }

  predicate IsRetAt(code: seq<Slot>, x: int) {
    0 <= x < |code| && code[x] == I(IRet)
  }

  /** Closes one open call; a call in front of a return becomes a jump. */
  ghost function CloseAt(code: seq<Slot>, positions: seq<int>, i: nat): (r: seq<Slot>)
    requires i < |code| && code[i].I? && code[i].instr.IOpenCall?
    ensures |r| == |code|
  {
    var key := code[i].instr.key;
    if key < |positions| then
      var off := positions[key] - i;
      code[i := I(if IsRetAt(code, FinalTarget(code, i + 2)) then IJmp(off) else ICall(off))]
    else code
  }

  /** Closes the open calls from 'i' on, instruction by instruction. */
  ghost function CorrectCalls(code: seq<Slot>, positions: seq<int>, i: nat): (r: seq<Slot>)
    ensures |r| == |code|
    decreases |code| - i
  {
    if i >= |code| then code
    else if code[i].Pad? then CorrectCalls(code, positions, i + 1)
    else if code[i].instr.IOpenCall? then CorrectCalls(CloseAt(code, positions, i), positions, i + 2)
    else CorrectCalls(code, positions, i + SizeI(code[i].instr))
  }
}
