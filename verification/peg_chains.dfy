// Jump chasing ends on generated code: no cycle of jumps in the code of an accepted pattern.

module PegChains {
  import opened Options
  import opened PegTree
  import opened PegAnalysis
  import opened PegMachine
  import opened PegCodegen
  import opened PegShapes
  import opened PegCalls
  import opened PegCorrect
  import opened PegGraph
  import opened PegAdvance
  import opened PegAccept

  predicate IsJump(slot: Slot) { slot.I? && slot.instr.IJmp? }

  /** Every chain that starts at a jump of the segment, or at a closed call of it, ends. */
  ghost predicate JumpsEnd(e: Env, a: int, c: seq<Slot>) {
    forall k | 0 <= k < |c| && (IsJump(c[k]) || IsOpenCall(c[k])) :: Ends(e.code, a + k)
  }

  lemma EndsHere(code: seq<Slot>, x: int)
    requires !IsJmpAt(code, x)
    ensures Ends(code, x)
  {
    assert EndsIn(code, x, 0);
  }

  lemma EndsNext(code: seq<Slot>, x: int)
    requires IsJmpAt(code, x) ==> Ends(code, x + code[x].instr.off)
    ensures Ends(code, x)
  {
    if IsJmpAt(code, x) {
      var n: nat :| EndsIn(code, x + code[x].instr.off, n);
      assert EndsIn(code, x, n + 1);
    } else {
      EndsHere(code, x);
    }
  }

  /** Then chains from every place of the segment end, the place behind it included. */
  lemma PlaceEnds(e: Env, a: int, c: seq<Slot>, k: nat)
    requires At(e, a, c) && JumpsEnd(e, a, c) && k <= |c| && Ends(e.code, a + |c|)
    ensures Ends(e.code, a + k)
  {
    if k < |c| && !IsJump(c[k]) && !IsOpenCall(c[k]) {
      assert SlotAt(e, a + k, c[k]);
      EndsHere(e.code, a + k);
    }
  }

  lemma JumpsConcat(e: Env, a: int, x: seq<Slot>, y: seq<Slot>)
    requires JumpsEnd(e, a, x) && JumpsEnd(e, a + |x|, y)
    ensures JumpsEnd(e, a, x + y)
  {
    var c := x + y;
    forall k | 0 <= k < |c| && (IsJump(c[k]) || IsOpenCall(c[k])) ensures Ends(e.code, a + k) {
      if k >= |x| {
        assert y[k - |x|] == c[k];
        assert Ends(e.code, (a + |x|) + (k - |x|));
      }
    }
  }

  lemma JumpsConcat3(e: Env, a: int, x: seq<Slot>, y: seq<Slot>, z: seq<Slot>)
    requires JumpsEnd(e, a, x) && JumpsEnd(e, a + |x|, y) && JumpsEnd(e, a + |x| + |y|, z)
    ensures JumpsEnd(e, a, x + y + z)
  {
    JumpsConcat(e, a, x, y);
    JumpsConcat(e, a, x + y, z);
  }

  lemma JumpsConcat4(e: Env, a: int, x: seq<Slot>, y: seq<Slot>, z: seq<Slot>, u: seq<Slot>)
    requires JumpsEnd(e, a, x) && JumpsEnd(e, a + |x|, y) && JumpsEnd(e, a + |x| + |y|, z)
    requires JumpsEnd(e, a + |x| + |y| + |z|, u)
    ensures JumpsEnd(e, a, x + y + z + u)
  {
    JumpsConcat3(e, a, x, y, z);
    JumpsConcat(e, a, x + y + z, u);
  }

  lemma EmitJumps(e: Env, a: int, i: Instr)
    requires i.IJmp? ==> Cell(e, a, i) && Ends(e.code, a + i.off)
    requires !i.IOpenCall?
    ensures JumpsEnd(e, a, Emit(i))
  {
    if i.IJmp? { EndsNext(e.code, a); }
  }

  /** A test may be a jump to where it skips to. */
  lemma TestJumps(e: Env, a: int, f: First, rest: nat)
    requires At(e, a, CodeTest(f, rest)) && Ends(e.code, a + TestSize(f) + rest)
    ensures JumpsEnd(e, a, CodeTest(f, rest))
  {
    if !f.empty {
      AtEmit(e, a, TestInstr(f.cs, TestSize(f) + rest));
      EmitJumps(e, a, TestInstr(f.cs, TestSize(f) + rest));
    }
  }

  lemma TestEnds(e: Env, a: int, f: First, rest: nat)
    requires At(e, a, CodeTest(f, rest)) && !f.empty && Ends(e.code, a + TestSize(f) + rest)
    ensures Ends(e.code, a)
  {
    AtEmit(e, a, TestInstr(f.cs, TestSize(f) + rest));
    EndsNext(e.code, a);
  }

  // ---- Shapes ----

  lemma NotJumps(e: Env, a: int, f: First, hf: bool, p: seq<Slot>)
    requires At(e, a, NotCode(f, hf, p)) && Ends(e.code, a + |NotCode(f, hf, p)|)
    requires !hf ==> JumpsEnd(e, a + TestSize(f) + 2, p)
    ensures JumpsEnd(e, a, NotCode(f, hf, p))
  {
    NotLayout(e, a, f, hf, p);
    var b := a + TestSize(f);
    if hf {
      TestJumps(e, a, f, 1);
      EmitJumps(e, b, IFail);
      JumpsConcat(e, a, CodeTest(f, 1), Emit(IFail));
    } else {
      TestJumps(e, a, f, 2 + |p| + 1);
      EmitJumps(e, b, IChoice(2 + |p| + 1));
      EmitJumps(e, b + 2 + |p|, IFailTwice);
      JumpsConcat4(e, a, CodeTest(f, 2 + |p| + 1), Emit(IChoice(2 + |p| + 1)), p, Emit(IFailTwice));
    }
  }

  lemma BehindIfJumps(e: Env, a: int, n: nat)
    ensures JumpsEnd(e, a, BehindIf(n))
  {
    if n > 0 { EmitJumps(e, a, IBehind(n)); }
  }

  lemma AndJumps(e: Env, a: int, p: seq<Slot>)
    requires JumpsEnd(e, a + 2, p)
    ensures JumpsEnd(e, a, AndCode(p))
  {
    EmitJumps(e, a, IChoice(2 + |p| + 2));
    EmitJumps(e, a + 2 + |p|, IBackCommit(3));
    EmitJumps(e, a + 4 + |p|, IFail);
    JumpsConcat4(e, a, Emit(IChoice(2 + |p| + 2)), p, Emit(IBackCommit(3)), Emit(IFail));
  }

  lemma CaptureJumps(e: Env, a: int, short: bool, len: int, p: seq<Slot>)
    requires JumpsEnd(e, a + (if ShortForm(short, len) then 0 else 1), p)
    ensures JumpsEnd(e, a, CaptureCode(short, len, p))
  {
    if ShortForm(short, len) {
      EmitJumps(e, a + |p|, IFullCapture(len));
      JumpsConcat(e, a, p, Emit(IFullCapture(len)));
    } else {
      EmitJumps(e, a, IOpenCapture);
      EmitJumps(e, a + 1 + |p|, ICloseCapture);
      JumpsConcat3(e, a, Emit(IOpenCapture), p, Emit(ICloseCapture));
    }
  }

  lemma ChoiceByTestJumps(e: Env, a: int, f: First, p1: seq<Slot>, p2: seq<Slot>, emptyp2: bool)
    requires At(e, a, ChoiceByTestCode(f, p1, p2, emptyp2))
    requires var l1 := a + TestSize(f) + |p1| + (if emptyp2 then 0 else 2);
             && Ends(e.code, l1) && Ends(e.code, l1 + |p2|)
             && JumpsEnd(e, a + TestSize(f), p1) && JumpsEnd(e, l1, p2)
    ensures JumpsEnd(e, a, ChoiceByTestCode(f, p1, p2, emptyp2))
  {
    hide At, JumpsEnd, CodeTest, Ends;
    ChoiceByTestLayout(e, a, f, p1, p2, emptyp2);
    var b := a + TestSize(f);
    var jmp := JmpIf(!emptyp2, 2 + |p2|);
    TestJumps(e, a, f, |p1| + |jmp|);
    if !emptyp2 { EmitJumps(e, b + |p1|, IJmp(2 + |p2|)); }
    JumpsConcat4(e, a, CodeTest(f, |p1| + |jmp|), p1, jmp, p2);
  }

  lemma ChoiceReusedJumps(e: Env, a: int, p1: seq<Slot>)
    requires JumpsEnd(e, a + 2, p1)
    ensures JumpsEnd(e, a, ChoiceReusedCode(p1))
  {
    EmitJumps(e, a, IPartialCommit(2));
    JumpsConcat(e, a, Emit(IPartialCommit(2)), p1);
  }

  lemma ChoiceStackedJumps(e: Env, a: int, f: First, p1: seq<Slot>, p2: seq<Slot>)
    requires At(e, a, ChoiceStackedCode(f, p1, p2))
    requires var b := a + TestSize(f);
             && Ends(e.code, b + 4 + |p1|)
             && JumpsEnd(e, b + 2, p1) && JumpsEnd(e, b + 4 + |p1|, p2)
    ensures JumpsEnd(e, a, ChoiceStackedCode(f, p1, p2))
  {
    ChoiceStackedLayout(e, a, f, p1, p2);
    var b := a + TestSize(f);
    var test, ch, cm := CodeTest(f, 2 + |p1| + 2), IChoice(2 + |p1| + 2), ICommit(2 + |p2|);
    TestJumps(e, a, f, 2 + |p1| + 2);
    EmitJumps(e, b, ch);
    EmitJumps(e, b + 2 + |p1|, cm);
    JumpsConcat4(e, a, test, Emit(ch), p1, Emit(cm));
    JumpsConcat(e, a, test + Emit(ch) + p1 + Emit(cm), p2);
  }

  /** The jump at the end of a loop goes to its test, which is no jump or one behind the loop. */
  lemma LoopJumpEnds(e: Env, a: int, f: First, p: seq<Slot>)
    requires At(e, a, RepByTestCode(f, p)) && !f.empty && Ends(e.code, a + |RepByTestCode(f, p)|)
    ensures Ends(e.code, a) && Ends(e.code, a + TestSize(f) + |p|)
  {
    RepByTestLayout(e, a, f, p);
    TestEnds(e, a, f, |p| + 2);
    EndsNext(e.code, a + TestSize(f) + |p|);
  }

  lemma RepByTestJumps(e: Env, a: int, f: First, p: seq<Slot>)
    requires At(e, a, RepByTestCode(f, p)) && !f.empty && Ends(e.code, a + |RepByTestCode(f, p)|)
    requires JumpsEnd(e, a + TestSize(f), p)
    ensures JumpsEnd(e, a, RepByTestCode(f, p))
  {
    RepByTestLayout(e, a, f, p);
    LoopJumpEnds(e, a, f, p);
    TestJumps(e, a, f, |p| + 2);
    var jmp := IJmp(-(TestSize(f) + |p|));
    EmitJumps(e, a + TestSize(f) + |p|, jmp);
    JumpsConcat3(e, a, CodeTest(f, |p| + 2), p, Emit(jmp));
  }

  lemma RepStackedJumps(e: Env, a: int, f: First, p: seq<Slot>, opt: bool)
    requires At(e, a, RepStackedCode(f, p, opt)) && Ends(e.code, a + |RepStackedCode(f, p, opt)|)
    requires JumpsEnd(e, a + TestSize(f) + 2, p)
    ensures JumpsEnd(e, a, RepStackedCode(f, p, opt))
  {
    RepStackedLayout(e, a, f, p, opt);
    var b := a + TestSize(f);
    TestJumps(e, a, f, 2 + |p| + 2);
    EmitJumps(e, b, RepEntry(p, opt));
    EmitJumps(e, b + 2 + |p|, IPartialCommit(-|p|));
    JumpsConcat4(e, a, CodeTest(f, 2 + |p| + 2), Emit(RepEntry(p, opt)), p, Emit(IPartialCommit(-|p|)));
  }

  lemma CharsetJumps(e: Env, cs: Charset, tt: Test, a: int)
    ensures JumpsEnd(e, a, CodeCharset(cs, tt))
  {
  }

  // ---- Patterns ----

  /** The rules a tree calls start with chains that end. */
  ghost predicate StartsEnd(e: Env, t: Tree) {
    forall r | r in Calls(t) :: r < |e.pos| && Ends(e.code, e.pos[r])
  }

  /** A part of an accepted pattern, the rules it calls being in order. */
  ghost predicate Part(e: Env, t: Tree, k0: nat, d: nat) {
    Built(t, k0) && Depth(t) <= d && StartsEnd(e, t)
  }

  lemma PartsOf(e: Env, t: Tree, k0: nat, d: nat)
    requires Part(e, t, k0, d)
    ensures t.TRep? || t.TNot? || t.TAnd? || t.TCapture? || t.TBehind? ==> Part(e, t.p, k0, d)
    ensures t.TSeq? || t.TChoice? ==> Part(e, t.p1, k0, d) && Part(e, t.p2, k0, d)
  {
    hide Ends;
    if t.TSeq? || t.TChoice? {
      assert Calls(t) == Calls(t.p1) + Calls(t.p2) && Depth(t.p1) <= Depth(t) && Depth(t.p2) <= Depth(t);
    } else if t.TRep? || t.TNot? || t.TAnd? || t.TCapture? || t.TBehind? {
      assert Calls(t.p) <= Calls(t) && Depth(t.p) <= Depth(t);
    }
  }

  /** Code of a part in its place, with a chain behind it that ends. */
  ghost predicate Placed(e: Env, c: Ctx, t: Tree, opt: bool, tt: Test, fl: Charset, a: int, k0: nat, d: nat) {
    && a >= 0 && WellFormed(c, t) && Part(e, t, k0, d)
    && At(e, a, Gen(c, t, opt, tt, fl)) && Ends(e.code, a + |Gen(c, t, opt, tt, fl)|)
  }

  /** From the end of the code of a part, every jump inside it leads out of the jumps. */
  lemma {:induction false} PartChains(e: Env, c: Ctx, t: Tree, opt: bool, tt: Test, fl: Charset, a: int,
                                      k0: nat, d: nat)
    requires Placed(e, c, t, opt, tt, fl, a, k0, d)
    ensures JumpsEnd(e, a, Gen(c, t, opt, tt, fl))
    decreases d, MAXRULES + 2, t, 1
  {
    hide Gen, WellFormed, FixedLen, CheckAux, GetFirst, HeadFail, HasCaptures, NeedFollow, Peg;
    hide At, JumpsEnd;
    match t
    case TChoice(_, _) => ChoiceChains(e, c, t, opt, tt, fl, a, k0, d);
    case TRep(_) => RepChains(e, c, t, opt, tt, fl, a, k0, d);
    case TSeq(_, _) => SeqChains(e, c, t, opt, tt, fl, a, k0, d);
    case TBehind(n, p) =>
      UnfoldBehind(c, t, opt, tt, fl, [], 0, 0);
      PartsOf(e, t, k0, d);
      var c1 := Gen(c, p, false, NoTest, FULL);
      AtSplit(e, a, BehindIf(n), c1);
      PartChains(e, c, p, false, NoTest, FULL, a + |BehindIf(n)|, k0, d);
      BehindIfJumps(e, a, n);
      JumpsConcat(e, a, BehindIf(n), c1);
    case TNot(_) => NotChains(e, c, t, opt, tt, fl, a, k0, d);
    case TAnd(_) => AndChains(e, c, t, opt, tt, fl, a, k0, d);
    case TCapture(_) => CaptureChains(e, c, t, opt, tt, fl, a, k0, d);
    case TGrammar(rules) =>
      UnfoldGrammar(c, t, opt, tt, fl, [], 0, 0);
      GrammarChains(e, c, rules, a, k0, d);
    case TCall(_, r) =>
      UnfoldCall(c, t, opt, tt, fl, [], 0, 0);
      assert r in Calls(t);
      CallChain(e, r, a);
    case _ => LeafChains(e, c, t, opt, tt, fl, a);
  }

  lemma {:induction false} SeqChains(e: Env, c: Ctx, t: Tree, opt: bool, tt: Test, fl: Charset, a: int,
                                     k0: nat, d: nat)
    requires t.TSeq? && Placed(e, c, t, opt, tt, fl, a, k0, d)
    ensures JumpsEnd(e, a, Gen(c, t, opt, tt, fl))
    decreases d, MAXRULES + 2, t, 0
  {
    hide Gen, WellFormed, FixedLen, CheckAux, GetFirst, HeadFail, HasCaptures, NeedFollow, Peg, CharsetType;
    hide Built, Depth, Calls, At, JumpsEnd, CodeTest, TestSize, TestOf;
    hide NotCode, AndCode, CaptureCode, ChoiceByTestCode, ChoiceStackedCode, RepByTestCode, RepStackedCode;
    UnfoldSeq(c, t, opt, tt, fl, [], 0, 0);
    PartsOf(e, t, k0, d);
    var fl1, tt2 := SeqFollow(c, t.p1, t.p2, fl), SeqTest(c, t.p1, tt);
    var c1, c2 := Gen(c, t.p1, false, tt, fl1), Gen(c, t.p2, opt, tt2, fl);
    AtSplit(e, a, c1, c2);
    PartChains(e, c, t.p2, opt, tt2, fl, a + |c1|, k0, d);
    PlaceEnds(e, a + |c1|, c2, 0);
    PartChains(e, c, t.p1, false, tt, fl1, a, k0, d);
    JumpsConcat(e, a, c1, c2);
  }

  lemma {:induction false} NotChains(e: Env, c: Ctx, t: Tree, opt: bool, tt: Test, fl: Charset, a: int,
                                     k0: nat, d: nat)
    requires t.TNot? && Placed(e, c, t, opt, tt, fl, a, k0, d)
    ensures JumpsEnd(e, a, Gen(c, t, opt, tt, fl))
    decreases d, MAXRULES + 2, t, 0
  {
    hide Gen, WellFormed, FixedLen, CheckAux, GetFirst, HeadFail, HasCaptures, NeedFollow, Peg, CharsetType;
    hide Built, Depth, Calls, At, JumpsEnd, CodeTest, TestSize, TestOf;
    hide NotCode, AndCode, CaptureCode, ChoiceByTestCode, ChoiceStackedCode, RepByTestCode, RepStackedCode;
    UnfoldNot(c, t, opt, tt, fl, [], 0, 0);
    PartsOf(e, t, k0, d);
    var f, hf := FirstOf(c, t.p, FULL), HeadFail(c.g, t.p, c.k);
    var c1 := Gen(c, t.p, false, NoTest, FULL);
    NotLayout(e, a, f, hf, c1);
    if !hf {
      EndsHere(e.code, a + TestSize(f) + 2 + |c1|);
      PartChains(e, c, t.p, false, NoTest, FULL, a + TestSize(f) + 2, k0, d);
    }
    NotJumps(e, a, f, hf, c1);
  }

  lemma {:induction false} CaptureChains(e: Env, c: Ctx, t: Tree, opt: bool, tt: Test, fl: Charset, a: int,
                                         k0: nat, d: nat)
    requires t.TCapture? && Placed(e, c, t, opt, tt, fl, a, k0, d)
    ensures JumpsEnd(e, a, Gen(c, t, opt, tt, fl))
    decreases d, MAXRULES + 2, t, 0
  {
    hide Gen, WellFormed, FixedLen, CheckAux, GetFirst, HeadFail, HasCaptures, NeedFollow, Peg, CharsetType;
    hide Built, Depth, Calls, At, JumpsEnd, CodeTest, TestSize, TestOf;
    hide NotCode, AndCode, CaptureCode, ChoiceByTestCode, ChoiceStackedCode, RepByTestCode, RepStackedCode;
    UnfoldCapture(c, t, opt, tt, fl, [], 0, 0);
    PartsOf(e, t, k0, d);
    var short, len := ShortCapture(c, t.p), FixedLen(c.g, t.p, c.live);
    var c1 := Gen(c, t.p, false, tt, fl);
    CaptureLayout(e, a, short, len, c1);
    var b := a + (if ShortForm(short, len) then 0 else 1);
    EndsHere(e.code, b + |c1|);
    PartChains(e, c, t.p, false, tt, fl, b, k0, d);
    CaptureJumps(e, a, short, len, c1);
  }

  lemma LeafChains(e: Env, c: Ctx, t: Tree, opt: bool, tt: Test, fl: Charset, a: int)
    requires t.TChar? || t.TAny? || t.TSet? || t.TTrue? || t.TFalse?
    ensures JumpsEnd(e, a, Gen(c, t, opt, tt, fl))
  {
    if t.TSet? { CharsetJumps(e, t.cs, tt, a); }
  }

  lemma CallChain(e: Env, r: nat, a: int)
    requires At(e, a, Emit(IOpenCall(r))) && r < |e.pos| && Ends(e.code, e.pos[r])
    ensures JumpsEnd(e, a, Emit(IOpenCall(r))) && Ends(e.code, a)
  {
    assert SlotAt(e, a + 0, Emit(IOpenCall(r))[0]);
    EndsNext(e.code, a);
  }

  lemma {:induction false} AndChains(e: Env, c: Ctx, t: Tree, opt: bool, tt: Test, fl: Charset, a: int,
                                     k0: nat, d: nat)
    requires t.TAnd? && Placed(e, c, t, opt, tt, fl, a, k0, d)
    ensures JumpsEnd(e, a, Gen(c, t, opt, tt, fl))
    decreases d, MAXRULES + 2, t, 0
  {
    hide Gen, WellFormed, FixedLen, CheckAux, GetFirst, HeadFail, HasCaptures, NeedFollow, Peg, CharsetType;
    hide Built, Depth, Calls, At, Ends, JumpsEnd, CodeTest, TestSize, TestOf;
    hide NotCode, AndCode, CaptureCode, ChoiceByTestCode, ChoiceStackedCode, RepByTestCode, RepStackedCode;
    PartsOf(e, t, k0, d);
    UnfoldAnd(c, t, opt, tt, fl, [], 0, 0);
    var c1 := Gen(c, t.p, false, tt, FULL);
    if ShortAnd(c, t.p) {
      var len := FixedLen(c.g, t.p, c.live);
      AndShortEnds(e, a, c1, len);
      PartChains(e, c, t.p, false, tt, FULL, a, k0, d);
      JumpsConcat(e, a, c1, BehindIf(len));
    } else {
      AndLayout(e, a, c1);
      EndsHere(e.code, a + 2 + |c1|);
      PartChains(e, c, t.p, false, tt, FULL, a + 2, k0, d);
      AndJumps(e, a, c1);
    }
  }

  lemma AndShortEnds(e: Env, a: int, p: seq<Slot>, len: nat)
    requires At(e, a, AndShortCode(len, p)) && Ends(e.code, a + |AndShortCode(len, p)|)
    ensures At(e, a, p) && Ends(e.code, a + |p|) && JumpsEnd(e, a + |p|, BehindIf(len))
  {
    hide At, JumpsEnd, Ends;
    AtSplit(e, a, p, BehindIf(len));
    BehindIfJumps(e, a + |p|, len);
    PlaceEnds(e, a + |p|, BehindIf(len), 0);
  }

  lemma {:induction false} ChoiceChains(e: Env, c: Ctx, t: Tree, opt: bool, tt: Test, fl: Charset, a: int,
                                        k0: nat, d: nat)
    requires t.TChoice? && Placed(e, c, t, opt, tt, fl, a, k0, d)
    ensures JumpsEnd(e, a, Gen(c, t, opt, tt, fl))
    decreases d, MAXRULES + 2, t, 0
  {
    hide Gen, WellFormed, FixedLen, CheckAux, GetFirst, HeadFail, HasCaptures, NeedFollow, Peg, CharsetType;
    hide Built, Depth, Calls, At, JumpsEnd, CodeTest, TestSize, TestOf;
    hide NotCode, AndCode, CaptureCode, ChoiceByTestCode, ChoiceStackedCode, RepByTestCode, RepStackedCode;
    PartsOf(e, t, k0, d);
    UnfoldChoice(c, t, opt, tt, fl, [], 0, 0);
    var f := FirstOf(c, t.p1, FULL);
    var p2 := Gen(c, t.p2, opt, NoTest, fl);
    if TestDecides(c, t.p1, t.p2, fl) {
      var f0 := First(false, f.cs);
      var p1 := Gen(c, t.p1, false, TestOf(f0), fl);
      ChoiceByTestLayout(e, a, f0, p1, p2, t.p2.TTrue?);
      var m := a + TestSize(f0) + |p1|;
      var l1 := m + (if t.p2.TTrue? then 0 else 2);
      PartChains(e, c, t.p2, opt, NoTest, fl, l1, k0, d);
      PlaceEnds(e, l1, p2, 0);
      if !t.p2.TTrue? { EndsNext(e.code, m); }
      PartChains(e, c, t.p1, false, TestOf(f0), fl, a + TestSize(f0), k0, d);
      ChoiceByTestJumps(e, a, f0, p1, p2, t.p2.TTrue?);
    } else if opt && t.p2.TTrue? {
      var p1 := Gen(c, t.p1, true, NoTest, FULL);
      ChoiceReusedLayout(e, a, p1);
      PartChains(e, c, t.p1, true, NoTest, FULL, a + 2, k0, d);
      ChoiceReusedJumps(e, a, p1);
    } else {
      var p1 := Gen(c, t.p1, t.p2.TTrue?, TestOf(f), FULL);
      ChoiceStackedLayout(e, a, f, p1, p2);
      var b := a + TestSize(f);
      PartChains(e, c, t.p2, opt, NoTest, fl, b + 4 + |p1|, k0, d);
      PlaceEnds(e, b + 4 + |p1|, p2, 0);
      EndsHere(e.code, b + 2 + |p1|);
      PartChains(e, c, t.p1, t.p2.TTrue?, TestOf(f), FULL, b + 2, k0, d);
      ChoiceStackedJumps(e, a, f, p1, p2);
    }
  }

  lemma {:induction false} RepChains(e: Env, c: Ctx, t: Tree, opt: bool, tt: Test, fl: Charset, a: int,
                                     k0: nat, d: nat)
    requires t.TRep? && Placed(e, c, t, opt, tt, fl, a, k0, d)
    ensures JumpsEnd(e, a, Gen(c, t, opt, tt, fl))
    decreases d, MAXRULES + 2, t, 0
  {
    hide Gen, WellFormed, FixedLen, CheckAux, GetFirst, HeadFail, HasCaptures, NeedFollow, Peg, CharsetType;
    hide Built, Depth, Calls, At, JumpsEnd, CodeTest, TestSize, TestOf;
    hide NotCode, AndCode, CaptureCode, ChoiceByTestCode, ChoiceStackedCode, RepByTestCode, RepStackedCode;
    PartsOf(e, t, k0, d);
    UnfoldRep(c, t, opt, tt, fl, [], 0, 0);
    var f := FirstOf(c, t.p, FULL);
    if IsCharPattern(t.p) {
      EmitJumps(e, a, ISpan(ToCharset(t.p)));
    } else if TestLeaves(c, t.p, fl) {
      var f0 := First(false, f.cs);
      var p := Gen(c, t.p, false, TestOf(f0), FULL);
      RepByTestLayout(e, a, f0, p);
      LoopJumpEnds(e, a, f0, p);
      PartChains(e, c, t.p, false, TestOf(f0), FULL, a + TestSize(f0), k0, d);
      RepByTestJumps(e, a, f0, p);
    } else {
      var p := Gen(c, t.p, false, NoTest, FULL);
      RepStackedLayout(e, a, f, p, opt);
      EndsHere(e.code, a + TestSize(f) + 2 + |p|);
      PartChains(e, c, t.p, false, NoTest, FULL, a + TestSize(f) + 2, k0, d);
      RepStackedJumps(e, a, f, p, opt);
    }
  }

  /** The rules of a nested grammar, one after the other. */
  lemma {:induction false} RulesChains(e: Env, c: Ctx, rules: seq<Tree>, m: nat, start: int, k0: nat, d: nat)
    requires m <= |rules| && c.g == rules && start >= 0 && RulesAt(e, c)
    requires forall r | 0 <= r < |rules| ::
               e.pos[r] == start + |GenRules(c, rules, r)| && Part(e, rules[r], k0, d)
    ensures JumpsEnd(e, start, GenRules(c, rules, m))
    decreases d, MAXRULES + 3, m
  {
    hide Gen, WellFormed, Part, At, GenRules, Ends, SlotAt;
    UnfoldRules(c, rules, m);
    if m > 0 {
      var r := m - 1;
      RulesChains(e, c, rules, r, start, k0, d);
      assert RuleAt(e, c, r);
      EndsHere(e.code, e.pos[r] + |RuleCode(c, r)|);
      PartChains(e, c, rules[r], false, NoTest, FULL, e.pos[r], k0, d);
      EmitJumps(e, e.pos[r] + |RuleCode(c, r)|, IRet);
      JumpsConcat3(e, start, GenRules(c, rules, r), RuleCode(c, r), Emit(IRet));
    }
  }

  lemma UnfoldRules(c: Ctx, rules: seq<Tree>, m: nat)
    requires m <= |rules| && c.g == rules
    ensures GenRules(c, rules, m) ==
            if m == 0 then [] else GenRules(c, rules, m - 1) + RuleCode(c, m - 1) + Emit(IRet)
  {
  }

  lemma {:induction false} GrammarChains(e: Env, c: Ctx, rules: seq<Tree>, a: int, k0: nat, d: nat)
    requires a >= 0 && WellFormed(c, TGrammar(rules)) && Built(TGrammar(rules), k0)
    requires Depth(TGrammar(rules)) <= d
    requires At(e, a, GrammarCode(GrammarBody(c, rules)))
    requires Ends(e.code, a + |GrammarCode(GrammarBody(c, rules))|)
    ensures JumpsEnd(e, a, GrammarCode(GrammarBody(c, rules)))
    decreases d, MAXRULES + 2, TGrammar(rules), 0
  {
    hide Gen, GenRules, CorrectCalls, Tidy;
    var body, start, c1 := GrammarBody(c, rules), a + 4, c.(g := rules);
    var ps := RulePositions(c1, rules);
    var e1 := e.(pos := Shifted(ps, start));
    AtSplit(e, a, Emit(ICall(4)) + Emit(IJmp(2 + |body|)), body);
    AtSplit(e, a, Emit(ICall(4)), Emit(IJmp(2 + |body|)));
    AtEmit(e, a + 2, IJmp(2 + |body|));
    InnerRules(e, c, rules, start);
    StartsOfRules(e1, c1, k0, d - 1);
    RulesChains(e1, c1, rules, |rules|, start, k0, d - 1);
    BodyJumps(e, c, rules, start);
    EmitJumps(e, a, ICall(4));
    EmitJumps(e, a + 2, IJmp(2 + |body|));
    JumpsConcat3(e, a, Emit(ICall(4)), Emit(IJmp(2 + |body|)), body);
  }

  /** Closing the calls adds jumps only where calls were. */
  lemma BodyJumps(e: Env, c: Ctx, rules: seq<Tree>, start: int)
    requires WellFormed(c, TGrammar(rules))
    requires var c1 := c.(g := rules); JumpsEnd(e, start, GenRules(c1, rules, |rules|))
    ensures JumpsEnd(e, start, GrammarBody(c, rules))
  {
    hide Gen, GenRules, CorrectCalls, Tidy;
    var c1 := c.(g := rules);
    var raw, ps, body := GenRules(c1, rules, |rules|), RulePositions(c1, rules), GrammarBody(c, rules);
    RulesSound(c1, rules, |rules|);
    assert raw[0..] == raw;
    CorrectTidy(raw, ps, 0);
    CorrectOnlyCalls(raw, ps, 0);
  }

  /** The rules that are called start with chains that end. */
  lemma StartsOfRules(e: Env, c: Ctx, k0: nat, d: nat)
    requires Built(TGrammar(c.g), k0) && Depth(TGrammar(c.g)) <= d + 1 && RulesAt(e, c)
    ensures forall r | 0 <= r < |c.g| :: Part(e, c.g[r], k0, d)
  {
    hide Gen, At;
    var u := UsedRules(c.g);
    EnterRules(c.g, d + 1, k0);
    var m :| Falling(RuleGraph(c.g, k0), u, m);
    forall r | r in u ensures Ends(e.code, e.pos[r]) {
      RuleStartEnds(e, c, u, m, r, k0);
    }
    forall q | 0 <= q < |c.g| ensures Part(e, c.g[q], k0, d) {
      forall r | r in Calls(c.g[q]) ensures r < |e.pos| && Ends(e.code, e.pos[r]) {
        assert r in u;
      }
    }
  }

  lemma RuleStartEnds(e: Env, c: Ctx, u: set<nat>, m: seq<Level>, r: nat, k0: nat)
    requires RulesAt(e, c) && RulesFall(c, u, m, k0) && r in u
    ensures Ends(e.code, e.pos[r])
    decreases m[r].rank, m[r].pot, c.g[r], 2
  {
    hide Gen, At;
    assert RuleAt(e, c, r);
    EndsHere(e.code, e.pos[r] + |RuleCode(c, r)|);
    assert RuleGraph(c.g, k0)[r] == Sites(c.g, c.g[r], 0, Some(0), false, k0);
    EntryChains(e, c, u, m, m[r], c.g[r], false, NoTest, FULL, e.pos[r], Some(0), false, k0);
  }

  /** The rules 'u' of the grammar in force, closed under calls, with a measure that calls lower. */
  ghost predicate RulesFall(c: Ctx, u: set<nat>, m: seq<Level>, k0: nat) {
    |m| == |c.g| && (forall r | r in u :: r < |c.g| && Calls(c.g[r]) <= u) && Falling(RuleGraph(c.g, k0), u, m)
  }

  /** What the start of the code of a part relies on that jumps alone may reach. */
  ghost predicate Entry(e: Env, c: Ctx, u: set<nat>, m: seq<Level>, at: Level, t: Tree, opt: bool, tt: Test,
                        fl: Charset, a: int, hi: Option<int>, back: bool, k0: nat) {
    && a >= 0 && WellFormed(c, t) && RulesAt(e, c) && At(e, a, Gen(c, t, opt, tt, fl))
    && RulesFall(c, u, m, k0) && Calls(t) <= u
    && AllFall(m, at, Sites(c.g, t, 0, hi, back, k0)) && (hi.Some? ==> hi.value >= 0)
    && (Shortest(c.g, t, k0) == 0 ==> Ends(e.code, a + |Gen(c, t, opt, tt, fl)|))
  }

  /** Jumps alone lead through code only where a pattern may take nothing, and into rules that are lower. */
  lemma {:induction false} EntryChains(e: Env, c: Ctx, u: set<nat>, m: seq<Level>, at: Level, t: Tree, opt: bool,
                                       tt: Test, fl: Charset, a: int, hi: Option<int>, back: bool, k0: nat)
    requires Entry(e, c, u, m, at, t, opt, tt, fl, a, hi, back, k0)
    ensures Ends(e.code, a)
    decreases at.rank, at.pot, t, 1
  {
    hide Gen, WellFormed, FixedLen, CheckAux, GetFirst, HeadFail, HasCaptures, NeedFollow, Peg, CharsetType;
    hide At, RulesAt, RulesFall, CodeTest, TestSize, NotCode, AndCode, CaptureCode;
    match t
    case TChoice(_, _) => EntryChoice(e, c, u, m, at, t, opt, tt, fl, a, hi, back, k0);
    case TRep(_) => EntryRep(e, c, t, opt, tt, fl, a);
    case TSeq(_, _) => EntrySeq(e, c, u, m, at, t, opt, tt, fl, a, hi, back, k0);
    case TBehind(n, p) =>
      UnfoldBehind(c, t, opt, tt, fl, [], 0, 0);
      AtSplit(e, a, BehindIf(n), Gen(c, p, false, NoTest, FULL));
      if n > 0 {
        AtEmit(e, a, IBehind(n));
        EndsHere(e.code, a);
      } else {
        EntryChains(e, c, u, m, at, p, false, NoTest, FULL, a, Earlier(hi, n), true, k0);
      }
    case TNot(p) =>
      UnfoldNot(c, t, opt, tt, fl, [], 0, 0);
      EntryNot(e, a, FirstOf(c, p, FULL), HeadFail(c.g, p, c.k), Gen(c, p, false, NoTest, FULL));
    case TAnd(_) => EntryAnd(e, c, u, m, at, t, opt, tt, fl, a, hi, back, k0);
    case TCapture(p) =>
      UnfoldCapture(c, t, opt, tt, fl, [], 0, 0);
      var short, len, c1 := ShortCapture(c, p), FixedLen(c.g, p, c.live), Gen(c, p, false, tt, fl);
      CaptureLayout(e, a, short, len, c1);
      if ShortForm(short, len) {
        EndsHere(e.code, a + |c1|);
        EntryChains(e, c, u, m, at, p, false, tt, fl, a, hi, back, k0);
      } else {
        EndsHere(e.code, a);
      }
    case TGrammar(rules) =>
      UnfoldGrammar(c, t, opt, tt, fl, [], 0, 0);
      var body := GrammarBody(c, rules);
      AtSplit(e, a, Emit(ICall(4)) + Emit(IJmp(2 + |body|)), body);
      AtSplit(e, a, Emit(ICall(4)), Emit(IJmp(2 + |body|)));
      AtEmit(e, a, ICall(4));
      EndsHere(e.code, a);
    case TCall(_, r) =>
      UnfoldCall(c, t, opt, tt, fl, [], 0, 0);
      EntryCall(e, c, u, m, at, t, a, hi, back, k0);
    case _ => EntryLeaf(e, c, t, opt, tt, fl, a);
  }

  lemma {:induction false} EntrySeq(e: Env, c: Ctx, u: set<nat>, m: seq<Level>, at: Level, t: Tree, opt: bool,
                                    tt: Test, fl: Charset, a: int, hi: Option<int>, back: bool, k0: nat)
    requires t.TSeq? && Entry(e, c, u, m, at, t, opt, tt, fl, a, hi, back, k0)
    ensures Ends(e.code, a)
    decreases at.rank, at.pot, t, 0
  {
    hide Gen, WellFormed, FixedLen, CheckAux, GetFirst, HeadFail, HasCaptures, NeedFollow, Peg, RulesAt, RulesFall;
    UnfoldSeq(c, t, opt, tt, fl, [], 0, 0);
    var fl1, tt2 := SeqFollow(c, t.p1, t.p2, fl), SeqTest(c, t.p1, tt);
    var c1, c2 := Gen(c, t.p1, false, tt, fl1), Gen(c, t.p2, opt, tt2, fl);
    AtSplit(e, a, c1, c2);
    if Shortest(c.g, t.p1, k0) == 0 {
      ShortestLongest(c.g, t.p1, k0);
      EntryChains(e, c, u, m, at, t.p2, opt, tt2, fl, a + |c1|, Plus(hi, Longest(t.p1)), back, k0);
    }
    EntryChains(e, c, u, m, at, t.p1, false, tt, fl1, a, hi, back, k0);
  }

  lemma {:induction false} EntryAnd(e: Env, c: Ctx, u: set<nat>, m: seq<Level>, at: Level, t: Tree, opt: bool,
                                    tt: Test, fl: Charset, a: int, hi: Option<int>, back: bool, k0: nat)
    requires t.TAnd? && Entry(e, c, u, m, at, t, opt, tt, fl, a, hi, back, k0)
    ensures Ends(e.code, a)
    decreases at.rank, at.pot, t, 0
  {
    hide Gen, WellFormed, FixedLen, CheckAux, GetFirst, HeadFail, HasCaptures, NeedFollow, Peg, RulesAt, RulesFall;
    UnfoldAnd(c, t, opt, tt, fl, [], 0, 0);
    var c1 := Gen(c, t.p, false, tt, FULL);
    if ShortAnd(c, t.p) {
      var len := FixedLen(c.g, t.p, c.live);
      AtSplit(e, a, c1, BehindIf(len));
      BehindIfJumps(e, a + |c1|, len);
      PlaceEnds(e, a + |c1|, BehindIf(len), 0);
      EntryChains(e, c, u, m, at, t.p, false, tt, FULL, a, hi, back, k0);
    } else {
      AndLayout(e, a, c1);
      EndsHere(e.code, a);
    }
  }

  lemma {:induction false} EntryCall(e: Env, c: Ctx, u: set<nat>, m: seq<Level>, at: Level, t: Tree, a: int,
                                     hi: Option<int>, back: bool, k0: nat)
    requires t.TCall? && RulesAt(e, c) && At(e, a, Emit(IOpenCall(t.rule))) && RulesFall(c, u, m, k0) && Calls(t) <= u
    requires AllFall(m, at, Sites(c.g, t, 0, hi, back, k0)) && (hi.Some? ==> hi.value >= 0)
    ensures Ends(e.code, a)
    decreases at.rank, at.pot, t, 0
  {
    hide At;
    var r := t.rule;
    assert Arc(r, 0, hi, back) in Sites(c.g, t, 0, hi, back, k0);
    LeftCallLowers(m, at, Arc(r, 0, hi, back));
    assert RuleAt(e, c, r);
    RuleStartEnds(e, c, u, m, r, k0);
    CallChain(e, r, a);
  }

  lemma EntryLeaf(e: Env, c: Ctx, t: Tree, opt: bool, tt: Test, fl: Charset, a: int)
    requires t.TChar? || t.TAny? || t.TSet? || t.TTrue? || t.TFalse?
    requires At(e, a, Gen(c, t, opt, tt, fl))
    requires t.TTrue? ==> Ends(e.code, a + |Gen(c, t, opt, tt, fl)|)
    ensures Ends(e.code, a)
  {
    if !t.TTrue? {
      assert SlotAt(e, a + 0, Gen(c, t, opt, tt, fl)[0]);
      EndsHere(e.code, a);
    }
  }

  lemma EntryNot(e: Env, a: int, f: First, hf: bool, p: seq<Slot>)
    requires At(e, a, NotCode(f, hf, p)) && Ends(e.code, a + |NotCode(f, hf, p)|)
    ensures Ends(e.code, a)
  {
    NotLayout(e, a, f, hf, p);
    if f.empty {
      EndsHere(e.code, a);
    } else {
      TestEnds(e, a, f, if hf then 1 else 2 + |p| + 1);
    }
  }

  lemma EntryRep(e: Env, c: Ctx, t: Tree, opt: bool, tt: Test, fl: Charset, a: int)
    requires t.TRep? && At(e, a, Gen(c, t, opt, tt, fl)) && Ends(e.code, a + |Gen(c, t, opt, tt, fl)|)
    ensures Ends(e.code, a)
  {
    hide Gen, CheckAux, GetFirst, HeadFail, CharsetType;
    UnfoldRep(c, t, opt, tt, fl, [], 0, 0);
    var f := FirstOf(c, t.p, FULL);
    if IsCharPattern(t.p) {
      AtEmit(e, a, ISpan(ToCharset(t.p)));
      EndsHere(e.code, a);
    } else if TestLeaves(c, t.p, fl) {
      var f0 := First(false, f.cs);
      LoopJumpEnds(e, a, f0, Gen(c, t.p, false, TestOf(f0), FULL));
    } else {
      var p := Gen(c, t.p, false, NoTest, FULL);
      RepStackedLayout(e, a, f, p, opt);
      if f.empty {
        EndsHere(e.code, a);
      } else {
        TestEnds(e, a, f, 2 + |p| + 2);
      }
    }
  }

  lemma {:induction false} EntryChoice(e: Env, c: Ctx, u: set<nat>, m: seq<Level>, at: Level, t: Tree, opt: bool,
                                       tt: Test, fl: Charset, a: int, hi: Option<int>, back: bool, k0: nat)
    requires t.TChoice? && Entry(e, c, u, m, at, t, opt, tt, fl, a, hi, back, k0)
    ensures Ends(e.code, a)
    decreases at.rank, at.pot, t, 0
  {
    hide Gen, WellFormed, FixedLen, CheckAux, GetFirst, HeadFail, HasCaptures, NeedFollow, Peg, CharsetType;
    hide RulesAt, RulesFall, At, ChoiceByTestCode, ChoiceReusedCode, ChoiceStackedCode, CodeTest, TestOf;
    hide TestDecides, FirstOf, Chase;
    UnfoldChoice(c, t, opt, tt, fl, [], 0, 0);
    var f := FirstOf(c, t.p1, FULL);
    var p2 := Gen(c, t.p2, opt, NoTest, fl);
    if TestDecides(c, t.p1, t.p2, fl) {
      var f0 := First(false, f.cs);
      var p1 := Gen(c, t.p1, false, TestOf(f0), fl);
      ChoiceByTestLayout(e, a, f0, p1, p2, t.p2.TTrue?);
      var l1 := a + TestSize(f0) + |p1| + (if t.p2.TTrue? then 0 else 2);
      EntryChains(e, c, u, m, at, t.p2, opt, NoTest, fl, l1, hi, back, k0);
      TestEnds(e, a, f0, l1 - (a + TestSize(f0)));
    } else if opt && t.p2.TTrue? {
      ChoiceReusedLayout(e, a, Gen(c, t.p1, true, NoTest, FULL));
      EndsHere(e.code, a);
    } else {
      var p1 := Gen(c, t.p1, t.p2.TTrue?, TestOf(f), FULL);
      ChoiceStackedLayout(e, a, f, p1, p2);
      if f.empty {
        EndsHere(e.code, a);
      } else {
        EntryChains(e, c, u, m, at, t.p2, opt, NoTest, fl, a + TestSize(f) + 4 + |p1|, hi, back, k0);
        TestEnds(e, a, f, 2 + |p1| + 2);
      }
    }
  }
}
