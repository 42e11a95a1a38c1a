// The compiler state of lpcode.c: a growing code array that code generation fills and patches.

module PegEmit {
  import opened PegTree
  import opened PegAnalysis
  import opened PegMachine
  import opened PegCodegen
  import opened PegShapes
  import opened PegCalls
  import opened PegCorrect
  import opened PegPeephole
  import opened PegTargets
  import opened PegLabels
  import opened PegCompile
  import opened PegMatch
  import opened PegChains

  // No instruction: where there is no test or no jump to patch.
  const NOINST := -1

  /** The room an instruction's operands take. */
  function Pads(n: nat): (c: seq<Slot>)
    ensures |c| == n && forall k | 0 <= k < n :: c[k] == Pad
  {
    seq(n, _ => Pad)
  }

  /** What later code may look at in the instruction at 'tt'. */
  function TestAt(code: seq<Slot>, tt: int): Test
    requires tt < |code|
  {
    if tt < 0 || code[tt].Pad? then NoTest
    else match code[tt].instr
      case ITestChar(c, _) => TestedChar(c)
      case ITestSet(cs, _) => TestedSet(cs)
      case _ => NoTest
  }

  /** A test whose label is still to be set. */
  function OpenTest(f: First): (c: seq<Slot>)
    ensures |c| == TestSize(f)
  {
    if f.empty then [] else Emit(TestInstr(f.cs, 0))
  }

  lemma OpenTestIs(pre: seq<Slot>, f: First)
    ensures TestAt(pre + OpenTest(f), if f.empty then NOINST else |pre|) == TestOf(f)
  {
    if !f.empty { assert (pre + OpenTest(f))[|pre|] == I(TestInstr(f.cs, 0)); }
  }

  lemma EmitLabel(i: Instr, off: int)
    requires HasLabel(i)
    ensures Emit(i)[0 := I(WithOff(i, off))] == Emit(WithOff(i, off))
  {
  }

  /** Setting a label. */
  lemma PatchOne(pre: seq<Slot>, i: Instr, mid: seq<Slot>, off: int)
    requires HasLabel(i)
    ensures (pre + Emit(i) + mid)[|pre| := I(WithOff(i, off))] == pre + Emit(WithOff(i, off)) + mid
  {
    EmitLabel(i, off);
  }

  /** Setting the label of a test. */
  lemma PatchTest(pre: seq<Slot>, f: First, mid: seq<Slot>)
    requires !f.empty
    ensures var i := TestInstr(f.cs, 0);
            (pre + OpenTest(f) + mid)[|pre| := I(WithOff(i, TestSize(f) + |mid|))] ==
            pre + CodeTest(f, |mid|) + mid
  {
    PatchOne(pre, TestInstr(f.cs, 0), mid, TestSize(f) + |mid|);
  }

  lemma Join3(pre: seq<Slot>, a: seq<Slot>, b: seq<Slot>)
    ensures pre + a + b == pre + (a + b)
  {
  }

  lemma Join4(pre: seq<Slot>, a: seq<Slot>, b: seq<Slot>, c: seq<Slot>)
    ensures pre + a + b + c == pre + (a + b + c)
    ensures pre + a + (b + c) == pre + a + b + c
  {
  }

  class CompileState {
    var code: array<Slot>
    var ncode: nat

    ghost predicate Valid()
      reads this
    {
      ncode <= code.Length && code.Length > 0
    }

    /** The code generated so far. */
    ghost function Code(): (r: seq<Slot>)
      requires Valid()
      reads this, code
      ensures |r| == ncode
    {
      code[..ncode]
    }

    constructor ()
      ensures Valid() && fresh(code) && Code() == []
    {
      code := new Slot[2](_ => Pad);
      ncode := 0;
    }

    /** Gives the code array another size: 'realloccode'. */
    method ReallocCode(nsize: nat)
      requires Valid() && ncode <= nsize && nsize > 0
      modifies this`code
      ensures Valid() && fresh(code) && code.Length == nsize && Code() == old(Code())
    {
      var block := new Slot[nsize](_ => Pad);
      for k := 0 to ncode
        modifies block
        invariant block[..k] == code[..k]
      {
        block[k] := code[k];
      }
      code := block;
    }

    /** Room for one more cell: 'nextinstruction'. */
    method NextInstruction() returns (i: nat)
      requires Valid()
      modifies this
      ensures Valid() && (code == old(code) || fresh(code))
      ensures i == old(ncode) && ncode == i + 1 && code[..i] == old(Code())
    {
      if ncode >= code.Length {
        ReallocCode(code.Length * 2);
      }
      i := ncode;
      ncode := ncode + 1;
    }

    /** Adds the first cell of an instruction: 'addinstruction'. */
    method AddInstruction(instr: Instr) returns (i: nat)
      requires Valid()
      modifies this, code
      ensures Valid() && (code == old(code) || fresh(code))
      ensures i == old(ncode) && Code() == old(Code()) + [I(instr)]
    {
      i := NextInstruction();
      code[i] := I(instr);
    }

    /** Adds 'n' cells for operands. */
    method AddSpace(n: nat)
      requires Valid()
      modifies this, code
      ensures Valid() && (code == old(code) || fresh(code))
      ensures Code() == old(Code()) + Pads(n)
    {
      for k := 0 to n
        invariant Valid() && (code == old(code) || fresh(code))
        invariant Code() == old(Code()) + Pads(k)
      {
        var i := NextInstruction();
        code[i] := Pad;
      }
    }

    /** Adds an instruction with room for its operands: an offset, a set, or both. */
    method Add(instr: Instr) returns (i: nat)
      requires Valid()
      modifies this, code
      ensures Valid() && (code == old(code) || fresh(code))
      ensures i == old(ncode) && Code() == old(Code()) + Emit(instr)
    {
      i := AddInstruction(instr);
      AddSpace(SizeI(instr) - 1);
      assert Emit(instr) == [I(instr)] + Pads(SizeI(instr) - 1);
    }

    /** Sets the label of an instruction, if there is one to set: 'jumptothere'. */
    method JumpToThere(at: int, target: int)
      requires Valid() && at < ncode
      requires at >= 0 ==> code[at].I? && HasLabel(code[at].instr)
      modifies code
      ensures at < 0 ==> Code() == old(Code())
      ensures at >= 0 ==> Code() == old(Code())[at := I(WithOff(old(code[at].instr), target - at))]
    {
      if at >= 0 {
        code[at] := I(WithOff(code[at].instr, target - at));
      }
    }

    /** Sets the label of the instruction 'instr' to here: 'jumptohere'. */
    method JumpToHere(at: nat, ghost pre: seq<Slot>, ghost instr: Instr, ghost mid: seq<Slot>)
      requires Valid() && HasLabel(instr) && at == |pre| && Code() == pre + Emit(instr) + mid
      modifies code
      ensures Code() == pre + Emit(WithOff(instr, SizeI(instr) + |mid|)) + mid
    {
      assert code[..ncode][at] == I(instr);
      JumpToThere(at, ncode);
      PatchOne(pre, instr, mid, SizeI(instr) + |mid|);
    }

    /** Sets the label of a test to here, if there is a test. */
    method TestToHere(test: int, ghost pre: seq<Slot>, ghost f: First, ghost mid: seq<Slot>)
      requires Valid() && test == (if f.empty then NOINST else |pre|) && Code() == pre + OpenTest(f) + mid
      modifies code
      ensures Code() == pre + CodeTest(f, |mid|) + mid
    {
      if !f.empty {
        assert code[..ncode][test] == I(TestInstr(f.cs, 0));
        PatchTest(pre, f, mid);
      }
      JumpToThere(test, ncode);
    }

    /** Codes a character; any character will do behind a test for it: 'codechar'. */
    method GenChar(c: Byte, tt: int)
      requires Valid() && tt < ncode
      modifies this, code
      ensures Valid() && (code == old(code) || fresh(code))
      ensures Code() == old(Code()) + CodeChar(c, TestAt(old(Code()), tt))
    {
      if tt >= 0 && code[tt].I? && code[tt].instr.ITestChar? && code[tt].instr.c == c {
        var _ := Add(IAny);
      } else {
        var _ := Add(IChar(c));
      }
    }

    /** Codes a set, as a character or any character where that is the same: 'codecharset'. */
    method GenCharset(cs: Charset, tt: int)
      requires Valid() && tt < ncode
      modifies this, code
      ensures Valid() && (code == old(code) || fresh(code))
      ensures Code() == old(Code()) + CodeCharset(cs, TestAt(old(Code()), tt))
    {
      match CharsetType(cs) {
        case OneChar(c) => GenChar(c, tt);
        case Other =>
          if tt >= 0 && code[tt].I? && code[tt].instr.ITestSet? && code[tt].instr.cs == cs {
            var _ := Add(IAny);
          } else {
            var _ := Add(ISet(cs));
          }
        case EmptySet => var _ := Add(IFail);
        case FullSet => var _ := Add(IAny);
      }
    }

    /** Codes a test without its label; none when the empty subject is accepted: 'codetestset'. */
    method GenTestSet(f: First) returns (test: int)
      requires Valid()
      modifies this, code
      ensures Valid() && (code == old(code) || fresh(code))
      ensures test == (if f.empty then NOINST else old(ncode)) && test < ncode
      ensures Code() == old(Code()) + OpenTest(f) && TestAt(Code(), test) == TestOf(f)
    {
      OpenTestIs(Code(), f);
      if f.empty {
        return NOINST;
      }
      match CharsetType(f.cs) {
        case EmptySet => test := Add(IJmp(0));
        case FullSet => test := Add(ITestAny(0));
        case OneChar(c) => test := Add(ITestChar(c, 0));
        case Other => test := Add(ITestSet(f.cs, 0));
      }
    }

    /** Follows jumps to the end: 'finaltarget'. */
    method FindTarget(i: nat, ghost lo: nat, ghost hi: nat) returns (ft: nat)
      requires Valid() && lo <= i < hi <= ncode && JumpsWithin(Code(), lo, hi) && Ends(Code(), i)
      ensures ft == FinalTarget(Code(), i) && lo <= ft < hi
    {
      ft := i;
      ghost var all := Code();
      ghost var n: nat :| EndsIn(all, i, n);
      FinalIs(all, i, n);
      while code[ft].I? && code[ft].instr.IJmp?
        invariant lo <= ft < hi && Chase(all, ft, n) == FinalTarget(all, i)
        invariant EndsIn(all, ft, n)
        decreases n
      {
        assert IsJmpAt(all, ft);
        ft := ft + code[ft].instr.off;
        n := n - 1;
      }
      assert !IsJmpAt(all, ft);
    }

    /** Moves the label of the instruction at 'i' to its final destination. */
    method ChaseLabel(i: nat)
      requires Valid() && InstrAt(Code(), i) && HasLabel(Code()[i].instr)
      requires ChainsEnd(Code()) && LabelsIn(Code(), 0, ncode - 1)
      modifies code
      ensures Code() == Relabel(old(Code()), i)
    {
      assert Code()[i] == code[i];
      LabelsJump(Code());
      assert Ends(Code(), i + code[i].instr.off);
      var ft := FindTarget(i + code[i].instr.off, 0, ncode);
      JumpToThere(i, ft);
    }

    /** One instruction of the peephole pass. */
    method PeepOne(i: nat)
      requires Valid() && InstrAt(Code(), i) && ChainsEnd(Code()) && LabelsIn(Code(), 0, ncode - 1)
      requires Code()[i].instr.IJmp? ==> i + 1 < ncode
      modifies code
      ensures Code() == PeepAt(old(Code()), i)
    {
      hide ChainsEnd, LabelsIn, FinalTarget, Relabel;
      ghost var was := Code();
      assert was[i] == code[i];
      if code[i].instr.IJmp? {
        LabelsJump(was);
        CommitKeeps(was, i);
        EndsAt(was, i);
        var ft := FindTarget(i, 0, ncode);
        assert was[ft] == code[ft];
        if code[ft].I? && JumpsAway(code[ft].instr) {
          code[i] := code[ft];
          code[i + 1] := I(IAny);
          assert Code() == was[i := was[ft]][i + 1 := I(IAny)];
        } else if code[ft].I? && PegPeephole.Commits(code[ft].instr) {
          TargetIn(was, ft);
          var fft := FindTarget(ft + code[ft].instr.off, 0, ncode);
          code[i] := code[ft];
          assert Code() == was[i := was[ft]];
          JumpToThere(i, fft);
          assert Code() == was[i := I(WithOff(was[ft].instr, fft - i))];
          ChaseLabel(i);
        } else {
          JumpToThere(i, ft);
        }
      } else if HasLabel(code[i].instr) {
        ChaseLabel(i);
      }
    }

    /** The pass over the whole code: 'peephole'. */
    method Shorten()
      requires Valid() && Peeping(Code(), 0, Peephole(Code(), 0))
      modifies code
      ensures Code() == Peephole(old(Code()), 0)
    {
      hide Peephole, PeepAt, Tidy, ChainsEnd, LabelsIn;
      ghost var done := Peephole(Code(), 0);
      var i := 0;
      while i < ncode
        invariant i <= ncode && Peeping(Code(), i, done)
        decreases ncode - i
      {
        PeepingStep(Code(), i, done);
        PeepOne(i);
        assert Code()[i] == code[i];
        i := i + SizeI(code[i].instr);
      }
      assert Code()[i - 1] == code[i - 1] == I(IEnd);
      PeepholeDone(Code(), i);
    }

    /** Closes the open call at 'i': a call of 'rule', or a jump to it in front of a return. */
    method CloseCall(i: nat, rule: int, ghost from: nat)
      requires Valid() && from <= i && i + 2 < ncode && IsOpenCall(Code()[i])
      requires JumpsWithin(Code(), from, ncode) && Ends(Code(), i + 2)
      modifies code
      ensures Code() == CallDone(old(Code()), i, rule - i, FinalTarget(old(Code()), i + 2))
    {
      ghost var was := Code();
      var ft := FindTarget(i + 2, from, ncode);
      assert was[ft] == code[ft];
      if code[ft].I? && code[ft].instr.IRet? {
        code[i] := I(IJmp(0));
      } else {
        code[i] := I(ICall(0));
      }
      JumpToThere(i, rule);
    }

    /**
     * Turns open calls into calls, or into jumps in front of a return: 'correctcalls'. The calls go to
     * 'positions', which are 'ps' seen from 'from'; 'final' is the code the generator will end with.
     */
    method CloseCalls(positions: seq<int>, from: nat, to: nat, ghost ps: seq<int>, ghost done: seq<Slot>,
                      ghost final: seq<Slot>)
      requires Valid() && from <= to == ncode
      requires |positions| == |ps| && forall r | 0 <= r < |ps| :: positions[r] == from + ps[r]
      requires Closing(Code()[from..], ps, 0, done) && Lies(final, done, from) && ChainsEnd(final)
      modifies code
      ensures Code() == old(Code())[..from] + done
    {
      hide Closing, ChainsEnd, FinalTarget, JumpsWithin, Lies, CallDone, Looked, CorrectCalls, Ends;
      var i := from;
      while i < to
        invariant from <= i <= to
        invariant Code()[..from] == old(Code())[..from]
        invariant Closing(Code()[from..], ps, i - from, done)
      {
        ghost var was := Code();
        ghost var k := i - from;
        ClosingStep(was[from..], ps, k, done);
        assert was[from..][k] == was[i] == code[i];
        if code[i].instr.IOpenCall? {
          var rule := positions[code[i].instr.key];
          StartsHere(was, from, ps, k, done, code[i].instr.key);
          assert rule == from || code[rule - 1] == I(IRet);
          ClosingTarget(was, from, ps, k, done, final);
          CloseCall(i, rule, from);
        } else {
          LookedPast(was[from..], ps, k);
        }
        assert Code()[from..][k] == code[i];
        i := i + SizeI(code[i].instr);
      }
      ClosingDone(Code()[from..], ps, done);
      assert Code() == Code()[..from] + Code()[from..];
    }

    /** The code of a tree: 'codegen'. */
    method GenTree(c: Ctx, t: Tree, opt: bool, tt: int, fl: Charset, ghost e: Env)
      requires Valid() && tt < ncode && CanCode(e, c, t, opt, TestAt(Code(), tt), fl, ncode)
      modifies this, code
      ensures Valid() && (code == old(code) || fresh(code))
      ensures Code() == old(Code()) + Gen(c, t, opt, TestAt(old(Code()), tt), fl)
      decreases t, 1
    {
      hide At, ChainsEnd, CodeChar, CodeCharset, TestAt, GrammarBody, Emit;
      ghost var test := TestAt(Code(), tt);
      match t {
        case TChar(ch) => GenChar(ch, tt);
        case TAny => var _ := Add(IAny);
        case TSet(cs) => GenCharset(cs, tt);
        case TTrue =>
        case TFalse => var _ := Add(IFail);
        case TChoice(_, _) => GenChoice(c, t, opt, tt, fl, e);
        case TRep(_) => GenRep(c, t, opt, tt, fl, e);
        case TBehind(_, _) => GenBehind(c, t, opt, tt, fl, e);
        case TNot(_) => GenNot(c, t, opt, tt, fl, e);
        case TAnd(_) => GenAnd(c, t, opt, tt, fl, e);
        case TCapture(_) => GenCapture(c, t, opt, tt, fl, e);
        case TGrammar(_) => GenGrammar(c, t, opt, tt, fl, e);
        case TCall(_, rule) => var _ := Add(IOpenCall(rule));
        case TSeq(_, _) => GenSeq(c, t, opt, tt, fl, e);
      }
    }

    /** The code of a sequence: 'codeseq1' and the second part behind it. */
    method GenSeq(c: Ctx, t: Tree, opt: bool, tt: int, fl: Charset, ghost e: Env)
      requires t.TSeq? && Valid() && tt < ncode && CanCode(e, c, t, opt, TestAt(Code(), tt), fl, ncode)
      modifies this, code
      ensures Valid() && (code == old(code) || fresh(code))
      ensures Code() == old(Code()) + Gen(c, t, opt, TestAt(old(Code()), tt), fl)
      decreases t, 0
    {
      hide Gen, At, ChainsEnd, WellFormed, TestAt;
      ghost var pre := Code();
      ghost var test := TestAt(pre, tt);
      UnfoldSeq(c, t, opt, test, fl, [], 0, 0);
      ghost var x1 := Gen(c, t.p1, false, test, SeqFollow(c, t.p1, t.p2, fl));
      ghost var x2 := Gen(c, t.p2, opt, SeqTest(c, t.p1, test), fl);
      AtSplit(e, ncode, x1, x2);
      if NeedFollow(t.p1) {
        GenTree(c, t.p1, false, tt, FirstOf(c, t.p2, fl).cs, e);
      } else {
        GenTree(c, t.p1, false, tt, FULL, e);
      }
      var tt2 := if FixedLen(c.g, t.p1, c.live) != 0 then NOINST else tt;
      TestAtPrefix(pre, x1, tt);
      GenTree(c, t.p2, opt, tt2, fl, e);
      Join3(pre, x1, x2);
    }

    /** 'codebehind' */
    method GenBehind(c: Ctx, t: Tree, opt: bool, tt: int, fl: Charset, ghost e: Env)
      requires t.TBehind? && Valid() && tt < ncode && CanCode(e, c, t, opt, TestAt(Code(), tt), fl, ncode)
      modifies this, code
      ensures Valid() && (code == old(code) || fresh(code))
      ensures Code() == old(Code()) + Gen(c, t, opt, TestAt(old(Code()), tt), fl)
      decreases t, 0
    {
      hide Gen, At, ChainsEnd, WellFormed, TestAt, FirstOf, TestDecides, TestLeaves, FixedLen, HasCaptures, HeadFail,
           NeedFollow;
      hide Emit, CodeTest, OpenTest, TestSize, TestOf, NotCode, AndCode, ChoiceByTestCode, ChoiceReusedCode,
           ChoiceStackedCode, RepByTestCode, RepStackedCode;
      ghost var pre := Code();
      UnfoldBehind(c, t, opt, TestAt(pre, tt), fl, [], 0, 0);
      ghost var x := Gen(c, t.p, false, NoTest, FULL);
      AtSplit(e, ncode, BehindIf(t.n), x);
      if t.n > 0 {
        var _ := Add(IBehind(t.n));
      }
      TestAtNone(Code());
      GenTree(c, t.p, false, NOINST, FULL, e);
      Join3(pre, BehindIf(t.n), x);
    }

    /** A choice, the code of a tree and an instruction that ends the choice; the choice leads behind that. */
    method GenProtected(c: Ctx, p: Tree, opt: bool, tt: int, last: Instr, ghost e: Env) returns (at: nat)
      requires Valid() && tt < ncode && CanCode(e, c, p, opt, TestAt(Code(), tt), FULL, ncode + 2)
      modifies this, code
      ensures Valid() && (code == old(code) || fresh(code))
      ensures Code() == old(Code()) + Protected(Gen(c, p, opt, TestAt(old(Code()), tt), FULL), last)
      ensures at + SizeI(last) == ncode
      decreases p, 2
    {
      hide Gen, At, ChainsEnd, WellFormed, TestAt, FirstOf, TestDecides, TestLeaves, FixedLen, HasCaptures, HeadFail,
           NeedFollow;
      hide Emit, CodeTest, OpenTest, TestSize, TestOf, NotCode, AndCode, ChoiceByTestCode, ChoiceReusedCode,
           ChoiceStackedCode, RepByTestCode, RepStackedCode;
      ghost var pre := Code();
      ghost var x := Gen(c, p, opt, TestAt(pre, tt), FULL);
      var choice := Add(IChoice(0));
      TestAtPrefix(pre, Emit(IChoice(0)), tt);
      GenTree(c, p, opt, tt, FULL, e);
      at := Add(last);
      Join3(pre + Emit(IChoice(0)), x, Emit(last));
      JumpToHere(choice, pre, IChoice(0), x + Emit(last));
      StackedOpen(pre, Emit(IChoice(2 + |x| + SizeI(last))), x, Emit(last));
      Join4(pre, Emit(IChoice(2 + |x| + SizeI(last))), x, Emit(last));
    }

    /** 'codenot' */
    method GenNot(c: Ctx, t: Tree, opt: bool, tt: int, fl: Charset, ghost e: Env)
      requires t.TNot? && Valid() && tt < ncode && CanCode(e, c, t, opt, TestAt(Code(), tt), fl, ncode)
      modifies this, code
      ensures Valid() && (code == old(code) || fresh(code))
      ensures Code() == old(Code()) + Gen(c, t, opt, TestAt(old(Code()), tt), fl)
      decreases t, 0
    {
      hide Gen, At, ChainsEnd, WellFormed, TestAt, FirstOf, TestDecides, TestLeaves, FixedLen, HasCaptures, HeadFail,
           NeedFollow;
      hide Emit, Protected, CodeTest, OpenTest, TestSize, TestOf, NotCode, AndCode, ChoiceByTestCode,
           ChoiceReusedCode, ChoiceStackedCode, RepByTestCode, RepStackedCode;
      ghost var pre := Code();
      UnfoldNot(c, t, opt, TestAt(pre, tt), fl, [], 0, 0);
      ghost var x := Gen(c, t.p, false, NoTest, FULL);
      var f := FirstOf(c, t.p, FULL);
      NotLayout(e, ncode, f, HeadFail(c.g, t.p, c.k), x);
      var test := GenTestSet(f);
      if HeadFail(c.g, t.p, c.k) {
        var _ := Add(IFail);
        TestToHere(test, pre, f, Emit(IFail));
        NotShortJoin(pre, f, x);
      } else {
        TestAtNone(Code());
        var _ := GenProtected(c, t.p, false, NOINST, IFailTwice, e);
        TestToHere(test, pre, f, Protected(x, IFailTwice));
        NotJoin(pre, f, x);
      }
    }

    /** 'codeand' */
    method GenAnd(c: Ctx, t: Tree, opt: bool, tt: int, fl: Charset, ghost e: Env)
      requires t.TAnd? && Valid() && tt < ncode && CanCode(e, c, t, opt, TestAt(Code(), tt), fl, ncode)
      modifies this, code
      ensures Valid() && (code == old(code) || fresh(code))
      ensures Code() == old(Code()) + Gen(c, t, opt, TestAt(old(Code()), tt), fl)
      decreases t, 0
    {
      hide Gen, At, ChainsEnd, WellFormed, TestAt, FirstOf, TestDecides, TestLeaves, FixedLen, HasCaptures, HeadFail,
           NeedFollow;
      hide Emit, CodeTest, OpenTest, TestSize, TestOf, NotCode, AndCode, ChoiceByTestCode, ChoiceReusedCode,
           ChoiceStackedCode, RepByTestCode, RepStackedCode;
      ghost var pre := Code();
      ghost var test := TestAt(pre, tt);
      UnfoldAnd(c, t, opt, test, fl, [], 0, 0);
      ghost var x := Gen(c, t.p, false, test, FULL);
      var n := FixedLen(c.g, t.p, c.live);
      if 0 <= n <= MAXBEHIND && !HasCaptures(c.g, t.p, c.live) {
        AtSplit(e, ncode, x, BehindIf(n));
        GenTree(c, t.p, false, tt, FULL, e);
        if n > 0 {
          var _ := Add(IBehind(n));
        }
        Join3(pre, x, BehindIf(n));
      } else {
        AndLayout(e, ncode, x);
        GenAndFull(c, t.p, tt, e);
      }
    }

    /** An and-predicate that saves its start. */
    method GenAndFull(c: Ctx, p: Tree, tt: int, ghost e: Env)
      requires Valid() && tt < ncode && CanCode(e, c, p, false, TestAt(Code(), tt), FULL, ncode + 2)
      modifies this, code
      ensures Valid() && (code == old(code) || fresh(code))
      ensures Code() == old(Code()) + AndCode(Gen(c, p, false, TestAt(old(Code()), tt), FULL))
      decreases p, 3
    {
      hide Gen, At, ChainsEnd, WellFormed, TestAt, FirstOf, TestDecides, TestLeaves, FixedLen, HasCaptures, HeadFail,
           NeedFollow;
      hide Emit, CodeTest, OpenTest, TestSize, TestOf, NotCode, AndCode, ChoiceByTestCode, ChoiceReusedCode,
           ChoiceStackedCode, RepByTestCode, RepStackedCode;
      ghost var pre := Code();
      ghost var x := Gen(c, p, false, TestAt(pre, tt), FULL);
      var commit := GenProtected(c, p, false, tt, IBackCommit(0), e);
      Join4(pre, Emit(IChoice(2 + |x| + 2)), x, Emit(IBackCommit(0)));
      var _ := Add(IFail);
      JumpToHere(commit, pre + Emit(IChoice(2 + |x| + 2)) + x, IBackCommit(0), Emit(IFail));
      AndJoin(pre, x);
    }

    /** 'codecapture' */
    method GenCapture(c: Ctx, t: Tree, opt: bool, tt: int, fl: Charset, ghost e: Env)
      requires t.TCapture? && Valid() && tt < ncode && CanCode(e, c, t, opt, TestAt(Code(), tt), fl, ncode)
      modifies this, code
      ensures Valid() && (code == old(code) || fresh(code))
      ensures Code() == old(Code()) + Gen(c, t, opt, TestAt(old(Code()), tt), fl)
      decreases t, 0
    {
      hide Gen, At, ChainsEnd, WellFormed, TestAt, FixedLen, HasCaptures, Emit;
      ghost var pre := Code();
      ghost var test := TestAt(pre, tt);
      UnfoldCapture(c, t, opt, test, fl, [], 0, 0);
      ghost var x := Gen(c, t.p, false, test, fl);
      var len := FixedLen(c.g, t.p, c.live);
      CaptureLayout(e, ncode, ShortCapture(c, t.p), len, x);
      if 0 <= len <= MAXOFF && !HasCaptures(c.g, t.p, c.live) {
        GenTree(c, t.p, false, tt, fl, e);
        var _ := Add(IFullCapture(len));
        Join3(pre, x, Emit(IFullCapture(len)));
      } else {
        var _ := Add(IOpenCapture);
        TestAtPrefix(pre, Emit(IOpenCapture), tt);
        GenTree(c, t.p, false, tt, fl, e);
        var _ := Add(ICloseCapture);
        Join4(pre, Emit(IOpenCapture), x, Emit(ICloseCapture));
      }
    }

    /** 'codechoice' */
    method GenChoice(c: Ctx, t: Tree, opt: bool, tt: int, fl: Charset, ghost e: Env)
      requires t.TChoice? && Valid() && tt < ncode && CanCode(e, c, t, opt, TestAt(Code(), tt), fl, ncode)
      modifies this, code
      ensures Valid() && (code == old(code) || fresh(code))
      ensures Code() == old(Code()) + Gen(c, t, opt, TestAt(old(Code()), tt), fl)
      decreases t, 0
    {
      hide Gen, At, ChainsEnd, TestAt, FirstOf, TestDecides;
      var f := FirstOf(c, t.p1, FULL);
      if TestDecides(c, t.p1, t.p2, fl) {
        GenChoiceByTest(c, t, opt, tt, fl, e);
      } else if opt && t.p2.TTrue? {
        GenChoiceReused(c, t, opt, tt, fl, e);
      } else {
        GenChoiceStacked(c, t, opt, tt, fl, e);
      }
    }

    /** The first half of a choice that a test decides; returns the jump over the second half. */
    method GenFirstByTest(c: Ctx, p1: Tree, emptyp2: bool, f: First, fl: Charset, ghost e: Env) returns (jmp: int)
      requires Valid() && CanCode(e, c, p1, false, TestOf(f), fl, ncode + TestSize(f))
      modifies this, code
      ensures Valid() && (code == old(code) || fresh(code))
      ensures var x1 := Gen(c, p1, false, TestOf(f), fl);
              var open := if emptyp2 then [] else Emit(IJmp(0));
              && Code() == old(Code()) + CodeTest(f, |x1| + |open|) + x1 + open
              && jmp == if emptyp2 then NOINST else ncode - 2
      decreases p1, 2
    {
      hide Gen, At, ChainsEnd, WellFormed, TestAt, FirstOf, TestDecides, TestLeaves, FixedLen, HasCaptures, HeadFail,
           NeedFollow;
      hide Emit, CodeTest, OpenTest, TestSize, TestOf, NotCode, AndCode, ChoiceByTestCode, ChoiceReusedCode,
           ChoiceStackedCode, RepByTestCode, RepStackedCode;
      ghost var pre, x1 := Code(), Gen(c, p1, false, TestOf(f), fl);
      ghost var open := if emptyp2 then [] else Emit(IJmp(0));
      var test := GenTestSet(f);
      GenTree(c, p1, false, test, fl, e);
      jmp := NOINST;
      if emptyp2 {
        EmptyTail(Code());
      } else {
        jmp := Add(IJmp(0));
      }
      Join3(pre + OpenTest(f), x1, open);
      TestToHere(test, pre, f, x1 + open);
      Join3(pre + CodeTest(f, |x1 + open|), x1, open);
    }

    /** A choice that a test decides. */
    method GenChoiceByTest(c: Ctx, t: Tree, opt: bool, tt: int, fl: Charset, ghost e: Env)
      requires t.TChoice? && Valid() && tt < ncode && CanCode(e, c, t, opt, TestAt(Code(), tt), fl, ncode)
      requires TestDecides(c, t.p1, t.p2, fl)
      modifies this, code
      ensures Valid() && (code == old(code) || fresh(code))
      ensures Code() == old(Code()) + Gen(c, t, opt, TestAt(old(Code()), tt), fl)
      decreases t, 0, 0
    {
      hide Gen, At, ChainsEnd, WellFormed, TestAt, FirstOf, TestDecides, TestLeaves, FixedLen, HasCaptures, HeadFail,
           NeedFollow;
      hide Emit, CodeTest, OpenTest, TestSize, TestOf, NotCode, AndCode, ChoiceByTestCode, ChoiceReusedCode,
           ChoiceStackedCode, RepByTestCode, RepStackedCode;
      ghost var pre := Code();
      UnfoldChoice(c, t, opt, TestAt(pre, tt), fl, [], 0, 0);
      var f := First(false, FirstOf(c, t.p1, FULL).cs);
      ghost var x1 := Gen(c, t.p1, false, TestOf(f), fl);
      ghost var x2 := Gen(c, t.p2, opt, NoTest, fl);
      ChoiceByTestLayout(e, ncode, f, x1, x2, t.p2.TTrue?);
      var jmp := GenFirstByTest(c, t.p1, t.p2.TTrue?, f, fl, e);
      TestAtNone(Code());
      GenTree(c, t.p2, opt, NOINST, fl, e);
      if jmp >= 0 {
        JumpToHere(jmp, pre + CodeTest(f, |x1| + 2) + x1, IJmp(0), x2);
      } else {
        EmptyTail(pre + CodeTest(f, |x1|) + x1);
      }
      ByTestJoin(pre, f, x1, x2, t.p2.TTrue?);
    }

    /** An optional pattern that takes over the choice on the stack. */
    method GenChoiceReused(c: Ctx, t: Tree, opt: bool, tt: int, fl: Charset, ghost e: Env)
      requires t.TChoice? && Valid() && tt < ncode && CanCode(e, c, t, opt, TestAt(Code(), tt), fl, ncode)
      requires opt && t.p2.TTrue? && !TestDecides(c, t.p1, t.p2, fl)
      modifies this, code
      ensures Valid() && (code == old(code) || fresh(code))
      ensures Code() == old(Code()) + Gen(c, t, opt, TestAt(old(Code()), tt), fl)
      decreases t, 0, 0
    {
      hide Gen, At, ChainsEnd, WellFormed, TestAt, FirstOf, TestDecides, TestLeaves, FixedLen, HasCaptures, HeadFail,
           NeedFollow;
      hide Emit, CodeTest, OpenTest, TestSize, TestOf, NotCode, AndCode, ChoiceByTestCode, ChoiceReusedCode,
           ChoiceStackedCode, RepByTestCode, RepStackedCode;
      ghost var pre := Code();
      UnfoldChoice(c, t, opt, TestAt(pre, tt), fl, [], 0, 0);
      ghost var x1 := Gen(c, t.p1, true, NoTest, FULL);
      ChoiceReusedLayout(e, ncode, x1);
      var commit := Add(IPartialCommit(0));
      EmptyTail(pre + Emit(IPartialCommit(0)));
      JumpToHere(commit, pre, IPartialCommit(0), []);
      EmptyTail(pre + Emit(IPartialCommit(2)));
      TestAtNone(Code());
      GenTree(c, t.p1, true, NOINST, FULL, e);
      ReusedJoin(pre, x1);
    }

    /** The first half of a choice that saves its second alternative; returns the commit behind it. */
    method GenFirstStacked(c: Ctx, p1: Tree, emptyp2: bool, f: First, ghost e: Env) returns (commit: nat)
      requires Valid() && CanCode(e, c, p1, emptyp2, TestOf(f), FULL, ncode + TestSize(f) + 2)
      modifies this, code
      ensures Valid() && (code == old(code) || fresh(code))
      ensures var x1 := Gen(c, p1, emptyp2, TestOf(f), FULL);
              && Code() == old(Code()) + CodeTest(f, 2 + |x1| + 2) + Emit(IChoice(2 + |x1| + 2)) + x1 + Emit(ICommit(0))
              && commit + 2 == ncode
      decreases p1, 3
    {
      hide Gen, At, ChainsEnd, WellFormed, TestAt, FirstOf, TestDecides, TestLeaves, FixedLen, HasCaptures, HeadFail,
           NeedFollow;
      hide Emit, Protected, CodeTest, OpenTest, TestSize, TestOf, NotCode, AndCode, ChoiceByTestCode,
           ChoiceReusedCode, ChoiceStackedCode, RepByTestCode, RepStackedCode;
      ghost var pre, x1 := Code(), Gen(c, p1, emptyp2, TestOf(f), FULL);
      var test := GenTestSet(f);
      commit := GenProtected(c, p1, emptyp2, test, ICommit(0), e);
      TestToHere(test, pre, f, Protected(x1, ICommit(0)));
      StackedFirst(pre + CodeTest(f, 2 + |x1| + 2), x1, ICommit(0));
    }

    /** A choice that saves its second alternative. */
    method GenChoiceStacked(c: Ctx, t: Tree, opt: bool, tt: int, fl: Charset, ghost e: Env)
      requires t.TChoice? && Valid() && tt < ncode && CanCode(e, c, t, opt, TestAt(Code(), tt), fl, ncode)
      requires !(opt && t.p2.TTrue?) && !TestDecides(c, t.p1, t.p2, fl)
      modifies this, code
      ensures Valid() && (code == old(code) || fresh(code))
      ensures Code() == old(Code()) + Gen(c, t, opt, TestAt(old(Code()), tt), fl)
      decreases t, 0, 0
    {
      hide Gen, At, ChainsEnd, WellFormed, TestAt, FirstOf, TestDecides, TestLeaves, FixedLen, HasCaptures, HeadFail,
           NeedFollow;
      hide Emit, CodeTest, OpenTest, TestSize, TestOf, NotCode, AndCode, ChoiceByTestCode, ChoiceReusedCode,
           ChoiceStackedCode, RepByTestCode, RepStackedCode;
      ghost var pre := Code();
      UnfoldChoice(c, t, opt, TestAt(pre, tt), fl, [], 0, 0);
      var f := FirstOf(c, t.p1, FULL);
      ghost var x1 := Gen(c, t.p1, t.p2.TTrue?, TestOf(f), FULL);
      ghost var x2 := Gen(c, t.p2, opt, NoTest, fl);
      ChoiceStackedLayout(e, ncode, f, x1, x2);
      var commit := GenFirstStacked(c, t.p1, t.p2.TTrue?, f, e);
      TestAtNone(Code());
      GenTree(c, t.p2, opt, NOINST, fl, e);
      JumpToHere(commit, pre + CodeTest(f, 2 + |x1| + 2) + Emit(IChoice(2 + |x1| + 2)) + x1, ICommit(0), x2);
      StackedJoin(pre, f, x1, x2);
    }

    /** 'coderep' */
    method GenRep(c: Ctx, t: Tree, opt: bool, tt: int, fl: Charset, ghost e: Env)
      requires t.TRep? && Valid() && tt < ncode && CanCode(e, c, t, opt, TestAt(Code(), tt), fl, ncode)
      modifies this, code
      ensures Valid() && (code == old(code) || fresh(code))
      ensures Code() == old(Code()) + Gen(c, t, opt, TestAt(old(Code()), tt), fl)
      decreases t, 0
    {
      hide Gen, At, ChainsEnd, WellFormed, TestAt, FirstOf, TestLeaves, Emit;
      UnfoldRep(c, t, opt, TestAt(Code(), tt), fl, [], 0, 0);
      if IsCharPattern(t.p) {
        var _ := Add(ISpan(ToCharset(t.p)));
      } else if TestLeaves(c, t.p, fl) {
        GenRepByTest(c, t, opt, tt, fl, e);
      } else {
        GenRepStacked(c, t, opt, tt, fl, e);
      }
    }

    /** A loop that its test leaves. */
    method GenRepByTest(c: Ctx, t: Tree, opt: bool, tt: int, fl: Charset, ghost e: Env)
      requires t.TRep? && Valid() && tt < ncode && CanCode(e, c, t, opt, TestAt(Code(), tt), fl, ncode)
      requires !IsCharPattern(t.p) && TestLeaves(c, t.p, fl)
      modifies this, code
      ensures Valid() && (code == old(code) || fresh(code))
      ensures Code() == old(Code()) + Gen(c, t, opt, TestAt(old(Code()), tt), fl)
      decreases t, 0, 0
    {
      hide Gen, At, ChainsEnd, WellFormed, TestAt, FirstOf, TestDecides, TestLeaves, FixedLen, HasCaptures, HeadFail,
           NeedFollow;
      hide Emit, CodeTest, OpenTest, TestSize, TestOf, NotCode, AndCode, ChoiceByTestCode, ChoiceReusedCode,
           ChoiceStackedCode, RepByTestCode, RepStackedCode;
      ghost var pre := Code();
      UnfoldRep(c, t, opt, TestAt(pre, tt), fl, [], 0, 0);
      var f := First(false, FirstOf(c, t.p, FULL).cs);
      ghost var x := Gen(c, t.p, false, TestOf(f), FULL);
      RepByTestLayout(e, ncode, f, x);
      var test := GenTestSet(f);
      GenTree(c, t.p, false, test, FULL, e);
      var jmp := Add(IJmp(0));
      Join3(pre + OpenTest(f), x, Emit(IJmp(0)));
      TestToHere(test, pre, f, x + Emit(IJmp(0)));
      Join3(pre + CodeTest(f, |x| + 2), x, Emit(IJmp(0)));
      JumpBack(jmp, test, pre + CodeTest(f, |x| + 2) + x, IJmp(0));
      ByTestLoopJoin(pre, f, x);
    }

    /** A loop that saves where it goes on. */
    method GenRepStacked(c: Ctx, t: Tree, opt: bool, tt: int, fl: Charset, ghost e: Env)
      requires t.TRep? && Valid() && tt < ncode && CanCode(e, c, t, opt, TestAt(Code(), tt), fl, ncode)
      requires !IsCharPattern(t.p) && !TestLeaves(c, t.p, fl)
      modifies this, code
      ensures Valid() && (code == old(code) || fresh(code))
      ensures Code() == old(Code()) + Gen(c, t, opt, TestAt(old(Code()), tt), fl)
      decreases t, 0, 0
    {
      hide Gen, At, ChainsEnd, WellFormed, TestAt, FirstOf, TestDecides, TestLeaves, FixedLen, HasCaptures, HeadFail,
           NeedFollow;
      hide Emit, CodeTest, OpenTest, TestSize, TestOf, NotCode, AndCode, ChoiceByTestCode, ChoiceReusedCode,
           ChoiceStackedCode, RepByTestCode, RepStackedCode;
      ghost var pre := Code();
      UnfoldRep(c, t, opt, TestAt(pre, tt), fl, [], 0, 0);
      var f := FirstOf(c, t.p, FULL);
      ghost var x := Gen(c, t.p, false, NoTest, FULL);
      RepStackedLayout(e, ncode, f, x, opt);
      var test := GenTestSet(f);
      ghost var pre1 := Code();
      GenLoop(c, t.p, opt, e);
      ghost var mid := Emit(RepEntry(x, opt)) + (x + Emit(IPartialCommit(-|x|)));
      Join3(pre1, Emit(RepEntry(x, opt)), x + Emit(IPartialCommit(-|x|)));
      TestToHere(test, pre, f, mid);
      RepJoin(pre, f, x, opt);
    }

    /** The loop of a repetition, entered by a choice or by taking over the one on the stack. */
    method GenLoop(c: Ctx, p: Tree, opt: bool, ghost e: Env)
      requires Valid() && CanCode(e, c, p, false, NoTest, FULL, ncode + 2)
      modifies this, code
      ensures Valid() && (code == old(code) || fresh(code))
      ensures var x := Gen(c, p, false, NoTest, FULL);
              Code() == old(Code()) + Emit(RepEntry(x, opt)) + (x + Emit(IPartialCommit(-|x|)))
      decreases p, 2
    {
      hide Gen, At, ChainsEnd, WellFormed, TestAt, FirstOf, TestDecides, TestLeaves, FixedLen, HasCaptures, HeadFail,
           NeedFollow;
      hide Emit, CodeTest, OpenTest, TestSize, TestOf, NotCode, AndCode, ChoiceByTestCode, ChoiceReusedCode,
           ChoiceStackedCode, RepByTestCode, RepStackedCode;
      ghost var pre, x := Code(), Gen(c, p, false, NoTest, FULL);
      var choice := if opt then NOINST else ncode;
      GenLoopEntry(opt);
      var l2 := ncode;
      TestAtNone(Code());
      GenTree(c, p, false, NOINST, FULL, e);
      ghost var entry := if opt then IPartialCommit(2) else IChoice(0);
      var commit := Add(IPartialCommit(0));
      JumpBack(commit, l2, pre + Emit(entry) + x, IPartialCommit(0));
      Join3(pre + Emit(entry), x, Emit(IPartialCommit(-|x|)));
      if choice >= 0 {
        JumpToHere(choice, pre, IChoice(0), x + Emit(IPartialCommit(-|x|)));
      }
    }

    method GenLoopEntry(opt: bool)
      requires Valid()
      modifies this, code
      ensures Valid() && (code == old(code) || fresh(code))
      ensures Code() == old(Code()) + Emit(if opt then IPartialCommit(2) else IChoice(0))
    {
      hide Emit;
      ghost var pre := Code();
      if opt {
        var commit := Add(IPartialCommit(0));
        EmptyTail(pre + Emit(IPartialCommit(0)));
        JumpToHere(commit, pre, IPartialCommit(0), []);
        EmptyTail(pre + Emit(IPartialCommit(2)));
      } else {
        var _ := Add(IChoice(0));
      }
    }

    /** Sets the label of the last instruction to an earlier place. */
    method JumpBack(at: nat, target: nat, ghost pre: seq<Slot>, ghost instr: Instr)
      requires Valid() && HasLabel(instr) && at == |pre| && target <= at && Code() == pre + Emit(instr)
      modifies code
      ensures Code() == pre + Emit(WithOff(instr, target - at))
    {
      assert code[..ncode][at] == I(instr);
      JumpToThere(at, target);
      PatchOne(pre, instr, [], target - at);
      EmptyTail(pre + Emit(instr));
      EmptyTail(pre + Emit(WithOff(instr, target - at)));
    }

    /** The rules of a grammar, each with a return behind it; returns where they start. */
    method GenAllRules(c: Ctx, rules: seq<Tree>, ghost e: Env) returns (positions: seq<int>)
      requires Valid() && c.g == rules && RulesAt(e, c) && ChainsEnd(e.code)
      requires e.pos == Shifted(RulePositions(c, rules), ncode)
      modifies this, code
      ensures Valid() && (code == old(code) || fresh(code))
      ensures Code() == old(Code()) + GenRules(c, rules, |rules|)
      ensures positions == e.pos
      decreases rules
    {
      hide Gen, At, ChainsEnd, WellFormed, TestAt, GenRules, Emit, RulesAt, CanCode;
      ghost var pre := Code();
      positions := [];
      EmptyTail(pre);
      NoRules(c, rules);
      for r := 0 to |rules|
        invariant Valid() && (code == old(code) || fresh(code))
        invariant |positions| == r && forall q | 0 <= q < r :: positions[q] == e.pos[q]
        invariant Code() == pre + GenRules(c, rules, r)
      {
        positions := positions + [ncode];
        TestAtNone(Code());
        RuleReady(e, c, r, |pre|);
        GenTree(c, rules[r], false, NOINST, FULL, e);
        var _ := Add(IRet);
        NextRule(pre, c, rules, r);
      }
    }

    /** 'codegrammar' */
    method GenGrammar(c: Ctx, t: Tree, opt: bool, tt: int, fl: Charset, ghost e: Env)
      requires t.TGrammar? && Valid() && tt < ncode && CanCode(e, c, t, opt, TestAt(Code(), tt), fl, ncode)
      modifies this, code
      ensures Valid() && (code == old(code) || fresh(code))
      ensures Code() == old(Code()) + Gen(c, t, opt, TestAt(old(Code()), tt), fl)
      decreases t, 0
    {
      hide Gen, At, ChainsEnd, WellFormed, TestAt, GenRules, CorrectCalls, GrammarBody, Emit, RulesAt, Closing, Lies;
      hide RulePositions, GrammarCode;
      ghost var pre := Code();
      UnfoldGrammar(c, t, opt, TestAt(pre, tt), fl, [], 0, 0);
      var rules := t.rules;
      var c1 := c.(g := rules);
      ghost var body := GrammarBody(c, rules);
      ghost var ps := RulePositions(c1, rules);
      ghost var e1 := e.(pos := Shifted(ps, ncode + 4));
      GrammarReady(e, c, rules, ncode);
      var firstCall := Add(ICall(0));
      var jumpToEnd := Add(IJmp(0));
      var start := ncode;
      JumpToHere(firstCall, pre, ICall(0), Emit(IJmp(0)));
      ghost var pre1 := pre + Emit(ICall(4)) + Emit(IJmp(0));
      var positions := GenAllRules(c1, rules, e1);
      ghost var raw := GenRules(c1, rules, |rules|);
      JumpToHere(jumpToEnd, pre + Emit(ICall(4)), IJmp(0), raw);
      ghost var pre2 := pre + Emit(ICall(4)) + Emit(IJmp(2 + |body|));
      assert Code()[start..] == raw && Code()[..start] == pre2;
      CloseCalls(positions, start, ncode, ps, body, e.code);
      GrammarJoin(pre, body);
    }

    /** Compiles a pattern that the checks accept: 'compile'. */
    method CompileTree(c: Ctx, t: Tree, ghost k0: nat)
      requires Valid() && Code() == [] && Accepted(c, t, k0)
      modifies this, code
      ensures Valid() && (code == old(code) || fresh(code))
      ensures Code() == Compile(c, t)
    {
      hide Gen, At, ChainsEnd, WellFormed, Peephole, Peeping;
      ghost var e := Env(Generated(c, t), [], []);
      WholeReady(c, t, k0);
      TestAtNone(Code());
      GenTree(c, t, false, NOINST, FULL, e);
      var _ := Add(IEnd);
      assert Code() == Generated(c, t);
      ReallocCode(ncode);
      Shorten();
    }
  }

  /** The tree may be coded here: its code is part of a final code whose jump chains end. */
  ghost predicate CanCode(e: Env, c: Ctx, t: Tree, opt: bool, tt: Test, fl: Charset, a: int) {
    WellFormed(c, t) && At(e, a, Gen(c, t, opt, tt, fl)) && ChainsEnd(e.code)
  }

  lemma TestAtPrefix(pre: seq<Slot>, x: seq<Slot>, tt: int)
    requires tt < |pre|
    ensures TestAt(pre + x, tt) == TestAt(pre, tt) && TestAt(pre + x, NOINST) == NoTest
  {
  }

  lemma EmptyTail(x: seq<Slot>)
    ensures x + [] == x
  {
  }

  lemma ByTestJoin(pre: seq<Slot>, f: First, x1: seq<Slot>, x2: seq<Slot>, emptyp2: bool)
    ensures var jmp := JmpIf(!emptyp2, 2 + |x2|);
            pre + CodeTest(f, |x1| + |jmp|) + x1 + jmp + x2 == pre + ChoiceByTestCode(f, x1, x2, emptyp2)
  {
  }

  lemma ReusedJoin(pre: seq<Slot>, x: seq<Slot>)
    ensures pre + Emit(IPartialCommit(2)) + x == pre + ChoiceReusedCode(x)
  {
  }

  lemma ByTestLoopJoin(pre: seq<Slot>, f: First, x: seq<Slot>)
    ensures pre + CodeTest(f, |x| + 2) + x + Emit(IJmp(-(TestSize(f) + |x|))) == pre + RepByTestCode(f, x)
  {
    Join4(pre, CodeTest(f, |x| + 2), x, Emit(IJmp(-(TestSize(f) + |x|))));
  }

  lemma StackedOpen(pre: seq<Slot>, a: seq<Slot>, b: seq<Slot>, d: seq<Slot>)
    ensures pre + (a + (b + d)) == pre + a + b + d
  {
  }

  lemma StackedFirst(pre: seq<Slot>, x: seq<Slot>, last: Instr)
    ensures pre + Protected(x, last) == pre + Emit(IChoice(2 + |x| + SizeI(last))) + x + Emit(last)
  {
    Join4(pre, Emit(IChoice(2 + |x| + SizeI(last))), x, Emit(last));
  }

  lemma StackedJoin(pre: seq<Slot>, f: First, x1: seq<Slot>, x2: seq<Slot>)
    ensures pre + CodeTest(f, 2 + |x1| + 2) + Emit(IChoice(2 + |x1| + 2)) + x1 + Emit(ICommit(2 + |x2|)) + x2 ==
            pre + ChoiceStackedCode(f, x1, x2)
  {
  }

  lemma RepJoin(pre: seq<Slot>, f: First, x: seq<Slot>, opt: bool)
    ensures var mid := Emit(RepEntry(x, opt)) + (x + Emit(IPartialCommit(-|x|)));
            pre + CodeTest(f, |mid|) + mid == pre + RepStackedCode(f, x, opt)
  {
  }

  lemma NoRules(c: Ctx, rules: seq<Tree>)
    ensures GenRules(c, rules, 0) == []
  {
  }

  lemma NextRule(pre: seq<Slot>, c: Ctx, rules: seq<Tree>, r: nat)
    requires r < |rules| && c.g == rules
    ensures pre + GenRules(c, rules, r) + Gen(c, rules[r], false, NoTest, FULL) + Emit(IRet) ==
            pre + GenRules(c, rules, r + 1)
  {
    UnfoldRules(c, rules, r + 1);
    Join4(pre, GenRules(c, rules, r), RuleCode(c, r), Emit(IRet));
  }

  lemma RuleReady(e: Env, c: Ctx, r: nat, start: nat)
    requires r < |c.g| && RulesAt(e, c) && ChainsEnd(e.code) && e.pos == Shifted(RulePositions(c, c.g), start)
    ensures CanCode(e, c, c.g[r], false, NoTest, FULL, start + |GenRules(c, c.g, r)|)
  {
    hide Gen, At, WellFormed, ChainsEnd, GenRules;
    assert RuleAt(e, c, r);
  }

  /** What the code of a grammar at 'a' offers to its rules and to the closing of their calls. */
  lemma GrammarReady(e: Env, c: Ctx, rules: seq<Tree>, a: nat)
    requires |rules| > 0 && forall r | 0 <= r < |rules| :: WellFormed(c.(g := rules), rules[r])
    requires At(e, a, GrammarCode(GrammarBody(c, rules)))
    ensures var c1 := c.(g := rules);
            var ps := RulePositions(c1, rules);
            var raw := GenRules(c1, rules, |rules|);
            && RulesAt(e.(pos := Shifted(ps, a + 4)), c1)
            && |raw| == |GrammarBody(c, rules)|
            && Closing(raw, ps, 0, GrammarBody(c, rules)) && Lies(e.code, GrammarBody(c, rules), a + 4)
  {
    hide Gen, At, WellFormed, GenRules, CorrectCalls, Tidy;
    var c1 := c.(g := rules);
    var ps, body, raw := RulePositions(c1, rules), GrammarBody(c, rules), GenRules(c1, rules, |rules|);
    AtSplit(e, a, Emit(ICall(4)) + Emit(IJmp(2 + |body|)), body);
    InnerRules(e, c, rules, a + 4);
    GrammarCloses(c, rules);
    BodyLies(e, a + 4, c, rules);
  }

  lemma GrammarJoin(pre: seq<Slot>, body: seq<Slot>)
    ensures pre + Emit(ICall(4)) + Emit(IJmp(2 + |body|)) + body == pre + GrammarCode(body)
  {
    Join4(pre, Emit(ICall(4)), Emit(IJmp(2 + |body|)), body);
  }

  /** What the whole code of an accepted pattern offers to its generation and to the pass over it. */
  lemma WholeReady(c: Ctx, t: Tree, k0: nat)
    requires Accepted(c, t, k0)
    ensures CanCode(Env(Generated(c, t), [], []), c, t, false, NoTest, FULL, 0)
    ensures Peeping(Generated(c, t), 0, Peephole(Generated(c, t), 0))
  {
    hide Gen, WellFormed, Peephole, Tidy;
    var code, body := Generated(c, t), Gen(c, t, false, NoTest, FULL);
    GenSound(c, t, false, NoTest, FULL);
    SoundEmit(IEnd, 0);
    SoundConcat(body, Emit(IEnd), 0);
    assert code[0..] == code;
    forall k | 0 <= k < |body| ensures SlotAt(Env(code, [], []), 0 + k, body[k]) {
      assert !IsOpenCall(body[k]);
    }
    forall x ensures Ends(code, x) {
      GeneratedChainsEnd(c, t, k0, x);
    }
    GenInside(c, t, false, NoTest, FULL);
    assert code[|body|] == I(IEnd);
  }

  lemma GrammarCloses(c: Ctx, rules: seq<Tree>)
    requires |rules| > 0 && forall r | 0 <= r < |rules| :: WellFormed(c.(g := rules), rules[r])
    ensures var c1 := c.(g := rules);
            var raw := GenRules(c1, rules, |rules|);
            |raw| == |GrammarBody(c, rules)| && Closing(raw, RulePositions(c1, rules), 0, GrammarBody(c, rules))
  {
    hide Gen, WellFormed, GenRules, CorrectCalls, Tidy;
    var c1 := c.(g := rules);
    var ps, raw := RulePositions(c1, rules), GenRules(c1, rules, |rules|);
    RulesSound(c1, rules, |rules|);
    assert raw[0..] == raw;
    RulesInside(c1, rules, |rules|);
    forall r | 0 <= r < |ps| ensures 0 <= ps[r] < |raw| && StartsRule(raw, ps[r]) {
      RuleStartInside(c1, rules, r, |rules|);
      UnfoldRules(c1, rules, r);
      if r > 0 { RuleInside(c1, rules, r - 1, |rules|); }
    }
    UnfoldRules(c1, rules, |rules|);
  }

  lemma BodyLies(e: Env, a: nat, c: Ctx, rules: seq<Tree>)
    requires forall r | 0 <= r < |rules| :: WellFormed(c.(g := rules), rules[r])
    requires At(e, a, GrammarBody(c, rules)) && |GrammarBody(c, rules)| > 0
    ensures Lies(e.code, GrammarBody(c, rules), a)
  {
    hide Gen, WellFormed, GrammarBody, Tidy;
    var body := GrammarBody(c, rules);
    GrammarBodySound(c, rules, 0);
    forall k | 0 <= k < |body| ensures a + k < |e.code| && e.code[a + k] == body[k] {
      assert SlotAt(e, a + k, body[k]);
    }
    var last := |body| - 1;
    assert SlotAt(e, a + last, body[last]);
  }

  lemma TestAtNone(code: seq<Slot>)
    ensures TestAt(code, NOINST) == NoTest
  {
  }

  lemma NotShortJoin(pre: seq<Slot>, f: First, x: seq<Slot>)
    ensures |Emit(IFail)| == 1 && pre + CodeTest(f, 1) + Emit(IFail) == pre + NotCode(f, true, x)
  {
    Join3(pre, CodeTest(f, 1), Emit(IFail));
  }

  ghost function Protected(x: seq<Slot>, last: Instr): (r: seq<Slot>)
    ensures |r| == 2 + |x| + SizeI(last)
  {
    Emit(IChoice(2 + |x| + SizeI(last))) + x + Emit(last)
  }

  lemma NotJoin(pre: seq<Slot>, f: First, x: seq<Slot>)
    ensures var mid := Protected(x, IFailTwice);
            pre + CodeTest(f, |mid|) + mid == pre + NotCode(f, false, x)
  {
    Join4(CodeTest(f, 2 + |x| + 1), Emit(IChoice(2 + |x| + 1)), x, Emit(IFailTwice));
    Join3(pre, CodeTest(f, 2 + |x| + 1), Protected(x, IFailTwice));
  }

  lemma AndJoin(pre: seq<Slot>, x: seq<Slot>)
    ensures pre + Emit(IChoice(2 + |x| + 2)) + x + Emit(IBackCommit(3)) + Emit(IFail) == pre + AndCode(x)
  {
  }

  /** An open call at 'i' closed, 'ft' being where the code behind it leads. */
  ghost function CallDone(code: seq<Slot>, i: nat, off: int, ft: int): seq<Slot>
    requires i < |code|
  {
    code[i := I(if IsRetAt(code, ft) then IJmp(off) else ICall(off))]
  }

  lemma LookedPast(cur: seq<Slot>, ps: seq<int>, k: nat)
    requires k < |cur| && cur[k].I? && !cur[k].instr.IOpenCall?
    ensures Looked(cur, ps, k) == cur
  {
  }

  /** The place behind an open call leads to the same instruction in the whole code. */
  lemma ClosingTarget(code: seq<Slot>, from: nat, ps: seq<int>, k: nat, done: seq<Slot>, final: seq<Slot>)
    requires from <= |code| && Closing(code[from..], ps, k, done) && k + 2 < |code| - from
    requires Lies(final, done, from) && ChainsEnd(final) && IsOpenCall(code[from + k])
    requires code[from + k].instr.key < |ps|
    ensures JumpsWithin(code, from, |code|) && Ends(code, from + k + 2)
    ensures var next := CallDone(code, from + k, ps[code[from + k].instr.key] - k, FinalTarget(code, from + k + 2));
            next[from..] == Looked(code[from..], ps, k) && next[..from] == code[..from]
  {
    hide Closing, CorrectCalls, Tidy, FinalTarget, ChainsEnd, Ends, Lies, JumpsWithin, CallDone, Looked;
    var cur := code[from..];
    ClosingWithin(cur, ps, k, done);
    ClosingEnds(cur, ps, k, done, final, from, k + 2);
    TailLies(code, from);
    JumpsMoved(code, cur, from);
    FinalMoved(code, cur, from, k + 2);
    assert code[from + k] == cur[k];
    CallDoneIs(code, from, ps, k, FinalTarget(cur, k + 2));
  }

  lemma StartsHere(code: seq<Slot>, from: nat, ps: seq<int>, k: nat, done: seq<Slot>, r: nat)
    requires from <= |code| && Closing(code[from..], ps, k, done) && r < |ps|
    ensures from + ps[r] == from || (0 < from + ps[r] <= |code| && code[from + ps[r] - 1] == I(IRet))
  {
    assert StartsRule(code[from..], ps[r]);
  }

  lemma ClosingWithin(cur: seq<Slot>, ps: seq<int>, k: nat, done: seq<Slot>)
    requires Closing(cur, ps, k, done)
    ensures JumpsWithin(cur, 0, |cur|)
  {
  }

  lemma TailLies(code: seq<Slot>, from: nat)
    requires from <= |code|
    ensures Lies(code, code[from..], from)
  {
  }

  lemma CallDoneIs(code: seq<Slot>, from: nat, ps: seq<int>, k: nat, ft: int)
    requires from <= |code| && k < |code| - from && IsOpenCall(code[from + k])
    requires code[from + k].instr.key < |ps|
    requires 0 <= ft < |code| - from && ft == FinalTarget(code[from..], k + 2)
    ensures var next := CallDone(code, from + k, ps[code[from + k].instr.key] - k, from + ft);
            next[from..] == Looked(code[from..], ps, k) && next[..from] == code[..from]
  {
    hide FinalTarget, Ends;
    assert code[from + k] == code[from..][k] && code[from + ft] == code[from..][ft];
  }

  lemma ClosingDone(cur: seq<Slot>, ps: seq<int>, done: seq<Slot>)
    requires Closing(cur, ps, |cur|, done)
    ensures cur == done
  {
  }

  lemma EndsAt(code: seq<Slot>, x: int)
    requires ChainsEnd(code)
    ensures Ends(code, x)
  {
  }

  lemma TargetIn(code: seq<Slot>, x: nat)
    requires LabelsIn(code, 0, |code| - 1) && InstrAt(code, x) && HasLabel(code[x].instr) && ChainsEnd(code)
    ensures 0 <= x + code[x].instr.off < |code| && Ends(code, x + code[x].instr.off)
  {
  }

  lemma PeepholeDone(code: seq<Slot>, i: nat)
    requires i >= |code|
    ensures Peephole(code, i) == code
  {
  }

  /** Compiles a pattern and matches it: the result is what the pattern means, unless the stack is too small. */
  method MatchTree(c: Ctx, t: Tree, s: Subject, i: nat, max: nat, ghost k0: nat) returns (r: MatchResult)
    requires Accepted(c, t, k0) && i <= |s|
    ensures r.Overflow? <==> Overflows(Compile(c, t), s, i, PegAccept.Max(MAXBACK, max))
    ensures r.Matched? ==> exists n: nat :: Peg([], t, s, i, n) == Ok(r.end)
    ensures r.NoMatch? ==> exists n: nat :: Peg([], t, s, i, n) == Fail
  {
    var compiler := new CompileState();
    compiler.CompileTree(c, t, k0);
    r := MatchPattern(compiler.code[..compiler.ncode], s, i, max, c, t, k0);
  }
}
