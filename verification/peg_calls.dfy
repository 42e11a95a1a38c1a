// Closing the open calls of a grammar: what 'correctcalls' leaves in the code.

module PegCalls {
  import opened PegTree
  import opened PegAnalysis
  import opened PegMachine
  import opened PegCodegen
  import opened PegShapes

  /** Code that can be walked by instruction sizes: only operands between instructions. */
  predicate Tidy(c: seq<Slot>)
    decreases |c|
  {
    c == [] || (
      && c[0].I? && SizeI(c[0].instr) <= |c|
      && (forall k | 1 <= k < SizeI(c[0].instr) :: c[k].Pad?)
      && Tidy(c[SizeI(c[0].instr)..]))
  }

  predicate IsOpenCall(slot: Slot) { slot.I? && slot.instr.IOpenCall? }

  /** Every open call names one of 'm' rules. */
  predicate KeysBelow(c: seq<Slot>, m: nat) {
    forall k | 0 <= k < |c| && IsOpenCall(c[k]) :: c[k].instr.key < m
  }

  predicate Sound(c: seq<Slot>, m: nat) { Tidy(c) && KeysBelow(c, m) }

  lemma {:induction false} TidyConcat(x: seq<Slot>, y: seq<Slot>)
    requires Tidy(x) && Tidy(y)
    ensures Tidy(x + y)
    decreases |x|
  {
    if x == [] {
      assert x + y == y;
    } else {
      var n := SizeI(x[0].instr);
      TidyConcat(x[n..], y);
      assert (x + y)[n..] == x[n..] + y;
    }
  }

  lemma SoundConcat(x: seq<Slot>, y: seq<Slot>, m: nat)
    requires Sound(x, m) && Sound(y, m)
    ensures Sound(x + y, m)
  {
    TidyConcat(x, y);
  }

  lemma SoundEmit(i: Instr, m: nat)
    requires i.IOpenCall? ==> i.key < m
    ensures Sound(Emit(i), m)
  {
    assert Emit(i)[SizeI(i)..] == [];
  }

  lemma SoundTest(f: First, rest: nat, m: nat)
    ensures Sound(CodeTest(f, rest), m)
  {
    if !f.empty { SoundEmit(TestInstr(f.cs, TestSize(f) + rest), m); }
  }

  lemma Sound3(x: seq<Slot>, y: seq<Slot>, z: seq<Slot>, m: nat)
    requires Sound(x, m) && Sound(y, m) && Sound(z, m)
    ensures Sound(x + y + z, m)
  {
    SoundConcat(x, y, m);
    SoundConcat(x + y, z, m);
  }

  lemma Sound4(x: seq<Slot>, y: seq<Slot>, z: seq<Slot>, u: seq<Slot>, m: nat)
    requires Sound(x, m) && Sound(y, m) && Sound(z, m) && Sound(u, m)
    ensures Sound(x + y + z + u, m)
  {
    Sound3(x, y, z, m);
    SoundConcat(x + y + z, u, m);
  }

  // ---- The shapes are sound when their parts are ----

  lemma SoundNot(f: First, hf: bool, p: seq<Slot>, m: nat)
    requires Sound(p, m)
    ensures Sound(NotCode(f, hf, p), m)
  {
    if hf {
      SoundTest(f, 1, m);
      SoundEmit(IFail, m);
      SoundConcat(CodeTest(f, 1), Emit(IFail), m);
    } else {
      SoundTest(f, 2 + |p| + 1, m);
      SoundEmit(IChoice(2 + |p| + 1), m);
      SoundEmit(IFailTwice, m);
      Sound4(CodeTest(f, 2 + |p| + 1), Emit(IChoice(2 + |p| + 1)), p, Emit(IFailTwice), m);
    }
  }

  lemma SoundBehindIf(n: nat, m: nat)
    ensures Sound(BehindIf(n), m)
  {
    if n > 0 { SoundEmit(IBehind(n), m); }
  }

  lemma SoundAnd(p: seq<Slot>, m: nat)
    requires Sound(p, m)
    ensures Sound(AndCode(p), m)
  {
    SoundEmit(IChoice(2 + |p| + 2), m);
    SoundEmit(IBackCommit(3), m);
    SoundEmit(IFail, m);
    Sound4(Emit(IChoice(2 + |p| + 2)), p, Emit(IBackCommit(3)), Emit(IFail), m);
  }

  lemma SoundCapture(short: bool, len: int, p: seq<Slot>, m: nat)
    requires Sound(p, m)
    ensures Sound(CaptureCode(short, len, p), m)
  {
    if short && len >= 0 {
      SoundEmit(IFullCapture(len), m);
      SoundConcat(p, Emit(IFullCapture(len)), m);
    } else {
      SoundEmit(IOpenCapture, m);
      SoundEmit(ICloseCapture, m);
      Sound3(Emit(IOpenCapture), p, Emit(ICloseCapture), m);
    }
  }

  lemma SoundChoiceByTest(f: First, p1: seq<Slot>, p2: seq<Slot>, emptyp2: bool, m: nat)
    requires Sound(p1, m) && Sound(p2, m)
    ensures Sound(ChoiceByTestCode(f, p1, p2, emptyp2), m)
  {
    hide Tidy, KeysBelow, CharsetType;
    var jmp := JmpIf(!emptyp2, 2 + |p2|);
    SoundTest(f, |p1| + |jmp|, m);
    if !emptyp2 { SoundEmit(IJmp(2 + |p2|), m); }
    Sound4(CodeTest(f, |p1| + |jmp|), p1, jmp, p2, m);
  }

  lemma SoundChoiceReused(p1: seq<Slot>, m: nat)
    requires Sound(p1, m)
    ensures Sound(ChoiceReusedCode(p1), m)
  {
    SoundEmit(IPartialCommit(2), m);
    SoundConcat(Emit(IPartialCommit(2)), p1, m);
  }

  lemma SoundChoiceStacked(f: First, p1: seq<Slot>, p2: seq<Slot>, m: nat)
    requires Sound(p1, m) && Sound(p2, m)
    ensures Sound(ChoiceStackedCode(f, p1, p2), m)
  {
    var test, ch, cm := CodeTest(f, 2 + |p1| + 2), Emit(IChoice(2 + |p1| + 2)), Emit(ICommit(2 + |p2|));
    SoundTest(f, 2 + |p1| + 2, m);
    SoundEmit(IChoice(2 + |p1| + 2), m);
    SoundEmit(ICommit(2 + |p2|), m);
    Sound4(test, ch, p1, cm, m);
    SoundConcat(test + ch + p1 + cm, p2, m);
  }

  lemma SoundRepByTest(f: First, p: seq<Slot>, m: nat)
    requires Sound(p, m)
    ensures Sound(RepByTestCode(f, p), m)
  {
    SoundTest(f, |p| + 2, m);
    SoundEmit(IJmp(-(TestSize(f) + |p|)), m);
    Sound3(CodeTest(f, |p| + 2), p, Emit(IJmp(-(TestSize(f) + |p|))), m);
  }

  lemma SoundRepStacked(f: First, p: seq<Slot>, opt: bool, m: nat)
    requires Sound(p, m)
    ensures Sound(RepStackedCode(f, p, opt), m)
  {
    SoundTest(f, 2 + |p| + 2, m);
    SoundEmit(RepEntry(p, opt), m);
    SoundEmit(IPartialCommit(-|p|), m);
    Sound4(CodeTest(f, 2 + |p| + 2), Emit(RepEntry(p, opt)), p, Emit(IPartialCommit(-|p|)), m);
  }

  lemma SoundGrammar(body: seq<Slot>, m: nat)
    requires Sound(body, m)
    ensures Sound(GrammarCode(body), m)
  {
    SoundEmit(ICall(4), m);
    SoundEmit(IJmp(2 + |body|), m);
    Sound3(Emit(ICall(4)), Emit(IJmp(2 + |body|)), body, m);
  }

  lemma SoundChar(c: Byte, tt: Test, m: nat)
    ensures Sound(CodeChar(c, tt), m)
  {
    SoundEmit(IAny, m);
    SoundEmit(IChar(c), m);
  }

  lemma SoundCharset(cs: Charset, tt: Test, m: nat)
    ensures Sound(CodeCharset(cs, tt), m)
  {
    SoundEmit(IAny, m);
    SoundEmit(IFail, m);
    SoundEmit(ISet(cs), m);
    if CharsetType(cs).OneChar? { SoundChar(CharsetType(cs).c, tt, m); }
  }

  /** Generated code can be walked, and its open calls refer to rules of the grammar in force. */
  lemma {:induction false} GenSound(c: Ctx, t: Tree, opt: bool, tt: Test, fl: Charset)
    requires WellFormed(c, t)
    ensures Sound(Gen(c, t, opt, tt, fl), |c.g|)
    decreases t, 1
  {
    var m := |c.g|;
    match t
    case TChar(ch) => SoundChar(ch, tt, m);
    case TAny => SoundEmit(IAny, m);
    case TSet(cs) => SoundCharset(cs, tt, m);
    case TTrue =>
    case TFalse => SoundEmit(IFail, m);
    case TChoice(p1, p2) => ChoiceSound(c, t, opt, tt, fl);
    case TRep(p) => RepSound(c, t, opt, tt, fl);
    case TBehind(n, p) =>
      GenSound(c, p, false, NoTest, FULL);
      SoundBehindIf(n, m);
      SoundConcat(BehindIf(n), Gen(c, p, false, NoTest, FULL), m);
    case TNot(p) =>
      GenSound(c, p, false, NoTest, FULL);
      SoundNot(FirstOf(c, p, FULL), HeadFail(c.g, p, c.k), Gen(c, p, false, NoTest, FULL), m);
    case TAnd(p) =>
      var code := Gen(c, p, false, tt, FULL);
      GenSound(c, p, false, tt, FULL);
      SoundAnd(code, m);
      if ShortAnd(c, p) {
        SoundBehindIf(FixedLen(c.g, p, c.live), m);
        SoundConcat(code, BehindIf(FixedLen(c.g, p, c.live)), m);
      }
    case TCapture(p) =>
      GenSound(c, p, false, tt, fl);
      SoundCapture(ShortCapture(c, p), FixedLen(c.g, p, c.live), Gen(c, p, false, tt, fl), m);
    case TGrammar(rules) =>
      GrammarBodySound(c, rules, m);
      SoundGrammar(GrammarBody(c, rules), m);
    case TCall(_, r) => SoundEmit(IOpenCall(r), m);
    case TSeq(p1, p2) =>
      var fl1, tt2 := SeqFollow(c, p1, p2, fl), SeqTest(c, p1, tt);
      GenSound(c, p1, false, tt, fl1);
      GenSound(c, p2, opt, tt2, fl);
      SoundConcat(Gen(c, p1, false, tt, fl1), Gen(c, p2, opt, tt2, fl), m);
  }

  lemma {:induction false} ChoiceSound(c: Ctx, t: Tree, opt: bool, tt: Test, fl: Charset)
    requires t.TChoice? && WellFormed(c, t)
    ensures Sound(Gen(c, t, opt, tt, fl), |c.g|)
    decreases t, 0
  {
    var m := |c.g|;
    var f := FirstOf(c, t.p1, FULL);
    GenSound(c, t.p2, opt, NoTest, fl);
    var p2 := Gen(c, t.p2, opt, NoTest, fl);
    if TestDecides(c, t.p1, t.p2, fl) {
      var f0 := First(false, f.cs);
      GenSound(c, t.p1, false, TestOf(f0), fl);
      SoundChoiceByTest(f0, Gen(c, t.p1, false, TestOf(f0), fl), p2, t.p2.TTrue?, m);
    } else if opt && t.p2.TTrue? {
      GenSound(c, t.p1, true, NoTest, FULL);
      SoundChoiceReused(Gen(c, t.p1, true, NoTest, FULL), m);
    } else {
      GenSound(c, t.p1, t.p2.TTrue?, TestOf(f), FULL);
      SoundChoiceStacked(f, Gen(c, t.p1, t.p2.TTrue?, TestOf(f), FULL), p2, m);
    }
  }

  lemma {:induction false} RepSound(c: Ctx, t: Tree, opt: bool, tt: Test, fl: Charset)
    requires t.TRep? && WellFormed(c, t)
    ensures Sound(Gen(c, t, opt, tt, fl), |c.g|)
    decreases t, 0
  {
    var m := |c.g|;
    var f := FirstOf(c, t.p, FULL);
    if IsCharPattern(t.p) {
      SoundEmit(ISpan(ToCharset(t.p)), m);
    } else if TestLeaves(c, t.p, fl) {
      var f0 := First(false, f.cs);
      GenSound(c, t.p, false, TestOf(f0), FULL);
      SoundRepByTest(f0, Gen(c, t.p, false, TestOf(f0), FULL), m);
    } else {
      GenSound(c, t.p, false, NoTest, FULL);
      SoundRepStacked(f, Gen(c, t.p, false, NoTest, FULL), opt, m);
    }
  }

  lemma {:induction false} RulesSound(c: Ctx, rules: seq<Tree>, m: nat)
    requires m <= |rules| && c.g == rules
    requires forall r | 0 <= r < |rules| :: WellFormed(c, rules[r])
    ensures Sound(GenRules(c, rules, m), |rules|)
    decreases rules, m
  {
    hide Gen, WellFormed;
    if m > 0 {
      RulesSound(c, rules, m - 1);
      GenSound(c, rules[m - 1], false, NoTest, FULL);
      SoundEmit(IRet, |rules|);
      Sound3(GenRules(c, rules, m - 1), Gen(c, rules[m - 1], false, NoTest, FULL), Emit(IRet), |rules|);
    }
  }

  lemma {:induction false} GrammarBodySound(c: Ctx, rules: seq<Tree>, m: nat)
    requires forall r | 0 <= r < |rules| :: WellFormed(c.(g := rules), rules[r])
    ensures Sound(GrammarBody(c, rules), m)
    decreases rules, |rules| + 2
  {
    var c' := c.(g := rules);
    RulesSound(c', rules, |rules|);
    var raw, ps := GenRules(c', rules, |rules|), RulePositions(c', rules);
    assert raw[0..] == raw;
    CorrectTidy(raw, ps, 0);
    var body := GrammarBody(c, rules);
    assert body[0..] == body;
  }

  // ---- What closing the calls does ----

  /** A cell before and after the calls were closed. */
  ghost predicate CallClosed(code: seq<Slot>, k: int, before: Slot, positions: seq<int>)
    requires 0 <= k < |code|
  {
    if IsOpenCall(before) then
      && before.instr.key < |positions|
      && (|| code[k] == I(ICall(positions[before.instr.key] - k))
          || (code[k] == I(IJmp(positions[before.instr.key] - k)) && JumpsToRet(code, k + 2)))
    else code[k] == before
  }

  /** 'after' is 'before' with some open calls replaced. */
  predicate OnlyCallsChanged(before: seq<Slot>, after: seq<Slot>) {
    && |after| == |before|
    && forall k | 0 <= k < |before| :: !IsOpenCall(before[k]) ==> after[k] == before[k]
  }

  lemma {:induction false} JumpsStay(before: seq<Slot>, after: seq<Slot>, x: int, n: nat)
    requires OnlyCallsChanged(before, after)
    requires IsRetAt(before, Chase(before, x, n))
    ensures Chase(after, x, n) == Chase(before, x, n) && IsRetAt(after, Chase(after, x, n))
    decreases n
  {
    if n > 0 && IsJmpAt(before, x) {
      JumpsStay(before, after, x + before[x].instr.off, n - 1);
    }
  }

  lemma JumpsToRetStays(before: seq<Slot>, after: seq<Slot>, x: int)
    requires OnlyCallsChanged(before, after) && JumpsToRet(before, x)
    ensures JumpsToRet(after, x)
  {
    var n: nat :| IsRetAt(before, Chase(before, x, n));
    JumpsStay(before, after, x, n);
  }

  lemma FinalOnChain(code: seq<Slot>, x: int)
    ensures IsRetAt(code, FinalTarget(code, x)) ==> JumpsToRet(code, x)
  {
    if !Ends(code, x) { assert Chase(code, x, 0) == x; }
  }

  lemma {:induction false} CorrectOnlyCalls(code: seq<Slot>, positions: seq<int>, i: nat)
    ensures OnlyCallsChanged(code, CorrectCalls(code, positions, i))
    ensures forall k | 0 <= k < i && k < |code| :: CorrectCalls(code, positions, i)[k] == code[k]
    decreases |code| - i
  {
    if i < |code| {
      if IsOpenCall(code[i]) {
        var code' := CloseAt(code, positions, i);
        CorrectOnlyCalls(code', positions, i + 2);
      } else if code[i].I? {
        CorrectOnlyCalls(code, positions, i + SizeI(code[i].instr));
      } else {
        CorrectOnlyCalls(code, positions, i + 1);
      }
    }
  }

  /** One step of a walk through tidy code. */
  lemma TidyStep(code: seq<Slot>, i: nat)
    requires i < |code|
    ensures Tidy(code[i..]) <==>
            && code[i].I? && i + SizeI(code[i].instr) <= |code|
            && (forall k | i < k < i + SizeI(code[i].instr) :: code[k].Pad?)
            && Tidy(code[i + SizeI(code[i].instr)..])
  {
    var c := code[i..];
    assert c[0] == code[i];
    if code[i].I? && i + SizeI(code[i].instr) <= |code| {
      var n := SizeI(code[i].instr);
      assert c[n..] == code[i + n..];
      assert forall k | 0 <= k < n :: c[k] == code[i + k];
      assert forall k | i <= k < i + n :: code[k] == c[k - i];
    }
  }

  /** The code after the instruction at 'i' was looked at. */
  ghost function Looked(code: seq<Slot>, positions: seq<int>, i: nat): seq<Slot>
    requires i < |code| && code[i].I?
  {
    if IsOpenCall(code[i]) then CloseAt(code, positions, i) else code
  }

  lemma LookedStep(code: seq<Slot>, positions: seq<int>, i: nat)
    requires i < |code| && Tidy(code[i..]) && KeysBelow(code, |positions|)
    ensures code[i].I?
    ensures var n := SizeI(code[i].instr);
            var code' := Looked(code, positions, i);
            && i + n <= |code| == |code'| && Tidy(code'[i + n..]) && KeysBelow(code', |positions|)
            && code'[i + 1..] == code[i + 1..] && code'[..i] == code[..i]
            && code'[i].I? && SizeI(code'[i].instr) == n && !IsOpenCall(code'[i])
            && CorrectCalls(code, positions, i) == CorrectCalls(code', positions, i + n)
  {
    TidyStep(code, i);
    var n := SizeI(code[i].instr);
    var code' := Looked(code, positions, i);
    assert code'[i + n..] == code[i + n..];
  }

  lemma {:induction false} CorrectTidy(code: seq<Slot>, positions: seq<int>, i: nat)
    requires i <= |code| && Tidy(code[i..]) && KeysBelow(code, |positions|)
    ensures var r := CorrectCalls(code, positions, i);
            && Tidy(r[i..])
            && forall k | i <= k < |code| :: !IsOpenCall(r[k])
    decreases |code| - i
  {
    hide CorrectCalls, Looked, CloseAt, FinalTarget, Chase, Ends;
    if i < |code| {
      LookedStep(code, positions, i);
      var n := SizeI(code[i].instr);
      var code' := Looked(code, positions, i);
      CorrectTidy(code', positions, i + n);
      CorrectOnlyCalls(code', positions, i + n);
      var r := CorrectCalls(code', positions, i + n);
      TidyStep(code, i);
      assert forall k | i < k < i + n :: r[k] == code[k] by {
        assert forall k | i < k < i + n :: code'[k] == code'[i + 1..][k - i - 1];
      }
      TidyStep(r, i);
    }
  }

  /** Every open call becomes a call of its rule, or a jump to it when a return follows the call. */
  lemma {:induction false} CorrectCloses(code: seq<Slot>, positions: seq<int>, i: nat, k: nat)
    requires i <= k < |code| && Tidy(code[i..]) && KeysBelow(code, |positions|)
    ensures CallClosed(CorrectCalls(code, positions, i), k, code[k], positions)
    decreases |code| - i
  {
    hide Tidy, CorrectCalls;
    LookedStep(code, positions, i);
    var n := SizeI(code[i].instr);
    var code' := Looked(code, positions, i);
    if k >= i + n {
      assert code'[k] == code'[i + 1..][k - i - 1] == code[i + 1..][k - i - 1] == code[k];
      CorrectCloses(code', positions, i + n, k);
    } else {
      CorrectOnlyCalls(code', positions, i + n);
      TidyStep(code, i);
      if k > i {
        assert code'[k] == code'[i + 1..][k - i - 1] == code[i + 1..][k - i - 1] == code[k];
      } else if IsOpenCall(code[i]) && code'[i].instr.IJmp? {
        FinalOnChain(code, i + 2);
        CorrectOnlyCalls(code, positions, i);
        JumpsToRetStays(code, CorrectCalls(code, positions, i), i + 2);
      }
    }
  }
}
