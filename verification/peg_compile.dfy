// Compiling a whole pattern, and the theorem about matching with the result.

module PegCompile {
  import opened PegTree
  import opened PegMachine
  import opened PegCodegen
  import opened PegShapes
  import opened PegCalls
  import opened PegCorrect
  import opened PegPeephole

  /** A pattern that stands alone: no grammar is in force around it. */
  predicate Closed(c: Ctx, t: Tree) {
    c.g == [] && WellFormed(c, t)
  }

  ghost function Generated(c: Ctx, t: Tree): seq<Slot> {
    Gen(c, t, false, NoTest, FULL) + Emit(IEnd)
  }

  /** The final code of a pattern. */
  ghost function Compile(c: Ctx, t: Tree): seq<Slot> {
    Peephole(Generated(c, t), 0)
  }

  /** The machine at the start of a match at position 'i'. */
  function Start(i: nat): State {
    Run(0, i, Push(Back(i, GIVEUP), Empty))
  }

  /** Before the peephole pass. */
  lemma GeneratedCorrect(c: Ctx, t: Tree, s: Subject, i: nat, n: nat)
    requires Closed(c, t) && i <= |s| && Peg(c.g, t, s, i, n) != Out
    ensures Answers(Generated(c, t), s, Start(i), Peg(c.g, t, s, i, n))
  {
    var code := Generated(c, t);
    var e := Env(code, s, []);
    var body := Gen(c, t, false, NoTest, FULL);
    var o := Peg(c.g, t, s, i, n);
    GenSound(c, t, false, NoTest, FULL);
    forall k | 0 <= k < |body| ensures SlotAt(e, 0 + k, body[k]) {
      assert !IsOpenCall(body[k]);
    }
    GenCorrect(e, c, t, false, NoTest, FULL, 0, i, Start(i).stk, n);
    var last := After(|body|, o, Start(i).stk);
    assert code[|body|] == I(IEnd);
    assert AnswersIn(code, s, last, o, 1) by {
      assert Steps(code, s, Step(code, s, last), 0) == Halt(o);
    }
    ConvAnswers(code, s, Start(i), last, o);
  }

  /**
   * Running the compiled code of a pattern answers what the pattern means: it succeeds at the same
   * position or fails, for every subject and every starting position.
   */
  lemma CompileCorrect(c: Ctx, t: Tree, s: Subject, i: nat, n: nat)
    requires Closed(c, t) && i <= |s| && Peg(c.g, t, s, i, n) != Out
    ensures Answers(Compile(c, t), s, Start(i), Peg(c.g, t, s, i, n))
  {
    var code := Generated(c, t);
    GeneratedCorrect(c, t, s, i, n);
    GenSound(c, t, false, NoTest, FULL);
    SoundEmit(IEnd, 0);
    SoundConcat(Gen(c, t, false, NoTest, FULL), Emit(IEnd), 0);
    assert code[0..] == code;
    PeepholeAnswers(code, 0, s, Start(i), Peg(c.g, t, s, i, n));
  }

  /** A run has one answer, so no other answer is possible. */
  lemma AnswerUnique(code: seq<Slot>, s: Subject, st: State, o1: Outcome, o2: Outcome)
    requires Answers(code, s, st, o1) && Answers(code, s, st, o2)
    ensures o1 == o2
  {
    var m: nat :| AnswersIn(code, s, st, o1, m);
    var n: nat :| AnswersIn(code, s, st, o2, n);
    StepsAdd(code, s, st, m, n);
    StepsAdd(code, s, st, n, m);
    HaltStays(code, s, Halt(o1), n);
    HaltStays(code, s, Halt(o2), m);
  }
}
