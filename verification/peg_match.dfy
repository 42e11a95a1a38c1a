// Matching as a user sees it: compile an accepted pattern, run 'match' with a bounded stack.

module PegMatch {
  import opened PegTree
  import opened PegMachine
  import opened PegCodegen
  import opened PegShapes
  import opened PegCalls
  import opened PegCompile
  import opened PegAdvance
  import opened PegVerify
  import opened PegAccept
  import opened PegEnds
  import opened PegChains

  /** Nothing outside a grammar is a call. */
  lemma {:induction false} NoCalls(c: Ctx, t: Tree)
    requires c.g == [] && WellFormed(c, t)
    ensures Calls(t) == {}
    decreases t
  {
    match t
    case TRep(p) => NoCalls(c, p);
    case TNot(p) => NoCalls(c, p);
    case TAnd(p) => NoCalls(c, p);
    case TCapture(p) => NoCalls(c, p);
    case TBehind(_, p) => NoCalls(c, p);
    case TSeq(p1, p2) => NoCalls(c, p1); NoCalls(c, p2);
    case TChoice(p1, p2) => NoCalls(c, p1); NoCalls(c, p2);
    case _ =>
  }

  /** A pattern that the constructors and the checks on grammars accept. */
  ghost predicate Accepted(c: Ctx, t: Tree, k0: nat) {
    Closed(c, t) && Built(t, k0) && !CheckLoops([], t, k0)
  }

  /**
   * Matching an accepted pattern always ends. The compiled code answers what the pattern means, for
   * every subject and starting position, and it answers nothing else.
   */
  lemma MatchDecides(c: Ctx, t: Tree, k0: nat, s: Subject, i: nat) returns (n: nat)
    requires Accepted(c, t, k0) && i <= |s|
    ensures Peg([], t, s, i, n) != Out
    ensures Answers(Compile(c, t), s, Start(i), Peg([], t, s, i, n))
    ensures forall o | Answers(Compile(c, t), s, Start(i), o) :: o == Peg([], t, s, i, n)
  {
    NoCalls(c, t);
    n := PatternEnds(t, k0, s, i);
    CompileCorrect(c, t, s, i, n);
    forall o | Answers(Compile(c, t), s, Start(i), o) ensures o == Peg([], t, s, i, n) {
      AnswerUnique(Compile(c, t), s, Start(i), o, Peg([], t, s, i, n));
    }
  }

  /** In the code generated for an accepted pattern, following jumps ends from every place. */
  lemma GeneratedChainsEnd(c: Ctx, t: Tree, k0: nat, x: int)
    requires Accepted(c, t, k0)
    ensures Ends(Generated(c, t), x)
  {
    hide Gen, WellFormed, Built;
    var code := Generated(c, t);
    var body := Gen(c, t, false, NoTest, FULL);
    var e := Env(code, [], []);
    NoCalls(c, t);
    GenSound(c, t, false, NoTest, FULL);
    assert At(e, 0, body) by {
      forall k | 0 <= k < |body| ensures SlotAt(e, 0 + k, body[k]) {
        assert !IsOpenCall(body[k]);
      }
    }
    assert code[|body|] == I(IEnd);
    EndsHere(code, |body|);
    if 0 <= x < |body| {
      PartChains(e, c, t, false, NoTest, FULL, 0, k0, Depth(t));
      PlaceEnds(e, 0, body, x);
    } else {
      EndsHere(code, x);
    }
  }

  // ---- The interpreter loop ----

  // Initial number of stack entries (lptypes.h).
  const MAXBACK: nat := 400

  datatype MatchResult = Matched(end: nat) | NoMatch | Overflow

  /** Entries of the stack array, the last one being the top. */
  function StackOf(entries: seq<Frame>): (stk: Stack)
    ensures stk.Empty? <==> entries == []
  {
    if entries == [] then Empty else Push(entries[|entries| - 1], StackOf(entries[..|entries| - 1]))
  }

  function Height(stk: Stack): nat {
    match stk
    case Empty => 0
    case Push(_, rest) => 1 + Height(rest)
  }

  predicate HigherThan(st: State, limit: nat) { st.Run? && Height(st.stk) > limit }

  /** Some state of the run needs more than 'limit' entries. */
  ghost predicate Overflows(code: seq<Slot>, s: Subject, i: nat, limit: nat) {
    exists n: nat :: HigherThan(Steps(code, s, Start(i), n), limit)
  }

  lemma {:induction false} HeightOf(entries: seq<Frame>)
    ensures Height(StackOf(entries)) == |entries|
    decreases |entries|
  {
    if entries != [] { HeightOf(entries[..|entries| - 1]); }
  }

  lemma PushOf(entries: seq<Frame>, f: Frame)
    ensures StackOf(entries + [f]) == Push(f, StackOf(entries))
  {
    assert (entries + [f])[..|entries|] == entries;
  }

  lemma TopOf(entries: seq<Frame>)
    requires entries != []
    ensures StackOf(entries) == Push(entries[|entries| - 1], StackOf(entries[..|entries| - 1]))
  {
  }

  /** The call/backtrack stack: an array of which the first 'top' entries are in use. */
  class MatchStack {
    var entries: array<Frame>
    var top: nat

    ghost predicate Valid()
      reads this
    {
      top <= entries.Length && entries.Length > 0
    }

    ghost function Contents(): (r: seq<Frame>)
      requires Valid()
      reads this, entries
    {
      entries[..top]
    }

    constructor (giveup: Frame)
      ensures Valid() && fresh(entries) && entries.Length == MAXBACK && Contents() == [giveup]
    {
      entries := new Frame[MAXBACK](_ => giveup);
      top := 1;
    }

    /** Doubles the array, up to 'max' entries; false when it is that large already. */
    method Double(max: nat) returns (ok: bool)
      requires Valid()
      modifies this
      ensures Valid() && Contents() == old(Contents()) && top == old(top)
      ensures ok == (old(entries.Length) < max)
      ensures !ok ==> entries == old(entries)
      ensures ok ==> fresh(entries) && old(entries.Length) < entries.Length
      ensures ok ==> entries.Length == (if 2 * old(entries.Length) > max then max else 2 * old(entries.Length))
    {
      var n := entries.Length;
      if n >= max { return false; }
      var newn := 2 * n;
      if newn > max { newn := max; }
      var first := entries[0];
      var bigger := new Frame[newn](_ => first);
      var k := 0;
      while k < top
        modifies bigger
        invariant k <= top
        invariant bigger[..k] == entries[..k]
      {
        bigger[k] := entries[k];
        k := k + 1;
      }
      entries := bigger;
      return true;
    }

    method PushFrame(f: Frame, max: nat) returns (ok: bool)
      requires Valid()
      modifies this, entries
      ensures Valid() && (entries == old(entries) || fresh(entries))
      ensures ok ==> Contents() == old(Contents()) + [f]
      ensures !ok ==> Contents() == old(Contents())
      ensures ok == (old(top) < old(entries.Length) || old(entries.Length) < max)
      ensures old(entries.Length) <= entries.Length
      ensures entries.Length > old(entries.Length) ==> entries.Length <= max
    {
      if top == entries.Length {
        ok := Double(max);
        if !ok { return; }
      }
      entries[top] := f;
      top := top + 1;
      ok := true;
    }

    /** Saves another position in the choice on top. */
    method Resave(i: nat)
      requires Valid() && top > 0
      modifies entries
      ensures Valid()
      ensures var was := old(Contents()); Contents() == was[..top - 1] + [Back(i, was[top - 1].p)]
    {
      entries[top - 1] := Back(i, entries[top - 1].p);
    }

    method Pop() returns (f: Frame)
      requires Valid() && top > 0
      modifies this`top
      ensures Valid() && Contents() + [f] == old(Contents())
    {
      top := top - 1;
      f := entries[top];
    }
  }

  /** No state of the first 'k' steps needs more than 'limit' entries. */
  ghost predicate Fits(code: seq<Slot>, s: Subject, i: nat, limit: nat, k: nat) {
    forall j: nat | j <= k :: !HigherThan(Steps(code, s, Start(i), j), limit)
  }

  lemma {:induction false} NextState(code: seq<Slot>, s: Subject, st: State, k: nat)
    ensures Steps(code, s, st, k + 1) == Step(code, s, Steps(code, s, st, k))
  {
    StepsAdd(code, s, st, k, 1);
    assert Steps(code, s, Steps(code, s, st, k), 1) == Steps(code, s, Step(code, s, Steps(code, s, st, k)), 0);
  }

  /** A run that answers after 'n' steps is never stuck, and it has halted only by then. */
  lemma OnTheWay(code: seq<Slot>, s: Subject, st: State, o: Outcome, n: nat, k: nat)
    requires AnswersIn(code, s, st, o, n)
    ensures !Steps(code, s, st, k).Stuck?
    ensures Steps(code, s, st, k).Run? ==> k < n
    ensures Steps(code, s, st, k).Halt? ==> Steps(code, s, st, k) == Halt(o)
  {
    if k <= n {
      StepsAdd(code, s, st, k, n - k);
      if !Steps(code, s, st, k).Run? { HaltStays(code, s, Steps(code, s, st, k), n - k); }
    } else {
      StepsAdd(code, s, st, n, k - n);
      HaltStays(code, s, Halt(o), k - n);
    }
  }

  lemma HaltedFits(code: seq<Slot>, s: Subject, i: nat, limit: nat, k: nat)
    requires Fits(code, s, i, limit, k) && Steps(code, s, Start(i), k).Halt?
    ensures !Overflows(code, s, i, limit)
  {
    forall n: nat ensures !HigherThan(Steps(code, s, Start(i), n), limit) {
      if n > k {
        StepsAdd(code, s, Start(i), k, n - k);
        HaltStays(code, s, Steps(code, s, Start(i), k), n - k);
      }
    }
  }

  /** Removes pending calls and the choice below them, which it returns. */
  method Backtrack(stack: MatchStack) returns (i: nat, p: int)
    requires stack.Valid() && FailTo(StackOf(stack.Contents())).Run?
    modifies stack`top
    ensures stack.Valid()
    ensures old(FailTo(StackOf(stack.Contents()))) == Run(p, i, StackOf(stack.Contents()))
  {
    ghost var goal := FailTo(StackOf(stack.Contents()));
    var f := stack.Pop();
    PushOf(stack.Contents(), f);
    while f.Ret?
      invariant stack.Valid()
      invariant FailTo(Push(f, StackOf(stack.Contents()))) == goal
      decreases stack.top
    {
      f := stack.Pop();
      PushOf(stack.Contents(), f);
    }
    return f.i, f.p;
  }

  /** What is left to do after an instruction. */
  datatype Signal = Continue | Failed | Done | NoRoom

  /** Walks over the characters of a set. */
  method Span(cs: Charset, s: Subject, i0: nat) returns (i: nat)
    requires i0 <= |s|
    ensures i == SpanEnd(cs, s, i0)
  {
    i := i0;
    while i < |s| && s[i] in cs
      invariant i <= |s| && SpanEnd(cs, s, i) == SpanEnd(cs, s, i0)
    {
      i := i + 1;
    }
  }

  /** Pushes a choice or a return address; false when the stack has no room for it. */
  method Save(stack: MatchStack, f: Frame, max: nat) returns (ok: bool)
    requires stack.Valid()
    modifies stack, stack.entries
    ensures stack.Valid() && (stack.entries == old(stack.entries) || fresh(stack.entries))
    ensures old(stack.entries.Length) <= stack.entries.Length <= Max(old(stack.entries.Length), max)
    ensures ok ==> StackOf(stack.Contents()) == Push(f, old(StackOf(stack.Contents())))
    ensures !ok ==> stack.entries.Length >= max
    ensures !ok ==> Height(Push(f, old(StackOf(stack.Contents())))) > stack.entries.Length
  {
    hide StackOf;
    HeightOf(stack.Contents());
    PushOf(stack.Contents(), f);
    ok := stack.PushFrame(f, max);
  }

  /** Executes one instruction on the stack array; a failure still has to backtrack. */
  method Execute(instr: Instr, s: Subject, p0: int, i0: nat, stack: MatchStack, max: nat)
    returns (p: int, i: nat, sig: Signal)
    requires i0 <= |s| && stack.Valid()
    requires !Exec(instr, s, p0, i0, StackOf(stack.Contents())).Stuck?
    modifies stack, stack.entries
    ensures stack.Valid() && (stack.entries == old(stack.entries) || fresh(stack.entries))
    ensures old(stack.entries.Length) <= stack.entries.Length <= Max(old(stack.entries.Length), max)
    ensures var next := old(Exec(instr, s, p0, i0, StackOf(stack.Contents())));
            match sig
            case Continue => next == Run(p, i, StackOf(stack.Contents()))
            case Failed => next == FailTo(StackOf(stack.Contents()))
            case Done => next == Halt(Ok(i))
            case NoRoom => stack.entries.Length >= max && HigherThan(next, stack.entries.Length)
  {
    hide StackOf, FailTo, SpanEnd, Height;
    p, i, sig := p0, i0, Continue;
    if stack.top > 0 { TopOf(stack.Contents()); }
    match instr {
      case IEnd => sig := Done;
      case IRet =>
        var f := stack.Pop();
        p := f.p;
      case IAny => if i < |s| { p, i := p + 1, i + 1; } else { sig := Failed; }
      case ITestAny(off) => p := if i < |s| then p + 2 else p + off;
      case IChar(c) => if i < |s| && s[i] == c { p, i := p + 1, i + 1; } else { sig := Failed; }
      case ITestChar(c, off) => p := if i < |s| && s[i] == c then p + 2 else p + off;
      case ISet(cs) => if i < |s| && s[i] in cs { p, i := p + 9, i + 1; } else { sig := Failed; }
      case ITestSet(cs, off) => p := if i < |s| && s[i] in cs then p + 10 else p + off;
      case IBehind(m) => if m > i { sig := Failed; } else { p, i := p + 1, i - m; }
      case ISpan(cs) =>
        i := Span(cs, s, i);
        p := p + 9;
      case IJmp(off) => p := p + off;
      case IChoice(off) =>
        var ok := Save(stack, Back(i, p + off), max);
        if !ok { sig := NoRoom; }
        p := p + 2;
      case ICall(off) =>
        var ok := Save(stack, Ret(p + 2), max);
        if !ok { sig := NoRoom; }
        p := p + off;
      case ICommit(off) =>
        var _ := stack.Pop();
        p := p + off;
      case IPartialCommit(off) =>
        stack.Resave(i);
        TopOf(stack.Contents());
        p := p + off;
      case IBackCommit(off) =>
        var f := stack.Pop();
        p, i := p + off, f.i;
      case IFailTwice =>
        var _ := stack.Pop();
        sig := Failed;
      case IFail => sig := Failed;
      case IFullCapture(_) => p := p + 1;
      case IOpenCapture => p := p + 1;
      case ICloseCapture => p := p + 1;
      case IOpenCall(_) => assert false;
    }
  }

  /**
   * The opcode interpreter. 'o' is what the run answers, after 'n' steps. The result is that answer,
   * unless the run needs more stack than the limit allows; that, and only that, is an overflow.
   */
  method Match(code: seq<Slot>, s: Subject, i0: nat, max: nat, ghost o: Outcome, ghost n: nat)
    returns (r: MatchResult)
    requires AnswersIn(code, s, Start(i0), o, n)
    ensures r.Overflow? <==> Overflows(code, s, i0, Max(MAXBACK, max))
    ensures r.Matched? ==> o == Ok(r.end)
    ensures r.NoMatch? ==> o == Fail
  {
    hide StackOf, FailTo, Exec;
    var stack := new MatchStack(Back(i0, GIVEUP));
    var p, i := 0, i0;
    ghost var limit := Max(MAXBACK, max);
    ghost var k := 0;
    ghost var start := Start(i0);
    PushOf([], Back(i0, GIVEUP));
    assert [] + [Back(i0, GIVEUP)] == stack.Contents();
    HeightOf(stack.Contents());
    while true
      invariant stack.Valid() && fresh(stack) && fresh(stack.entries)
      invariant MAXBACK <= stack.entries.Length <= limit
      invariant Steps(code, s, start, k) == Run(p, i, StackOf(stack.Contents()))
      invariant Fits(code, s, i0, limit, k)
      decreases n - k
    {
      NextState(code, s, start, k);
      OnTheWay(code, s, start, o, n, k);
      OnTheWay(code, s, start, o, n, k + 1);
      if p == GIVEUP {
        HaltedFits(code, s, i0, limit, k + 1);
        return NoMatch;
      }
      var sig;
      p, i, sig := Execute(code[p].instr, s, p, i, stack, max);
      if sig == NoRoom { return Overflow; }
      if sig == Done {
        HaltedFits(code, s, i0, limit, k + 1);
        return Matched(i);
      }
      if sig == Failed { i, p := Backtrack(stack); }
      HeightOf(stack.Contents());
      k := k + 1;
    }
  }

  /**
   * Matching an accepted pattern with a bounded stack: the result is what the pattern means, or the
   * run really needs more stack than allowed.
   */
  method MatchPattern(code: seq<Slot>, s: Subject, i: nat, max: nat, ghost c: Ctx, ghost t: Tree, ghost k0: nat)
    returns (r: MatchResult)
    requires Accepted(c, t, k0) && i <= |s| && code == Compile(c, t)
    ensures r.Overflow? <==> Overflows(code, s, i, Max(MAXBACK, max))
    ensures r.Matched? ==> exists n: nat :: Peg([], t, s, i, n) == Ok(r.end)
    ensures r.NoMatch? ==> exists n: nat :: Peg([], t, s, i, n) == Fail
  {
    ghost var m := MatchDecides(c, t, k0, s, i);
    ghost var o := Peg([], t, s, i, m);
    ghost var n: nat :| AnswersIn(code, s, Start(i), o, n);
    r := Match(code, s, i, max, o, n);
  }
}
