// Where chains of jumps lead while code is being patched.

module PegTargets {
  import opened PegMachine
  import opened PegCodegen
  import opened PegCalls
  import opened PegPeephole
  import opened PegLabels

  /** Chains end from every place. */
  ghost predicate ChainsEnd(code: seq<Slot>) {
    forall x :: Ends(code, x)
  }

  /** Jumps between 'lo' and 'hi' stay there. */
  predicate JumpsWithin(code: seq<Slot>, lo: int, hi: int) {
    forall y | lo <= y < hi && IsJmpAt(code, y) :: lo <= y + code[y].instr.off < hi
  }

  lemma {:induction false} ChaseStops(code: seq<Slot>, x: int, n: nat, m: nat)
    requires n <= m && EndsIn(code, x, n)
    ensures Chase(code, x, m) == Chase(code, x, n)
    decreases n
  {
    if n > 0 && IsJmpAt(code, x) {
      ChaseStops(code, x + code[x].instr.off, n - 1, m - 1);
    }
  }

  /** The final target does not depend on how many jumps are allowed for. */
  lemma FinalIs(code: seq<Slot>, x: int, n: nat)
    requires EndsIn(code, x, n)
    ensures FinalTarget(code, x) == Chase(code, x, n) && !IsJmpAt(code, FinalTarget(code, x))
  {
    assert Ends(code, x);
    var m: nat :| EndsIn(code, x, m) && FinalTarget(code, x) == Chase(code, x, m);
    if n <= m { ChaseStops(code, x, n, m); } else { ChaseStops(code, x, m, n); }
  }

  lemma {:induction false} ChaseStaysIn(code: seq<Slot>, lo: int, hi: int, x: int, n: nat)
    requires JumpsWithin(code, lo, hi) && lo <= x < hi
    ensures lo <= Chase(code, x, n) < hi
    decreases n
  {
    if n > 0 && IsJmpAt(code, x) {
      ChaseStaysIn(code, lo, hi, x + code[x].instr.off, n - 1);
    }
  }

  lemma FinalStaysIn(code: seq<Slot>, lo: int, hi: int, x: int)
    requires JumpsWithin(code, lo, hi) && lo <= x < hi
    ensures lo <= FinalTarget(code, x) < hi
  {
    if Ends(code, x) {
      var n: nat :| EndsIn(code, x, n) && FinalTarget(code, x) == Chase(code, x, n);
      ChaseStaysIn(code, lo, hi, x, n);
    }
  }

  /** 'body' lies at 'd'. */
  predicate Lies(code: seq<Slot>, body: seq<Slot>, d: int) {
    0 <= d && d + |body| <= |code| && forall k | 0 <= k < |body| :: code[d + k] == body[k]
  }

  lemma {:induction false} ChaseMoved(code: seq<Slot>, body: seq<Slot>, d: int, x: int, n: nat)
    requires Lies(code, body, d) && JumpsWithin(body, 0, |body|) && 0 <= x < |body|
    ensures Chase(code, d + x, n) == d + Chase(body, x, n) && 0 <= Chase(body, x, n) < |body|
    decreases n
  {
    assert code[d + x] == body[x];
    if n > 0 && IsJmpAt(body, x) {
      ChaseMoved(code, body, d, x + body[x].instr.off, n - 1);
    }
  }

  /** Final targets do not depend on where code lies that no jump leaves. */
  lemma FinalMoved(code: seq<Slot>, body: seq<Slot>, d: int, x: int)
    requires Lies(code, body, d) && JumpsWithin(body, 0, |body|) && 0 <= x < |body| && Ends(body, x)
    ensures Ends(code, d + x) && FinalTarget(code, d + x) == d + FinalTarget(body, x)
    ensures 0 <= FinalTarget(body, x) < |body|
  {
    var n: nat :| EndsIn(body, x, n);
    ChaseMoved(code, body, d, x, n);
    var y := Chase(body, x, n);
    assert code[d + y] == body[y];
    assert EndsIn(code, d + x, n);
    FinalIs(code, d + x, n);
    FinalIs(body, x, n);
  }

  lemma JumpsMoved(code: seq<Slot>, body: seq<Slot>, d: int)
    requires Lies(code, body, d) && JumpsWithin(body, 0, |body|)
    ensures JumpsWithin(code, d, d + |body|)
  {
    forall y | d <= y < d + |body| && IsJmpAt(code, y) ensures d <= y + code[y].instr.off < d + |body| {
      assert code[d + (y - d)] == body[y - d];
    }
  }

  /** Every jump of 'body' is there in 'code' too. */
  ghost predicate JumpsShared(code: seq<Slot>, body: seq<Slot>, d: int) {
    forall k | IsJmpAt(body, k) :: 0 <= d + k < |code| && code[d + k] == body[k]
  }

  /** So its chains end when those of the code do. */
  lemma {:induction false} EndsShared(code: seq<Slot>, body: seq<Slot>, d: int, x: int, n: nat)
    requires JumpsShared(code, body, d) && EndsIn(code, d + x, n)
    ensures Ends(body, x)
    decreases n
  {
    if IsJmpAt(body, x) {
      EndsShared(code, body, d, x + body[x].instr.off, n - 1);
      var m: nat :| EndsIn(body, x + body[x].instr.off, m);
      assert EndsIn(body, x, m + 1);
    } else {
      assert EndsIn(body, x, 0);
    }
  }

  /** A cell that is not a jump, or a jump to something that is none, closes no cycle. */
  lemma {:induction false} EndsKept(code: seq<Slot>, i: nat, slot: Slot, x: int, n: nat)
    requires i < |code| && EndsIn(code, x, n)
    requires slot.I? && slot.instr.IJmp? ==> slot.instr.off != 0 && !IsJmpAt(code, i + slot.instr.off)
    ensures Ends(code[i := slot], x)
    decreases n
  {
    var code' := code[i := slot];
    if !IsJmpAt(code', x) {
      assert EndsIn(code', x, 0);
    } else if x == i {
      assert Chase(code', i + slot.instr.off, 0) == i + slot.instr.off;
      assert EndsIn(code', x, 1);
    } else {
      var y := x + code[x].instr.off;
      EndsKept(code, i, slot, y, n - 1);
      var m: nat :| EndsIn(code', y, m);
      assert EndsIn(code', x, m + 1);
    }
  }

  lemma ChainsKept(code: seq<Slot>, i: nat, slot: Slot)
    requires i < |code| && ChainsEnd(code)
    requires slot.I? && slot.instr.IJmp? ==> slot.instr.off != 0 && !IsJmpAt(code, i + slot.instr.off)
    ensures ChainsEnd(code[i := slot])
  {
    var code' := code[i := slot];
    forall x ensures Ends(code', x) {
      assert Ends(code, x);
      var n: nat :| EndsIn(code, x, n);
      EndsKept(code, i, slot, x, n);
    }
  }

  // ---- Closing calls ----

  /** A rule starts at the beginning or behind the return of another one. */
  predicate StartsRule(cur: seq<Slot>, rule: int) {
    rule == 0 || IsRetAt(cur, rule - 1)
  }

  /** Closing the calls of 'cur' from 'i' on gives 'done', whose chains end in the final code. */
  ghost predicate Closing(cur: seq<Slot>, positions: seq<int>, i: nat, done: seq<Slot>) {
    && i <= |cur| && Tidy(cur[i..]) && KeysBelow(cur, |positions|)
    && (forall r | 0 <= r < |positions| :: 0 <= positions[r] < |cur| && StartsRule(cur, positions[r]))
    && |cur| > 0 && cur[|cur| - 1] == I(IRet)
    && JumpsWithin(cur, 0, |cur|)
    && CorrectCalls(cur, positions, i) == done
  }

  lemma ClosingStep(cur: seq<Slot>, positions: seq<int>, i: nat, done: seq<Slot>)
    requires Closing(cur, positions, i, done) && i < |cur|
    ensures cur[i].I? && i + SizeI(cur[i].instr) <= |cur|
    ensures cur[i].instr.IOpenCall? ==> cur[i].instr.key < |positions| && i + 2 < |cur|
    ensures Closing(Looked(cur, positions, i), positions, i + SizeI(cur[i].instr), done)
    ensures var next := Looked(cur, positions, i); next[i].I? && SizeI(next[i].instr) == SizeI(cur[i].instr)
  {
    TidyStep(cur, i);
    LookedStep(cur, positions, i);
    var next := Looked(cur, positions, i);
    var n := SizeI(cur[i].instr);
    assert next[i + 1..] == cur[i + 1..] && next[..i] == cur[..i];
    forall k | 0 <= k < |cur| && k != i ensures next[k] == cur[k] {
      if k < i {
        assert next[..i][k] == cur[..i][k];
      } else {
        assert next[i + 1..][k - i - 1] == cur[i + 1..][k - i - 1];
      }
    }
    assert i + n == |cur| ==> n == 1;
  }

  lemma ClosingEnds(cur: seq<Slot>, positions: seq<int>, i: nat, done: seq<Slot>, final: seq<Slot>, d: nat, x: int)
    requires Closing(cur, positions, i, done) && Lies(final, done, d) && ChainsEnd(final)
    ensures Ends(cur, x)
  {
    CorrectOnlyCalls(cur, positions, i);
    forall k | IsJmpAt(cur, k) ensures 0 <= d + k < |final| && final[d + k] == cur[k] {
      assert !IsOpenCall(cur[k]);
      assert final[d + k] == done[k];
    }
    assert Ends(final, d + x);
    var n: nat :| EndsIn(final, d + x, n);
    EndsShared(final, cur, d, x, n);
  }

  // ---- The peephole pass ----

  /** What the pass from 'i' on relies on: it ends in 'done'. */
  ghost predicate Peeping(cur: seq<Slot>, i: nat, done: seq<Slot>) {
    && i <= |cur| && Tidy(cur[i..]) && ChainsEnd(cur) && LabelsIn(cur, 0, |cur| - 1)
    && |cur| > 0 && cur[|cur| - 1] == I(IEnd)
    && Peephole(cur, i) == done
  }

  lemma LabelsJump(code: seq<Slot>)
    requires LabelsIn(code, 0, |code| - 1)
    ensures JumpsWithin(code, 0, |code|)
  {
  }

  lemma RelabelKeeps(code: seq<Slot>, i: nat)
    requires InstrAt(code, i) && HasLabel(code[i].instr) && !code[i].instr.IJmp?
    requires ChainsEnd(code) && LabelsIn(code, 0, |code| - 1)
    ensures ChainsEnd(Relabel(code, i)) && LabelsIn(Relabel(code, i), 0, |code| - 1)
  {
    var next := Relabel(code, i);
    LabelsJump(code);
    FinalStaysIn(code, 0, |code|, i + code[i].instr.off);
    ChainsKept(code, i, next[i]);
  }

  /** A jump that becomes a commit, before its label is followed again. */
  lemma CommitKeeps(code: seq<Slot>, i: nat)
    requires IsJmpAt(code, i) && ChainsEnd(code) && LabelsIn(code, 0, |code| - 1)
    ensures var ft := FinalTarget(code, i);
            && 0 <= ft < |code| && ft != i && !IsJmpAt(code, ft)
            && (InstrAt(code, ft) && Commits(code[ft].instr) ==>
                  var fft := FinalTarget(code, ft + code[ft].instr.off);
                  var next := code[i := I(WithOff(code[ft].instr, fft - i))];
                  0 <= fft < |code| && ChainsEnd(next) && LabelsIn(next, 0, |code| - 1))
  {
    LabelsJump(code);
    assert Ends(code, i);
    FinalPastJump(code, i);
    FinalStaysIn(code, 0, |code|, i);
    var ft := FinalTarget(code, i);
    if InstrAt(code, ft) && Commits(code[ft].instr) {
      FinalStaysIn(code, 0, |code|, ft + code[ft].instr.off);
      var fft := FinalTarget(code, ft + code[ft].instr.off);
      ChainsKept(code, i, I(WithOff(code[ft].instr, fft - i)));
    }
  }

  lemma JumpKeeps(code: seq<Slot>, i: nat)
    requires IsJmpAt(code, i) && ChainsEnd(code) && LabelsIn(code, 0, |code| - 1) && i + 1 < |code|
    ensures ChainsEnd(PeepAt(code, i)) && LabelsIn(PeepAt(code, i), 0, |code| - 1)
  {
    CommitKeeps(code, i);
    var ft := FinalTarget(code, i);
    if InstrAt(code, ft) && JumpsAway(code[ft].instr) {
      ChainsKept(code, i, code[ft]);
      ChainsKept(code[i := code[ft]], i + 1, I(IAny));
    } else if InstrAt(code, ft) && Commits(code[ft].instr) {
      var fft := FinalTarget(code, ft + code[ft].instr.off);
      RelabelKeeps(code[i := I(WithOff(code[ft].instr, fft - i))], i);
    } else {
      ChainsKept(code, i, I(IJmp(ft - i)));
    }
  }

  lemma PeepingStep(cur: seq<Slot>, i: nat, done: seq<Slot>)
    requires Peeping(cur, i, done) && i < |cur|
    ensures InstrAt(cur, i) && (cur[i].instr.IJmp? ==> i + 1 < |cur|)
    ensures var next := PeepAt(cur, i);
            InstrAt(next, i) && |next| == |cur| && Peeping(next, i + SizeI(next[i].instr), done)
  {
    hide Peephole, ChainsEnd, LabelsIn, Tidy, FinalTarget, Relabel;
    PeepAtTidy(cur, i);
    PeepAtShape(cur, i);
    var next := PeepAt(cur, i);
    PeepUnfold(cur, i);
    PeepLast(cur, i);
    if cur[i].instr.IJmp? {
      JumpKeeps(cur, i);
    } else if HasLabel(cur[i].instr) {
      RelabelKeeps(cur, i);
    }
  }

  lemma PeepUnfold(cur: seq<Slot>, i: nat)
    requires InstrAt(cur, i) && InstrAt(PeepAt(cur, i), i)
    ensures var next := PeepAt(cur, i); Peephole(cur, i) == Peephole(next, i + SizeI(next[i].instr))
  {
  }

  lemma PeepLast(cur: seq<Slot>, i: nat)
    requires InstrAt(cur, i) && cur[|cur| - 1] == I(IEnd) && i + SizeI(cur[i].instr) <= |cur|
    requires forall k | i < k < i + SizeI(cur[i].instr) :: cur[k].Pad?
    ensures PeepAt(cur, i)[|cur| - 1] == I(IEnd)
  {
  }
}
