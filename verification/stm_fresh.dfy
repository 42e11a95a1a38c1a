// Shared snapshots over whole runs: updates publish their copy, and reads see what was current meanwhile.

module StmFresh {
  import opened Options
  import opened Stm
  import RwLock

  // ---- What happened, read from the steps of the run ----

  /** What a thread was last asked to do, and before which step. An update makes copy 'copy'. */
  datatype Op = NoOp | Reader(from: nat) | Updater(from: nat, copy: nat) | Deleter(from: nat) | Closer(from: nat)

  function OpOf(n: nat, steps: seq<(nat, Choice)>, t: nat): Op
    requires t < n
  {
    if steps == [] then NoOp
    else
      var k := |steps| - 1;
      var s := Run(n, steps[..k]);
      if steps[k].0 != t || !s.threads[t].pc.Idle? then OpOf(n, steps[..k], t)
      else
        match steps[k].1
        case Read => Reader(k)
        case Update => Updater(k, |s.copies|)
        case Delete => Deleter(k)
        case CloseReader => Closer(k)
  }

  /** The last step lets go of the lock that its thread had for writing. */
  predicate EndsWriting(n: nat, steps: seq<(nat, Choice)>)
    requires steps != []
  {
    var k := |steps| - 1;
    var t := steps[k].0;
    && t < n && Formed(Run(n, steps[..k]))
    && Run(n, steps[..k]).lock.pcs[t].Writing? && !Run(n, steps).lock.pcs[t].Writing?
  }

  /**
   * What was current before the first step, and after each: the copy of the last update that had
   * the lock, none after a deletion, and at first the copy the object was made with.
   */
  function Current(n: nat, steps: seq<(nat, Choice)>): (h: seq<Option<nat>>)
    ensures |h| == |steps| + 1
  {
    if steps == [] then [Some(0)]
    else
      var k := |steps| - 1;
      var h := Current(n, steps[..k]);
      if EndsWriting(n, steps) then
        var op := OpOf(n, steps[..k], steps[k].0);
        h + [if op.Updater? then Some(op.copy) else None]
      else h + [h[k]]
  }

  /** 'v' was current at some moment since step 'from'. */
  ghost predicate Was(h: seq<Option<nat>>, from: nat, v: Option<nat>) {
    exists j: nat :: from <= j < |h| && h[j] == v
  }

  // ---- How threads and history fit ----

  /** The thread has given the object its new copy and still has the lock. */
  predicate Written(pc: Pc) { pc.WriteUnlock? || pc.DeleteUnlock? }

  ghost predicate Fits(th: Thread, op: Op, cur: Option<nat>, h: seq<Option<nat>>) {
    && (op.NoOp? || op.from < |h|)
    && match th.pc
       case Idle => Ended(th.last, op, h)
       case ReadLock => op.Reader?
       case Load => op.Reader?
       case Ref(c) => op.Reader? && Was(h, op.from, c)
       case ReadUnlock(c) => op.Reader? && Was(h, op.from, c)
       case Compare(c) => op.Reader? && Was(h, op.from, c)
       case Store(c) => ToBox(op, c, h)
       case WriteLock(c) => op.Updater? && op.copy == c
       case Swap(c) => op.Updater? && op.copy == c
       case Set(c, _) => op.Updater? && op.copy == c
       case WriteUnlock(_) => op.Updater? && cur == Some(op.copy)
       case DeleteLock => op.Deleter?
       case DeleteLoad => op.Deleter?
       case Clear(_) => op.Deleter?
       case DeleteUnlock => op.Deleter? && cur == None
       case Put(_, next) => Going(next, th.last, op, h)
       case Free(_, next) => Going(next, th.last, op, h)
  }

  /** What a thread has done when it is idle again. */
  ghost predicate Ended(last: Option<nat>, op: Op, h: seq<Option<nat>>) {
    && (op.Updater? ==> Was(h, op.from + 1, Some(op.copy)))
    && (op.Reader? ==> Was(h, op.from, last))
  }

  ghost predicate ToBox(op: Op, c: Option<nat>, h: seq<Option<nat>>) {
    op.Closer? || (op.Reader? && Was(h, op.from, c))
  }

  ghost predicate Going(next: Next, last: Option<nat>, op: Op, h: seq<Option<nat>>) {
    match next
    case ToIdle => (op.Reader? || op.Updater?) && Ended(last, op, h)
    case ToStore(c) => ToBox(op, c, h)
    case ToClear => op.Deleter?
  }

  ghost predicate FreshInv(n: nat, steps: seq<(nat, Choice)>) {
    var s, h := Run(n, steps), Current(n, steps);
    && (forall t | 0 <= t < n :: Fits(s.threads[t], OpOf(n, steps, t), s.cur, h))
    && ((forall t | 0 <= t < n :: !Written(s.threads[t].pc)) ==> s.cur == h[|steps|])
  }

  lemma WasStill(h: seq<Option<nat>>, v: Option<nat>)
    ensures forall from: nat, c | Was(h, from, c) :: Was(h + [v], from, c)
  {
    forall from: nat, c | Was(h, from, c) ensures Was(h + [v], from, c) {
      var j: nat :| from <= j < |h| && h[j] == c;
      assert (h + [v])[j] == c;
    }
  }

  lemma WasLast(h: seq<Option<nat>>, from: nat)
    requires from < |h|
    ensures Was(h, from, h[|h| - 1])
  {
  }

  /** A thread that does not move, while another does. */
  lemma StillFits(th: Thread, op: Op, cur: Option<nat>, cur': Option<nat>, h: seq<Option<nat>>, v: Option<nat>)
    requires Fits(th, op, cur, h) && (Written(th.pc) ==> cur' == cur)
    ensures Fits(th, op, cur', h + [v])
  {
    WasStill(h, v);
  }

  // ---- Every step keeps this ----

  function NewOp(s: State, t: nat, w: Choice, op: Op, k: nat): Op
    requires t < |s.threads|
  {
    if !s.threads[t].pc.Idle? then op
    else
      match w
      case Read => Reader(k)
      case Update => Updater(k, |s.copies|)
      case Delete => Deleter(k)
      case CloseReader => Closer(k)
  }

  /** The thread gives the lock back after it wrote. */
  predicate Ends(s: State, t: nat, w: Choice)
    requires Formed(s) && t < |s.threads|
  {
    s.lock.pcs[t].Writing? && !Step(s, t, w).lock.pcs[t].Writing?
  }

  function NewCurrent(s: State, t: nat, w: Choice, op: Op, was: Option<nat>): Option<nat>
    requires Formed(s) && t < |s.threads|
  {
    if Ends(s, t, w) then if op.Updater? then Some(op.copy) else None else was
  }

  lemma EndsWhere(s: State, t: nat, w: Choice)
    requires Formed(s) && t < |s.threads| && LockFits(s.threads[t].pc, s.lock.pcs[t])
    ensures Ends(s, t, w) <==> Written(s.threads[t].pc)
  {
  }

  ghost predicate MayMove(s: State, t: nat, op: Op, h: seq<Option<nat>>) {
    && Formed(s) && t < |s.threads| && LockFits(s.threads[t].pc, s.lock.pcs[t])
    && (s.threads[t].pc.Ref? || s.threads[t].pc.Put? ==> Known(s, s.threads[t].pc.c))
    && h != [] && Fits(s.threads[t], op, s.cur, h)
    && (s.threads[t].pc.Load? ==> s.cur == h[|h| - 1])
    && (Releases(s.threads[t].pc) && s.threads[t].pc.Free? ==> s.threads[t].pc.dead < |s.copies|)
  }

  lemma ReadFits(s: State, t: nat, w: Choice, op: Op, h: seq<Option<nat>>)
    requires MayMove(s, t, op, h) && Reads(s.threads[t].pc)
    ensures var v := NewCurrent(s, t, w, op, h[|h| - 1]);
            Fits(Step(s, t, w).threads[t], NewOp(s, t, w, op, |h| - 1), Step(s, t, w).cur, h + [v])
  {
    hide RwLock.Step, Ends, Was, LockFits;
    var v := NewCurrent(s, t, w, op, h[|h| - 1]);
    WasStill(h, v);
    if s.threads[t].pc.Load? { WasLast(h, op.from); }
  }

  lemma ReleaseFits(s: State, t: nat, w: Choice, op: Op, h: seq<Option<nat>>)
    requires MayMove(s, t, op, h) && !Reads(s.threads[t].pc) && Releases(s.threads[t].pc)
    ensures var v := NewCurrent(s, t, w, op, h[|h| - 1]);
            Fits(Step(s, t, w).threads[t], NewOp(s, t, w, op, |h| - 1), Step(s, t, w).cur, h + [v])
  {
    EndsWhere(s, t, w);
    hide RwLock.Step, Ends, Was, LockFits;
    var v := NewCurrent(s, t, w, op, h[|h| - 1]);
    WasStill(h, v);
  }

  lemma LockedFits(s: State, t: nat, w: Choice, op: Op, h: seq<Option<nat>>)
    requires MayMove(s, t, op, h) && !Reads(s.threads[t].pc) && !Releases(s.threads[t].pc)
    ensures var v := NewCurrent(s, t, w, op, h[|h| - 1]);
            Fits(Step(s, t, w).threads[t], NewOp(s, t, w, op, |h| - 1), Step(s, t, w).cur, h + [v])
  {
    EndsWhere(s, t, w);
    hide RwLock.Step, Ends, Was, LockFits;
    var v := NewCurrent(s, t, w, op, h[|h| - 1]);
    WasStill(h, v);
    if s.threads[t].pc.WriteUnlock? { WasLast(h + [v], op.from + 1); }
  }

  lemma WriteFits(s: State, t: nat, w: Choice, op: Op, h: seq<Option<nat>>)
    requires MayMove(s, t, op, h) && !Reads(s.threads[t].pc)
    ensures var v := NewCurrent(s, t, w, op, h[|h| - 1]);
            Fits(Step(s, t, w).threads[t], NewOp(s, t, w, op, |h| - 1), Step(s, t, w).cur, h + [v])
  {
    hide Step, Fits, NewCurrent, NewOp, LockFits;
    if Releases(s.threads[t].pc) { ReleaseFits(s, t, w, op, h); } else { LockedFits(s, t, w, op, h); }
  }

  lemma WritesThen(s: State, t: nat, w: Choice)
    requires Formed(s) && t < |s.threads| && Writes(s.threads[t].pc)
    ensures Written(Step(s, t, w).threads[t].pc)
  {
  }

  lemma WrittenWriting(pc: Pc, l: RwLock.Pc)
    requires LockFits(pc, l) && (Written(pc) || Writes(pc))
    ensures l.Writing?
  {
  }

  lemma MoverMay(n: nat, steps: seq<(nat, Choice)>, t: nat)
    requires t < n && Inv(Run(n, steps)) && FreshInv(n, steps)
    ensures MayMove(Run(n, steps), t, OpOf(n, steps, t), Current(n, steps))
  {
    hide RwLock.Inv, Fits, Current, OpOf, Run, LockFits;
    var s := Run(n, steps);
    KnownHeld(s, t);
    var pc := s.threads[t].pc;
    if pc.Free? {
      assert CopyInv(s, pc.dead);
      if pc.dead >= |s.copies| { NoneFrees(s.threads, t, pc.dead); }
    }
    if pc.Load? {
      forall u | 0 <= u < n ensures !Written(s.threads[u].pc) {
        if Written(s.threads[u].pc) { LoadAlone(s, t, u); }
      }
    }
  }

  lemma LoadAlone(s: State, t: nat, u: nat)
    requires ThreadsInv(s) && t < |s.threads| && u < |s.threads| && s.threads[t].pc.Load?
    ensures !Written(s.threads[u].pc)
  {
    hide RwLock.Inv;
    assert LockFits(s.threads[t].pc, s.lock.pcs[t]) && LockFits(s.threads[u].pc, s.lock.pcs[u]);
    if Written(s.threads[u].pc) { Alone(s, u, t); }
  }

  /** While a thread has written, no other one changes what the object points to. */
  lemma OthersKeep(s: State, t: nat, u: nat, w: Choice)
    requires Inv(s) && t < |s.threads| && u < |s.threads| && t != u && Written(s.threads[u].pc)
    ensures Step(s, t, w).cur == s.cur
  {
    hide RwLock.Inv, Step, Weight, LockFits;
    KnownHeld(s, t);
    SeesStep(s, t, w);
    assert LockFits(s.threads[t].pc, s.lock.pcs[t]) && LockFits(s.threads[u].pc, s.lock.pcs[u]);
    WrittenWriting(s.threads[u].pc, s.lock.pcs[u]);
    if Writes(s.threads[t].pc) {
      WrittenWriting(s.threads[t].pc, s.lock.pcs[t]);
      Alone(s, t, u);
    }
  }

  lemma {:induction false} FreshRun(n: nat, steps: seq<(nat, Choice)>)
    ensures FreshInv(n, steps)
  {
    if steps != [] {
      var k := |steps| - 1;
      var was, t, w := steps[..k], steps[k].0, steps[k].1;
      FreshRun(n, was);
      RunInv(n, was);
      if t < n { FreshStep(n, was, t, w); } else { FreshStill(n, steps); }
      assert steps == was + [(t, w)];
    } else {
      assert forall t | 0 <= t < n :: OpOf(n, [], t) == NoOp;
    }
  }

  lemma FreshStill(n: nat, steps: seq<(nat, Choice)>)
    requires steps != [] && steps[|steps| - 1].0 >= n && FreshInv(n, steps[..|steps| - 1])
    ensures FreshInv(n, steps)
  {
    hide Fits;
    var was := steps[..|steps| - 1];
    var s, h := Run(n, was), Current(n, was);
    forall t | 0 <= t < n ensures Fits(s.threads[t], OpOf(n, steps, t), s.cur, h + [h[|was|]]) {
      StillFits(s.threads[t], OpOf(n, was, t), s.cur, s.cur, h, h[|was|]);
    }
  }

  lemma RunMore(n: nat, was: seq<(nat, Choice)>, t: nat, w: Choice)
    requires t < n
    ensures var steps, s := was + [(t, w)], Run(n, was);
            && Formed(s) && Run(n, steps) == Step(s, t, w)
            && Current(n, steps) == Current(n, was) + [NewCurrent(s, t, w, OpOf(n, was, t), Current(n, was)[|was|])]
            && OpOf(n, steps, t) == NewOp(s, t, w, OpOf(n, was, t), |was|)
            && (forall u | 0 <= u < n && u != t :: OpOf(n, steps, u) == OpOf(n, was, u))
  {
    hide Step;
    var steps := was + [(t, w)];
    assert steps[..|was|] == was && steps[|was|] == (t, w);
  }

  lemma FreshStep(n: nat, was: seq<(nat, Choice)>, t: nat, w: Choice)
    requires t < n && Inv(Run(n, was)) && FreshInv(n, was)
    ensures FreshInv(n, was + [(t, w)])
  {
    var s, h, op := Run(n, was), Current(n, was), OpOf(n, was, t);
    var s' := Step(s, t, w);
    var v := NewCurrent(s, t, w, op, h[|was|]);
    RunMore(n, was, t, w);
    MoverMay(n, was, t);
    KnownHeld(s, t);
    OthersStay(s, t, w);
    EndsWhere(s, t, w);
    hide Run, Current, OpOf, Step, NewCurrent, Fits, NewOp, RwLock.Inv, Ends, CopyInv, LockFits, Sees, Weight;
    if Reads(s.threads[t].pc) { ReadFits(s, t, w, op, h); } else { WriteFits(s, t, w, op, h); }
    forall u | 0 <= u < n && u != t ensures Fits(s'.threads[u], OpOf(n, was, u), s'.cur, h + [v]) {
      if Written(s.threads[u].pc) { OthersKeep(s, t, u, w); }
      StillFits(s.threads[u], OpOf(n, was, u), s.cur, s'.cur, h, v);
    }
    if forall u | 0 <= u < n :: !Written(s'.threads[u].pc) {
      NewIsCurrent(s, t, w, op, h);
    }
  }

  lemma NewIsCurrent(s: State, t: nat, w: Choice, op: Op, h: seq<Option<nat>>)
    requires ThreadsInv(s) && MayMove(s, t, op, h)
    requires (forall u | 0 <= u < |s.threads| :: !Written(s.threads[u].pc)) ==> s.cur == h[|h| - 1]
    requires forall u | 0 <= u < |Step(s, t, w).threads| :: !Written(Step(s, t, w).threads[u].pc)
    ensures Step(s, t, w).cur == NewCurrent(s, t, w, op, h[|h| - 1])
  {
    OthersStay(s, t, w);
    EndsWhere(s, t, w);
    hide Step, RwLock.Inv, Ends, LockFits;
    SeesStep(s, t, w);
    var pc := s.threads[t].pc;
    if Writes(pc) {
      WritesThen(s, t, w);
      assert false;
    } else if !Written(pc) {
      forall u | 0 <= u < |s.threads| ensures !Written(s.threads[u].pc) {
        if u != t { assert Step(s, t, w).threads[u] == s.threads[u]; }
      }
    }
  }

  // ---- What updates and reads promise ----

  /** Whenever nobody has the lock for writing, the object points to the copy of the last update that had it. */
  lemma ObjectIsCurrent(n: nat, steps: seq<(nat, Choice)>)
    requires forall t | 0 <= t < n :: !Run(n, steps).lock.pcs[t].Writing?
    ensures Run(n, steps).cur == Current(n, steps)[|steps|]
  {
    hide Fits, Current, RwLock.Inv;
    RunInv(n, steps);
    FreshRun(n, steps);
    var s := Run(n, steps);
    forall t | 0 <= t < n ensures !Written(s.threads[t].pc) {
      assert LockFits(s.threads[t].pc, s.lock.pcs[t]);
      if Written(s.threads[t].pc) { WrittenWriting(s.threads[t].pc, s.lock.pcs[t]); }
    }
  }

  /** A finished update was current at some moment of it. */
  lemma UpdatePublishes(n: nat, steps: seq<(nat, Choice)>, t: nat)
    requires t < n && Run(n, steps).threads[t].pc.Idle? && OpOf(n, steps, t).Updater?
    ensures var op := OpOf(n, steps, t); Was(Current(n, steps), op.from + 1, Some(op.copy))
  {
    hide Current, OpOf, Run;
    FreshRun(n, steps);
    assert Fits(Run(n, steps).threads[t], OpOf(n, steps, t), Run(n, steps).cur, Current(n, steps));
  }

  /** A finished read leaves in the reader box a copy that was current at some moment of the read. */
  lemma ReadIsFresh(n: nat, steps: seq<(nat, Choice)>, t: nat)
    requires t < n && Run(n, steps).threads[t].pc.Idle? && OpOf(n, steps, t).Reader?
    ensures Was(Current(n, steps), OpOf(n, steps, t).from, Run(n, steps).threads[t].last)
  {
    hide Current, OpOf, Run;
    FreshRun(n, steps);
    assert Fits(Run(n, steps).threads[t], OpOf(n, steps, t), Run(n, steps).cur, Current(n, steps));
  }

  /** So a read during which nothing else becomes current returns what was current when it began. */
  lemma ReadsLatest(n: nat, steps: seq<(nat, Choice)>, t: nat)
    requires t < n && Run(n, steps).threads[t].pc.Idle? && OpOf(n, steps, t).Reader?
    requires var h, from := Current(n, steps), OpOf(n, steps, t).from;
             from <= |steps| && forall j | from <= j <= |steps| :: h[j] == h[from]
    ensures Run(n, steps).threads[t].last == Current(n, steps)[OpOf(n, steps, t).from]
  {
    ReadIsFresh(n, steps, t);
  }

  // ---- They end ----

  /** 'k' steps of one thread. */
  function Solo(s: State, t: nat, w: Choice, k: nat): (r: State)
    requires Formed(s) && t < |s.threads|
    ensures Formed(r) && |r.threads| == |s.threads|
  {
    if k == 0 then s
    else
      var s' := Solo(s, t, w, k - 1);
      Formation(s', t, w);
      Step(s', t, w)
  }

  lemma {:induction false} SoloAdds(s: State, t: nat, w: Choice, j: nat, k: nat)
    requires Formed(s) && t < |s.threads|
    ensures Solo(s, t, w, j + k) == Solo(Solo(s, t, w, j), t, w, k)
    decreases k
  {
    hide Step;
    if k > 0 { SoloAdds(s, t, w, j, k - 1); }
  }

  lemma SoloOne(s: State, t: nat, w: Choice)
    requires Formed(s) && t < |s.threads|
    ensures Solo(s, t, w, 1) == Step(s, t, w)
  {
    hide Step;
    assert Solo(s, t, w, 0) == s;
  }

  /** No one else is at the lock. */
  predicate Undisturbed(s: State, t: nat) {
    && Formed(s) && t < |s.threads| && forall u | 0 <= u < |s.threads| && u != t :: s.lock.pcs[u].Out?
  }

  lemma {:induction false} NoneElse(pcs: seq<RwLock.Pc>, t: nat)
    requires t < |pcs| && forall u | 0 <= u < |pcs| && u != t :: pcs[u].Out?
    ensures RwLock.Count(pcs) == if RwLock.Counted(pcs[t]) then 1 else 0
    decreases |pcs|
  {
    var n := |pcs| - 1;
    if t == n {
      AllOut(pcs[..n]);
    } else {
      NoneElse(pcs[..n], t);
    }
  }

  lemma {:induction false} AllOut(pcs: seq<RwLock.Pc>)
    requires forall u | 0 <= u < |pcs| :: pcs[u].Out?
    ensures RwLock.Count(pcs) == 0
  {
    if pcs != [] { AllOut(pcs[..|pcs| - 1]); }
  }

  /** An open lock: nobody counted, nobody writing. */
  lemma LockOpen(s: State, t: nat)
    requires ThreadsInv(s) && Undisturbed(s, t) && s.lock.pcs[t].Out?
    ensures !s.lock.write && s.lock.read == 0
  {
    NoneElse(s.lock.pcs, t);
  }

  lemma GetsWriting(s: State, t: nat, w: Choice)
    requires Undisturbed(s, t) && s.threads[t].pc.WriteLock? && s.lock.pcs[t].Out? && !s.lock.write && s.lock.read == 0
    ensures var c, r := s.threads[t].pc.copy, Solo(s, t, w, 4);
            && r.threads == s.threads[t := s.threads[t].(pc := Swap(c))] && r.copies == s.copies && r.cur == s.cur
            && r.lock.pcs[t].Writing?
  {
    var s1 := Step(s, t, w);
    var s2 := Step(s1, t, w);
    var s3 := Step(s2, t, w);
    assert s1.lock.pcs[t].Grab? && s2.lock.pcs[t].Drain? && s3.lock.pcs[t].Writing?;
    assert Solo(s, t, w, 0) == s && Solo(s, t, w, 1) == s1 && Solo(s, t, w, 2) == s2 && Solo(s, t, w, 3) == s3;
  }

  /** From the lock to the end of an update. */
  lemma Swaps6(s: State, t: nat, w: Choice) returns (k: nat)
    requires Undisturbed(s, t) && s.threads[t].pc.Swap? && s.lock.pcs[t].Writing? && Known(s, s.cur)
    ensures var r := Solo(s, t, w, k); r.threads[t].pc.Idle? && r.cur == Some(s.threads[t].pc.copy) && k > 0
  {
    var c, was := s.threads[t].pc.copy, s.cur;
    var s1 := Step(s, t, w);
    var s2 := Step(s1, t, w);
    var s3 := Step(s2, t, w);
    var s4 := Step(s3, t, w);
    assert s1.threads[t].pc == Set(c, was) && s2.threads[t].pc == WriteUnlock(was);
    assert s3.threads[t].pc == Put(was, ToIdle);
    assert Solo(s, t, w, 0) == s && Solo(s, t, w, 1) == s1 && Solo(s, t, w, 2) == s2 && Solo(s, t, w, 3) == s3;
    assert Solo(s, t, w, 4) == s4;
    k := 4;
    if s4.threads[t].pc.Free? {
      assert Step(s4, t, w).threads[t].pc.Idle?;
      k := 5;
      assert Solo(s, t, w, 5) == Step(s4, t, w);
    }
  }

  lemma Begins(s: State, t: nat, w: Choice)
    requires Inv(s) && Undisturbed(s, t) && s.threads[t].pc.Idle? && (w.Update? || w.Read?)
    ensures var r := Solo(s, t, w, 1);
            && Undisturbed(r, t) && r.lock == s.lock && r.lock.pcs[t].Out? && !r.lock.write && r.lock.read == 0
            && r.threads[t].pc == (if w.Read? then ReadLock else WriteLock(|s.copies|))
            && r.threads[t].last == s.threads[t].last && r.cur == s.cur && |s.copies| <= |r.copies|
            && Known(s, s.cur) && Known(s, s.threads[t].last)
  {
    hide RwLock.Inv;
    assert LockFits(s.threads[t].pc, s.lock.pcs[t]);
    LockOpen(s, t);
    LastKnown(s, t);
    SoloOne(s, t, w);
  }

  /** An update that is not disturbed ends, and its copy is the object's. */
  lemma UpdateEnds(s: State, t: nat) returns (k: nat)
    requires Inv(s) && Undisturbed(s, t) && s.threads[t].pc.Idle?
    ensures k > 0 && var r := Solo(s, t, Update, k); r.threads[t].pc.Idle? && r.cur == Some(|s.copies|)
  {
    hide Step, Inv, Solo, Formed;
    Begins(s, t, Update);
    var s1 := Solo(s, t, Update, 1);
    GetsWriting(s1, t, Update);
    var s2 := Solo(s1, t, Update, 4);
    SoloAdds(s, t, Update, 1, 4);
    SoloOthers(s1, t, Update, 4);
    k := Swaps6(s2, t, Update);
    SoloAdds(s, t, Update, 5, k);
    k := 5 + k;
  }

  lemma {:induction false} SoloOthers(s: State, t: nat, w: Choice, k: nat)
    requires Undisturbed(s, t)
    ensures Undisturbed(Solo(s, t, w, k), t)
    decreases k
  {
    if k > 0 {
      SoloOthers(s, t, w, k - 1);
      StepOthers(Solo(s, t, w, k - 1), t, w);
    }
  }

  lemma StepOthers(s: State, t: nat, w: Choice)
    requires Undisturbed(s, t)
    ensures Undisturbed(Step(s, t, w), t)
  {
    hide RwLock.Step;
    Formation(s, t, w);
  }

  lemma GetsReading(s: State, t: nat, w: Choice)
    requires Undisturbed(s, t) && s.threads[t].pc.ReadLock? && s.lock.pcs[t].Out? && !s.lock.write
    ensures var r := Solo(s, t, w, 5);
            && r.threads == s.threads[t := s.threads[t].(pc := Load)] && r.copies == s.copies && r.cur == s.cur
            && r.lock.pcs[t].Reading?
  {
    var s1 := Step(s, t, w);
    var s2 := Step(s1, t, w);
    var s3 := Step(s2, t, w);
    var s4 := Step(s3, t, w);
    assert s1.lock.pcs[t].Spin? && s2.lock.pcs[t].Enter? && s3.lock.pcs[t].Look? && s4.lock.pcs[t].Reading?;
    assert Solo(s, t, w, 0) == s && Solo(s, t, w, 1) == s1 && Solo(s, t, w, 2) == s2 && Solo(s, t, w, 3) == s3;
    assert Solo(s, t, w, 4) == s4;
  }

  /** From the lock to the comparison of a read. */
  lemma LoadsCopy(s: State, t: nat, w: Choice)
    requires Undisturbed(s, t) && s.threads[t].pc.Load? && s.lock.pcs[t].Reading? && Known(s, s.cur)
    ensures var r := Solo(s, t, w, 3);
            r.threads == s.threads[t := s.threads[t].(pc := Compare(s.cur))] && r.cur == s.cur &&
            |r.copies| == |s.copies|
  {
    var s1 := Step(s, t, w);
    var s2 := Step(s1, t, w);
    var s3 := Step(s2, t, w);
    assert s1.threads[t].pc == Ref(s.cur) && s2.threads[t].pc == ReadUnlock(s.cur);
    assert s3.threads[t].pc == Compare(s.cur);
    assert Solo(s, t, w, 0) == s && Solo(s, t, w, 1) == s1 && Solo(s, t, w, 2) == s2;
  }

  /** Releasing a copy. */
  lemma PutEnds(s: State, t: nat, w: Choice) returns (k: nat)
    requires Undisturbed(s, t) && s.threads[t].pc.Put? && !s.threads[t].pc.next.ToClear? && Known(s, s.threads[t].pc.c)
    ensures var r, next := Solo(s, t, w, k), s.threads[t].pc.next;
            && r.threads[t] == s.threads[t].(pc := if next.ToIdle? then Idle else Store(next.c)) && r.cur == s.cur
  {
    hide RwLock.Step, Locking;
    var s1 := Step(s, t, w);
    SoloOne(s, t, w);
    k := 1;
    if s1.threads[t].pc.Free? {
      SoloAdds(s, t, w, 1, 1);
      SoloOne(s1, t, w);
      hide Solo;
      k := 2;
    }
  }

  /** From the comparison to the end. */
  lemma Compares(s: State, t: nat, w: Choice) returns (k: nat)
    requires Undisturbed(s, t) && s.threads[t].pc.Compare?
    requires Known(s, s.threads[t].pc.c) && Known(s, s.threads[t].last)
    ensures var r := Solo(s, t, w, k); r.threads[t] == Thread(Idle, s.threads[t].pc.c) && r.cur == s.cur
  {
    hide RwLock.Step, Locking, Solo;
    var c := s.threads[t].pc.c;
    SoloOne(s, t, w);
    var s1 := Step(s, t, w);
    StepOthers(s, t, w);
    k := PutEnds(s1, t, w);
    SoloAdds(s, t, w, 1, k);
    var s2 := Solo(s1, t, w, k);
    k := 1 + k;
    if s2.threads[t].pc.Store? {
      SoloAdds(s, t, w, k, 1);
      SoloOne(s2, t, w);
      k := k + 1;
    }
  }

  /** A read that is not disturbed ends, with the object's copy. */
  lemma ReadEnds(s: State, t: nat) returns (k: nat)
    requires Inv(s) && Undisturbed(s, t) && s.threads[t].pc.Idle?
    ensures k > 0 && Solo(s, t, Read, k).threads[t] == Thread(Idle, s.cur)
  {
    hide Step, Inv, Solo, Formed;
    Begins(s, t, Read);
    var s1 := Solo(s, t, Read, 1);
    GetsReading(s1, t, Read);
    var s2 := Solo(s1, t, Read, 5);
    SoloAdds(s, t, Read, 1, 5);
    SoloOthers(s1, t, Read, 5);
    LoadsCopy(s2, t, Read);
    var s3 := Solo(s2, t, Read, 3);
    SoloAdds(s, t, Read, 6, 3);
    SoloOthers(s2, t, Read, 3);
    k := Compares(s3, t, Read);
    SoloAdds(s, t, Read, 9, k);
    k := 9 + k;
  }

  lemma LastKnown(s: State, t: nat)
    requires Inv(s) && t < |s.threads| && s.threads[t].pc.Idle?
    ensures Known(s, s.threads[t].last)
  {
    hide RwLock.Inv;
    var last := s.threads[t].last;
    if last.Some? { assert CopyInv(s, last.value); }
  }
}
