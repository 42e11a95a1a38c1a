// Shared snapshots (lua-stm.c): reference-counted copies behind the reader/writer lock.

module Stm {
  import opened Options
  import RwLock

  /** A copy: its reference counter, and how often it was freed. */
  datatype Copy = Copy(ref: int, freed: nat)

  /** What a thread goes on with after it released a copy. */
  datatype Next = ToIdle | ToStore(c: Option<nat>) | ToClear

  /**
   * Where a thread is: reading ('lread'), updating ('stm_update'), deleting the writer ('stm_release')
   * or releasing a copy ('stm_releasecopy').
   */
  datatype Pc =
    | Idle
    | ReadLock
    | Load
    | Ref(c: Option<nat>)
    | ReadUnlock(c: Option<nat>)
    | Compare(c: Option<nat>)
    | Store(c: Option<nat>)
    | WriteLock(copy: nat)
    | Swap(copy: nat)
    | Set(copy: nat, was: Option<nat>)
    | WriteUnlock(was: Option<nat>)
    | DeleteLock
    | DeleteLoad
    | Clear(c: Option<nat>)
    | DeleteUnlock
    | Put(c: Option<nat>, next: Next)
    | Free(dead: nat, next: Next)

  /** A thread and the copy its reader box remembers. */
  datatype Thread = Thread(pc: Pc, last: Option<nat>)

  /** The object points to 'cur'. */
  datatype State = State(lock: RwLock.Lock, cur: Option<nat>, copies: seq<Copy>, threads: seq<Thread>, deleted: bool)

  datatype Choice = Read | Update | Delete | CloseReader

  function Start(n: nat): State {
    State(RwLock.Start(n), Some(0), [Copy(1, 0)], seq(n, _ => Thread(Idle, None)), false)
  }

  predicate Formed(s: State) { |s.lock.pcs| == |s.threads| }

  function Goto(s: State, t: nat, pc: Pc): State
    requires t < |s.threads|
  {
    s.(threads := s.threads[t := s.threads[t].(pc := pc)])
  }

  /** An access of thread 't' to the lock. */
  function Locking(s: State, t: nat, w: RwLock.Wish): (r: State)
    requires Formed(s) && t < |s.threads|
    ensures Formed(r) && r.threads == s.threads && r.copies == s.copies && r.cur == s.cur
  {
    s.(lock := RwLock.Step(s.lock, t, w))
  }

  function Resume(next: Next, c: Option<nat>): Pc {
    match next
    case ToIdle => Idle
    case ToStore(d) => Store(d)
    case ToClear => Clear(c)
  }

  function Bump(copies: seq<Copy>, c: nat, d: int): seq<Copy>
    requires c < |copies|
  {
    copies[c := copies[c].(ref := copies[c].ref + d)]
  }

  predicate Known(s: State, c: Option<nat>) { c.Some? ==> c.value < |s.copies| }

  /** One step of thread 't'. */
  function Step(s: State, t: nat, w: Choice): State
    requires Formed(s) && t < |s.threads|
  {
    var th := s.threads[t];
    match th.pc
    case Idle => (
      match w
      case Read => Goto(s, t, ReadLock)
      case Update => Goto(s, t, WriteLock(|s.copies|)).(copies := s.copies + [Copy(1, 0)])
      case Delete => if s.deleted then s else Goto(s, t, DeleteLock).(deleted := true)
      case CloseReader => Goto(s, t, Put(th.last, ToStore(None))))
    case ReadLock => if s.lock.pcs[t].Reading? then Goto(s, t, Load) else Locking(s, t, RwLock.ToRead)
    case Load => Goto(s, t, Ref(s.cur))
    case Ref(c) =>
      if c.Some? && Known(s, c) then Goto(s, t, ReadUnlock(c)).(copies := Bump(s.copies, c.value, 1))
      else Goto(s, t, ReadUnlock(None))
    case ReadUnlock(c) => Goto(Locking(s, t, RwLock.ToLeave), t, Compare(c))
    case Compare(c) =>
      if c == th.last then Goto(s, t, Put(c, ToIdle)) else Goto(s, t, Put(th.last, ToStore(c)))
    case Store(c) => s.(threads := s.threads[t := Thread(Idle, c)])
    case WriteLock(c) => if s.lock.pcs[t].Writing? then Goto(s, t, Swap(c)) else Locking(s, t, RwLock.ToWrite)
    case Swap(c) => Goto(s, t, Set(c, s.cur))
    case Set(c, was) => Goto(s, t, WriteUnlock(was)).(cur := Some(c))
    case WriteUnlock(was) => Goto(Locking(s, t, RwLock.ToLeave), t, Put(was, ToIdle))
    case DeleteLock =>
      if s.lock.pcs[t].Writing? then Goto(s, t, DeleteLoad) else Locking(s, t, RwLock.ToWrite)
    case DeleteLoad => Goto(s, t, Put(s.cur, ToClear))
    case Clear(_) => Goto(s, t, DeleteUnlock).(cur := None)
    case DeleteUnlock => Goto(Locking(s, t, RwLock.ToLeave), t, Idle)
    case Put(c, next) =>
      if c.Some? && Known(s, c) then
        var left := s.copies[c.value].ref - 1;
        Goto(s, t, if left == 0 then Free(c.value, next) else Resume(next, c)).(copies := Bump(s.copies, c.value, -1))
      else Goto(s, t, Resume(next, None))
    case Free(c, next) =>
      if c < |s.copies| then
        Goto(s, t, Resume(next, Some(c))).(copies := s.copies[c := s.copies[c].(freed := s.copies[c].freed + 1)])
      else s
  }

  // ---- Who holds a copy ----

  function One(b: bool): int { if b then 1 else 0 }

  /** The reader box is being given another copy. */
  predicate Storing(pc: Pc) {
    pc.Store? || ((pc.Put? || pc.Free?) && pc.next.ToStore?)
  }

  /** The writer is releasing the object's copy, to which the object still points. */
  predicate Deleting(pc: Pc) { pc.Clear? || ((pc.Put? || pc.Free?) && pc.next.ToClear?) }

  /** References to copy 'c' in the hand of a thread. The one it took from the object counts as missing there. */
  function InHand(pc: Pc, c: nat): int {
    match pc
    case ReadUnlock(d) => One(d == Some(c))
    case Compare(d) => One(d == Some(c))
    case Store(d) => One(d == Some(c))
    case WriteLock(d) => One(d == c)
    case Swap(d) => One(d == c)
    case Set(d, _) => One(d == c)
    case WriteUnlock(d) => One(d == Some(c))
    case Put(d, next) =>
      if next.ToClear? then 0 else One(d == Some(c)) + One(next.ToStore? && next.c == Some(c))
    case Free(d, next) => if next.ToClear? then -One(d == c) else One(next.ToStore? && next.c == Some(c))
    case Clear(d) => -One(d == Some(c))
    case _ => 0
  }

  function Weight(th: Thread, c: nat): int {
    InHand(th.pc, c) + One(!Storing(th.pc) && th.last == Some(c))
  }

  function Total(threads: seq<Thread>, c: nat): int {
    if threads == [] then 0 else Total(threads[..|threads| - 1], c) + Weight(threads[|threads| - 1], c)
  }

  /** Threads about to free 'c'. */
  function Frees(threads: seq<Thread>, c: nat): nat {
    if threads == [] then 0
    else Frees(threads[..|threads| - 1], c) + if IsFree(threads[|threads| - 1].pc, c) then 1 else 0
  }

  predicate IsFree(pc: Pc, c: nat) { pc.Free? && pc.dead == c }

  lemma {:induction false} Moves(threads: seq<Thread>, t: nat, th: Thread, c: nat)
    requires t < |threads|
    ensures Total(threads[t := th], c) == Total(threads, c) - Weight(threads[t], c) + Weight(th, c)
    ensures Frees(threads[t := th], c) ==
            Frees(threads, c) - (if IsFree(threads[t].pc, c) then 1 else 0) + if IsFree(th.pc, c) then 1 else 0
  {
    hide Weight, IsFree;
    var n := |threads| - 1;
    if t == n {
      assert threads[t := th][..n] == threads[..n];
    } else {
      assert threads[t := th][..n] == threads[..n][t := th];
      Moves(threads[..n], t, th, c);
    }
  }

  /** Where a thread must be for its place in the code. */
  predicate LockFits(pc: Pc, l: RwLock.Pc) {
    if pc.Load? || pc.Ref? || pc.ReadUnlock? then l.Reading?
    else if pc.Swap? || pc.Set? || pc.WriteUnlock? || pc.DeleteLoad? || pc.DeleteUnlock? || Deleting(pc) then
      l.Writing?
    else if pc.ReadLock? then l.Out? || l.Spin? || l.Enter? || l.Look? || l.Back? || l.Reading?
    else if pc.WriteLock? || pc.DeleteLock? then l.Out? || l.Grab? || l.Drain? || l.Writing?
    else l.Out?
  }

  /** What a thread read from the object is still there; a writer's old copy is the object's. */
  predicate Sees(pc: Pc, cur: Option<nat>) {
    match pc
    case Ref(c) => c == cur
    case Set(_, was) => was == cur
    case Put(c, next) => next.ToClear? ==> c == cur
    case Free(c, next) => next.ToClear? ==> Some(c) == cur
    case Clear(c) => c == cur
    case _ => true
  }

  ghost predicate ThreadsInv(s: State) {
    && Formed(s) && RwLock.Inv(s.lock)
    && (forall t | 0 <= t < |s.threads| :: LockFits(s.threads[t].pc, s.lock.pcs[t]))
    && (forall t | 0 <= t < |s.threads| :: Sees(s.threads[t].pc, s.cur))
    && Known(s, s.cur)
  }

  /** Each copy counts its holders; it is freed, or about to be freed, once, when there is none. */
  ghost predicate CopiesInv(s: State) {
    forall c: nat :: CopyInv(s, c)
  }

  ghost predicate CopyInv(s: State, c: nat) {
    if c < |s.copies| then
      && s.copies[c].ref == One(s.cur == Some(c)) + Total(s.threads, c)
      && s.copies[c].freed + Frees(s.threads, c) == if s.copies[c].ref == 0 then 1 else 0
    else
      && Total(s.threads, c) == 0 && Frees(s.threads, c) == 0
      && (forall t | 0 <= t < |s.threads| :: Weight(s.threads[t], c) == 0)
  }

  // ---- Every step keeps both ----

  lemma LockStep(s: State, t: nat, w: RwLock.Wish)
    requires Formed(s) && RwLock.Inv(s.lock) && t < |s.threads|
    ensures RwLock.Inv(Locking(s, t, w).lock)
  {
    RwLock.StepInv(s.lock, t, w);
  }

  /** A writer inside is alone. */
  lemma Alone(s: State, t: nat, u: nat)
    requires ThreadsInv(s) && t < |s.threads| && u < |s.threads| && t != u && s.lock.pcs[t].Writing?
    ensures !s.lock.pcs[u].Writing? && !s.lock.pcs[u].Reading?
  {
    assert RwLock.Flagged(s.lock.pcs[t]);
    assert forall pc: RwLock.Pc :: pc.Writing? ==> RwLock.Flagged(pc);
  }

  /** Reading the object's copy. */
  predicate Reads(pc: Pc) {
    pc.ReadLock? || pc.Load? || pc.Ref? || pc.ReadUnlock? || pc.Compare? || pc.Store?
  }

  /** Waiting for the lock. */
  predicate Waits(pc: Pc) { pc.ReadLock? || pc.WriteLock? || pc.DeleteLock? }

  lemma LockFitsReading(s: State, t: nat, w: Choice)
    requires Formed(s) && t < |s.threads| && LockFits(s.threads[t].pc, s.lock.pcs[t])
    requires !Waits(s.threads[t].pc) && Reads(s.threads[t].pc)
    ensures var s' := Step(s, t, w);
            && Formed(s') && LockFits(s'.threads[t].pc, s'.lock.pcs[t])
            && (forall u | 0 <= u < |s.threads| && u != t ::
                  s'.threads[u] == s.threads[u] && s'.lock.pcs[u] == s.lock.pcs[u])
  {
  }

  predicate Swaps(pc: Pc) { pc.Swap? || pc.Set? || pc.WriteUnlock? || pc.DeleteLoad? }

  lemma LockFitsSwapping(s: State, t: nat, w: Choice)
    requires Formed(s) && t < |s.threads| && LockFits(s.threads[t].pc, s.lock.pcs[t])
    requires Swaps(s.threads[t].pc)
    ensures var s' := Step(s, t, w);
            && Formed(s') && LockFits(s'.threads[t].pc, s'.lock.pcs[t])
            && (forall u | 0 <= u < |s.threads| && u != t ::
                  s'.threads[u] == s.threads[u] && s'.lock.pcs[u] == s.lock.pcs[u])
  {
  }

  lemma LockFitsWriting(s: State, t: nat, w: Choice)
    requires Formed(s) && t < |s.threads| && LockFits(s.threads[t].pc, s.lock.pcs[t])
    requires !Waits(s.threads[t].pc) && !Reads(s.threads[t].pc)
    ensures var s' := Step(s, t, w);
            && Formed(s') && LockFits(s'.threads[t].pc, s'.lock.pcs[t])
            && (forall u | 0 <= u < |s.threads| && u != t ::
                  s'.threads[u] == s.threads[u] && s'.lock.pcs[u] == s.lock.pcs[u])
  {
    if Swaps(s.threads[t].pc) { LockFitsSwapping(s, t, w); }
  }

  lemma LockFitsWaiting(s: State, t: nat, w: Choice)
    requires Formed(s) && t < |s.threads| && LockFits(s.threads[t].pc, s.lock.pcs[t])
    requires Waits(s.threads[t].pc)
    ensures var s' := Step(s, t, w);
            && Formed(s') && LockFits(s'.threads[t].pc, s'.lock.pcs[t])
            && (forall u | 0 <= u < |s.threads| && u != t ::
                  s'.threads[u] == s.threads[u] && s'.lock.pcs[u] == s.lock.pcs[u])
  {
  }

  /** A step moves the lock only where its place allows. */
  lemma LockFitsStep(s: State, t: nat, w: Choice)
    requires Formed(s) && t < |s.threads| && LockFits(s.threads[t].pc, s.lock.pcs[t])
    ensures var s' := Step(s, t, w);
            && Formed(s') && LockFits(s'.threads[t].pc, s'.lock.pcs[t])
            && (forall u | 0 <= u < |s.threads| && u != t ::
                  s'.threads[u] == s.threads[u] && s'.lock.pcs[u] == s.lock.pcs[u])
  {
    hide Step, LockFits;
    if Waits(s.threads[t].pc) {
      LockFitsWaiting(s, t, w);
    } else if Reads(s.threads[t].pc) {
      LockFitsReading(s, t, w);
    } else {
      LockFitsWriting(s, t, w);
    }
  }

  lemma LockInvStep(s: State, t: nat, w: Choice)
    requires Formed(s) && t < |s.threads| && RwLock.Inv(s.lock)
    ensures RwLock.Inv(Step(s, t, w).lock)
  {
    hide RwLock.Inv;
    LockStep(s, t, RwLock.ToRead);
    LockStep(s, t, RwLock.ToWrite);
    LockStep(s, t, RwLock.ToLeave);
  }

  lemma SeesReading(s: State, t: nat, w: Choice)
    requires Formed(s) && t < |s.threads| && Sees(s.threads[t].pc, s.cur)
    requires s.threads[t].pc.Ref? || s.threads[t].pc.Put? ==> Known(s, s.threads[t].pc.c)
    requires Reads(s.threads[t].pc)
    ensures var s' := Step(s, t, w);
            && Sees(s'.threads[t].pc, s'.cur)
            && (s'.cur != s.cur ==> s.threads[t].pc.Set? || s.threads[t].pc.Clear?)
            && (s'.cur != s.cur && s.threads[t].pc.Set? ==> s'.cur == Some(s.threads[t].pc.copy))
            && (s'.cur != s.cur && s.threads[t].pc.Clear? ==> s'.cur == None)
            && |s.copies| <= |s'.copies|
  {
    hide RwLock.Step, Locking;
  }

  lemma SeesWriting(s: State, t: nat, w: Choice)
    requires Formed(s) && t < |s.threads| && Sees(s.threads[t].pc, s.cur)
    requires s.threads[t].pc.Ref? || s.threads[t].pc.Put? ==> Known(s, s.threads[t].pc.c)
    requires !Reads(s.threads[t].pc)
    ensures var s' := Step(s, t, w);
            && Sees(s'.threads[t].pc, s'.cur)
            && (s'.cur != s.cur ==> s.threads[t].pc.Set? || s.threads[t].pc.Clear?)
            && (s'.cur != s.cur && s.threads[t].pc.Set? ==> s'.cur == Some(s.threads[t].pc.copy))
            && (s'.cur != s.cur && s.threads[t].pc.Clear? ==> s'.cur == None)
            && |s.copies| <= |s'.copies|
  {
    hide RwLock.Step, Locking;
  }

  lemma SeesStep(s: State, t: nat, w: Choice)
    requires Formed(s) && t < |s.threads| && Sees(s.threads[t].pc, s.cur)
    requires s.threads[t].pc.Ref? || s.threads[t].pc.Put? ==> Known(s, s.threads[t].pc.c)
    ensures var s' := Step(s, t, w);
            && Sees(s'.threads[t].pc, s'.cur)
            && (s'.cur != s.cur ==> s.threads[t].pc.Set? || s.threads[t].pc.Clear?)
            && (s'.cur != s.cur && s.threads[t].pc.Set? ==> s'.cur == Some(s.threads[t].pc.copy))
            && (s'.cur != s.cur && s.threads[t].pc.Clear? ==> s'.cur == None)
            && |s.copies| <= |s'.copies|
  {
    hide Step, Weight, Sees;
    if Reads(s.threads[t].pc) { SeesReading(s, t, w); } else { SeesWriting(s, t, w); }
  }

  lemma ThreadsStep(s: State, t: nat, w: Choice)
    requires ThreadsInv(s) && CopiesInv(s) && t < |s.threads|
    ensures ThreadsInv(Step(s, t, w))
  {
    hide RwLock.Inv, Step, Weight;
    var s' := Step(s, t, w);
    LockFitsStep(s, t, w);
    LockInvStep(s, t, w);
    KnownHeld(s, t);
    SeesStep(s, t, w);
    Formation(s, t, w);
    forall u: nat | u < |s.threads| ensures Sees(s'.threads[u].pc, s'.cur) {
      if u != t && s'.cur != s.cur { Alone(s, t, u); }
    }
    if s.threads[t].pc.Set? {
      SetWeighs(s.threads[t]);
      assert CopyInv(s, s.threads[t].pc.copy);
    }
  }

  lemma SetWeighs(th: Thread)
    requires th.pc.Set?
    ensures Weight(th, th.pc.copy) > 0
  {
  }

  lemma {:induction false} AtLeast(threads: seq<Thread>, c: nat, t: nat, u: nat)
    requires t < |threads| && u < |threads|
    requires forall x | 0 <= x < |threads| && x != t && x != u :: Weight(threads[x], c) >= 0
    ensures Total(threads, c) >= Weight(threads[t], c) + if u != t then Weight(threads[u], c) else 0
  {
    Moves(threads, t, Thread(Idle, None), c);
    var rest := threads[t := Thread(Idle, None)];
    Moves(rest, u, Thread(Idle, None), c);
    NotNegative(rest[u := Thread(Idle, None)], c);
  }

  lemma {:induction false} NotNegative(threads: seq<Thread>, c: nat)
    requires forall x | 0 <= x < |threads| :: Weight(threads[x], c) >= 0
    ensures Total(threads, c) >= 0
  {
    if threads != [] { NotNegative(threads[..|threads| - 1], c); }
  }

  /** Only a thread that deletes has less than nothing, and what it misses the object has. */
  lemma WeightSign(s: State, x: nat, c: nat)
    requires ThreadsInv(s) && x < |s.threads|
    ensures Weight(s.threads[x], c) >= if Deleting(s.threads[x].pc) then -One(s.cur == Some(c)) else 0
  {
    assert Sees(s.threads[x].pc, s.cur);
  }

  /** A copy has at least the references that a thread and the object hold. */
  lemma RefAtLeast(s: State, t: nat, c: nat)
    requires ThreadsInv(s) && CopyInv(s, c) && t < |s.threads| && c < |s.copies|
    ensures !Deleting(s.threads[t].pc) ==> s.copies[c].ref >= Weight(s.threads[t], c)
    ensures s.threads[t].pc.Put? && Deleting(s.threads[t].pc) ==> s.copies[c].ref >= One(s.cur == Some(c))
    ensures s.lock.pcs[t].Reading? ==> s.copies[c].ref >= One(s.cur == Some(c)) + Weight(s.threads[t], c)
  {
    hide Weight, RwLock.Inv;
    forall x: nat | x < |s.threads|
      ensures Weight(s.threads[x], c) >= if Deleting(s.threads[x].pc) then -One(s.cur == Some(c)) else 0
    {
      WeightSign(s, x, c);
    }
    if u :| 0 <= u < |s.threads| && Deleting(s.threads[u].pc) {
      forall x: nat | x < |s.threads| && x != u ensures !Deleting(s.threads[x].pc) && !s.lock.pcs[x].Reading? {
        assert LockFits(s.threads[u].pc, s.lock.pcs[u]) && LockFits(s.threads[x].pc, s.lock.pcs[x]);
        Alone(s, u, x);
      }
      AtLeast(s.threads, c, t, u);
      assert LockFits(s.threads[u].pc, s.lock.pcs[u]);
      if t == u && s.threads[t].pc.Put? { PutWeighs(s.threads[t], c); }
    } else {
      AtLeast(s.threads, c, t, t);
    }
  }

  lemma PutWeighs(th: Thread, c: nat)
    requires th.pc.Put? && Deleting(th.pc)
    ensures Weight(th, c) >= 0
  {
  }

  lemma Formation(s: State, t: nat, w: Choice)
    requires Formed(s) && t < |s.threads|
    ensures Formed(Step(s, t, w)) && |Step(s, t, w).threads| == |s.threads|
  {
    hide RwLock.Step, Locking;
  }

  /** Steps that release or free. */
  predicate Releases(pc: Pc) { pc.Put? || pc.Free? }

  /** Steps that write the object's pointer. */
  predicate Writes(pc: Pc) { pc.Set? || pc.Clear? }

  lemma ReleaseMoves(s: State, t: nat, w: Choice, c: nat)
    requires Formed(s) && t < |s.threads| && c < |s.copies| && Sees(s.threads[t].pc, s.cur)
    requires s.threads[t].pc.Ref? || s.threads[t].pc.Put? ==> Known(s, s.threads[t].pc.c)
    requires Releases(s.threads[t].pc)
    ensures var s' := Step(s, t, w);
            && c < |s'.copies|
            && s'.copies[c].ref - s.copies[c].ref ==
               Weight(s'.threads[t], c) - Weight(s.threads[t], c) + One(s'.cur == Some(c)) - One(s.cur == Some(c))
  {
    hide RwLock.Step, Locking;
  }

  lemma WriteMoves(s: State, t: nat, w: Choice, c: nat)
    requires Formed(s) && t < |s.threads| && c < |s.copies| && Sees(s.threads[t].pc, s.cur)
    requires s.threads[t].pc.Ref? || s.threads[t].pc.Put? ==> Known(s, s.threads[t].pc.c)
    requires Writes(s.threads[t].pc)
    ensures var s' := Step(s, t, w);
            && c < |s'.copies|
            && s'.copies[c].ref - s.copies[c].ref ==
               Weight(s'.threads[t], c) - Weight(s.threads[t], c) + One(s'.cur == Some(c)) - One(s.cur == Some(c))
  {
    hide RwLock.Step, Locking;
  }

  lemma IdleMoves(s: State, t: nat, w: Choice, c: nat)
    requires Formed(s) && t < |s.threads| && c < |s.copies| && Sees(s.threads[t].pc, s.cur)
    requires s.threads[t].pc.Ref? || s.threads[t].pc.Put? ==> Known(s, s.threads[t].pc.c)
    requires s.threads[t].pc.Idle?
    ensures var s' := Step(s, t, w);
            && c < |s'.copies|
            && s'.copies[c].ref - s.copies[c].ref ==
               Weight(s'.threads[t], c) - Weight(s.threads[t], c) + One(s'.cur == Some(c)) - One(s.cur == Some(c))
  {
    hide RwLock.Step, Locking;
  }

  lemma ReadMoves(s: State, t: nat, w: Choice, c: nat)
    requires Formed(s) && t < |s.threads| && c < |s.copies| && Sees(s.threads[t].pc, s.cur)
    requires s.threads[t].pc.Ref? || s.threads[t].pc.Put? ==> Known(s, s.threads[t].pc.c)
    requires !Releases(s.threads[t].pc) && !Writes(s.threads[t].pc) && !s.threads[t].pc.Idle?
    requires Reads(s.threads[t].pc)
    ensures var s' := Step(s, t, w);
            && c < |s'.copies|
            && s'.copies[c].ref - s.copies[c].ref ==
               Weight(s'.threads[t], c) - Weight(s.threads[t], c) + One(s'.cur == Some(c)) - One(s.cur == Some(c))
  {
    hide RwLock.Step, Locking;
  }

  lemma WaitMoves(s: State, t: nat, w: Choice, c: nat)
    requires Formed(s) && t < |s.threads| && c < |s.copies| && Sees(s.threads[t].pc, s.cur)
    requires s.threads[t].pc.Ref? || s.threads[t].pc.Put? ==> Known(s, s.threads[t].pc.c)
    requires !Releases(s.threads[t].pc) && !Writes(s.threads[t].pc) && !s.threads[t].pc.Idle?
    requires !Reads(s.threads[t].pc)
    ensures var s' := Step(s, t, w);
            && c < |s'.copies|
            && s'.copies[c].ref - s.copies[c].ref ==
               Weight(s'.threads[t], c) - Weight(s.threads[t], c) + One(s'.cur == Some(c)) - One(s.cur == Some(c))
  {
    hide RwLock.Step, Locking;
  }

  lemma OtherMoves(s: State, t: nat, w: Choice, c: nat)
    requires Formed(s) && t < |s.threads| && c < |s.copies| && Sees(s.threads[t].pc, s.cur)
    requires s.threads[t].pc.Ref? || s.threads[t].pc.Put? ==> Known(s, s.threads[t].pc.c)
    requires !Releases(s.threads[t].pc) && !Writes(s.threads[t].pc) && !s.threads[t].pc.Idle?
    ensures var s' := Step(s, t, w);
            && c < |s'.copies|
            && s'.copies[c].ref - s.copies[c].ref ==
               Weight(s'.threads[t], c) - Weight(s.threads[t], c) + One(s'.cur == Some(c)) - One(s.cur == Some(c))
  {
    hide Step, Weight, Sees;
    if Reads(s.threads[t].pc) { ReadMoves(s, t, w, c); } else { WaitMoves(s, t, w, c); }
  }

  /** What a step does to a counter, it does to what the thread and the object hold. */
  lemma RefMoves(s: State, t: nat, w: Choice, c: nat)
    requires Formed(s) && t < |s.threads| && c < |s.copies| && Sees(s.threads[t].pc, s.cur)
    requires s.threads[t].pc.Ref? || s.threads[t].pc.Put? ==> Known(s, s.threads[t].pc.c)
    ensures var s' := Step(s, t, w);
            && c < |s'.copies|
            && s'.copies[c].ref - s.copies[c].ref ==
               Weight(s'.threads[t], c) - Weight(s.threads[t], c) + One(s'.cur == Some(c)) - One(s.cur == Some(c))
  {
    hide Step, Weight, Sees;
    if Releases(s.threads[t].pc) {
      ReleaseMoves(s, t, w, c);
    } else if Writes(s.threads[t].pc) {
      WriteMoves(s, t, w, c);
    } else if s.threads[t].pc.Idle? {
      IdleMoves(s, t, w, c);
    } else {
      OtherMoves(s, t, w, c);
    }
  }

  /** A copy is freed once, by the thread that found its counter at zero. */
  lemma FreeMoves(s: State, t: nat, w: Choice, c: nat)
    requires Formed(s) && t < |s.threads| && c < |s.copies|
    requires s.threads[t].pc.Ref? && s.threads[t].pc.c == Some(c) ==> s.copies[c].ref > 0
    requires s.threads[t].pc.Put? && s.threads[t].pc.c == Some(c) ==> s.copies[c].ref > 0
    ensures var s' := Step(s, t, w);
            && c < |s'.copies|
            && s'.copies[c].freed + One(IsFree(s'.threads[t].pc, c)) - One(s'.copies[c].ref == 0) ==
               s.copies[c].freed + One(IsFree(s.threads[t].pc, c)) - One(s.copies[c].ref == 0)
  {
    hide RwLock.Step, Locking;
  }

  lemma NewIdle(s: State, t: nat, w: Choice, c: nat)
    requires Formed(s) && t < |s.threads| && c >= |s.copies| && Known(s, s.cur)
    requires Weight(s.threads[t], c) == 0 && !IsFree(s.threads[t].pc, c) && Sees(s.threads[t].pc, s.cur)
    requires s.threads[t].pc.Ref? || s.threads[t].pc.Put? ==> Known(s, s.threads[t].pc.c)
    requires s.threads[t].pc.Idle?
    ensures var s' := Step(s, t, w);
            if c < |s'.copies| then
              s'.copies[c] == Copy(1, 0) && Weight(s'.threads[t], c) == 1 && !IsFree(s'.threads[t].pc, c) &&
              s'.cur != Some(c)
            else Weight(s'.threads[t], c) == 0 && !IsFree(s'.threads[t].pc, c)
  {
    hide RwLock.Step, Locking;
  }

  lemma NewReading(s: State, t: nat, w: Choice, c: nat)
    requires Formed(s) && t < |s.threads| && c >= |s.copies| && Known(s, s.cur)
    requires Weight(s.threads[t], c) == 0 && !IsFree(s.threads[t].pc, c) && Sees(s.threads[t].pc, s.cur)
    requires s.threads[t].pc.Ref? || s.threads[t].pc.Put? ==> Known(s, s.threads[t].pc.c)
    requires !s.threads[t].pc.Idle?
    requires Reads(s.threads[t].pc)
    ensures var s' := Step(s, t, w);
            if c < |s'.copies| then
              s'.copies[c] == Copy(1, 0) && Weight(s'.threads[t], c) == 1 && !IsFree(s'.threads[t].pc, c) &&
              s'.cur != Some(c)
            else Weight(s'.threads[t], c) == 0 && !IsFree(s'.threads[t].pc, c)
  {
    hide RwLock.Step, Locking;
  }

  lemma NewWriting(s: State, t: nat, w: Choice, c: nat)
    requires Formed(s) && t < |s.threads| && c >= |s.copies| && Known(s, s.cur)
    requires Weight(s.threads[t], c) == 0 && !IsFree(s.threads[t].pc, c) && Sees(s.threads[t].pc, s.cur)
    requires s.threads[t].pc.Ref? || s.threads[t].pc.Put? ==> Known(s, s.threads[t].pc.c)
    requires !s.threads[t].pc.Idle?
    requires !Reads(s.threads[t].pc)
    ensures var s' := Step(s, t, w);
            if c < |s'.copies| then
              s'.copies[c] == Copy(1, 0) && Weight(s'.threads[t], c) == 1 && !IsFree(s'.threads[t].pc, c) &&
              s'.cur != Some(c)
            else Weight(s'.threads[t], c) == 0 && !IsFree(s'.threads[t].pc, c)
  {
    hide RwLock.Step, Locking;
  }

  lemma NewOther(s: State, t: nat, w: Choice, c: nat)
    requires Formed(s) && t < |s.threads| && c >= |s.copies| && Known(s, s.cur)
    requires Weight(s.threads[t], c) == 0 && !IsFree(s.threads[t].pc, c) && Sees(s.threads[t].pc, s.cur)
    requires s.threads[t].pc.Ref? || s.threads[t].pc.Put? ==> Known(s, s.threads[t].pc.c)
    requires !s.threads[t].pc.Idle?
    ensures var s' := Step(s, t, w);
            if c < |s'.copies| then
              s'.copies[c] == Copy(1, 0) && Weight(s'.threads[t], c) == 1 && !IsFree(s'.threads[t].pc, c) &&
              s'.cur != Some(c)
            else Weight(s'.threads[t], c) == 0 && !IsFree(s'.threads[t].pc, c)
  {
    hide Step, Weight, Sees;
    if Reads(s.threads[t].pc) { NewReading(s, t, w, c); } else { NewWriting(s, t, w, c); }
  }

  /** No one knows a copy before it is made; then its maker holds it. */
  lemma NewMoves(s: State, t: nat, w: Choice, c: nat)
    requires Formed(s) && t < |s.threads| && c >= |s.copies| && Known(s, s.cur)
    requires Weight(s.threads[t], c) == 0 && !IsFree(s.threads[t].pc, c) && Sees(s.threads[t].pc, s.cur)
    requires s.threads[t].pc.Ref? || s.threads[t].pc.Put? ==> Known(s, s.threads[t].pc.c)
    ensures var s' := Step(s, t, w);
            if c < |s'.copies| then
              s'.copies[c] == Copy(1, 0) && Weight(s'.threads[t], c) == 1 && !IsFree(s'.threads[t].pc, c) &&
              s'.cur != Some(c)
            else Weight(s'.threads[t], c) == 0 && !IsFree(s'.threads[t].pc, c)
  {
    hide Step, Weight, Sees;
    if s.threads[t].pc.Idle? { NewIdle(s, t, w, c); } else { NewOther(s, t, w, c); }
  }

  lemma CopyStep(s: State, t: nat, w: Choice, c: nat)
    requires ThreadsInv(s) && CopiesInv(s) && t < |s.threads|
    ensures CopyInv(Step(s, t, w), c)
  {
    hide RwLock.Inv, Weight, Step, IsFree, Sees, LockFits;
    var s' := Step(s, t, w);
    Formation(s, t, w);
    OthersStay(s, t, w);
    assert CopyInv(s, c) && Sees(s.threads[t].pc, s.cur);
    Moves(s.threads, t, s'.threads[t], c);
    KnownHeld(s, t);
    if c < |s.copies| {
      MayTake(s, t, c);
      RefMoves(s, t, w, c);
      FreeMoves(s, t, w, c);
    } else {
      NoneFrees(s.threads, t, c);
      NewMoves(s, t, w, c);
    }
  }

  lemma OthersStay(s: State, t: nat, w: Choice)
    requires Formed(s) && t < |s.threads|
    ensures var s' := Step(s, t, w);
            |s'.threads| == |s.threads| && s'.threads == s.threads[t := s'.threads[t]] && |s.copies| <= |s'.copies|
  {
    hide RwLock.Step, Locking;
  }

  lemma {:induction false} NoneFrees(threads: seq<Thread>, t: nat, c: nat)
    requires t < |threads| && Frees(threads, c) == 0
    ensures !IsFree(threads[t].pc, c)
  {
    if t < |threads| - 1 { NoneFrees(threads[..|threads| - 1], t, c); }
  }

  /** What a thread is about to count or to release exists. */
  lemma KnownHeld(s: State, t: nat)
    requires ThreadsInv(s) && CopiesInv(s) && t < |s.threads|
    ensures s.threads[t].pc.Ref? || s.threads[t].pc.Put? ==> Known(s, s.threads[t].pc.c)
  {
    hide RwLock.Inv;
    var pc := s.threads[t].pc;
    assert Sees(pc, s.cur);
    if pc.Put? && pc.c.Some? && !pc.next.ToClear? { assert CopyInv(s, pc.c.value); }
  }

  /** A thread that counts or releases a copy finds references to it. */
  lemma MayTake(s: State, t: nat, c: nat)
    requires ThreadsInv(s) && CopyInv(s, c) && t < |s.threads| && c < |s.copies|
    ensures var pc := s.threads[t].pc;
            (pc.Ref? || pc.Put?) && pc.c == Some(c) ==> s.copies[c].ref > 0
  {
    hide RwLock.Inv, CopyInv;
    var pc := s.threads[t].pc;
    RefAtLeast(s, t, c);
    assert Sees(pc, s.cur) && LockFits(pc, s.lock.pcs[t]);
  }

  ghost predicate Inv(s: State) { ThreadsInv(s) && CopiesInv(s) }

  function Run(n: nat, steps: seq<(nat, Choice)>): (s: State)
    ensures Formed(s) && |s.threads| == n
  {
    if steps == [] then Start(n)
    else
      var last := steps[|steps| - 1];
      var s := Run(n, steps[..|steps| - 1]);
      if last.0 < n then
        Formation(s, last.0, last.1);
        Step(s, last.0, last.1)
      else s
  }

  lemma {:induction false} StartTotals(n: nat, c: nat)
    ensures var threads := seq(n, _ => Thread(Idle, None));
            Total(threads, c) == 0 && Frees(threads, c) == 0
  {
    if n > 0 {
      assert seq(n, _ => Thread(Idle, None))[..n - 1] == seq(n - 1, _ => Thread(Idle, None));
      StartTotals(n - 1, c);
    }
  }

  lemma {:induction false} RunInv(n: nat, steps: seq<(nat, Choice)>)
    ensures Inv(Run(n, steps))
  {
    if steps == [] {
      RwLock.NoneCounted(n);
      assert ThreadsInv(Start(n));
      forall c: nat ensures CopyInv(Start(n), c) {
        StartTotals(n, c);
      }
    } else {
      var last := steps[|steps| - 1];
      var s := Run(n, steps[..|steps| - 1]);
      RunInv(n, steps[..|steps| - 1]);
      if last.0 < n {
        ThreadsStep(s, last.0, last.1);
        forall c: nat ensures CopyInv(Step(s, last.0, last.1), c) {
          CopyStep(s, last.0, last.1, c);
        }
      }
    }
  }

  /**
   * In every run each copy counts exactly its holders: the object, the reader boxes, and the threads
   * on their way. It is freed at most once, and only when no one holds it any more.
   */
  lemma CopyCounts(n: nat, steps: seq<(nat, Choice)>, c: nat)
    requires c < |Run(n, steps).copies|
    ensures var s := Run(n, steps);
            && s.copies[c].ref == One(s.cur == Some(c)) + Total(s.threads, c)
            && s.copies[c].freed <= 1
            && (s.copies[c].freed == 1 ==> s.copies[c].ref == 0)
            && (s.copies[c].ref == 0 && Frees(s.threads, c) == 0 ==> s.copies[c].freed == 1)
  {
    RunInv(n, steps);
    assert CopyInv(Run(n, steps), c);
  }

  /**
   * What 'stm_copy' returns is alive, and stays alive while a thread or a reader box holds it; the
   * assertion that a copy about to be counted still has references holds.
   */
  lemma HeldIsAlive(n: nat, steps: seq<(nat, Choice)>, t: nat, c: nat)
    requires t < n
    requires var th := Run(n, steps).threads[t];
             (th.pc.Ref? && th.pc.c == Some(c)) || (!Deleting(th.pc) && Weight(th, c) > 0)
    ensures var s := Run(n, steps);
            c < |s.copies| && s.copies[c].ref > 0 && s.copies[c].freed == 0
  {
    hide Weight, RwLock.Inv;
    RunInv(n, steps);
    var s := Run(n, steps);
    assert CopyInv(s, c);
    KnownHeld(s, t);
    RefAtLeast(s, t, c);
    MayTake(s, t, c);
  }
}
