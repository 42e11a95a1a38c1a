// The reader/writer lock of rwlock.h, one step for each access to its two words.

module RwLock {

  /**
   * Where a thread is. Readers: 'Spin' waits for the writer, 'Enter' is about to count itself, 'Look'
   * checks again, 'Back' takes the count back. Writers: 'Grab' wants the flag, 'Drain' waits for readers.
   */
  datatype Pc = Out | Spin | Enter | Look | Back | Reading | Grab | Drain | Writing

  datatype Lock = Lock(write: bool, read: int, pcs: seq<Pc>)

  function Start(n: nat): Lock { Lock(false, 0, seq(n, _ => Out)) }

  /** What a thread outside, or inside, goes for. */
  datatype Wish = ToRead | ToWrite | ToLeave

  function At(l: Lock, t: nat, pc: Pc): Lock
    requires t < |l.pcs|
  {
    l.(pcs := l.pcs[t := pc])
  }

  /** One access of thread 't'. */
  function Step(l: Lock, t: nat, w: Wish): (r: Lock)
    requires t < |l.pcs|
    ensures |r.pcs| == |l.pcs|
    ensures forall x | 0 <= x < |l.pcs| && x != t :: r.pcs[x] == l.pcs[x]
  {
    match l.pcs[t]
    case Out => if w.ToRead? then At(l, t, Spin) else if w.ToWrite? then At(l, t, Grab) else l
    case Spin => if l.write then l else At(l, t, Enter)
    case Enter => At(l, t, Look).(read := l.read + 1)
    case Look => At(l, t, if l.write then Back else Reading)
    case Back => At(l, t, Spin).(read := l.read - 1)
    case Reading => if w.ToLeave? then At(l, t, Out).(read := l.read - 1) else l
    case Grab => if l.write then l else At(l, t, Drain).(write := true)
    case Drain => if l.read != 0 then l else At(l, t, Writing)
    case Writing => if w.ToLeave? then At(l, t, Out).(write := false) else l
  }

  /** The thread is counted as a reader. */
  predicate Counted(pc: Pc) { pc.Look? || pc.Back? || pc.Reading? }

  /** The thread has the writers' flag. */
  predicate Flagged(pc: Pc) { pc.Drain? || pc.Writing? }

  function Count(pcs: seq<Pc>): nat {
    if pcs == [] then 0
    else Count(pcs[..|pcs| - 1]) + if Counted(pcs[|pcs| - 1]) then 1 else 0
  }

  lemma {:induction false} CountMove(pcs: seq<Pc>, t: nat, pc: Pc)
    requires t < |pcs|
    ensures Count(pcs[t := pc]) + (if Counted(pcs[t]) then 1 else 0) == Count(pcs) + if Counted(pc) then 1 else 0
  {
    var n := |pcs| - 1;
    if t == n {
      assert pcs[t := pc][..n] == pcs[..n];
    } else {
      assert pcs[t := pc][..n] == pcs[..n][t := pc];
      CountMove(pcs[..n], t, pc);
    }
  }

  lemma {:induction false} CountSome(pcs: seq<Pc>, t: nat)
    requires t < |pcs| && Counted(pcs[t])
    ensures Count(pcs) > 0
  {
    if t < |pcs| - 1 { CountSome(pcs[..|pcs| - 1], t); }
  }

  /** The words count the readers and the writer; a writer is alone. */
  predicate Inv(l: Lock) {
    && l.read == Count(l.pcs)
    && (forall t | 0 <= t < |l.pcs| && Flagged(l.pcs[t]) :: l.write)
    && (l.write ==> exists t :: 0 <= t < |l.pcs| && Flagged(l.pcs[t]))
    && (forall t, u | 0 <= t < |l.pcs| && 0 <= u < |l.pcs| && Flagged(l.pcs[t]) && Flagged(l.pcs[u]) :: t == u)
    && (forall t, u | 0 <= t < |l.pcs| && 0 <= u < |l.pcs| :: !(l.pcs[t].Writing? && l.pcs[u].Reading?))
  }

  /** A writer that finds no reader counted is alone. */
  lemma Drained(l: Lock, t: nat)
    requires Inv(l) && t < |l.pcs| && l.pcs[t].Drain? && l.read == 0
    ensures forall u | 0 <= u < |l.pcs| :: !l.pcs[u].Reading?
  {
    forall u | 0 <= u < |l.pcs| ensures !Counted(l.pcs[u]) {
      if Counted(l.pcs[u]) { CountSome(l.pcs, u); }
    }
  }

  lemma ReaderStep(l: Lock, t: nat, w: Wish)
    requires Inv(l) && t < |l.pcs| && !Flagged(l.pcs[t]) && !l.pcs[t].Grab?
    ensures Inv(Step(l, t, w))
  {
    var l' := Step(l, t, w);
    hide Count;
    CountMove(l.pcs, t, l'.pcs[t]);
    if l.write {
      var u :| 0 <= u < |l.pcs| && Flagged(l.pcs[u]);
      assert Flagged(l'.pcs[u]);
    }
  }

  lemma WriterStep(l: Lock, t: nat, w: Wish)
    requires Inv(l) && t < |l.pcs| && (Flagged(l.pcs[t]) || l.pcs[t].Grab?)
    ensures Inv(Step(l, t, w))
  {
    var l' := Step(l, t, w);
    hide Count;
    CountMove(l.pcs, t, l'.pcs[t]);
    if l.pcs[t].Drain? && l.read == 0 { Drained(l, t); }
    if l.write && l.pcs[t].Grab? {
      var u :| 0 <= u < |l.pcs| && Flagged(l.pcs[u]);
      assert Flagged(l'.pcs[u]);
    } else if l'.write {
      assert Flagged(l'.pcs[t]);
    }
  }

  lemma StepInv(l: Lock, t: nat, w: Wish)
    requires Inv(l) && t < |l.pcs|
    ensures Inv(Step(l, t, w))
  {
    hide Inv, Step;
    if Flagged(l.pcs[t]) || l.pcs[t].Grab? { WriterStep(l, t, w); } else { ReaderStep(l, t, w); }
  }

  function Run(n: nat, steps: seq<(nat, Wish)>): (l: Lock)
    ensures |l.pcs| == n
  {
    if steps == [] then Start(n)
    else
      var last := steps[|steps| - 1];
      var l := Run(n, steps[..|steps| - 1]);
      if last.0 < n then Step(l, last.0, last.1) else l
  }

  lemma {:induction false} NoneCounted(n: nat)
    ensures Count(seq(n, _ => Out)) == 0
  {
    if n > 0 {
      assert seq(n, _ => Out)[..n - 1] == seq(n - 1, _ => Out);
      NoneCounted(n - 1);
    }
  }

  /**
   * For any number of threads and any interleaving of their accesses, a writer is inside alone: no
   * other writer and no reader is.
   */
  lemma {:induction false} Excludes(n: nat, steps: seq<(nat, Wish)>, t: nat, u: nat)
    requires t < n && u < n && t != u
    ensures var l := Run(n, steps);
            Inv(l) && (l.pcs[t].Writing? ==> !l.pcs[u].Writing? && !l.pcs[u].Reading?)
  {
    if steps == [] {
      NoneCounted(n);
    } else {
      var last := steps[|steps| - 1];
      Excludes(n, steps[..|steps| - 1], t, u);
      if last.0 < n { StepInv(Run(n, steps[..|steps| - 1]), last.0, last.1); }
    }
  }

  // ---- The lock lets threads in ----

  lemma {:induction false} NoneCounts(pcs: seq<Pc>)
    requires forall u | 0 <= u < |pcs| :: !Counted(pcs[u])
    ensures Count(pcs) == 0
  {
    if pcs != [] { NoneCounts(pcs[..|pcs| - 1]); }
  }

  predicate Waiting(pc: Pc) { !pc.Out? && !pc.Reading? && !pc.Writing? }

  /** While nobody is inside, some thread that wants to be gets on: no deadlock. */
  lemma GetsOn(l: Lock, t0: nat, w: Wish) returns (t: nat)
    requires Inv(l) && t0 < |l.pcs| && Waiting(l.pcs[t0])
    requires forall u | 0 <= u < |l.pcs| :: !l.pcs[u].Reading? && !l.pcs[u].Writing?
    ensures t < |l.pcs| && Waiting(l.pcs[t]) && Step(l, t, w) != l
  {
    t := t0;
    if x: nat :| x < |l.pcs| && (l.pcs[x].Enter? || l.pcs[x].Look? || l.pcs[x].Back?) {
      t := x;
    } else if x: nat :| x < |l.pcs| && l.pcs[x].Drain? {
      t := x;
      NoneCounts(l.pcs);
    }
  }

  /** A writer that nobody disturbs is inside after three accesses, and gives the lock back with a fourth. */
  lemma WriterPasses(l: Lock, t: nat)
    requires Inv(l) && t < |l.pcs| && forall u | 0 <= u < |l.pcs| :: l.pcs[u].Out?
    ensures var l3 := Step(Step(Step(l, t, ToWrite), t, ToWrite), t, ToWrite);
            l3.pcs[t].Writing? && Step(l3, t, ToLeave) == l
  {
    NoneCounts(l.pcs);
    var l1 := Step(l, t, ToWrite);
    var l2 := Step(l1, t, ToWrite);
    var l3 := Step(l2, t, ToWrite);
    assert l1.pcs[t].Grab? && l2.pcs[t].Drain? && l3.pcs[t].Writing?;
    assert Step(l3, t, ToLeave).pcs == l.pcs;
  }

  /** A reader that no writer disturbs is inside after four, and leaves with a fifth. */
  lemma ReaderPasses(l: Lock, t: nat)
    requires t < |l.pcs| && l.pcs[t].Out? && !l.write
    ensures var l4 := Step(Step(Step(Step(l, t, ToRead), t, ToRead), t, ToRead), t, ToRead);
            l4.pcs[t].Reading? && Step(l4, t, ToLeave) == l
  {
    var l1 := Step(l, t, ToRead);
    var l2 := Step(l1, t, ToRead);
    var l3 := Step(l2, t, ToRead);
    var l4 := Step(l3, t, ToRead);
    assert l1.pcs[t].Spin? && l2.pcs[t].Enter? && l3.pcs[t].Look? && l4.pcs[t].Reading?;
    assert Step(l4, t, ToLeave).pcs == l.pcs;
  }
}
