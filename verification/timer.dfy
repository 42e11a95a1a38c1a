// The timer of skynet_timer.c: the wheel fires every timer once, at its time and in order.

module Timer {
  import opened Division
  import opened TimerPlaces

  /** What a timer sends: a response to a session of a service. */
  datatype Event = Event(handle: nat, session: int)

  /** A node of a list: the 32-bit expiry and what to send. */
  datatype Node = Node(expire: nat, event: Event)

  /** A timer as its user sees it: the tick it is due at, on a clock that never wraps. */
  datatype Entry = Entry(due: nat, event: Event)

  // ---- The specification: pending timers in the order they were added ----

  /** The events due at a tick, in the order they were added. */
  function Due(entries: seq<Entry>, tick: nat): seq<Event> {
    if entries == [] then []
    else
      var e := entries[|entries| - 1];
      Due(entries[..|entries| - 1], tick) + (if e.due == tick then [e.event] else [])
  }

  function NotDue(entries: seq<Entry>, tick: nat): seq<Entry> {
    if entries == [] then []
    else
      var e := entries[|entries| - 1];
      NotDue(entries[..|entries| - 1], tick) + (if e.due == tick then [] else [e])
  }

  /** Every pending timer lies ahead, by less than half a turn of the clock. */
  predicate Ahead(entries: seq<Entry>, now: nat) {
    forall e | e in entries :: now < e.due < now + HALF
  }

  /** Timers that the clock has not passed. */
  predicate NotPassed(entries: seq<Entry>, now: nat) {
    forall e | e in entries :: now <= e.due < now + HALF
  }

  lemma {:induction false} NotDueIn(entries: seq<Entry>, tick: nat, e: Entry)
    ensures e in NotDue(entries, tick) <==> e in entries && e.due != tick
  {
    if entries != [] {
      var n := |entries| - 1;
      NotDueIn(entries[..n], tick, e);
      assert entries == entries[..n] + [entries[n]];
    }
  }

  /** What is not due yet stays. */
  lemma {:induction false} NothingDue(entries: seq<Entry>, tick: nat)
    requires forall e | e in entries :: e.due != tick
    ensures Due(entries, tick) == [] && NotDue(entries, tick) == entries
  {
    if entries != [] {
      var n := |entries| - 1;
      assert entries == entries[..n] + [entries[n]];
      NothingDue(entries[..n], tick);
    }
  }

  // ---- What the lists hold ----

  /** The list 'd' of a wheel that shows 'now': the timers that belong there, in the order they were added. */
  function At(entries: seq<Entry>, d: Slot, now: nat): seq<Node> {
    if entries == [] then []
    else
      var e := entries[|entries| - 1];
      At(entries[..|entries| - 1], d, now) +
      (if Place(e.due, now) == d then [Node(e.due % WORD, e.event)] else [])
  }

  /** The nodes of a list that 'add_node' puts into list 'd'. */
  function Going(nodes: seq<Node>, d: Slot, time: nat): seq<Node> {
    if nodes == [] then []
    else
      var x := nodes[|nodes| - 1];
      Going(nodes[..|nodes| - 1], d, time) + (if Place(x.expire, time) == d then [x] else [])
  }

  lemma AtSnoc(entries: seq<Entry>, e: Entry, d: Slot, now: nat)
    ensures At(entries + [e], d, now) ==
            At(entries, d, now) + (if Place(e.due, now) == d then [Node(e.due % WORD, e.event)] else [])
  {
    assert (entries + [e])[..|entries|] == entries;
  }

  lemma Joined(a: seq<Node>, b: seq<Node>, c: seq<Node>)
    ensures a + b + c == a + (b + c)
  {
  }

  lemma GoingNone(d: Slot, time: nat)
    ensures Going([], d, time) == []
  {
  }

  lemma GoingSnoc(nodes: seq<Node>, x: Node, d: Slot, time: nat)
    ensures Going(nodes + [x], d, time) ==
            Going(nodes, d, time) + (if Place(x.expire, time) == d then [x] else [])
  {
    assert (nodes + [x])[..|nodes|] == nodes;
  }

  /** A tick that cascades: emptying one list into the others leaves every timer in its place. */
  lemma {:induction false} TickMoves(entries: seq<Entry>, d: Slot, ct: nat)
    requires 0 < ct && Ahead(entries, ct - 1) && ct % Unit(0) == 0
    ensures var from := Cascade(ct);
            var moved := Going(At(entries, from, ct - 1), d, ct % WORD);
            && At(entries, d, ct) == (if d == from then [] else At(entries, d, ct - 1)) + moved
            && (Below(d, from.l) ==> At(entries, d, ct - 1) == [])
            && (!Below(d, from.l) ==> moved == [])
  {
    hide Place, Cascade;
    if entries != [] {
      var n := |entries| - 1;
      var e := entries[n];
      assert entries == entries[..n] + [e];
      TickMoves(entries[..n], d, ct);
      TickPlaces(e.due, ct);
      PlaceWraps(e.due, ct);
      var from := Cascade(ct);
      var node := Node(e.due % WORD, e.event);
      var moved := Going(At(entries[..n], from, ct - 1), d, ct % WORD);
      if Place(e.due, ct - 1) == from {
        GoingSnoc(At(entries[..n], from, ct - 1), node, d, ct % WORD);
        assert At(entries[..n], d, ct - 1) + (moved + [node]) == (At(entries[..n], d, ct - 1) + moved) + [node];
      } else {
        assert At(entries, from, ct - 1) == At(entries[..n], from, ct - 1);
      }
    }
  }

  /** A tick that does not cascade leaves every timer in its place. */
  lemma {:induction false} TickStays(entries: seq<Entry>, d: Slot, ct: nat)
    requires 0 < ct && Ahead(entries, ct - 1) && ct % Unit(0) != 0
    ensures At(entries, d, ct) == At(entries, d, ct - 1)
  {
    if entries != [] {
      var n := |entries| - 1;
      assert entries == entries[..n] + [entries[n]];
      TickStays(entries[..n], d, ct);
      TickPlaces(entries[n].due, ct);
    }
  }

  function Events(nodes: seq<Node>): (r: seq<Event>)
    ensures |r| == |nodes|
  {
    seq(|nodes|, k requires 0 <= k < |nodes| => nodes[k].event)
  }

  lemma DueNow(due: nat, now: nat)
    requires now <= due < now + HALF
    ensures Place(due, now) == Near(NearIndex(now)) <==> due == now
  {
    assert due == due / 0x100 * 0x100 + due % 0x100;
    assert now == now / 0x100 * 0x100 + now % 0x100;
  }

  /** The list that the clock points at holds exactly what is due now. */
  lemma {:induction false} CurrentList(entries: seq<Entry>, now: nat)
    requires NotPassed(entries, now)
    ensures Events(At(entries, Near(NearIndex(now)), now)) == Due(entries, now)
  {
    if entries != [] {
      var n := |entries| - 1;
      assert entries == entries[..n] + [entries[n]];
      CurrentList(entries[..n], now);
      DueNow(entries[n].due, now);
    }
  }

  /** Without what is due now, that list is empty and the others are as they were. */
  lemma {:induction false} AtFired(entries: seq<Entry>, d: Slot, now: nat)
    requires NotPassed(entries, now)
    ensures At(NotDue(entries, now), d, now) == if d == Near(NearIndex(now)) then [] else At(entries, d, now)
  {
    if entries != [] {
      var n := |entries| - 1;
      var e := entries[n];
      assert entries == entries[..n] + [e];
      AtFired(entries[..n], d, now);
      DueNow(e.due, now);
      if e.due != now {
        AtSnoc(NotDue(entries[..n], now), e, d, now);
      } else {
        assert NotDue(entries, now) == NotDue(entries[..n], now);
      }
    }
  }

  // ---- The wrapped clock ----

  lemma SameClock(was: nat, now: nat, ct: nat)
    requires now == was + 1 && ct == (was % WORD + 1) % WORD
    ensures ct == now % WORD && ct % Unit(0) == now % Unit(0)
    ensures forall i: nat | i < 4 :: Index(ct, i) == Index(now, i)
  {
    ModBlock(was / WORD, 1, WORD, was % WORD + 1);
    assert now == was / WORD * (1 * WORD) + (was % WORD + 1);
    forall i: nat | i < 4 ensures Index(ct, i) == Index(now, i) {
      WrapUnit(now, i);
    }
    WrapUnit(now, 0);
  }

  lemma WholeTurn(now: nat)
    requires now % WORD == 0
    ensures now % Unit(0) == 0 && Cascade(now) == Level(3, 0)
  {
    WrapUnit(now, 0);
    WrapUnit(now, 1);
    WrapUnit(now, 2);
    WrapUnit(now, 3);
  }

  lemma OnlyZero(ct: nat)
    requires ct < WORD && ct % Unit(3) == 0 && Index(ct, 3) == 0
    ensures ct == 0
  {
  }

  lemma IndexOf(x: nat, i: nat)
    requires i < 4
    ensures Index(x, i) == x / Unit(i) % TIME_LEVEL
  {
  }

  lemma UnitsOf()
    ensures Unit(0) == TIME_NEAR
    ensures forall i: nat | i < 3 :: Unit(i + 1) == Unit(i) * TIME_LEVEL
  {
  }

  // ---- The timer object ----

  /** A request of some thread: 'delay' is positive and fits an 'int'. */
  datatype Request = Request(delay: nat, event: Event)

  predicate Fits(q: Request) { 0 < q.delay < HALF }

  function EntriesOf(qs: seq<Request>, now: nat): (r: seq<Entry>)
    ensures |r| == |qs|
    ensures forall k | 0 <= k < |qs| :: r[k] == Entry(now + qs[k].delay, qs[k].event)
  {
    seq(|qs|, k requires 0 <= k < |qs| => Entry(now + qs[k].delay, qs[k].event))
  }

  class Wheel {
    const near: array<seq<Node>>
    const t: array2<seq<Node>>
    var time: nat
    ghost var now: nat
    ghost var pending: seq<Entry>

    ghost predicate Shaped()
      reads this
    {
      near.Length == TIME_NEAR && t.Length0 == 4 && t.Length1 == TIME_LEVEL && time == now % WORD
    }

    ghost function ListAt(d: Slot): seq<Node>
      requires Shaped() && IsSlot(d)
      reads this, near, t
    {
      if d.Near? then near[d.j] else t[d.l, d.j]
    }

    /** Each list holds the timers that 'add_node' would put there now, in the order they were added. */
    ghost predicate InPlace()
      reads this, near, t
    {
      Shaped() && forall d | IsSlot(d) :: ListAt(d) == At(pending, d, now)
    }

    ghost predicate Valid()
      reads this, near, t
    {
      InPlace() && Ahead(pending, now)
    }

    constructor (start: nat)
      ensures Valid() && now == start && pending == [] && fresh(near) && fresh(t)
    {
      near := new seq<Node>[TIME_NEAR](_ => []);
      t := new seq<Node>[4, TIME_LEVEL]((_, _) => []);
      time := start % WORD;
      now := start;
      pending := [];
    }

    method LinkClear(d: Slot) returns (nodes: seq<Node>)
      requires Shaped() && IsSlot(d)
      modifies near, t
      ensures nodes == old(ListAt(d))
      ensures forall x | IsSlot(x) :: ListAt(x) == if x == d then [] else old(ListAt(x))
    {
      if d.Near? {
        nodes := near[d.j];
        near[d.j] := [];
      } else {
        nodes := t[d.l, d.j];
        t[d.l, d.j] := [];
      }
    }

    method Link(d: Slot, node: Node)
      requires Shaped() && IsSlot(d)
      modifies near, t
      ensures forall x | IsSlot(x) :: ListAt(x) == old(ListAt(x)) + if x == d then [node] else []
    {
      if d.Near? {
        near[d.j] := near[d.j] + [node];
      } else {
        t[d.l, d.j] := t[d.l, d.j] + [node];
      }
    }

    method AddNode(node: Node)
      requires Shaped()
      modifies near, t
      ensures forall x | IsSlot(x) ::
                ListAt(x) == old(ListAt(x)) + if x == Place(node.expire, time) then [node] else []
    {
      var expire := node.expire;
      if expire / TIME_NEAR == time / TIME_NEAR {
        Link(Near(expire % TIME_NEAR), node);
      } else {
        var i, mask := 0, TIME_NEAR * TIME_LEVEL;
        while i < 3
          invariant 0 <= i <= 3 && mask == Unit(i) * TIME_LEVEL
          invariant forall k: nat | k <= i :: !Same(expire, time, k)
        {
          if expire / mask == time / mask { break; }
          i, mask := i + 1, mask * TIME_LEVEL;
        }
        Link(Level(i, expire / Unit(i) % TIME_LEVEL), node);
      }
    }

    /** Adds a timer that is due 'q.delay' ticks from now. */
    method Add(q: Request)
      requires Valid() && Fits(q)
      modifies this, near, t
      ensures Valid() && now == old(now) && pending == old(pending) + [Entry(now + q.delay, q.event)]
    {
      ghost var e := Entry(now + q.delay, q.event);
      var expire := (q.delay + time) % WORD;
      assert expire == e.due % WORD by {
        assert now == now / WORD * WORD + time;
        ModBlock(now / WORD, 1, WORD, time + q.delay);
      }
      PlaceWraps(e.due, now);
      AddNode(Node(expire, q.event));
      pending := pending + [e];
      forall d | IsSlot(d) ensures ListAt(d) == At(pending, d, now) {
        AtSnoc(old(pending), e, d, now);
      }
    }

    /** Empties a list and puts each of its nodes where it belongs now. */
    method MoveList(level: nat, idx: nat)
      requires Shaped() && level < 4 && idx < TIME_LEVEL
      modifies near, t
      ensures var from := Level(level, idx);
              forall x | IsSlot(x) ::
                ListAt(x) == (if x == from then [] else old(ListAt(x))) + Going(old(ListAt(from)), x, time)
    {
      hide Place, Going, ListAt;
      var current := LinkClear(Level(level, idx));
      label Cleared:
      var k := 0;
      forall x | IsSlot(x) ensures Going(current[..k], x, time) == [] { GoingNone(x, time); }
      while k < |current|
        invariant k <= |current|
        invariant forall x | IsSlot(x) :: ListAt(x) == old@Cleared(ListAt(x)) + Going(current[..k], x, time)
      {
        AddNode(current[k]);
        assert current[..k + 1] == current[..k] + [current[k]];
        forall x | IsSlot(x)
          ensures ListAt(x) == old@Cleared(ListAt(x)) + Going(current[..k + 1], x, time)
        {
          GoingSnoc(current[..k], current[k], x, time);
          Joined(old@Cleared(ListAt(x)), Going(current[..k], x, time),
                 if x == Place(current[k].expire, time) then [current[k]] else []);
        }
        k := k + 1;
      }
      assert current[..k] == current;
    }

    /** Moves the clock one tick and cascades. */
    method Shift()
      requires Valid()
      modifies this, near, t
      ensures InPlace() && NotPassed(pending, now) && now == old(now) + 1 && pending == old(pending)
    {
      hide Place, Unit, Index, At, Going;
      time := (time + 1) % WORD;
      now := now + 1;
      var ct := time;
      SameClock(now - 1, now, ct);
      UnitsOf();
      if ct == 0 {
        WholeTurn(now);
        MoveList(3, 0);
      } else {
        var i, mask, rest := 0, TIME_NEAR, ct / TIME_NEAR;
        while ct % mask == 0
          invariant i < 4 && mask == Unit(i) && rest == ct / Unit(i)
          invariant i > 0 ==> ct % Unit(0) == 0 && ct % Unit(i) == 0
          invariant forall k: nat | k < i :: Index(ct, k) == 0
          invariant forall x | IsSlot(x) :: ListAt(x) == old(ListAt(x))
          decreases 4 - i
          modifies near, t
        {
          var idx := rest % TIME_LEVEL;
          assert idx == Index(ct, i) by { IndexOf(ct, i); }
          if idx != 0 {
            assert Cascade(now) == Level(i, idx);
            MoveList(i, idx);
            break;
          }
          if i == 3 { OnlyZero(ct); }
          UnitsNest(ct, i);
          UnitsOf();
          mask := mask * TIME_LEVEL;
          rest := rest / TIME_LEVEL;
          i := i + 1;
        }
      }
      ghost var from := Cascade(now);
      forall x | IsSlot(x) ensures ListAt(x) == At(pending, x, now) {
        if now % Unit(0) == 0 {
          TickMoves(pending, x, now);
        } else {
          TickStays(pending, x, now);
        }
      }
    }

    /** Adds the timers that other threads ask for while the lock is free. */
    method AddAll(qs: seq<Request>)
      requires Valid() && forall q | q in qs :: Fits(q)
      modifies this, near, t
      ensures Valid() && now == old(now) && pending == old(pending) + EntriesOf(qs, now)
    {
      var k := 0;
      while k < |qs|
        invariant k <= |qs| && Valid() && now == old(now)
        invariant pending == old(pending) + EntriesOf(qs[..k], now)
      {
        Add(qs[k]);
        assert EntriesOf(qs[..k + 1], now) == EntriesOf(qs[..k], now) + [Entry(now + qs[k].delay, qs[k].event)];
        k := k + 1;
      }
      assert qs[..k] == qs;
    }

    /** Takes the list that the clock points at. */
    method TakeDue() returns (fired: seq<Event>)
      requires InPlace() && NotPassed(pending, now)
      modifies this`pending, near, t
      ensures Valid() && fired == Due(old(pending), now) && pending == NotDue(old(pending), now)
    {
      hide Place, Going, At, Due, NotDue;
      var idx := time % TIME_NEAR;
      assert idx == NearIndex(now) by { WrapUnit(now, 0); }
      CurrentList(pending, now);
      forall d | IsSlot(d) ensures At(NotDue(pending, now), d, now) == if d == Near(idx) then [] else ListAt(d) {
        AtFired(pending, d, now);
      }
      forall e ensures e in NotDue(pending, now) <==> e in pending && e.due != now {
        NotDueIn(pending, now, e);
      }
      var current := LinkClear(Near(idx));
      pending := NotDue(pending, now);
      fired := Events(current);
    }

    /**
     * Sends what is due. The lock is free while a list is sent, and then the requests 'during' are
     * served; none of them is due now, so nothing is sent twice and the loop ends.
     */
    method Execute(during: seq<Request>) returns (fired: seq<Event>)
      requires InPlace() && NotPassed(pending, now) && forall q | q in during :: Fits(q)
      modifies this, near, t
      ensures Valid() && now == old(now) && fired == Due(old(pending), now)
      ensures pending == NotDue(old(pending), now) + if fired == [] then [] else EntriesOf(during, now)
    {
      hide Place, Going, At, Due, NotDue;
      var idx, left := time % TIME_NEAR, during;
      ghost var was := pending;
      fired := [];
      CurrentList(pending, now);
      assert idx == NearIndex(now) by { WrapUnit(now, 0); }
      while near[idx] != []
        invariant InPlace() && NotPassed(pending, now) && now == old(now) && idx == NearIndex(now)
        invariant Events(near[idx]) == Due(pending, now)
        invariant if left == during && fired == [] then pending == was else
                    && Ahead(pending, now) && near[idx] == [] && left == [] && fired == Due(was, now) && fired != []
                    && pending == NotDue(was, now) + EntriesOf(during, now)
        decreases |near[idx]|
      {
        var current := TakeDue();
        fired := fired + current;
        AddAll(left);
        left := [];
        CurrentList(pending, now);
        NothingDue(pending, now);
      }
      if fired == [] { NoneDue(pending, now); }
    }

    /** One tick of the clock. */
    method Update(during: seq<Request>) returns (fired: seq<Event>)
      requires Valid() && forall q | q in during :: Fits(q)
      modifies this, near, t
      ensures Valid() && now == old(now) + 1 && fired == Due(old(pending), now)
      ensures pending == NotDue(old(pending), now) + if fired == [] then [] else EntriesOf(during, now)
    {
      NothingDue(pending, now);
      var early := Execute([]);
      assert pending == old(pending);
      Shift();
      fired := Execute(during);
    }
  }

  // ---- Whole runs ----

  /** What happens to a timer: a thread adds one, or the clock ticks while threads add some. */
  datatype Op = Add(q: Request) | Tick(during: seq<Request>)

  datatype Firing = Firing(tick: nat, event: Event)

  datatype Sim = Sim(now: nat, pending: seq<Entry>, log: seq<Firing>)

  predicate OpFits(op: Op) {
    if op.Add? then Fits(op.q) else forall q | q in op.during :: Fits(q)
  }

  function Firings(events: seq<Event>, tick: nat): (r: seq<Firing>)
    ensures |r| == |events|
  {
    seq(|events|, k requires 0 <= k < |events| => Firing(tick, events[k]))
  }

  function Apply(m: Sim, op: Op): Sim {
    match op
    case Add(q) => m.(pending := m.pending + [Entry(m.now + q.delay, q.event)])
    case Tick(during) =>
      var tick := m.now + 1;
      Sim(tick, NotDue(m.pending, tick) + EntriesOf(during, tick), m.log + Firings(Due(m.pending, tick), tick))
  }

  /** What is pending and what has been sent after a run. */
  function RunOf(ops: seq<Op>, start: nat): Sim {
    if ops == [] then Sim(start, [], [])
    else Apply(RunOf(ops[..|ops| - 1], start), ops[|ops| - 1])
  }

  /** The requests of an operation, and the clock they see. */
  function Requests(op: Op): seq<Request> { if op.Add? then [op.q] else op.during }

  function Clock(ops: seq<Op>, start: nat): nat {
    if ops == [] then start
    else Clock(ops[..|ops| - 1], start) + if ops[|ops| - 1].Tick? then 1 else 0
  }

  /** The events of requests whose delay, counted from 'now', ends at tick 'x'. */
  function Asked(qs: seq<Request>, now: nat, x: nat): seq<Event> {
    if qs == [] then []
    else
      var q := qs[|qs| - 1];
      Asked(qs[..|qs| - 1], now, x) + if now + q.delay == x then [q.event] else []
  }

  /** The events asked for at tick 'x': added with delay 'd' when the clock showed 'x - d', in that order. */
  function Wanted(ops: seq<Op>, start: nat, x: nat): seq<Event> {
    if ops == [] then []
    else Wanted(ops[..|ops| - 1], start, x) + Asked(Requests(ops[|ops| - 1]), Clock(ops, start), x)
  }

  /** What a run must have sent when the clock shows 'x': tick by tick, what was asked for. */
  function Log(ops: seq<Op>, start: nat, x: nat): seq<Firing> {
    if x <= start then [] else Log(ops, start, x - 1) + Firings(Wanted(ops, start, x), x)
  }

  /** The events that were sent at tick 'x', in the order they were sent. */
  function SentAt(log: seq<Firing>, x: nat): seq<Event> {
    if log == [] then []
    else SentAt(log[..|log| - 1], x) + if log[|log| - 1].tick == x then [log[|log| - 1].event] else []
  }

  lemma NoneDue(entries: seq<Entry>, tick: nat)
    requires Due(entries, tick) == []
    ensures forall e | e in entries :: e.due != tick
    ensures NotDue(entries, tick) == entries
  {
    if entries != [] {
      var n := |entries| - 1;
      assert entries == entries[..n] + [entries[n]];
      NoneDue(entries[..n], tick);
    }
  }

  lemma {:induction false} DueConcat(a: seq<Entry>, b: seq<Entry>, x: nat)
    ensures Due(a + b, x) == Due(a, x) + Due(b, x)
    decreases |b|
  {
    if b == [] {
      assert a + b == a;
    } else {
      var n := |b| - 1;
      assert (a + b)[..|a| + n] == a + b[..n];
      DueConcat(a, b[..n], x);
    }
  }

  lemma {:induction false} DueLeft(entries: seq<Entry>, tick: nat, x: nat)
    ensures Due(NotDue(entries, tick), x) == if x == tick then [] else Due(entries, x)
  {
    if entries != [] {
      var n := |entries| - 1;
      DueLeft(entries[..n], tick, x);
      var e := entries[n];
      if e.due != tick {
        DueConcat(NotDue(entries[..n], tick), [e], x);
        assert Due([e], x) == if e.due == x then [e.event] else [] by { assert [e][..0] == []; }
      } else {
        assert NotDue(entries, tick) == NotDue(entries[..n], tick);
      }
    }
  }

  lemma {:induction false} SentMore(log: seq<Firing>, events: seq<Event>, tick: nat, x: nat)
    ensures SentAt(log + Firings(events, tick), x) == SentAt(log, x) + if x == tick then events else []
    decreases |events|
  {
    if events == [] {
      assert log + Firings(events, tick) == log;
    } else {
      var n := |events| - 1;
      var all := log + Firings(events, tick);
      assert all[..|all| - 1] == log + Firings(events[..n], tick);
      SentMore(log, events[..n], tick, x);
      assert events == events[..n] + [events[n]];
    }
  }

  lemma ApplyAhead(m: Sim, op: Op)
    requires Ahead(m.pending, m.now) && OpFits(op)
    ensures var m' := Apply(m, op); Ahead(m'.pending, m'.now)
  {
    hide NotDue;
    if op.Tick? {
      var tick := m.now + 1;
      var stay, more := NotDue(m.pending, tick), EntriesOf(op.during, tick);
      forall e | e in stay ensures tick < e.due < tick + HALF {
        NotDueIn(m.pending, tick, e);
      }
      forall e | e in more ensures tick < e.due < tick + HALF {
        var k :| 0 <= k < |more| && more[k] == e;
        assert Fits(op.during[k]);
      }
    }
  }

  /** Pending timers lie ahead in every run. */
  lemma {:induction false} RunAhead(ops: seq<Op>, start: nat)
    requires forall op | op in ops :: OpFits(op)
    ensures RunOf(ops, start).now == Clock(ops, start) && Ahead(RunOf(ops, start).pending, Clock(ops, start))
  {
    if ops != [] {
      var n := |ops| - 1;
      RunAhead(ops[..n], start);
      ApplyAhead(RunOf(ops[..n], start), ops[n]);
    }
  }

  /** What was asked for at tick 'x' has been sent if the clock got there, and is pending otherwise. */
  predicate Settled(m: Sim, x: nat, wanted: seq<Event>) {
    if x <= m.now then SentAt(m.log, x) == wanted
    else SentAt(m.log, x) == [] && Due(m.pending, x) == wanted
  }

  lemma ApplySettled(m: Sim, op: Op, x: nat, wanted: seq<Event>)
    requires Ahead(m.pending, m.now) && OpFits(op) && Settled(m, x, wanted)
    ensures var m' := Apply(m, op); Settled(m', x, wanted + Due(EntriesOf(Requests(op), m'.now), x))
  {
    hide Due, NotDue, SentAt;
    var m' := Apply(m, op);
    var more := EntriesOf(Requests(op), m'.now);
    if x <= m'.now {
      forall e | e in more ensures e.due != x {
        var k :| 0 <= k < |more| && more[k] == e;
        assert Fits(Requests(op)[k]);
      }
      NothingDue(more, x);
    }
    match op
    case Add(q) =>
      assert m'.pending == m.pending + more;
      DueConcat(m.pending, more, x);
    case Tick(during) =>
      SentMore(m.log, Due(m.pending, m'.now), m'.now, x);
      DueLeft(m.pending, m'.now, x);
      DueConcat(NotDue(m.pending, m'.now), more, x);
  }

  /**
   * In every run, what is sent at a tick is exactly what was asked for at that tick, each timer
   * once, in the order the timers were added; what was asked for later is still pending.
   */
  lemma {:induction false} RunFires(ops: seq<Op>, start: nat, x: nat)
    requires forall op | op in ops :: OpFits(op)
    ensures Settled(RunOf(ops, start), x, Wanted(ops, start, x))
  {
    if ops == [] {
      Nothing(x);
    } else {
      var n := |ops| - 1;
      assert OpFits(ops[n]);
      RunFires(ops[..n], start, x);
      RunAhead(ops[..n], start);
      RunAhead(ops, start);
      ApplySettled(RunOf(ops[..n], start), ops[n], x, Wanted(ops[..n], start, x));
      AskedDue(Requests(ops[n]), Clock(ops, start), x);
    }
  }

  lemma {:induction false} AskedDue(qs: seq<Request>, now: nat, x: nat)
    ensures Due(EntriesOf(qs, now), x) == Asked(qs, now, x)
  {
    if qs != [] {
      var n := |qs| - 1;
      AskedDue(qs[..n], now, x);
      assert EntriesOf(qs, now)[..n] == EntriesOf(qs[..n], now);
    }
  }

  /** Nothing is asked for that is due already. */
  lemma {:induction false} AskedLater(qs: seq<Request>, now: nat, x: nat)
    requires x <= now && forall q | q in qs :: Fits(q)
    ensures Asked(qs, now, x) == []
  {
    if qs != [] {
      assert Fits(qs[|qs| - 1]);
      AskedLater(qs[..|qs| - 1], now, x);
    }
  }

  /** Later requests do not change what had to be sent before. */
  lemma {:induction false} LogStays(ops: seq<Op>, start: nat, x: nat)
    requires ops != [] && OpFits(ops[|ops| - 1]) && x <= Clock(ops, start)
    ensures Log(ops, start, x) == Log(ops[..|ops| - 1], start, x)
    ensures Wanted(ops, start, x) == Wanted(ops[..|ops| - 1], start, x)
    decreases x
  {
    AskedLater(Requests(ops[|ops| - 1]), Clock(ops, start), x);
    if x > start { LogStays(ops, start, x - 1); }
  }

  /** All that a run sends, and when: nothing else, nothing twice, tick by tick. */
  lemma {:induction false} RunLog(ops: seq<Op>, start: nat)
    requires forall op | op in ops :: OpFits(op)
    ensures RunOf(ops, start).log == Log(ops, start, Clock(ops, start))
  {
    if ops != [] {
      hide Asked, Due, NotDue;
      var n := |ops| - 1;
      var was, now := Clock(ops[..n], start), Clock(ops, start);
      assert OpFits(ops[n]);
      RunLog(ops[..n], start);
      RunAhead(ops[..n], start);
      LogStays(ops, start, was);
      if ops[n].Tick? {
        ClockGrows(ops[..n], start);
        RunFires(ops[..n], start, now);
        LogStays(ops, start, now);
      }
    }
  }

  lemma {:induction false} ClockGrows(ops: seq<Op>, start: nat)
    ensures start <= Clock(ops, start)
  {
    if ops != [] { ClockGrows(ops[..|ops| - 1], start); }
  }

  lemma {:induction false} AskedIn(qs: seq<Request>, now: nat, q: Request)
    requires q in qs
    ensures q.event in Asked(qs, now, now + q.delay)
  {
    var n := |qs| - 1;
    if qs[n] != q {
      assert q in qs[..n];
      AskedIn(qs[..n], now, q);
    }
  }

  lemma {:induction false} WantedIn(ops: seq<Op>, start: nat, j: nat, q: Request)
    requires j < |ops| && q in Requests(ops[j])
    ensures q.event in Wanted(ops, start, Clock(ops[..j + 1], start) + q.delay)
  {
    var n := |ops| - 1;
    if j == n {
      assert ops[..j + 1] == ops;
      AskedIn(Requests(ops[n]), Clock(ops, start), q);
    } else {
      assert ops[..n][..j + 1] == ops[..j + 1];
      WantedIn(ops[..n], start, j, q);
    }
  }

  /** A timer that was added with a delay fires that many ticks later, once the clock gets there. */
  lemma FiresOnTime(ops: seq<Op>, start: nat, j: nat, q: Request)
    requires (forall op | op in ops :: OpFits(op)) && j < |ops| && q in Requests(ops[j])
    ensures var x := Clock(ops[..j + 1], start) + q.delay;
            q.event in SentAt(RunOf(ops, start).log, x) <==> x <= Clock(ops, start)
  {
    hide RunOf, Wanted, Clock, SentAt, Due;
    var x := Clock(ops[..j + 1], start) + q.delay;
    RunFires(ops, start, x);
    RunAhead(ops, start);
    WantedIn(ops, start, j, q);
  }

  lemma Nothing(x: nat)
    ensures SentAt([], x) == [] && Due([], x) == []
  {
  }

  lemma RunNext(ops: seq<Op>, k: nat, start: nat)
    requires k <= |ops|
    ensures RunOf(ops[..0], start) == Sim(start, [], [])
    ensures k < |ops| ==> RunOf(ops[..k + 1], start) == Apply(RunOf(ops[..k], start), ops[k])
  {
    if k < |ops| { assert ops[..k + 1][..k] == ops[..k]; }
  }

  /** The wheel does what the specification says, for every run. */
  method Run(ops: seq<Op>, start: nat) returns (log: seq<Firing>)
    requires forall op | op in ops :: OpFits(op)
    ensures log == Log(ops, start, Clock(ops, start))
  {
    hide Place, At, Due, NotDue, RunOf, Log;
    RunNext(ops, 0, start);
    var w := new Wheel(start);
    var tick := start;
    log := [];
    var k := 0;
    while k < |ops|
      invariant k <= |ops| && w.Valid() && fresh(w) && fresh(w.near) && fresh(w.t) && tick == w.now
      invariant RunOf(ops[..k], start) == Sim(w.now, w.pending, log)
    {
      RunNext(ops, k, start);
      assert OpFits(ops[k]);
      match ops[k] {
        case Add(q) => w.Add(q);
        case Tick(during) =>
          var fired := w.Update(during);
          tick := tick + 1;
          log := log + Firings(fired, tick);
          if fired == [] { w.AddAll(during); }
      }
      k := k + 1;
    }
    assert ops[..k] == ops;
    RunLog(ops, start);
  }
}
