// Where a timer belongs in the hierarchical timing wheel of skynet_timer.c, and what a tick changes.

module TimerPlaces {
  import opened Division

  // 32-bit words, and the longest delay an 'int' holds plus one.
  const WORD: nat := 0x1_0000_0000
  const HALF: nat := 0x8000_0000
  const TIME_NEAR := 256
  const TIME_LEVEL := 64

  /** The lists of the wheel. */
  datatype Slot = Near(j: nat) | Level(l: nat, j: nat)

  predicate IsSlot(d: Slot) {
    if d.Near? then d.j < TIME_NEAR else d.l < 4 && d.j < TIME_LEVEL
  }

  /** Ticks that one list of a level stands for. */
  function Unit(i: nat): (u: nat)
    requires i < 4
    ensures 0 < u < HALF
  {
    if i == 0 then 0x100 else if i == 1 then 0x4000 else if i == 2 then 0x10_0000 else 0x400_0000
  }

  /** Lists of level 'i' in a whole turn of the clock. */
  function Lists(i: nat): (k: nat)
    requires i < 4
    ensures k * Unit(i) == WORD
  {
    if i == 0 then 0x100_0000 else if i == 1 then 0x4_0000 else if i == 2 then 0x1000 else 0x40
  }

  /** Both times agree but for the bits below level 'i': (x | (unit - 1)) == (y | (unit - 1)). */
  predicate Same(x: nat, y: nat, i: nat)
    requires i < 4
  {
    x / Unit(i) == y / Unit(i)
  }

  /** The six bits of level 'i'. */
  function Index(x: nat, i: nat): (j: nat)
    requires i < 4
    ensures j < TIME_LEVEL
  {
    x / Unit(i) % TIME_LEVEL
  }

  function NearIndex(x: nat): (j: nat)
    ensures j < TIME_NEAR
  {
    x % TIME_NEAR
  }

  /** The list in which a timer due at 'due' belongs when the clock shows 'now'. */
  function Place(due: nat, now: nat): (d: Slot)
    ensures IsSlot(d)
  {
    if Same(due, now, 0) then Near(NearIndex(due))
    else if Same(due, now, 1) then Level(0, Index(due, 0))
    else if Same(due, now, 2) then Level(1, Index(due, 1))
    else if Same(due, now, 3) then Level(2, Index(due, 2))
    else Level(3, Index(due, 3))
  }

  // ---- The wrapped clock ----

  lemma WrapUnit(x: nat, i: nat)
    requires i < 4
    ensures x / Unit(i) == x / WORD * Lists(i) + (x % WORD) / Unit(i)
    ensures Index(x % WORD, i) == Index(x, i)
    ensures NearIndex(x % WORD) == NearIndex(x)
  {
    var q, r := x / WORD, x % WORD;
    var k := Lists(i);
    var more := k / TIME_LEVEL;
    assert k == more * TIME_LEVEL;
    DivBlock(q, k, Unit(i), r);
    assert q * (more * TIME_LEVEL) == q * k;
    ModBlock(q, more, TIME_LEVEL, r / Unit(i));
    ModBlock(q, 0x100_0000, TIME_NEAR, r);
  }

  lemma WrapSame(due: nat, now: nat, i: nat)
    requires now <= due < now + HALF && i < 4
    ensures Same(due % WORD, now % WORD, i) <==> Same(due, now, i)
  {
    WrapUnit(due, i);
    WrapUnit(now, i);
    var q := now / WORD;
    if due / WORD != q {
      assert due / WORD == q + 1;
      DivBelow(due % WORD, now % WORD, Unit(i));
      assert (q + 1) * Lists(i) == q * Lists(i) + Lists(i);
      DivMono(now % WORD, WORD - 1, Unit(i));
      DivUnique(WORD - 1, Unit(i), Lists(i) - 1, Unit(i) - 1);
    }
  }

  /** For delays below half a turn, the wrapped clock decides as one that never wraps. */
  lemma PlaceWraps(due: nat, now: nat)
    requires now <= due < now + HALF
    ensures Place(due % WORD, now % WORD) == Place(due, now)
  {
    hide Same, Index, NearIndex;
    forall i: nat | i < 4
      ensures Same(due % WORD, now % WORD, i) <==> Same(due, now, i)
      ensures Index(due % WORD, i) == Index(due, i) && NearIndex(due % WORD) == NearIndex(due)
    {
      WrapUnit(due, i);
      WrapSame(due, now, i);
    }
  }

  // ---- A tick ----

  /** The level whose list the clock empties when it comes to show 'ct', a multiple of 'TIME_NEAR'. */
  function CascadeLevel(ct: nat): (l: nat)
    ensures l < 4
  {
    if Index(ct, 0) != 0 then 0 else if Index(ct, 1) != 0 then 1 else if Index(ct, 2) != 0 then 2 else 3
  }

  /** The list that the clock empties into lower ones. */
  function Cascade(ct: nat): (d: Slot)
    ensures IsSlot(d) && d.Level?
  {
    Level(CascadeLevel(ct), Index(ct, CascadeLevel(ct)))
  }

  predicate Below(d: Slot, l: nat) { d.Near? || d.l < l }

  lemma UnitsNest(x: nat, i: nat)
    requires i < 3
    ensures x / Unit(i + 1) == x / Unit(i) / TIME_LEVEL
    ensures x % Unit(i + 1) == 0 <==> x % Unit(i) == 0 && Index(x, i) == 0
  {
    var u := Unit(i);
    var a, b := x / u, x % u;
    assert Unit(i + 1) == TIME_LEVEL * u;
    var c, d := a / TIME_LEVEL, a % TIME_LEVEL;
    assert a == c * TIME_LEVEL + d;
    assert x == c * (TIME_LEVEL * u) + (d * u + b);
    assert d * u <= (TIME_LEVEL - 1) * u;
    DivUnique(x, TIME_LEVEL * u, c, d * u + b);
    if d > 0 { assert d * u >= u; }
  }

  /** Agreeing down to a level is agreeing above it and in its six bits. */
  lemma SameSplits(due: nat, now: nat, i: nat)
    requires i < 3
    ensures Same(due, now, i) <==> Same(due, now, i + 1) && Index(due, i) == Index(now, i)
  {
    UnitsNest(due, i);
    UnitsNest(now, i);
  }

  /** For delays below half a turn the bits of the last level decide. */
  lemma SameTop(due: nat, now: nat)
    requires now <= due < now + HALF
    ensures Same(due, now, 3) <==> Index(due, 3) == Index(now, 3)
  {
    var a, b := due / Unit(3), now / Unit(3);
    DivMono(now, due, Unit(3));
    DivMono(due, now + 32 * Unit(3), Unit(3));
    DivBlock(32, 1, Unit(3), now);
  }

  /** A tick changes the bits from level 'i' on only at multiples of its unit. */
  lemma SameTick(due: nat, ct: nat, i: nat)
    requires 0 < ct <= due && i < 4
    ensures ct % Unit(i) != 0 ==> (Same(due, ct, i) <==> Same(due, ct - 1, i))
    ensures ct % Unit(i) == 0 ==> !Same(due, ct - 1, i)
  {
    var u := Unit(i);
    var a, b := ct / u, ct % u;
    if b != 0 {
      DivUnique(ct - 1, u, a, b - 1);
    } else {
      DivUnique(ct - 1, u, a - 1, u - 1);
      DivMono(ct, due, u);
    }
  }

  lemma UnitsOfCascade(ct: nat, i: nat)
    requires i < 4 && ct % Unit(0) == 0
    ensures ct % Unit(i) == 0 <==> i <= CascadeLevel(ct)
  {
    hide Index, Unit;
    UnitsNest(ct, 0);
    UnitsNest(ct, 1);
    UnitsNest(ct, 2);
  }

  /**
   * One tick: only timers in the cascading list change place, and they go to lower lists, in which
   * no timer is left.
   */
  lemma TickPlaces(due: nat, ct: nat)
    requires 0 < ct <= due < ct - 1 + HALF
    ensures ct % Unit(0) != 0 ==> Place(due, ct) == Place(due, ct - 1)
    ensures ct % Unit(0) == 0 ==>
              var from := Cascade(ct);
              && !Below(Place(due, ct - 1), from.l)
              && (Place(due, ct - 1) == from ==> Below(Place(due, ct), from.l))
              && (Place(due, ct - 1) != from ==> Place(due, ct) == Place(due, ct - 1))
  {
    hide Same, Index, NearIndex, Unit;
    if ct % Unit(0) != 0 {
      UnitsNest(ct, 0);
      UnitsNest(ct, 1);
      UnitsNest(ct, 2);
    }
    forall i: nat | i < 4
      ensures ct % Unit(i) != 0 ==> (Same(due, ct, i) <==> Same(due, ct - 1, i))
      ensures ct % Unit(i) == 0 ==> !Same(due, ct - 1, i)
      ensures ct % Unit(0) == 0 ==> (ct % Unit(i) == 0 <==> i <= CascadeLevel(ct))
    {
      SameTick(due, ct, i);
      if ct % Unit(0) == 0 { UnitsOfCascade(ct, i); }
    }
    SameSplits(due, ct, 0);
    SameSplits(due, ct, 1);
    SameSplits(due, ct, 2);
    SameTop(due, ct);
  }
}
