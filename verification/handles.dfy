// The registry of service handles (skynet_handle.c): a table that doubles, indexed by the low bits.

module Handles {
  import opened Division
  import opened Options
  import opened HandleNames

  /** A registered service. */
  datatype Context = Context(id: nat, handle: nat)

  const DEFAULT_SLOT_SIZE := 4
  const HANDLE_MASK := 0xff_ffff

  const INDEXES := HANDLE_MASK + 1

  /** Slot sizes are powers of two. */
  predicate SlotSize(n: nat) {
    n == 1 || (n > 1 && n % 2 == 0 && SlotSize(n / 2))
  }

  /** They divide each other, and so the number of handle indexes. */
  lemma {:induction false} SizesDivide(n: nat, m: nat)
    requires SlotSize(n) && SlotSize(m) && n <= m
    ensures exists k: nat :: m == k * n
    decreases n
  {
    if n == 1 {
      assert m == m * 1;
    } else {
      SizesDivide(n / 2, m / 2);
      var k: nat :| m / 2 == k * (n / 2);
      assert m == 2 * (m / 2) && n == 2 * (n / 2);
      assert m == k * n;
    }
  }

  lemma SizeDoubles(n: nat)
    requires SlotSize(n)
    ensures SlotSize(n * 2)
  {
    assert n * 2 / 2 == n;
  }

  lemma IndexesAreSize()
    ensures SlotSize(INDEXES)
  {
    assert SlotSize(0x100);
    assert SlotSize(0x1_0000);
    assert SlotSize(0x100_0000);
  }

  /** The low bits of a handle: handle & (size - 1). */
  function Hash(handle: nat, size: nat): (h: nat)
    requires size > 0
    ensures h < size
  {
    handle % size
  }

  /** Each service is where its handle says. */
  predicate InPlace(slot: seq<Option<Context>>) {
    forall i | 0 <= i < |slot| && slot[i].Some? :: Hash(slot[i].value.handle, |slot|) == i
  }

  /** A handle names a registered service. */
  predicate Live(slot: seq<Option<Context>>, c: Context) {
    exists i :: 0 <= i < |slot| && slot[i] == Some(c)
  }

  /** So no two services share a handle. */
  lemma LiveDistinct(slot: seq<Option<Context>>, c: Context, d: Context)
    requires InPlace(slot) && Live(slot, c) && Live(slot, d) && c.handle == d.handle
    ensures c == d
  {
    var i :| 0 <= i < |slot| && slot[i] == Some(c);
    var j :| 0 <= j < |slot| && slot[j] == Some(d);
    assert Hash(c.handle, |slot|) == i && Hash(d.handle, |slot|) == j;
  }

  /** Handles that differ in their low bits differ in one more. */
  lemma HashDoubles(h: nat, size: nat)
    requires size > 0
    ensures Hash(h, 2 * size) % size == Hash(h, size)
  {
    var q, r := h / (2 * size), h % (2 * size);
    assert h == q * (2 * size) + r;
    var a, b := r / size, r % size;
    assert r == a * size + b;
    assert h == (2 * q + a) * size + b;
    DivUnique(h, size, 2 * q + a, b);
  }

  /** The scan stays within the handle indexes; 0 is reserved. */
  function Wrap(handle: nat): (h: nat)
    ensures handle > 0 ==> 0 < h <= HANDLE_MASK
  {
    if handle > HANDLE_MASK then 1 else handle
  }

  /** The k-th handle a scan from an index tries. */
  function Tried(index: nat, k: nat): (h: nat)
    requires index > 0
    ensures 0 < h <= HANDLE_MASK
  {
    if k == 0 then Wrap(index) else Wrap(Tried(index, k - 1) + 1)
  }

  lemma {:induction false} TriedIs(index: nat, k: nat)
    requires 0 < index <= INDEXES && k <= HANDLE_MASK
    ensures index + k <= HANDLE_MASK ==> Tried(index, k) == index + k
    ensures HANDLE_MASK < index + k <= 2 * HANDLE_MASK ==> Tried(index, k) == index + k - HANDLE_MASK
    decreases k
  {
    if k > 0 {
      TriedIs(index, k - 1);
    }
  }

  /** The scan passes the last index without coming round to slot 0. */
  predicate PassesFirst(index: nat, size: nat) {
    size == INDEXES || INDEXES - size < index < INDEXES
  }

  /** When no handle with low bits 'r' is skipped. */
  ghost predicate Reached(index: nat, size: nat, r: nat)
    requires index > 0 && size > 0
  {
    exists k: nat :: k < size && Hash(Tried(index, k), size) == r
  }

  lemma ReachedAt(index: nat, size: nat, r: nat, k: nat, a: int)
    requires 0 < index <= INDEXES && r < size <= INDEXES && k < size
    requires index + k <= HANDLE_MASK ==> index + k == a * size + r
    requires HANDLE_MASK < index + k ==> index + k - HANDLE_MASK == a * size + r <= HANDLE_MASK
    ensures Reached(index, size, r)
  {
    TriedIs(index, k);
    DivUnique(Tried(index, k), size, a, r);
    assert Hash(Tried(index, k), size) == r;
  }

  /** Slots a scan reaches without passing the last index. */
  lemma ReachedAhead(index: nat, size: nat, r: nat, m: nat)
    requires 0 < index <= INDEXES && r < size && INDEXES == m * size
    ensures index / size * size + r <= HANDLE_MASK && r >= index % size ==> Reached(index, size, r)
    ensures (index / size + 1) * size + r <= HANDLE_MASK && r < index % size ==> Reached(index, size, r)
  {
    var q, low := index / size, index % size;
    assert index == q * size + low;
    assert size <= INDEXES by {
      assert m > 0;
      assert (m - 1) * size >= 0;
    }
    if r >= low && q * size + r <= HANDLE_MASK {
      ReachedAt(index, size, r, r - low, q);
    }
    if r < low && (q + 1) * size + r <= HANDLE_MASK {
      assert (q + 1) * size == q * size + size;
      ReachedAt(index, size, r, size - low + r, q + 1);
    }
  }

  lemma AddsUp(a: nat, b: nat, size: nat)
    ensures (a + b) * size == a * size + b * size && b * size >= 0
  {
  }

  lemma Blocks(q: nat, m: nat, size: nat)
    ensures q < m ==> q * size + size <= m * size
    ensures m <= q ==> m * size <= q * size
  {
    if q < m {
      AddsUp(q + 1, m - q - 1, size);
      AddsUp(q, 1, size);
    } else {
      AddsUp(m, q - m, size);
    }
  }

  /** A scan reaches every slot but, when it passes the last index, slot 0. */
  lemma ScanReaches(index: nat, size: nat, r: nat)
    requires 0 < index <= INDEXES && SlotSize(size) && r < size <= INDEXES
    requires r > 0 || !PassesFirst(index, size)
    ensures Reached(index, size, r)
  {
    hide Reached, Tried, SlotSize;
    IndexesAreSize();
    SizesDivide(size, INDEXES);
    var m: nat :| INDEXES == m * size;
    if index == INDEXES {
      ReachedFromLast(size, r);
    } else if r >= index % size || (index / size + 1) * size + r <= HANDLE_MASK {
      ReachedHere(index, size, r, m);
    } else {
      ReachedAround(index, size, r, m);
    }
  }

  lemma ReachedFromLast(size: nat, r: nat)
    requires r < size <= INDEXES && (r > 0 || size < INDEXES)
    ensures Reached(INDEXES, size, r)
  {
    hide Reached, Tried;
    if r == 0 {
      ReachedAt(INDEXES, size, 0, size - 1, 1);
    } else {
      ReachedAt(INDEXES, size, r, r - 1, 0);
    }
  }

  lemma ReachedHere(index: nat, size: nat, r: nat, m: nat)
    requires 0 < index < INDEXES && r < size && INDEXES == m * size
    requires r >= index % size || (index / size + 1) * size + r <= HANDLE_MASK
    ensures Reached(index, size, r)
  {
    hide Reached, Tried;
    var q := index / size;
    assert index == q * size + index % size;
    Blocks(q, m, size);
    ReachedAhead(index, size, r, m);
  }

  /** Slots the scan reaches after it starts again at 1. */
  lemma ReachedAround(index: nat, size: nat, r: nat, m: nat)
    requires 0 < index < INDEXES && r < size && INDEXES == m * size
    requires r > 0 || !PassesFirst(index, size)
    requires r < index % size && (index / size + 1) * size + r > HANDLE_MASK
    ensures Reached(index, size, r)
  {
    hide Reached, Tried;
    var q, low := index / size, index % size;
    AddsUp(q, 1, size);
    Blocks(q + 1, m, size);
    Blocks(q, m, size);
    assert m == q + 1;
    assert index == INDEXES - size + low;
    ReachedAt(index, size, r, size - low - 1 + r, 0);
  }

  /** And then it does not. */
  lemma FirstSkipped(index: nat, size: nat)
    requires 0 < index <= INDEXES && SlotSize(size) && size <= INDEXES && PassesFirst(index, size)
    ensures !Reached(index, size, 0)
  {
    IndexesAreSize();
    SizesDivide(size, INDEXES);
    var m: nat :| INDEXES == m * size;
    forall k: nat | k < size ensures Hash(Tried(index, k), size) != 0 {
      var h := Tried(index, k);
      if size < INDEXES {
        TriedIs(index, k);
        if index + k <= HANDLE_MASK {
          var low := h - (INDEXES - size);
          assert (m - 1) * size == m * size - size;
          DivUnique(h, size, m - 1, low);
        } else {
          DivUnique(h, size, 0, h);
        }
      } else {
        DivUnique(h, size, 0, h);
      }
    }
  }

  /** What a scan that finds no room saw. */
  ghost predicate AllTaken(slot: seq<Option<Context>>, index: nat)
    requires |slot| > 0 && index > 0
  {
    forall k: nat | k < |slot| :: slot[Hash(Tried(index, k), |slot|)].Some?
  }

  /** The handle is the first of those a scan tries whose slot is empty. */
  ghost predicate FirstFree(slot: seq<Option<Context>>, index: nat, k: nat, handle: nat)
    requires |slot| > 0 && index > 0
  {
    && k < |slot| && handle == Tried(index, k) && slot[Hash(handle, |slot|)] == None
    && forall j: nat | j < k :: slot[Hash(Tried(index, j), |slot|)].Some?
  }

  /** The table after service 'id' got the first free handle, 'full' with its harbor. */
  ghost predicate Given(slot: seq<Option<Context>>, index: nat, after: seq<Option<Context>>, c: Context, handle: nat)
    requires |slot| > 0 && index > 0
  {
    && (exists k: nat :: FirstFree(slot, index, k, handle))
    && after == slot[Hash(handle, |slot|) := Some(c)]
  }

  predicate FullFrom(slot: seq<Option<Context>>, low: nat) {
    forall i | low <= i < |slot| :: slot[i].Some?
  }

  /** The one empty slot is the one the scan does not look at. */
  predicate Unseen(slot: seq<Option<Context>>, index: nat)
    requires |slot| > 0
  {
    slot[0].None? && FullFrom(slot, 1) && PassesFirst(index, |slot|)
  }

  /** A scan fails when the table is full, up to a slot it does not look at. */
  lemma ScanFails(slot: seq<Option<Context>>, index: nat)
    requires 0 < index <= INDEXES && SlotSize(|slot|) && |slot| <= INDEXES
    ensures AllTaken(slot, index) <==> FullFrom(slot, 0) || Unseen(slot, index)
  {
    if AllTaken(slot, index) {
      forall r: nat | r < |slot| && (r > 0 || !PassesFirst(index, |slot|)) ensures slot[r].Some? {
        ScanReaches(index, |slot|, r);
      }
    }
    if Unseen(slot, index) {
      FirstSkipped(index, |slot|);
    }
  }

  /** The doubled table as far as it is filled: each service moves to where one more low bit says. */
  ghost predicate Spread(slot: seq<Option<Context>>, twice: seq<Option<Context>>, n: nat)
    requires |slot| > 0
  {
    && |twice| == 2 * |slot|
    && forall j | 0 <= j < |twice| ::
         twice[j] == if j % |slot| < n && slot[j % |slot|].Some?
                        && Hash(slot[j % |slot|].value.handle, 2 * |slot|) == j
                     then slot[j % |slot|] else None
  }

  /** A doubled table holds the same services. */
  lemma SpreadKeeps(slot: seq<Option<Context>>, twice: seq<Option<Context>>)
    requires |slot| > 0 && InPlace(slot) && Spread(slot, twice, |slot|)
    ensures InPlace(twice) && forall c: Context :: Live(twice, c) <==> Live(slot, c)
  {
    forall c: Context ensures Live(twice, c) <==> Live(slot, c) {
      if Live(twice, c) {
        var j :| 0 <= j < |twice| && twice[j] == Some(c);
        assert slot[j % |slot|] == Some(c);
      }
      if Live(slot, c) {
        var i :| 0 <= i < |slot| && slot[i] == Some(c);
        HashDoubles(c.handle, |slot|);
        assert twice[Hash(c.handle, 2 * |slot|)] == Some(c);
      }
    }
  }

  /** Each pair of slots that comes from one is half taken, so the next scan succeeds. */
  lemma HalfEmpty(slot: seq<Option<Context>>, twice: seq<Option<Context>>)
    requires |slot| > 1 && Spread(slot, twice, |slot|)
    ensures !FullFrom(twice, 1)
  {
    DivUnique(1 + |slot|, |slot|, 1, 1);
    DivUnique(1, |slot|, 0, 1);
    assert twice[1].None? || twice[1 + |slot|].None?;
  }

  lemma SpreadStart(slot: seq<Option<Context>>, twice: seq<Option<Context>>)
    requires |slot| > 0 && |twice| == 2 * |slot| && forall j | 0 <= j < |twice| :: twice[j] == None
    ensures Spread(slot, twice, 0)
  {
  }

  /** The next service goes to a slot of the doubled table that is still empty. */
  lemma SpreadStep(slot: seq<Option<Context>>, twice: seq<Option<Context>>, n: nat, hash: nat)
    requires n < |slot| && InPlace(slot) && Spread(slot, twice, n) && slot[n].Some?
    requires hash == Hash(slot[n].value.handle, 2 * |slot|)
    ensures hash < |twice| && twice[hash] == None && Spread(slot, twice[hash := slot[n]], n + 1)
  {
    HashDoubles(slot[n].value.handle, |slot|);
  }

  /** A service placed by its handle. */
  lemma Placed(slot: seq<Option<Context>>, hash: nat, c: Context)
    requires InPlace(slot) && hash < |slot| && slot[hash] == None && Hash(c.handle, |slot|) == hash
    ensures InPlace(slot[hash := Some(c)])
    ensures forall d: Context | Live(slot, d) :: d.handle != c.handle
    ensures forall d: Context :: Live(slot[hash := Some(c)], d) <==> Live(slot, d) || d == c
  {
    var slot' := slot[hash := Some(c)];
    forall d: Context ensures Live(slot', d) <==> Live(slot, d) || d == c {
      if Live(slot', d) {
        var i :| 0 <= i < |slot'| && slot'[i] == Some(d);
        assert i != hash ==> slot[i] == Some(d);
      }
      if Live(slot, d) {
        var i :| 0 <= i < |slot| && slot[i] == Some(d);
        assert slot'[i] == Some(d);
      }
      assert slot'[hash] == Some(c);
    }
  }

  lemma HighBits(handle: nat, h: nat, m: nat, size: nat)
    requires size > 0
    ensures Hash(handle + h * (m * size), size) == Hash(handle, size)
  {
    var q := handle / size;
    assert h * (m * size) == (h * m) * size;
    AddsUp(q, h * m, size);
    DivUnique(handle + h * (m * size), size, q + h * m, handle % size);
  }

  /** The harbor bits are above the low bits. */
  lemma HarborBits(handle: nat, harbor: nat, size: nat)
    requires SlotSize(size) && size <= INDEXES && harbor % INDEXES == 0
    ensures Hash(handle + harbor, size) == Hash(handle, size)
  {
    IndexesAreSize();
    SizesDivide(size, INDEXES);
    var m: nat :| INDEXES == m * size;
    HighBits(handle, harbor / INDEXES, m, size);
  }

  class Registry {
    const harbor: nat
    const names: Names
    var handleIndex: nat
    var slot: array<Option<Context>>
    ghost var issued: set<nat>

    ghost predicate Valid()
      reads this, slot, names, names.name
    {
      && SlotSize(slot.Length) && DEFAULT_SLOT_SIZE <= slot.Length <= INDEXES
      && harbor % INDEXES == 0 && 0 < handleIndex <= INDEXES
      && InPlace(slot[..])
      && (forall c: Context | Live(slot[..], c) :: c.handle in issued)
      && names.Valid()
    }

    /** No handle index was used again so far. */
    ghost predicate NotWrapped()
      reads this
    {
      forall h | h in issued :: h < harbor + handleIndex
    }

    constructor (harborId: nat)
      ensures Valid() && NotWrapped() && fresh(slot) && forall c: Context :: !Live(slot[..], c)
      ensures fresh(names) && fresh(names.name) && names.Entries() == []
      ensures handleIndex == 1 && slot[..] == [None, None, None, None] && harbor == harborId % 256 * INDEXES
    {
      harbor := harborId % 256 * INDEXES;
      names := new Names();
      handleIndex := 1;
      slot := new Option<Context>[DEFAULT_SLOT_SIZE](_ => None);
      issued := {};
    }

    /** The registered service of a handle: 'skynet_handle_grab'. */
    method Grab(handle: nat) returns (r: Option<Context>)
      requires Valid()
      ensures r.Some? ==> r.value.handle == handle && Live(slot[..], r.value)
      ensures r.None? ==> forall c: Context | Live(slot[..], c) :: c.handle != handle
    {
      var ctx := slot[Hash(handle, slot.Length)];
      if ctx.Some? && ctx.value.handle == handle {
        assert slot[..][Hash(handle, slot.Length)] == ctx;
        return ctx;
      }
      return None;
    }

    /** Takes a service and its names out: 'skynet_handle_retire'. */
    method Retire(handle: nat) returns (r: Option<Context>)
      requires Valid()
      modifies slot, names`count, names.name
      ensures Valid() && slot == old(slot)
      ensures forall n, h :: Binds(names.Entries(), n, h) <==>
                old(Binds(names.Entries(), n, h)) && (r.Some? ==> h != handle)
      ensures r.Some? ==> r.value.handle == handle && old(Live(slot[..], r.value))
      ensures forall c: Context :: Live(slot[..], c) <==> old(Live(slot[..], c)) && c.handle != handle
      ensures r.Some? || forall c: Context | Live(slot[..], c) :: c.handle != handle
      ensures slot[..] == if r.Some? then old(slot[..])[Hash(handle, slot.Length) := None] else old(slot[..])
    {
      var hash := Hash(handle, slot.Length);
      r := slot[hash];
      ghost var was := slot[..];
      if r.Some? && r.value.handle == handle {
        assert was[hash] == r;
        slot[hash] := None;
        names.Drop(handle);
        Removed(was, hash, handle);
        assert slot[..] == was[hash := None];
      } else {
        r := None;
        NotLive(was, hash, handle);
      }
    }

    /** Looks for an empty slot from the next index on, as many times as there are slots. */
    method Scan() returns (found: bool, hash: nat, handle: nat)
      requires Valid()
      ensures found <==> !AllTaken(slot[..], handleIndex)
      ensures found ==> 0 < handle <= HANDLE_MASK && hash == Hash(handle, slot.Length) && slot[hash] == None
      ensures found ==> exists k: nat :: FirstFree(slot[..], handleIndex, k, handle)
    {
      handle := handleIndex;
      for i := 0 to slot.Length
        invariant handle > 0 && Wrap(handle) == Tried(handleIndex, i)
        invariant forall k: nat | k < i :: slot[Hash(Tried(handleIndex, k), slot.Length)].Some?
      {
        if handle > HANDLE_MASK {
          handle := 1;
        }
        hash := Hash(handle, slot.Length);
        if slot[hash] == None {
          assert FirstFree(slot[..], handleIndex, i, handle);
          return true, hash, handle;
        }
        handle := handle + 1;
      }
      found, hash := false, 0;
    }

    /** Doubles the table; 'ok' is false when a slot it reads as a service is empty. */
    method DoubleSlots() returns (ok: bool)
      requires Valid() && 2 * slot.Length <= INDEXES
      modifies this`slot
      ensures Valid() && ok == FullFrom(old(slot[..]), 0)
      ensures ok ==> fresh(slot) && Spread(old(slot[..]), slot[..], old(slot.Length))
      ensures !ok ==> slot == old(slot)
    {
      hide Spread, SlotSize, Live;
      var size := slot.Length;
      var newSlot := new Option<Context>[size * 2](_ => None);
      SpreadStart(slot[..], newSlot[..]);
      for i := 0 to size
        modifies newSlot
        invariant Spread(slot[..], newSlot[..], i)
        invariant forall j | 0 <= j < i :: slot[j].Some?
      {
        if slot[i] == None {
          return false;
        }
        var hash := Hash(slot[i].value.handle, size * 2);
        SpreadStep(slot[..], newSlot[..], i, hash);
        assert newSlot[hash] == None;
        ghost var was := newSlot[..];
        newSlot[hash] := slot[i];
        assert newSlot[..] == was[hash := slot[i]];
      }
      SpreadKeeps(slot[..], newSlot[..]);
      SizeDoubles(size);
      slot := newSlot;
      ok := true;
    }

    /** Puts a service where its handle says. */
    method Place(id: nat, hash: nat, handle: nat) returns (full: nat)
      requires Valid() && 0 < handle <= HANDLE_MASK && hash == Hash(handle, slot.Length) && slot[hash] == None
      modifies this`handleIndex, this`issued, slot
      ensures Valid() && full == harbor + handle && handleIndex == handle + 1
      ensures issued == old(issued) + {full} && slot[..] == old(slot[..])[hash := Some(Context(id, full))]
      ensures forall c: Context | old(Live(slot[..], c)) :: c.handle != full
      ensures forall c: Context :: Live(slot[..], c) <==> old(Live(slot[..], c)) || c == Context(id, full)
    {
      full := handle + harbor;
      HarborBits(handle, harbor, slot.Length);
      ghost var was := slot[..];
      Placed(was, hash, Context(id, full));
      slot[hash] := Some(Context(id, full));
      assert slot[..] == was[hash := Some(Context(id, full))];
      handleIndex := handle + 1;
      issued := issued + {full};
    }

    /**
     * Gives a service a handle: 'skynet_handle_register'. It may double the table; then it reads every
     * slot as a service, which goes wrong exactly when the scan passed the end of the handle indexes,
     * so that it never looked at slot 0, and slot 0 alone is empty.
     */
    method Register(id: nat) returns (r: Registration)
      requires Valid()
      modifies this, slot
      ensures Valid() && (slot == old(slot) || fresh(slot))
      ensures r.Full? <==> old(slot.Length == INDEXES && FullFrom(slot[..], 1))
      ensures r.NullRead? <==> old(slot.Length < INDEXES && Unseen(slot[..], handleIndex))
      ensures r.Registered? ==>
                && r.handle == harbor + handleIndex - 1 && issued == old(issued) + {r.handle}
                && (forall c: Context | old(Live(slot[..], c)) :: c.handle != r.handle)
                && (forall c: Context :: Live(slot[..], c) <==> old(Live(slot[..], c)) || c == Context(id, r.handle))
      ensures r.Registered? && old(NotWrapped()) && handleIndex > old(handleIndex) ==>
                r.handle !in old(issued) && NotWrapped()
      ensures !old(AllTaken(slot[..], handleIndex)) ==> r.Registered? && slot == old(slot)
      ensures r.Registered? && !old(AllTaken(slot[..], handleIndex)) ==>
                Given(old(slot[..]), old(handleIndex), slot[..], Context(id, r.handle), handleIndex - 1)
      ensures r.Registered? && old(AllTaken(slot[..], handleIndex)) ==>
                exists twice :: Spread(old(slot[..]), twice, old(slot.Length)) &&
                  Given(twice, old(handleIndex), slot[..], Context(id, r.handle), handleIndex - 1)
    {
      hide AllTaken, Tried, InPlace, Spread, Live, SlotSize, Wrap, Hash, FirstFree;
      ghost var was := slot[..];
      ScanFails(was, handleIndex);
      var found, hash, handle := Scan();
      if !found {
        if 2 * slot.Length - 1 > HANDLE_MASK {
          HalfOrAll(slot.Length);
          return Full;
        }
        var ok := DoubleSlots();
        if !ok {
          return NullRead;
        }
        SpreadKeeps(was, slot[..]);
        HalfEmpty(was, slot[..]);
        ScanFails(slot[..], handleIndex);
        found, hash, handle := Scan();
        assert |slot[..]| > 0 && Spread(was, slot[..], |was|);
      }
      var full := Place(id, hash, handle);
      r := Registered(full);
    }
  }

  /** What registering comes to: a handle, a failed assertion, or a null pointer. */
  datatype Registration = Registered(handle: nat) | Full | NullRead

  lemma HalfOrAll(size: nat)
    requires SlotSize(size) && size <= INDEXES < 2 * size
    ensures size == INDEXES
  {
    IndexesAreSize();
    SizesDivide(size, INDEXES);
    var m: nat :| INDEXES == m * size;
    if m >= 2 {
      assert (m - 2) * size >= 0;
    }
  }

  lemma Removed(slot: seq<Option<Context>>, hash: nat, handle: nat)
    requires InPlace(slot) && hash < |slot| && slot[hash].Some? && slot[hash].value.handle == handle
    ensures var slot' := slot[hash := None];
            InPlace(slot') && forall c: Context :: Live(slot', c) <==> Live(slot, c) && c.handle != handle
  {
    var slot' := slot[hash := None];
    forall c: Context ensures Live(slot', c) <==> Live(slot, c) && c.handle != handle {
      if Live(slot', c) {
        var i :| 0 <= i < |slot'| && slot'[i] == Some(c);
        assert slot[i] == Some(c);
      }
      if Live(slot, c) && c.handle != handle {
        var i :| 0 <= i < |slot| && slot[i] == Some(c);
        assert slot'[i] == Some(c);
      }
    }
  }

  lemma NotLive(slot: seq<Option<Context>>, hash: nat, handle: nat)
    requires InPlace(slot) && |slot| > 0 && hash == Hash(handle, |slot|)
    requires slot[hash].Some? ==> slot[hash].value.handle != handle
    ensures forall c: Context | Live(slot, c) :: c.handle != handle
  {
  }

  // ---- A registry that reads a null slot ----

  /** Three services stay, and slot 0 is empty. */
  predicate Three(slot: seq<Option<Context>>, harbor: nat) {
    slot == [None, Some(Context(1, harbor + 1)), Some(Context(2, harbor + 2)), Some(Context(3, harbor + 3))]
  }

  /** A slot that is empty at the next index is taken at once. */
  lemma AtOnce(slot: seq<Option<Context>>, index: nat, k: nat, handle: nat)
    requires |slot| > 0 && 0 < index <= HANDLE_MASK && slot[Hash(index, |slot|)] == None
    requires FirstFree(slot, index, k, handle)
    ensures handle == index
  {
    assert Tried(index, 0) == index;
  }

  /** The next handle is the next multiple of four. */
  lemma NextMultiple(slot: seq<Option<Context>>, harbor: nat, index: nat, k: nat, handle: nat)
    requires Three(slot, harbor) && 0 < index && index + 3 <= HANDLE_MASK
    requires FirstFree(slot, index, k, handle)
    ensures index <= handle <= index + 3 && handle % 4 == 0
  {
    TriedIs(index, k);
  }

  /** A registry with three services. */
  method WithThree(harborId: nat) returns (registry: Registry)
    ensures registry.Valid() && fresh(registry) && fresh(registry.slot) && fresh(registry.names)
    ensures fresh(registry.names.name) && Three(registry.slot[..], registry.harbor) && registry.handleIndex == 4
  {
    registry := new Registry(harborId);
    First(registry, 1);
    First(registry, 2);
    First(registry, 3);
  }

  /** A service that finds the slot of the next index empty. */
  method First(registry: Registry, id: nat)
    requires registry.Valid() && registry.slot.Length == 4 && registry.handleIndex == id < 4
    requires registry.slot[id] == None
    modifies registry, registry.slot
    ensures registry.Valid() && registry.slot == old(registry.slot) && registry.handleIndex == id + 1
    ensures registry.slot[..] == old(registry.slot[..])[id := Some(Context(id, registry.harbor + id))]
  {
    hide Tried, InPlace, Spread, Live, FirstFree, FullFrom;
    ghost var was := registry.slot[..];
    EmptyNext(was, id);
    var r := registry.Register(id);
    ghost var k: nat :| FirstFree(was, id, k, registry.handleIndex - 1);
    AtOnce(was, id, k, registry.handleIndex - 1);
  }

  lemma EmptyNext(slot: seq<Option<Context>>, index: nat)
    requires |slot| == 4 && 0 < index < 4 && slot[index] == None
    ensures !AllTaken(slot, index) && !FullFrom(slot, 1)
  {
    assert Tried(index, 0) == index;
  }

  lemma ZeroNext(slot: seq<Option<Context>>, harbor: nat, index: nat)
    requires Three(slot, harbor) && 0 < index < HANDLE_MASK - 2
    ensures !AllTaken(slot, index) && !Unseen(slot, index)
  {
    SmallSize();
    ScanFails(slot, index);
    assert slot[0].None?;
  }

  /** One more service, and its end. */
  method ComeAndGo(registry: Registry)
    requires registry.Valid() && Three(registry.slot[..], registry.harbor)
    requires registry.handleIndex < HANDLE_MASK - 2
    modifies registry, registry.slot, registry.names, registry.names.name
    ensures registry.Valid() && registry.slot == old(registry.slot)
    ensures registry.names.name == old(registry.names.name)
    ensures registry.slot[..] == old(registry.slot[..])
    ensures old(registry.handleIndex) < registry.handleIndex <= old(registry.handleIndex) + 4
    ensures registry.handleIndex % 4 == 1
  {
    hide Tried, InPlace, Spread, Live, FirstFree, AllTaken, FullFrom, SlotSize;
    ghost var was, index := registry.slot[..], registry.handleIndex;
    ZeroNext(was, registry.harbor, index);
    var r := registry.Register(0);
    ghost var handle := registry.handleIndex - 1;
    ghost var k: nat :| FirstFree(was, index, k, handle);
    NextMultiple(was, registry.harbor, index, k, handle);
    FourBits(handle, registry.harbor);
    Occupies(registry.slot[..], 0, Context(0, r.handle));
    var gone := registry.Retire(r.handle);
  }

  /**
   * With three services that stay, registering and retiring one more again and again brings the next
   * index to the last three; then registering reads a null slot.
   */
  method ToNullRead(harborId: nat) returns (r: Registration)
    ensures r.NullRead?
  {
    hide InPlace, SlotSize;
    var registry := WithThree(harborId);
    while registry.handleIndex < HANDLE_MASK - 2
      invariant registry.Valid() && fresh(registry) && fresh(registry.slot) && fresh(registry.names)
      invariant fresh(registry.names.name) && Three(registry.slot[..], registry.harbor)
      invariant registry.handleIndex == 4 || registry.handleIndex % 4 == 1
      invariant registry.handleIndex <= HANDLE_MASK - 2
      decreases HANDLE_MASK - registry.handleIndex
    {
      ComeAndGo(registry);
    }
    r := registry.Register(4);
  }

  lemma SmallSize()
    ensures SlotSize(4)
  {
    assert SlotSize(2);
  }

  lemma FourBits(handle: nat, harbor: nat)
    requires harbor % INDEXES == 0 && handle % 4 == 0
    ensures Hash(harbor + handle, 4) == 0
  {
  }

  lemma Occupies(slot: seq<Option<Context>>, i: nat, c: Context)
    requires i < |slot| && slot[i] == Some(c)
    ensures Live(slot, c)
  {
  }
}
