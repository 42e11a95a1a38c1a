// The names of services (skynet_handle.c): an array sorted by strcmp, searched by halving.

module HandleNames {

  /** The bytes of a C string, without the final zero. */
  type Text = seq<nat>

  /** A name given to the service of a handle. */
  datatype Named = Named(name: Text, handle: nat)

  const MAX_SLOT_SIZE := 0x4000_0000

  /** strcmp: negative, zero or positive as 'a' comes before, is or comes after 'b'. */
  function Compare(a: Text, b: Text): (c: int)
    ensures c == 0 <==> a == b
  {
    if a == [] then (if b == [] then 0 else -1)
    else if b == [] then 1
    else if a[0] != b[0] then a[0] - b[0]
    else
      assert a == [a[0]] + a[1..] && b == [b[0]] + b[1..];
      Compare(a[1..], b[1..])
  }

  lemma {:induction false} CompareTurns(a: Text, b: Text)
    ensures Compare(a, b) < 0 <==> Compare(b, a) > 0
  {
    if a != [] && b != [] && a[0] == b[0] {
      CompareTurns(a[1..], b[1..]);
    }
  }

  lemma {:induction false} CompareChains(a: Text, b: Text, c: Text)
    requires Compare(a, b) < 0 && Compare(b, c) < 0
    ensures Compare(a, c) < 0
  {
    if a != [] && b != [] && c != [] && a[0] == b[0] == c[0] {
      CompareChains(a[1..], b[1..], c[1..]);
    }
  }

  ghost predicate Sorted(e: seq<Named>) {
    forall i, j | 0 <= i < j < |e| :: Compare(e[i].name, e[j].name) < 0
  }

  /** The name stands for the handle. */
  ghost predicate Binds(e: seq<Named>, name: Text, handle: nat) {
    Named(name, handle) in e
  }

  ghost predicate Unbound(e: seq<Named>, name: Text) {
    forall i | 0 <= i < |e| :: e[i].name != name
  }

  /** A name stands for one handle. */
  lemma BindsOnce(e: seq<Named>, name: Text, h: nat, g: nat)
    requires Sorted(e) && Binds(e, name, h) && Binds(e, name, g)
    ensures h == g
  {
    var i :| 0 <= i < |e| && e[i] == Named(name, h);
    var j :| 0 <= j < |e| && e[j] == Named(name, g);
    assert Compare(name, name) == 0;
  }

  /** The names before and after the place of one that is not there. */
  ghost predicate Splits(e: seq<Named>, name: Text, at: nat) {
    && at <= |e|
    && (forall i | 0 <= i < at :: Compare(e[i].name, name) < 0)
    && (forall i | at <= i < |e| :: Compare(e[i].name, name) > 0)
  }

  function Inserted(e: seq<Named>, n: Named, at: nat): seq<Named>
    requires at <= |e|
  {
    e[..at] + [n] + e[at..]
  }

  /** The names with a gap for one more. */
  ghost predicate Gap(a: seq<Named>, e: seq<Named>, at: nat) {
    && at <= |e| < |a|
    && (forall k | 0 <= k < at :: a[k] == e[k])
    && (forall k | at < k <= |e| :: a[k] == e[k - 1])
  }

  lemma GapFilled(a: seq<Named>, e: seq<Named>, at: nat, n: Named)
    requires Gap(a, e, at)
    ensures at <= |e| < |a| && a[at := n][..|e| + 1] == Inserted(e, n, at)
  {
  }

  /** A new name at its place keeps the order and adds one binding. */
  lemma InsertedKeeps(e: seq<Named>, n: Named, at: nat)
    requires Sorted(e) && Splits(e, n.name, at)
    ensures Sorted(Inserted(e, n, at)) && Unbound(e, n.name)
    ensures forall m, h :: Binds(Inserted(e, n, at), m, h) <==> Binds(e, m, h) || Named(m, h) == n
  {
    var e' := Inserted(e, n, at);
    forall i | 0 <= i < |e| ensures e[i].name != n.name && (i >= at ==> Compare(n.name, e[i].name) < 0) {
      CompareTurns(n.name, e[i].name);
    }
    forall i, j | 0 <= i < j < |e'| ensures Compare(e'[i].name, e'[j].name) < 0 {
      assert i < at ==> e'[i] == e[i];
      assert i > at ==> e'[i] == e[i - 1];
      assert j < at ==> e'[j] == e[j];
      assert j > at ==> e'[j] == e[j - 1];
    }
    forall m, h ensures Binds(e', m, h) <==> Binds(e, m, h) || Named(m, h) == n {
      assert e == e[..at] + e[at..];
    }
  }

  /** The names of all services but one. */
  function Without(e: seq<Named>, handle: nat): (r: seq<Named>)
    ensures |r| <= |e|
  {
    if e == [] then []
    else if e[|e| - 1].handle == handle then Without(e[..|e| - 1], handle)
    else Without(e[..|e| - 1], handle) + [e[|e| - 1]]
  }

  lemma {:induction false} WithoutHolds(e: seq<Named>, handle: nat, n: Named)
    ensures n in Without(e, handle) <==> n in e && n.handle != handle
  {
    if e != [] {
      assert e == e[..|e| - 1] + [e[|e| - 1]];
      WithoutHolds(e[..|e| - 1], handle, n);
    }
  }

  lemma {:induction false} WithoutSorted(e: seq<Named>, handle: nat)
    requires Sorted(e)
    ensures Sorted(Without(e, handle))
  {
    if e != [] {
      var last := |e| - 1;
      WithoutSorted(e[..last], handle);
      var w := Without(e[..last], handle);
      forall i | 0 <= i < |w| ensures Compare(w[i].name, e[last].name) < 0 {
        WithoutHolds(e[..last], handle, w[i]);
      }
      SortedEnd(w, e[last]);
    }
  }

  lemma SortedEnd(w: seq<Named>, n: Named)
    requires Sorted(w) && forall i | 0 <= i < |w| :: Compare(w[i].name, n.name) < 0
    ensures Sorted(w + [n])
  {
  }

  /** Retiring a service takes out exactly its names. */
  lemma WithoutBinds(e: seq<Named>, handle: nat)
    requires Sorted(e)
    ensures Sorted(Without(e, handle))
    ensures forall m, h :: Binds(Without(e, handle), m, h) <==> Binds(e, m, h) && h != handle
  {
    WithoutSorted(e, handle);
    forall m, h ensures Binds(Without(e, handle), m, h) <==> Binds(e, m, h) && h != handle {
      WithoutHolds(e, handle, Named(m, h));
    }
  }

  /** What naming a service comes to: done, the name is taken, or a failed assertion. */
  datatype Naming = Added | Taken | TooMany

  class Names {
    var name: array<Named>
    var count: nat

    ghost predicate Valid()
      reads this, name
    {
      count <= name.Length && 2 <= name.Length <= MAX_SLOT_SIZE && Sorted(name[..count])
    }

    ghost function Entries(): seq<Named>
      reads this, name
      requires count <= name.Length
    {
      name[..count]
    }

    constructor ()
      ensures Valid() && Entries() == [] && fresh(name)
    {
      name := new Named[2](_ => Named([], 0));
      count := 0;
    }

    /** Halves the range until it finds the name or the place where it would be. */
    method Search(n: Text) returns (found: bool, at: nat)
      requires Valid()
      ensures found ==> at < count && name[at].name == n
      ensures !found ==> Splits(Entries(), n, at)
    {
      var begin, end := 0, count - 1;
      while begin <= end
        invariant 0 <= begin <= end + 1 <= count
        invariant forall i | 0 <= i < begin :: Compare(name[i].name, n) < 0
        invariant forall i | end < i < count :: Compare(name[i].name, n) > 0
      {
        var mid := (begin + end) / 2;
        var c := Compare(name[mid].name, n);
        var e := name[..count];
        if c == 0 {
          return true, mid;
        }
        if c < 0 {
          forall i | 0 <= i < mid ensures Compare(name[i].name, n) < 0 {
            assert Compare(e[i].name, e[mid].name) < 0;
            CompareChains(e[i].name, e[mid].name, n);
          }
          begin := mid + 1;
        } else {
          CompareTurns(n, name[mid].name);
          forall i | mid < i < count ensures Compare(name[i].name, n) > 0 {
            assert Compare(e[mid].name, e[i].name) < 0;
            CompareChains(n, e[mid].name, e[i].name);
            CompareTurns(n, e[i].name);
          }
          end := mid - 1;
        }
      }
      found, at := false, begin;
    }

    /** The handle a name stands for, or 0: 'skynet_handle_findname'. */
    method FindName(n: Text) returns (handle: nat)
      requires Valid()
      ensures Unbound(Entries(), n) ==> handle == 0
      ensures !Unbound(Entries(), n) ==> Binds(Entries(), n, handle)
    {
      var found, at := Search(n);
      if found {
        assert name[..count][at].name == n;
        handle := name[at].handle;
      } else {
        forall i | 0 <= i < count ensures Entries()[i].name != n {
          assert Compare(n, n) == 0;
        }
        handle := 0;
      }
    }

    /** Copies the names to an array of twice the size, leaving a gap. */
    method CopyAround(before: nat) returns (m: array<Named>)
      requires count == name.Length > 0 && before <= count
      ensures fresh(m) && m.Length == name.Length * 2 && Gap(m[..], name[..], before)
    {
      var some := name[0];
      m := new Named[name.Length * 2](_ => some);
      for i := 0 to before
        invariant forall k | 0 <= k < i :: m[k] == name[k]
      {
        m[i] := name[i];
      }
      for i := before to count
        invariant forall k | 0 <= k < before :: m[k] == name[k]
        invariant forall k | before < k <= i :: m[k] == name[k - 1]
      {
        m[i + 1] := name[i];
      }
    }

    /** Moves the names from a place on up by one. */
    method MoveUp(before: nat)
      requires before <= count < name.Length
      modifies name
      ensures Gap(name[..], old(name[..count]), before)
    {
      ghost var e := name[..count];
      var i := count;
      while i > before
        invariant before <= i <= count
        invariant forall k | 0 <= k < i :: name[k] == e[k]
        invariant forall k | i < k <= count :: name[k] == e[k - 1]
      {
        name[i] := name[i - 1];
        i := i - 1;
      }
    }

    /** Puts a name at a place, in a new array when this one is full: '_insert_name_before'. */
    method InsertBefore(n: Named, before: nat) returns (ok: bool)
      requires Valid() && before <= count
      modifies this, name
      ensures ok <==> old(count < name.Length || 2 * name.Length <= MAX_SLOT_SIZE)
      ensures count <= name.Length && 2 <= name.Length <= MAX_SLOT_SIZE
      ensures name == old(name) || fresh(name)
      ensures Entries() == if ok then Inserted(old(Entries()), n, before) else old(Entries())
    {
      hide Gap, Inserted;
      ghost var e := Entries();
      if count >= name.Length {
        if name.Length * 2 > MAX_SLOT_SIZE {
          return false;
        }
        assert name[..] == e;
        name := CopyAround(before);
      } else {
        MoveUp(before);
      }
      GapFilled(name[..], e, before, n);
      ghost var a := name[..];
      name[before] := n;
      assert name[..] == a[before := n];
      assert name[..count + 1] == name[..][..count + 1];
      count := count + 1;
      ok := true;
    }

    /** Names a service: 'skynet_handle_namehandle'. */
    method InsertName(n: Text, handle: nat) returns (r: Naming)
      requires Valid()
      modifies this, name
      ensures Valid() && (name == old(name) || fresh(name))
      ensures r.Taken? <==> !Unbound(old(Entries()), n)
      ensures r.TooMany? <==> Unbound(old(Entries()), n) && old(count == name.Length && 2 * name.Length > MAX_SLOT_SIZE)
      ensures r.Added? ==>
                forall m, h :: Binds(Entries(), m, h) <==> old(Binds(Entries(), m, h)) || (m == n && h == handle)
      ensures !r.Added? ==> Entries() == old(Entries())
    {
      var found, at := Search(n);
      if found {
        assert Entries()[at].name == n;
        return Taken;
      }
      InsertedKeeps(Entries(), Named(n, handle), at);
      var ok := InsertBefore(Named(n, handle), at);
      r := if ok then Added else TooMany;
    }

    /** Takes out the names of a retired service, moving the others down: the loop of 'skynet_handle_retire'. */
    method Drop(handle: nat)
      requires Valid()
      modifies this`count, name
      ensures Valid()
      ensures forall m, h :: Binds(Entries(), m, h) <==> old(Binds(Entries(), m, h)) && h != handle
    {
      ghost var e := name[..count];
      var j := 0;
      for i := 0 to count
        modifies name
        invariant 0 <= j <= i
        invariant name[..j] == Without(e[..i], handle)
        invariant forall k | i <= k < count :: name[k] == e[k]
      {
        assert e[..i + 1][..i] == e[..i];
        if name[i].handle != handle {
          if i != j {
            name[j] := name[i];
          }
          assert name[..j + 1] == name[..j] + [e[i]];
          j := j + 1;
        }
      }
      assert e[..count] == e;
      count := j;
      WithoutBinds(e, handle);
    }
  }
}
