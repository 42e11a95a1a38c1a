// Unpacking with the read cursor of lua-seri.c, and the round trip through both cursors.

module SeriRead {
  import opened Options
  import opened LittleEndian
  import opened Seri
  import opened SeriBlocks

  /** The cursor did what the parser says: the value and what is left, or an invalid stream. */
  predicate Agrees<T(==)>(p: Parsed<T>, r: Option<T>, left: seq<Byte>) {
    if p.Done? then r == Some(p.v) && left == p.rest else r == None
  }

  class ReadBlock {
    const buffer: seq<Byte>
    var ptr: nat
    var len: nat

    ghost predicate Valid()
      reads this
    {
      ptr + len == |buffer|
    }

    ghost function Left(): seq<Byte>
      requires Valid()
      reads this
    {
      buffer[ptr..]
    }

    constructor (bytes: seq<Byte>)
      ensures Valid() && Left() == bytes
    {
      buffer, ptr, len := bytes, 0, |bytes|;
    }

    /** The next 'n' bytes: 'rb_read'. */
    method Read(n: nat) returns (r: Option<seq<Byte>>)
      requires Valid()
      modifies this
      ensures Valid() && len <= old(len) && len == |Left()|
      ensures if n <= |old(Left())| then r == Some(old(Left())[..n]) && Left() == old(Left())[n..]
              else r == None && Left() == old(Left())
      ensures Agrees(ReadBytes(n, old(Left())), r, Left())
    {
      if len < n { return None; }
      ghost var left := Left();
      r := Some(buffer[ptr..ptr + n]);
      ptr, len := ptr + n, len - n;
      assert r.value == left[..n] && Left() == left[n..];
    }

    method GetInteger(cookie: nat) returns (r: Option<int>)
      requires Valid()
      modifies this
      ensures Valid() && len <= old(len)
      ensures Agrees(ReadInt(cookie, old(Left())), r, Left())
    {
      hide FromLow;
      r := None;
      if cookie == NUMBER_ZERO {
        r := Some(0);
      } else if cookie == NUMBER_BYTE {
        var b := Read(1);
        if b.Some? { r := Some(FromLow(b.value)); }
      } else if cookie == NUMBER_WORD {
        var b := Read(2);
        if b.Some? { r := Some(FromLow(b.value)); }
      } else if cookie == NUMBER_DWORD {
        var b := Read(4);
        if b.Some? { r := Some(Signed(FromLow(b.value), TWO32)); }
      } else if cookie == NUMBER_QWORD {
        var b := Read(8);
        if b.Some? { r := Some(Signed(FromLow(b.value), TWO64)); }
      }
    }

    method GetString(width: nat) returns (r: Option<seq<Byte>>)
      requires Valid()
      modifies this
      ensures Valid() && len <= old(len)
      ensures Agrees(ReadStr(width, old(Left())), r, Left())
    {
      hide FromLow;
      var b := Read(width);
      if b.None? { return None; }
      var n := Signed(FromLow(b.value), TWO32);
      // A negative length moves the cursor back, and making a string of it fails.
      if n < 0 { return None; }
      r := Read(n);
    }

    method GetSize(cookie: nat) returns (r: Option<int>)
      requires Valid()
      modifies this
      ensures Valid() && len <= old(len)
      ensures Agrees(ReadSize(cookie, old(Left())), r, Left())
    {
      hide ReadInt, Signed;
      if cookie != MAX_COOKIE - 1 { return Some(cookie); }
      var t := Read(1);
      if t.None? { return None; }
      if t.value[0] % 8 != TYPE_NUMBER || t.value[0] / 8 == NUMBER_REAL { return None; }
      var n := GetInteger(t.value[0] / 8);
      if n.None? { return None; }
      r := Some(Signed(n.value % TWO32, TWO32));
    }

    /** One value: 'unpack_one' and 'push_value'. */
    method UnpackOne() returns (r: Option<Value>)
      requires Valid()
      modifies this
      ensures Valid() && len <= old(len) && (r.Some? ==> len < old(len))
      ensures Agrees(Unpack(old(Left())), r, Left())
      decreases len, 0
    {
      hide ReadInt, ReadStr, ReadSize;
      var t := Read(1);
      if t.None? { return None; }
      var type_, cookie := t.value[0] % 8, t.value[0] / 8;
      r := None;
      if type_ == TYPE_NIL {
        r := Some(Nil);
      } else if type_ == TYPE_BOOLEAN {
        r := Some(Bool(cookie != 0));
      } else if type_ == TYPE_NUMBER && cookie == NUMBER_REAL {
        var b := Read(8);
        if b.Some? { r := Some(Real(b.value)); }
      } else if type_ == TYPE_NUMBER {
        var i := GetInteger(cookie);
        if i.Some? { r := Some(Int(i.value)); }
      } else if type_ == TYPE_USERDATA {
        var b := Read(8);
        if b.Some? { r := Some(Ptr(b.value)); }
      } else if type_ == TYPE_SHORT_STRING {
        var b := Read(cookie);
        if b.Some? { r := Some(Str(b.value)); }
      } else if type_ == TYPE_LONG_STRING {
        if cookie == 2 || cookie == 4 {
          var b := GetString(cookie);
          if b.Some? { r := Some(Str(b.value)); }
        }
      } else if type_ == TYPE_TABLE {
        r := GetTable(cookie);
      }
    }

    /** A table behind its first byte: 'unpack_table'. */
    method GetTable(cookie: nat) returns (r: Option<Value>)
      requires Valid()
      modifies this
      ensures Valid() && len <= old(len)
      ensures Agrees(ReadTable(cookie, old(Left())), r, Left())
      decreases len, 3
    {
      hide Unpack, ReadSize;
      r := None;
      var n := GetSize(cookie);
      if n.None? { return; }
      var arr := GetValues(n.value);
      if arr.None? { return; }
      var pairs := GetPairs();
      if pairs.None? { return; }
      r := Some(Table(arr.value, pairs.value));
    }

    method GetValues(n: int) returns (r: Option<seq<Value>>)
      requires Valid()
      modifies this
      ensures Valid() && len <= old(len)
      ensures Agrees(UnpackValues(old(Left()), n), r, Left())
      decreases len, 2
    {
      hide Unpack;
      var vs: seq<Value> := [];
      var i := 0;
      ghost var start := Left();
      BeforeNone(UnpackValues(start, n));
      while i < n
        invariant Valid() && len <= old(len) && 0 <= i
        invariant UnpackValues(start, n) == Before(vs, UnpackValues(Left(), n - i))
        decreases n - i
      {
        ghost var before := vs;
        var v := UnpackOne();
        if v.None? { return None; }
        vs := vs + [v.value];
        i := i + 1;
        BeforeStep(before, v.value, UnpackValues(Left(), n - i));
      }
      assert vs + [] == vs;
      r := Some(vs);
    }

    method GetPairs() returns (r: Option<seq<Pair>>)
      requires Valid()
      modifies this
      ensures Valid() && len <= old(len)
      ensures Agrees(UnpackPairs(old(Left())), r, Left())
      decreases len, 2
    {
      hide Unpack;
      var ps: seq<Pair> := [];
      ghost var start := Left();
      BeforeNone(UnpackPairs(start));
      while true
        invariant Valid() && len <= old(len)
        invariant UnpackPairs(start) == Before(ps, UnpackPairs(Left()))
        decreases len
      {
        var key := UnpackOne();
        if key.None? { return None; }
        assert ps + [] == ps;
        if key.value.Nil? { return Some(ps); }
        ghost var before := ps;
        var v := UnpackOne();
        if v.None? || !IsKey(key.value) { return None; }
        ps := ps + [Pair(key.value, v.value)];
        BeforeStep(before, Pair(key.value, v.value), UnpackPairs(Left()));
      }
    }
  }

  /** What was read already, in front of what is still to be parsed. */
  function Before<T>(done: seq<T>, p: Parsed<seq<T>>): Parsed<seq<T>> {
    if p.Done? then Done(done + p.v, p.rest) else Invalid
  }

  lemma BeforeNone<T>(p: Parsed<seq<T>>)
    ensures Before([], p) == p
  {
    if p.Done? { assert [] + p.v == p.v; }
  }

  lemma BeforeStep<T>(done: seq<T>, x: T, p: Parsed<seq<T>>)
    ensures Before(done + [x], p) == if p.Done? then Before(done, Done([x] + p.v, p.rest)) else Invalid
  {
    if p.Done? { assert done + [x] + p.v == done + ([x] + p.v); }
  }

  /** All values of a buffer, or nothing when it is not a valid stream: 'luaseri_unpack'. */
  method UnpackList(bytes: seq<Byte>) returns (r: Option<seq<Value>>)
    ensures Agrees(UnpackAll(bytes), r, [])
  {
    hide Unpack;
    var rb := new ReadBlock(bytes);
    var vs: seq<Value> := [];
    BeforeNone(UnpackAll(bytes));
    while rb.len > 0
      invariant rb.Valid() && fresh(rb)
      invariant UnpackAll(bytes) == Before(vs, UnpackAll(rb.Left()))
      decreases rb.len
    {
      ghost var before := vs;
      var v := rb.UnpackOne();
      if v.None? { return None; }
      vs := vs + [v.value];
      BeforeStep(before, v.value, UnpackAll(rb.Left()));
    }
    assert vs + [] == vs;
    r := Some(vs);
  }

  /** Packing a list within the depth limit, and unpacking the buffer, gives the list back. */
  method RoundTrip(vs: seq<Value>) returns (r: Option<seq<Value>>)
    requires forall k | 0 <= k < |vs| :: Legal(vs[k]) && Shallow(vs[k], 0)
    ensures r == Some(vs)
  {
    hide Unpack, Pack, Shallow, Legal;
    var ok, buffer := PackList(vs);
    ListRound(vs, 0);
    r := UnpackList(buffer);
  }
}
