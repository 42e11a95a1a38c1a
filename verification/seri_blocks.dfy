// The cursors of lua-seri.c: packing into a list of 128-byte blocks and unpacking from a buffer.

module SeriBlocks {
  import opened LittleEndian
  import opened Seri

  const BLOCK_SIZE := 128

  /** The bytes of whole blocks, one after the other. */
  function Joined(blocks: seq<seq<Byte>>): seq<Byte> {
    if blocks == [] then [] else Joined(blocks[..|blocks| - 1]) + blocks[|blocks| - 1]
  }

  lemma JoinedSnoc(blocks: seq<seq<Byte>>, b: seq<Byte>)
    ensures Joined(blocks + [b]) == Joined(blocks) + b
  {
    assert (blocks + [b])[..|blocks|] == blocks;
  }

  lemma {:induction false} JoinedLength(blocks: seq<seq<Byte>>)
    requires forall i | 0 <= i < |blocks| :: |blocks[i]| == BLOCK_SIZE
    ensures |Joined(blocks)| == BLOCK_SIZE * |blocks|
  {
    if blocks != [] { JoinedLength(blocks[..|blocks| - 1]); }
  }

  /** The list of blocks that values are packed into; the last one is filled up to 'ptr'. */
  class WriteBlock {
    var full: seq<seq<Byte>>
    const current: array<Byte>
    var ptr: nat
    var len: nat

    ghost predicate Valid()
      reads this, current
    {
      && current.Length == BLOCK_SIZE && ptr <= BLOCK_SIZE
      && (forall i | 0 <= i < |full| :: |full[i]| == BLOCK_SIZE)
      && len == BLOCK_SIZE * |full| + ptr
    }

    ghost function Contents(): (r: seq<Byte>)
      requires Valid()
      reads this, current
    {
      Joined(full) + current[..ptr]
    }

    constructor ()
      ensures Valid() && fresh(current) && Contents() == []
    {
      current := new Byte[BLOCK_SIZE](_ => 0);
      full, ptr, len := [], 0, 0;
    }

    /** Copies bytes into the current block. */
    method Copy(part: seq<Byte>)
      requires Valid() && ptr + |part| <= BLOCK_SIZE
      modifies this`ptr, this`len, current
      ensures Valid() && Contents() == old(Contents()) + part && ptr == old(ptr) + |part|
    {
      var i := 0;
      while i < |part|
        modifies current
        invariant i <= |part| && current[..ptr + i] == old(current[..ptr]) + part[..i]
      {
        current[ptr + i] := part[i];
        i := i + 1;
      }
      ptr := ptr + |part|;
      len := len + |part|;
      assert current[..ptr] == old(current[..ptr]) + part;
    }

    /** Starts another block. */
    method NextBlock()
      requires Valid() && ptr == BLOCK_SIZE
      modifies this`full, this`ptr
      ensures Valid() && Contents() == old(Contents()) && ptr == 0
    {
      JoinedSnoc(full, current[..]);
      assert current[..BLOCK_SIZE] == current[..];
      full := full + [current[..]];
      ptr := 0;
    }

    /** Adds bytes, over as many blocks as it takes: 'wb_push'. */
    method Push(bytes: seq<Byte>)
      requires Valid()
      modifies this, current
      ensures Valid() && Contents() == old(Contents()) + bytes
    {
      hide Contents;
      var rest := bytes;
      if ptr == BLOCK_SIZE { NextBlock(); }
      while ptr + |rest| > BLOCK_SIZE
        invariant Valid() && Contents() + rest == old(Contents()) + bytes && ptr < BLOCK_SIZE
        decreases |rest|
      {
        var copy := BLOCK_SIZE - ptr;
        assert Contents() + rest[..copy] + rest[copy..] == Contents() + rest;
        Copy(rest[..copy]);
        rest := rest[copy..];
        NextBlock();
      }
      Copy(rest);
    }

    /** All bytes in one buffer, block by block: 'seri'. */
    method Seri() returns (buffer: seq<Byte>)
      requires Valid()
      ensures buffer == Contents()
    {
      buffer := [];
      var left, b := len, 0;
      while left > 0
        invariant b <= |full| + 1 && (b <= |full| ==> left == len - BLOCK_SIZE * b && buffer == Joined(full[..b]))
        invariant b > |full| ==> left == 0 && buffer == Contents() + []
        decreases left
      {
        if left >= BLOCK_SIZE {
          if b < |full| {
            JoinedSnoc(full[..b], full[b]);
            assert full[..b + 1] == full[..b] + [full[b]];
            buffer := buffer + full[b];
          } else {
            assert full[..b] == full;
            buffer := buffer + current[..];
          }
          left := left - BLOCK_SIZE;
          b := b + 1;
        } else {
          assert full[..b] == full;
          buffer := buffer + current[..left];
          return;
        }
      }
      if b <= |full| { assert full[..b] == full; }
    }

    method PutInteger(i: int)
      requires Valid() && -TWO63 <= i < TWO63
      modifies this, current
      ensures Valid() && Contents() == old(Contents()) + PackInt(i)
    {
      hide Contents, Low;
      ghost var was := Contents();
      if i == 0 {
        Push([Head(TYPE_NUMBER, NUMBER_ZERO)]);
      } else if !(-TWO31 <= i < TWO31) {
        Push([Head(TYPE_NUMBER, NUMBER_QWORD)]);
        Push(Low(Unsigned(i, TWO64), 8));
      } else if i < 0 {
        Push([Head(TYPE_NUMBER, NUMBER_DWORD)]);
        Push(Low(Unsigned(i, TWO32), 4));
      } else if i < 0x100 {
        Push([Head(TYPE_NUMBER, NUMBER_BYTE)]);
        Push(Low(i, 1));
      } else if i < TWO16 {
        Push([Head(TYPE_NUMBER, NUMBER_WORD)]);
        Push(Low(i, 2));
      } else {
        Push([Head(TYPE_NUMBER, NUMBER_DWORD)]);
        Push(Low(i, 4));
      }
      Assoc(was, [Head(TYPE_NUMBER, NumberClass(i))], NumberBytes(i));
    }

    method PutString(s: seq<Byte>)
      requires Valid() && |s| < TWO31
      modifies this, current
      ensures Valid() && Contents() == old(Contents()) + PackStr(s)
    {
      hide Contents, Low;
      ghost var was := Contents();
      if |s| < MAX_COOKIE {
        Push([Head(TYPE_SHORT_STRING, |s|)]);
        if |s| > 0 { Push(s); }
        Assoc(was, [Head(TYPE_SHORT_STRING, |s|)], s);
      } else {
        var w := if |s| < TWO16 then 2 else 4;
        Push([Head(TYPE_LONG_STRING, w)]);
        Push(Low(|s|, w));
        Push(s);
        Assoc(was, [Head(TYPE_LONG_STRING, w)], Low(|s|, w));
        Assoc(was, [Head(TYPE_LONG_STRING, w)] + Low(|s|, w), s);
      }
    }

    /** Packs one value, or fails when tables are nested too deep: 'pack_one'. */
    method PackOne(v: Value, depth: nat) returns (ok: bool)
      requires Valid() && Legal(v)
      modifies this, current
      ensures Valid() && (ok <==> Shallow(v, depth))
      ensures ok ==> Contents() == old(Contents()) + Pack(v)
      decreases v, 2
    {
      hide Contents;
      if depth > MAX_DEPTH { return false; }
      ok := true;
      match v {
        case Nil => Push([Head(TYPE_NIL, 0)]);
        case Bool(b) => Push([Head(TYPE_BOOLEAN, if b then 1 else 0)]);
        case Int(i) => PutInteger(i);
        case Real(bits) =>
          ghost var was := Contents();
          Push([Head(TYPE_NUMBER, NUMBER_REAL)]);
          Push(bits);
          Assoc(was, [Head(TYPE_NUMBER, NUMBER_REAL)], bits);
        case Str(s) => PutString(s);
        case Ptr(bits) =>
          ghost var was := Contents();
          Push([Head(TYPE_USERDATA, 0)]);
          Push(bits);
          Assoc(was, [Head(TYPE_USERDATA, 0)], bits);
        case Table(arr, pairs) => ok := PackTableValue(v, depth + 1);
      }
    }

    /** The size of the array part, with its escape. */
    method PutSize(n: nat)
      requires Valid() && n < TWO31
      modifies this, current
      ensures Valid() && Contents() == old(Contents()) + PackSize(n)
    {
      hide Contents, PackInt;
      ghost var was := Contents();
      if n >= MAX_COOKIE - 1 {
        Push([Head(TYPE_TABLE, MAX_COOKIE - 1)]);
        PutInteger(n);
        Assoc(was, [Head(TYPE_TABLE, MAX_COOKIE - 1)], PackInt(n));
      } else {
        Push([Head(TYPE_TABLE, n)]);
      }
    }

    /** The array part, the pairs, and a nil: 'wb_table'. */
    method PackTableValue(v: Value, depth: nat) returns (ok: bool)
      requires Valid() && v.Table? && Legal(v)
      modifies this, current
      ensures Valid() && (ok <==> ShallowParts(v.arr, v.pairs, depth))
      ensures ok ==> Contents() == old(Contents()) + Pack(v)
      decreases v, 1
    {
      ghost var was := Contents();
      LegalParts(v.arr, v.pairs);
      PutSize(|v.arr|);
      ok := PackArray(v, depth);
      if !ok { return; }
      ok := PackHash(v, depth);
      if !ok { return; }
      Push([Head(TYPE_NIL, 0)]);
      Assoc(was, PackSize(|v.arr|), PackValues(v.arr, 0));
      Assoc(was, PackSize(|v.arr|) + PackValues(v.arr, 0), PackPairs(v.pairs, 0));
      Assoc(was, PackSize(|v.arr|) + PackValues(v.arr, 0) + PackPairs(v.pairs, 0), [Head(TYPE_NIL, 0)]);
    }

    method PackArray(v: Value, depth: nat) returns (ok: bool)
      requires Valid() && v.Table? && Legal(v)
      modifies this, current
      ensures Valid() && (ok <==> forall k | 0 <= k < |v.arr| :: Shallow(v.arr[k], depth))
      ensures ok ==> Contents() == old(Contents()) + PackValues(v.arr, 0)
      decreases v, 0
    {
      hide Contents, Pack;
      var i := 0;
      while i < |v.arr|
        invariant i <= |v.arr| && Valid()
        invariant forall k | 0 <= k < i :: Shallow(v.arr[k], depth)
        invariant Contents() + PackValues(v.arr, i) == old(Contents()) + PackValues(v.arr, 0)
      {
        ghost var before := Contents();
        ok := PackOne(v.arr[i], depth);
        if !ok { return; }
        Assoc(before, Pack(v.arr[i]), PackValues(v.arr, i + 1));
        i := i + 1;
      }
      ok := true;
    }

    method PackHash(v: Value, depth: nat) returns (ok: bool)
      requires Valid() && v.Table? && Legal(v)
      modifies this, current
      ensures Valid()
      ensures ok <==> forall k | 0 <= k < |v.pairs| ::
                Shallow(v.pairs[k].key, depth) && Shallow(v.pairs[k].value, depth)
      ensures ok ==> Contents() == old(Contents()) + PackPairs(v.pairs, 0)
      decreases v, 0
    {
      hide Contents, Pack;
      var i := 0;
      while i < |v.pairs|
        invariant i <= |v.pairs| && Valid()
        invariant forall k | 0 <= k < i :: Shallow(v.pairs[k].key, depth) && Shallow(v.pairs[k].value, depth)
        invariant Contents() + PackPairs(v.pairs, i) == old(Contents()) + PackPairs(v.pairs, 0)
      {
        ghost var before := Contents();
        var p := v.pairs[i];
        assert p.key < p && p.value < p;
        ok := PackOne(p.key, depth);
        if !ok { return; }
        ok := PackOne(p.value, depth);
        if !ok { return; }
        Assoc(before, Pack(p.key), Pack(p.value));
        Assoc(before, Pack(p.key) + Pack(p.value), PackPairs(v.pairs, i + 1));
        i := i + 1;
      }
      ok := true;
    }
  }

  /** Packs a list of values into one buffer: 'luaseri_pack'. */
  method PackList(vs: seq<Value>) returns (ok: bool, buffer: seq<Byte>)
    requires forall k | 0 <= k < |vs| :: Legal(vs[k])
    ensures ok <==> forall k | 0 <= k < |vs| :: Shallow(vs[k], 0)
    ensures ok ==> buffer == PackValues(vs, 0)
  {
    hide Pack, Shallow, Legal;
    var wb := new WriteBlock();
    buffer := [];
    var i := 0;
    while i < |vs|
      invariant i <= |vs| && wb.Valid() && fresh(wb) && fresh(wb.current)
      invariant forall k | 0 <= k < i :: Shallow(vs[k], 0)
      invariant wb.Contents() + PackValues(vs, i) == PackValues(vs, 0)
    {
      hide wb.Contents;
      ghost var before := wb.Contents();
      ok := wb.PackOne(vs[i], 0);
      if !ok { return; }
      Assoc(before, Pack(vs[i]), PackValues(vs, i + 1));
      i := i + 1;
    }
    ok := true;
    buffer := wb.Seri();
  }

  lemma Assoc(a: seq<Byte>, b: seq<Byte>, c: seq<Byte>)
    ensures a + b + c == a + (b + c)
  {
  }
}
