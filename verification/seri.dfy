// The value serializer of lua-seri.c: what is written for a value, what is read back, and that they agree.

module Seri {
  import opened LittleEndian

  /** The eight bytes of a double or of a pointer. */
  type Bits = s: seq<Byte> | |s| == 8 witness [0, 0, 0, 0, 0, 0, 0, 0]

  /**
   * Lua values that can be packed. A table has an array part, the values at 1 up to its length, and
   * pairs for its other keys.
   */
  datatype Value =
    | Nil
    | Bool(b: bool)
    | Int(i: int)
    | Real(bits: Bits)
    | Str(s: seq<Byte>)
    | Ptr(bits: Bits)
    | Table(arr: seq<Value>, pairs: seq<Pair>)

  datatype Pair = Pair(key: Value, value: Value)

  const TYPE_NIL := 0
  const TYPE_BOOLEAN := 1
  const TYPE_NUMBER := 2
  const TYPE_USERDATA := 3
  const TYPE_SHORT_STRING := 4
  const TYPE_LONG_STRING := 5
  const TYPE_TABLE := 6

  const NUMBER_ZERO := 0
  const NUMBER_BYTE := 1
  const NUMBER_WORD := 2
  const NUMBER_DWORD := 4
  const NUMBER_QWORD := 6
  const NUMBER_REAL := 8

  const MAX_COOKIE := 32
  const MAX_DEPTH := 32

  const TWO31 := 0x8000_0000
  const TWO63 := 0x8000_0000_0000_0000

  /** A double that is not a number: the exponent is all ones, and the fraction is not zero. */
  predicate IsNaN(bits: Bits) {
    bits[7] % 128 == 127 && bits[6] / 16 == 15 && !(bits[6] % 16 == 0 && forall k | 0 <= k < 6 :: bits[k] == 0)
  }

  /** No table has nil or a NaN for a key. */
  predicate IsKey(v: Value) { !v.Nil? && !(v.Real? && IsNaN(v.bits)) }

  /** A value as Lua has it: 64-bit integers, lengths of 'int' range, and keys that may be keys. */
  predicate Legal(v: Value)
    decreases v
  {
    match v
    case Int(i) => -TWO63 <= i < TWO63
    case Str(s) => |s| < TWO31
    case Table(arr, pairs) =>
      && |arr| < TWO31
      && (forall k | 0 <= k < |arr| :: Legal(arr[k]))
      && (forall k | 0 <= k < |pairs| :: Legal(pairs[k].key) && Legal(pairs[k].value) && IsKey(pairs[k].key))
    case _ => true
  }

  /** Tables are not nested deeper than the limit when packing starts at 'depth'. */
  predicate Shallow(v: Value, depth: nat)
    decreases v, 1
  {
    depth <= MAX_DEPTH && (v.Table? ==> ShallowParts(v.arr, v.pairs, depth + 1))
  }

  predicate ShallowParts(arr: seq<Value>, pairs: seq<Pair>, depth: nat)
    decreases Table(arr, pairs), 0
  {
    && (forall k | 0 <= k < |arr| :: Shallow(arr[k], depth))
    && (forall k | 0 <= k < |pairs| :: Shallow(pairs[k].key, depth) && Shallow(pairs[k].value, depth))
  }

  // ---- Signed numbers ----

  /** Two's complement of 'modulus' values. */
  function Unsigned(i: int, modulus: int): nat
    requires 0 <= modulus && -modulus <= i
  {
    if i < 0 then i + modulus else i
  }

  function Signed(x: nat, modulus: nat): int {
    if x < modulus / 2 then x else x - modulus
  }

  // ---- Writing ----

  function Head(type_: nat, cookie: nat): (b: Byte)
    requires type_ < 8 && cookie < MAX_COOKIE
    ensures b % 8 == type_ && b / 8 == cookie
  {
    type_ + 8 * cookie
  }

  /** The width class of an integer. */
  function NumberClass(i: int): (c: nat)
    ensures c < 8
  {
    if i == 0 then NUMBER_ZERO
    else if i < -TWO31 || i >= TWO31 then NUMBER_QWORD
    else if i < 0 then NUMBER_DWORD
    else if i < 0x100 then NUMBER_BYTE
    else if i < TWO16 then NUMBER_WORD
    else NUMBER_DWORD
  }

  function NumberBytes(i: int): seq<Byte>
    requires -TWO63 <= i < TWO63
  {
    match NumberClass(i)
    case 0 => []
    case 1 => Low(i, 1)
    case 2 => Low(i, 2)
    case 4 => Low(Unsigned(i, TWO32), 4)
    case _ => Low(Unsigned(i, TWO64), 8)
  }

  function PackInt(i: int): (r: seq<Byte>)
    requires -TWO63 <= i < TWO63
    ensures r != []
  {
    [Head(TYPE_NUMBER, NumberClass(i))] + NumberBytes(i)
  }

  function PackStr(s: seq<Byte>): (r: seq<Byte>)
    requires |s| < TWO31
    ensures r != []
  {
    if |s| < MAX_COOKIE then [Head(TYPE_SHORT_STRING, |s|)] + s
    else if |s| < TWO16 then [Head(TYPE_LONG_STRING, 2)] + Low(|s|, 2) + s
    else [Head(TYPE_LONG_STRING, 4)] + Low(|s|, 4) + s
  }

  /** The size of the array part goes into the first byte, or behind it when it is too large. */
  function PackSize(n: nat): (r: seq<Byte>)
    requires n < TWO31
    ensures r != []
  {
    if n >= MAX_COOKIE - 1 then [Head(TYPE_TABLE, MAX_COOKIE - 1)] + PackInt(n) else [Head(TYPE_TABLE, n)]
  }

  function Pack(v: Value): (r: seq<Byte>)
    requires Legal(v)
    ensures r != []
    decreases v, 0
  {
    match v
    case Nil => [Head(TYPE_NIL, 0)]
    case Bool(b) => [Head(TYPE_BOOLEAN, if b then 1 else 0)]
    case Int(i) => PackInt(i)
    case Real(bits) => [Head(TYPE_NUMBER, NUMBER_REAL)] + bits
    case Str(s) => PackStr(s)
    case Ptr(bits) => [Head(TYPE_USERDATA, 0)] + bits
    case Table(arr, pairs) =>
      PackSize(|arr|) + PackValues(arr, 0) + PackPairs(pairs, 0) + [Head(TYPE_NIL, 0)]
  }

  /** The values from 'k' on. */
  function PackValues(vs: seq<Value>, k: nat): seq<Byte>
    requires k <= |vs| && forall x | k <= x < |vs| :: Legal(vs[x])
    decreases vs, |vs| - k
  {
    if k == |vs| then [] else Pack(vs[k]) + PackValues(vs, k + 1)
  }

  function PackPairs(ps: seq<Pair>, k: nat): seq<Byte>
    requires k <= |ps| && forall x | k <= x < |ps| :: Legal(ps[x].key) && Legal(ps[x].value)
    decreases ps, |ps| - k
  {
    if k == |ps| then []
    else
      var p := ps[k];
      assert p.key < p && p.value < p;
      Pack(p.key) + Pack(p.value) + PackPairs(ps, k + 1)
  }

  // ---- Reading ----

  /** 'Invalid' is a Lua error, which gives up the whole stream. */
  datatype Parsed<T> = Done(v: T, rest: seq<Byte>) | Invalid

  function ReadInt(cookie: nat, s: seq<Byte>): (r: Parsed<int>)
    ensures r.Done? ==> |r.rest| <= |s|
  {
    if cookie == NUMBER_ZERO then Done(0, s)
    else if cookie == NUMBER_BYTE then (if |s| < 1 then Invalid else Done(FromLow(s[..1]), s[1..]))
    else if cookie == NUMBER_WORD then (if |s| < 2 then Invalid else Done(FromLow(s[..2]), s[2..]))
    else if cookie == NUMBER_DWORD then
      (if |s| < 4 then Invalid else Done(Signed(FromLow(s[..4]), TWO32), s[4..]))
    else if cookie == NUMBER_QWORD then
      (if |s| < 8 then Invalid else Done(Signed(FromLow(s[..8]), TWO64), s[8..]))
    else Invalid
  }

  function ReadBytes(n: nat, s: seq<Byte>): (r: Parsed<seq<Byte>>)
    ensures r.Done? ==> |r.rest| <= |s| && |r.v| == n
  {
    if |s| < n then Invalid else Done(s[..n], s[n..])
  }

  /**
   * A long string behind its length, which is an 'int' by the time it is used. A negative one is not too
   * large for what is left, and no Lua string has its size.
   */
  function ReadStr(width: nat, s: seq<Byte>): (r: Parsed<seq<Byte>>)
    ensures r.Done? ==> |r.rest| <= |s|
  {
    if |s| < width then Invalid
    else
      var n := Signed(FromLow(s[..width]), TWO32);
      if n < 0 then Invalid else ReadBytes(n, s[width..])
  }

  /** The array size of a table: the cookie, or a packed integer as an 'int'. */
  function ReadSize(cookie: nat, s: seq<Byte>): (r: Parsed<int>)
    ensures r.Done? ==> |r.rest| <= |s|
  {
    if cookie != MAX_COOKIE - 1 then Done(cookie, s)
    else if |s| < 1 || s[0] % 8 != TYPE_NUMBER || s[0] / 8 == NUMBER_REAL then Invalid
    else
      match ReadInt(s[0] / 8, s[1..])
      case Done(n, rest) => Done(Signed(n % TWO32, TWO32), rest)
      case Invalid => Invalid
  }

  /** One value: 'unpack_one'. */
  function Unpack(s: seq<Byte>): (r: Parsed<Value>)
    ensures r.Done? ==> |r.rest| < |s|
    decreases |s|, 0
  {
    if s == [] then Invalid
    else
      var type_, cookie, rest := s[0] % 8, s[0] / 8, s[1..];
      match type_
      case 0 => Done(Nil, rest)
      case 1 => Done(Bool(cookie != 0), rest)
      case 2 =>
        if cookie == NUMBER_REAL then (
          match ReadBytes(8, rest)
          case Done(b, more) => Done(Real(b), more)
          case Invalid => Invalid)
        else (
          match ReadInt(cookie, rest)
          case Done(i, more) => Done(Int(i), more)
          case Invalid => Invalid)
      case 3 => (
        match ReadBytes(8, rest)
        case Done(b, more) => Done(Ptr(b), more)
        case Invalid => Invalid)
      case 4 => (
        match ReadBytes(cookie, rest)
        case Done(b, more) => Done(Str(b), more)
        case Invalid => Invalid)
      case 5 =>
        if cookie != 2 && cookie != 4 then Invalid
        else (
          match ReadStr(cookie, rest)
          case Done(b, more) => Done(Str(b), more)
          case Invalid => Invalid)
      case 6 => ReadTable(cookie, rest)
      case _ => Invalid
  }

  /** A table behind its first byte: the size, the array part and the pairs. */
  function ReadTable(cookie: nat, s: seq<Byte>): (r: Parsed<Value>)
    ensures r.Done? ==> |r.rest| <= |s|
    decreases |s|, 2
  {
    match ReadSize(cookie, s)
    case Invalid => Invalid
    case Done(n, rest) => (
      match UnpackValues(rest, n)
      case Invalid => Invalid
      case Done(arr, rest2) => (
        match UnpackPairs(rest2)
        case Invalid => Invalid
        case Done(pairs, more) => Done(Table(arr, pairs), more)))
  }

  /** 'n' values. */
  function UnpackValues(s: seq<Byte>, n: int): (r: Parsed<seq<Value>>)
    ensures r.Done? ==> |r.rest| <= |s|
    decreases |s|, 1
  {
    if n <= 0 then Done([], s)
    else
      match Unpack(s)
      case Invalid => Invalid
      case Done(v, rest) => (
        match UnpackValues(rest, n - 1)
        case Invalid => Invalid
        case Done(vs, more) => Done([v] + vs, more))
  }

  /** Pairs up to a nil. A pair whose key cannot be one is an error. */
  function UnpackPairs(s: seq<Byte>): (r: Parsed<seq<Pair>>)
    ensures r.Done? ==> |r.rest| < |s|
    decreases |s|, 1
  {
    match Unpack(s)
    case Invalid => Invalid
    case Done(key, rest) =>
      if key.Nil? then Done([], rest)
      else
        match Unpack(rest)
        case Invalid => Invalid
        case Done(value, rest2) =>
          if !IsKey(key) then Invalid
          else
            match UnpackPairs(rest2)
            case Invalid => Invalid
            case Done(ps, more) => Done([Pair(key, value)] + ps, more)
  }

  // ---- Reading back what was written ----

  lemma CutFront<T>(a: seq<T>, b: seq<T>)
    ensures (a + b)[..|a|] == a && (a + b)[|a|..] == b
  {
  }

  /** The shortest form of an integer reads back as the integer. */
  lemma IntRound(i: int, more: seq<Byte>)
    requires -TWO63 <= i < TWO63
    ensures ReadInt(NumberClass(i), NumberBytes(i) + more) == Done(i, more)
  {
    hide Low, FromLow;
    Powers();
    CutFront(NumberBytes(i), more);
    match NumberClass(i)
    case 0 =>
    case 1 => LowRound(i, 1);
    case 2 => LowRound(i, 2);
    case 4 => LowRound(Unsigned(i, TWO32), 4);
    case _ => LowRound(Unsigned(i, TWO64), 8);
  }

  lemma ShortRound(s: seq<Byte>, more: seq<Byte>)
    requires |s| < MAX_COOKIE
    ensures Unpack(PackStr(s) + more) == Done(Str(s), more)
  {
    hide Low, FromLow, ReadInt, ReadSize;
    var all := PackStr(s) + more;
    assert all[1..] == s + more;
    CutFront(s, more);
  }

  /** The length of a long string comes back from its two or four bytes. */
  lemma LengthRound(s: seq<Byte>, w: nat, more: seq<Byte>)
    requires |s| < TWO31 && |s| < Power256(w)
    ensures ReadStr(w, Low(|s|, w) + (s + more)) == Done(s, more)
  {
    hide Low, FromLow;
    LowRound(|s|, w);
    CutFront(Low(|s|, w), s + more);
    CutFront(s, more);
  }

  /** How a long string is read. */
  lemma UnpackLong(all: seq<Byte>, w: nat, s: seq<Byte>, more: seq<Byte>)
    requires all != [] && (w == 2 || w == 4) && all[0] == Head(TYPE_LONG_STRING, w)
    requires ReadStr(w, all[1..]) == Done(s, more)
    ensures Unpack(all) == Done(Str(s), more)
  {
    hide ReadInt, ReadSize, ReadStr;
  }

  lemma LongRound(s: seq<Byte>, more: seq<Byte>)
    requires MAX_COOKIE <= |s| < TWO31
    ensures Unpack(PackStr(s) + more) == Done(Str(s), more)
  {
    hide Low, FromLow, ReadStr, Unpack, Power256;
    Powers();
    var all, w := PackStr(s) + more, if |s| < TWO16 then 2 else 4;
    LengthRound(s, w, more);
    assert all[1..] == Low(|s|, w) + (s + more);
    UnpackLong(all, w, s, more);
  }

  lemma StrRound(s: seq<Byte>, more: seq<Byte>)
    requires |s| < TWO31
    ensures Unpack(PackStr(s) + more) == Done(Str(s), more)
  {
    hide Unpack, PackStr;
    if |s| < MAX_COOKIE { ShortRound(s, more); } else { LongRound(s, more); }
  }

  /** The array size, with its escape at 31. */
  lemma SizeRound(n: nat, more: seq<Byte>)
    requires n < TWO31
    ensures var all := PackSize(n) + more;
            all[0] % 8 == TYPE_TABLE && ReadSize(all[0] / 8, all[1..]) == Done(n, more)
  {
    hide Low, FromLow;
    var all := PackSize(n) + more;
    if n >= MAX_COOKIE - 1 {
      assert all[1..] == PackInt(n) + more;
      assert (PackInt(n) + more)[1..] == NumberBytes(n) + more;
      IntRound(n, more);
    } else {
      assert all[1..] == more;
    }
  }

  /** Unpacking what was packed for a value gives the value, and leaves what follows. */
  lemma {:induction false} PackRound(v: Value, more: seq<Byte>)
    requires Legal(v)
    ensures Unpack(Pack(v) + more) == Done(v, more)
    decreases v, 1
  {
    var all := Pack(v) + more;
    match v
    case Nil =>
    case Bool(_) =>
    case Int(i) =>
      assert all[1..] == NumberBytes(i) + more;
      IntRound(i, more);
    case Real(bits) =>
      var b: seq<Byte> := bits;
      assert all[1..] == b + more;
      CutFront(b, more);
    case Str(s) => StrRound(s, more);
    case Ptr(bits) =>
      var b: seq<Byte> := bits;
      assert all[1..] == b + more;
      CutFront(b, more);
    case Table(arr, pairs) => TableRound(arr, pairs, more);
  }

  lemma PackTable(arr: seq<Value>, pairs: seq<Pair>, more: seq<Byte>)
    requires Legal(Table(arr, pairs))
    ensures Pack(Table(arr, pairs)) + more ==
            PackSize(|arr|) + (PackValues(arr, 0) + (PackPairs(pairs, 0) + [Head(TYPE_NIL, 0)] + more))
  {
    hide PackSize, PackValues, PackPairs;
  }

  /** How a table is read: its size, its array part and its pairs. */
  lemma UnpackTable(s: seq<Byte>, n: int, body: seq<Byte>, arr: seq<Value>, tail: seq<Byte>, pairs: seq<Pair>,
      more: seq<Byte>)
    requires s != [] && s[0] % 8 == TYPE_TABLE && ReadSize(s[0] / 8, s[1..]) == Done(n, body)
    requires UnpackValues(body, n) == Done(arr, tail) && UnpackPairs(tail) == Done(pairs, more)
    ensures Unpack(s) == Done(Table(arr, pairs), more)
  {
  }

  lemma {:induction false} TableRound(arr: seq<Value>, pairs: seq<Pair>, more: seq<Byte>)
    requires Legal(Table(arr, pairs))
    ensures Unpack(Pack(Table(arr, pairs)) + more) == Done(Table(arr, pairs), more)
    decreases Table(arr, pairs), 0
  {
    LegalParts(arr, pairs);
    hide Pack, PackSize, PackValues, PackPairs, Unpack, UnpackValues, UnpackPairs, ReadSize, Legal;
    var tail := PackPairs(pairs, 0) + [Head(TYPE_NIL, 0)] + more;
    var body := PackValues(arr, 0) + tail;
    PackTable(arr, pairs, more);
    SizeRound(|arr|, body);
    ValuesRound(arr, 0, tail);
    PairsRound(pairs, 0, more);
    assert arr[0..] == arr && pairs[0..] == pairs;
    UnpackTable(PackSize(|arr|) + body, |arr|, body, arr, tail, pairs, more);
  }

  lemma LegalParts(arr: seq<Value>, pairs: seq<Pair>)
    requires Legal(Table(arr, pairs))
    ensures |arr| < TWO31 && forall k | 0 <= k < |arr| :: Legal(arr[k])
    ensures forall k | 0 <= k < |pairs| :: Legal(pairs[k].key) && Legal(pairs[k].value) && IsKey(pairs[k].key)
  {
  }

  lemma {:induction false} ValuesRound(vs: seq<Value>, k: nat, more: seq<Byte>)
    requires k <= |vs| && forall x | 0 <= x < |vs| :: Legal(vs[x])
    ensures UnpackValues(PackValues(vs, k) + more, |vs| - k) == Done(vs[k..], more)
    decreases vs, |vs| - k
  {
    hide Legal;
    if k < |vs| {
      var rest := PackValues(vs, k + 1) + more;
      assert PackValues(vs, k) + more == Pack(vs[k]) + rest;
      PackRound(vs[k], rest);
      ValuesRound(vs, k + 1, more);
      assert vs[k..] == [vs[k]] + vs[k + 1..];
    }
  }

  lemma {:induction false} PairsRound(ps: seq<Pair>, k: nat, more: seq<Byte>)
    requires k <= |ps|
    requires forall x | 0 <= x < |ps| :: Legal(ps[x].key) && Legal(ps[x].value) && IsKey(ps[x].key)
    ensures UnpackPairs(PackPairs(ps, k) + [Head(TYPE_NIL, 0)] + more) == Done(ps[k..], more)
    decreases ps, |ps| - k
  {
    hide Legal, Pack, Unpack;
    var nil := [Head(TYPE_NIL, 0)];
    if k < |ps| {
      var p := ps[k];
      assert p.key < p && p.value < p;
      var rest := PackPairs(ps, k + 1) + nil + more;
      assert PackPairs(ps, k) + nil + more == Pack(p.key) + (Pack(p.value) + rest);
      PackRound(p.key, Pack(p.value) + rest);
      PackRound(p.value, rest);
      PairsRound(ps, k + 1, more);
      assert ps[k..] == [p] + ps[k + 1..];
    } else {
      assert PackPairs(ps, k) + nil + more == nil + more;
      NilRound(more);
    }
  }

  lemma NilRound(more: seq<Byte>)
    ensures Unpack([Head(TYPE_NIL, 0)] + more) == Done(Nil, more)
  {
    assert ([Head(TYPE_NIL, 0)] + more)[1..] == more;
  }

  // ---- Lists of values ----

  /** All values of a stream: 'luaseri_unpack'. */
  function UnpackAll(s: seq<Byte>): (r: Parsed<seq<Value>>)
    decreases |s|
  {
    if s == [] then Done([], [])
    else
      match Unpack(s)
      case Invalid => Invalid
      case Done(v, rest) => (
        match UnpackAll(rest)
        case Invalid => Invalid
        case Done(vs, more) => Done([v] + vs, more))
  }

  /** A packed list of values unpacks to the list. */
  lemma {:induction false} ListRound(vs: seq<Value>, k: nat)
    requires k <= |vs| && forall x | 0 <= x < |vs| :: Legal(vs[x])
    ensures UnpackAll(PackValues(vs, k)) == Done(vs[k..], [])
    decreases |vs| - k
  {
    hide Legal, Pack, Unpack;
    if k < |vs| {
      PackRound(vs[k], PackValues(vs, k + 1));
      ListRound(vs, k + 1);
      assert vs[k..] == [vs[k]] + vs[k + 1..];
    }
  }
}
