// What the serializer puts on the wire: the bytes themselves, how many there are, and where a value ends.

module SeriWire {
  import opened LittleEndian
  import opened Seri

  // ---- The bytes ----

  lemma LowTwo(x: nat)
    requires x < 0x10000
    ensures Low(x, 2) == [x % 256, x / 256]
  {
    assert Low(x / 256, 0) == [];
    assert Low(x / 256, 1) == [x / 256 % 256] + Low(x / 256 / 256, 0);
  }

  lemma LowFour(x: nat)
    requires x < TWO32
    ensures Low(x, 4) == [x % 256, x / 256 % 256, x / 0x1_0000 % 256, x / 0x100_0000]
  {
    var y := x / 0x1_0000;
    LowTwo(y);
    assert Low(x / 256, 3) == [x / 256 % 256] + Low(x / 256 / 256, 2);
    assert x / 256 / 256 == y;
  }

  /** The low three bits of the first byte are the type, the others a truth value or a kind of number. */
  lemma FirstBytes(v: Value)
    requires Legal(v)
    ensures v.Nil? ==> Pack(v) == [0]
    ensures v.Bool? ==> Pack(v) == [if v.b then 9 else 1]
  {
    hide PackInt, PackStr, PackSize, PackValues, PackPairs, Legal;
  }

  lemma WordBytes(bits: seq<Byte>)
    requires |bits| == 8
    ensures Pack(Real(bits)) == [66] + bits
    ensures Pack(Ptr(bits)) == [3] + bits
  {
    hide PackInt, PackStr, PackSize, PackValues, PackPairs;
  }

  /** Or a length, up to 31; a longer string has two or four bytes of length. */
  lemma StringBytes(s: seq<Byte>)
    requires |s| < TWO31
    ensures |s| < 32 ==> PackStr(s) == [4 + 8 * |s|] + s
    ensures 32 <= |s| < 0x10000 ==> PackStr(s) == [21] + [|s| % 256, |s| / 256] + s
    ensures 0x10000 <= |s| ==>
              PackStr(s) ==
              [37] + [|s| % 256, |s| / 256 % 256, |s| / 0x1_0000 % 256, |s| / 0x100_0000] + s
  {
    hide Low;
    if |s| < 0x10000 { LowTwo(|s|); }
    LowFour(|s|);
  }

  /** A table: the array part, the pairs, and a nil. */
  lemma TableBytes(arr: seq<Value>, pairs: seq<Pair>)
    requires Legal(Table(arr, pairs)) && |arr| < 31
    requires forall x | 0 <= x < |arr| :: Legal(arr[x])
    requires forall x | 0 <= x < |pairs| :: Legal(pairs[x].key) && Legal(pairs[x].value)
    ensures Pack(Table(arr, pairs)) ==
            [6 + 8 * |arr|] + PackValues(arr, 0) + PackPairs(pairs, 0) + [0]
  {
    hide PackInt, PackStr, PackValues, PackPairs;
  }

  /** A long array part has its length behind the first byte, as a number. */
  lemma LongTableBytes(arr: seq<Value>, pairs: seq<Pair>)
    requires Legal(Table(arr, pairs)) && 31 <= |arr| < 0x1_0000
    requires forall x | 0 <= x < |arr| :: Legal(arr[x])
    requires forall x | 0 <= x < |pairs| :: Legal(pairs[x].key) && Legal(pairs[x].value)
    ensures Pack(Table(arr, pairs)) ==
            [254] + (if |arr| < 0x100 then [10, |arr|] else [18, |arr| % 256, |arr| / 256])
            + PackValues(arr, 0) + PackPairs(pairs, 0) + [0]
  {
    NumberWidths(|arr|);
    hide PackInt, PackStr, PackValues, PackPairs;
  }

  /** A value inside of 'n' tables. */
  function Wrapped(n: nat): Value { if n == 0 then Bool(true) else Table([Wrapped(n - 1)], []) }

  /** Packing refuses what lies inside of more than 32 tables. */
  lemma {:induction false} DepthLimit(n: nat, depth: nat)
    ensures Shallow(Wrapped(n), depth) <==> n + depth <= 32
    decreases n
  {
    if n > 0 {
      DepthLimit(n - 1, depth + 1);
      assert Wrapped(n).arr[0] == Wrapped(n - 1);
    }
  }

  /** Numbers of no, one, two, four and eight bytes, the low byte first. */
  lemma NumberWidths(i: int)
    ensures i == 0 ==> PackInt(i) == [2]
    ensures 0 < i < 0x100 ==> PackInt(i) == [10, i]
    ensures 0x100 <= i < 0x1_0000 ==> PackInt(i) == [18, i % 256, i / 256]
    ensures 0x1_0000 <= i < TWO31 ==>
              PackInt(i) == [34, i % 256, i / 256 % 256, i / 0x1_0000 % 256, i / 0x100_0000]
    ensures TWO31 <= i < TWO63 ==> PackInt(i) == [50] + Low(i, 8)
  {
    hide Low;
    if 0 < i < 0x100 {
      assert Low(i, 1) == [i] by { LowOne(i); }
    } else if 0x100 <= i < 0x1_0000 {
      LowTwo(i);
    } else if 0x1_0000 <= i < TWO31 {
      LowFour(i);
    }
  }

  lemma LowOne(x: nat)
    requires x < 256
    ensures Low(x, 1) == [x]
  {
  }

  /** Negative numbers have four or eight bytes, in two's complement. */
  lemma NegativeWidths(i: int)
    requires -TWO63 <= i < 0
    ensures PackInt(i) == if i >= -TWO31 then [34] + Low(TWO32 + i, 4) else [50] + Low(TWO64 + i, 8)
  {
    hide Low;
  }

  // ---- No form is longer than it has to be ----

  /** Bytes that read as a number are no fewer than those it is packed into. */
  lemma IntShortest(cookie: nat, s: seq<Byte>, i: int, rest: seq<Byte>)
    requires ReadInt(cookie, s) == Done(i, rest)
    ensures -TWO63 <= i < TWO63 && |s| >= |rest| + |NumberBytes(i)|
  {
    hide FromLow, Low;
    Powers();
    if cookie == NUMBER_BYTE { FromLowBelow(s[..1]); }
    if cookie == NUMBER_WORD { FromLowBelow(s[..2]); }
    if cookie == NUMBER_DWORD { FromLowBelow(s[..4]); }
    if cookie == NUMBER_QWORD { FromLowBelow(s[..8]); }
  }

  /** Every width that a number fits reads as the number. */
  lemma AnyWidth(i: int, more: seq<Byte>)
    ensures 0 <= i < 0x100 ==> ReadInt(NUMBER_BYTE, Low(i, 1) + more) == Done(i, more)
    ensures 0 <= i < TWO16 ==> ReadInt(NUMBER_WORD, Low(i, 2) + more) == Done(i, more)
    ensures -TWO31 <= i < TWO31 ==> ReadInt(NUMBER_DWORD, Low(Unsigned(i, TWO32), 4) + more) == Done(i, more)
    ensures -TWO63 <= i < TWO63 ==> ReadInt(NUMBER_QWORD, Low(Unsigned(i, TWO64), 8) + more) == Done(i, more)
  {
    hide FromLow, Low, Power256;
    Powers();
    if 0 <= i < 0x100 { WidthRound(i, 1, more); }
    if 0 <= i < TWO16 { WidthRound(i, 2, more); }
    if -TWO31 <= i < TWO31 { WidthRound(Unsigned(i, TWO32), 4, more); }
    if -TWO63 <= i < TWO63 { WidthRound(Unsigned(i, TWO64), 8, more); }
  }

  lemma WidthRound(x: nat, w: nat, more: seq<Byte>)
    requires x < Power256(w)
    ensures var s := Low(x, w) + more; FromLow(s[..w]) == x && s[w..] == more
  {
    LowRound(x, w);
    assert (Low(x, w) + more)[..w] == Low(x, w);
  }

  /** Bytes that read as a string are no fewer than those it is packed into. */
  lemma StrShortest(s: seq<Byte>, v: seq<Byte>, rest: seq<Byte>)
    requires Unpack(s) == Done(Str(v), rest)
    ensures |v| < TWO31 && |s| >= |rest| + |PackStr(v)|
  {
    hide FromLow, Low, Power256, Unpack, PackStr;
    var cookie, more := s[0] / 8, s[1..];
    StrForms(s, v, rest);
    StrLengths(v);
    if s[0] % 8 == TYPE_LONG_STRING {
      Powers();
      FromLowBelow(more[..cookie]);
    }
  }

  lemma StrLengths(v: seq<Byte>)
    requires |v| < TWO31
    ensures |PackStr(v)| == |v| + if |v| < 32 then 1 else if |v| < 0x10000 then 3 else 5
  {
    hide Low;
  }

  /** What reads as a string is a short one, or a long one with two or four bytes of length. */
  lemma StrForms(s: seq<Byte>, v: seq<Byte>, rest: seq<Byte>)
    requires Unpack(s) == Done(Str(v), rest)
    ensures s != [] && |v| < TWO31
    ensures var cookie, more := s[0] / 8, s[1..];
            || (s[0] % 8 == TYPE_SHORT_STRING && |v| == cookie && |more| == |v| + |rest|)
            || (s[0] % 8 == TYPE_LONG_STRING && (cookie == 2 || cookie == 4) && |more| == cookie + |v| + |rest|
                && Signed(FromLow(more[..cookie]), TWO32) == |v|)
  {
    hide ReadInt, ReadSize, FromLow, Power256;
    Powers();
    if s[0] % 8 == TYPE_LONG_STRING { FromLowBelow(s[1..][..s[0] / 8]); }
  }

  // ---- Where a value ends ----

  /** More bytes behind a value do not change it. */
  lemma IntMore(cookie: nat, s: seq<Byte>, more: seq<Byte>)
    requires ReadInt(cookie, s).Done?
    ensures var r := ReadInt(cookie, s); ReadInt(cookie, s + more) == Done(r.v, r.rest + more)
  {
    hide FromLow;
    var w := if cookie == NUMBER_ZERO then 0 else if cookie == NUMBER_BYTE then 1 else if cookie == NUMBER_WORD then 2
             else if cookie == NUMBER_DWORD then 4 else 8;
    BytesMore(w, s, more);
  }

  lemma BytesMore(n: nat, s: seq<Byte>, more: seq<Byte>)
    requires n <= |s|
    ensures (s + more)[..n] == s[..n] && (s + more)[n..] == s[n..] + more
  {
  }

  lemma StrMore(w: nat, s: seq<Byte>, more: seq<Byte>)
    requires ReadStr(w, s).Done?
    ensures var r := ReadStr(w, s); ReadStr(w, s + more) == Done(r.v, r.rest + more)
  {
    hide FromLow;
    BytesMore(w, s, more);
    BytesMore(|ReadStr(w, s).v|, s[w..], more);
  }

  lemma SizeMore(cookie: nat, s: seq<Byte>, more: seq<Byte>)
    requires ReadSize(cookie, s).Done?
    ensures var r := ReadSize(cookie, s); ReadSize(cookie, s + more) == Done(r.v, r.rest + more)
  {
    hide ReadInt;
    if cookie == MAX_COOKIE - 1 {
      BytesMore(1, s, more);
      IntMore(s[0] / 8, s[1..], more);
    }
  }

  lemma {:induction false} ValueMore(s: seq<Byte>, more: seq<Byte>)
    requires Unpack(s).Done?
    ensures var r := Unpack(s); Unpack(s + more) == Done(r.v, r.rest + more)
    decreases |s|, 0
  {
    hide ReadInt, ReadStr, ReadSize;
    var cookie, rest := s[0] / 8, s[1..];
    BytesMore(1, s, more);
    match s[0] % 8
    case 2 => if cookie == NUMBER_REAL { BytesMore(8, rest, more); } else { IntMore(cookie, rest, more); }
    case 3 => BytesMore(8, rest, more);
    case 4 => BytesMore(cookie, rest, more);
    case 5 => StrMore(cookie, rest, more);
    case 6 => TableMore(cookie, rest, more);
    case _ =>
  }

  lemma {:induction false} TableMore(cookie: nat, s: seq<Byte>, more: seq<Byte>)
    requires ReadTable(cookie, s).Done?
    ensures var r := ReadTable(cookie, s); ReadTable(cookie, s + more) == Done(r.v, r.rest + more)
    decreases |s|, 2
  {
    hide ReadSize, Unpack;
    SizeMore(cookie, s, more);
    var n := ReadSize(cookie, s);
    ValuesMore(n.rest, n.v, more);
    PairsMore(UnpackValues(n.rest, n.v).rest, more);
  }

  lemma {:induction false} ValuesMore(s: seq<Byte>, n: int, more: seq<Byte>)
    requires UnpackValues(s, n).Done?
    ensures var r := UnpackValues(s, n); UnpackValues(s + more, n) == Done(r.v, r.rest + more)
    decreases |s|, 1
  {
    hide Unpack;
    if n > 0 {
      ValueMore(s, more);
      ValuesMore(Unpack(s).rest, n - 1, more);
    }
  }

  lemma {:induction false} PairsMore(s: seq<Byte>, more: seq<Byte>)
    requires UnpackPairs(s).Done?
    ensures var r := UnpackPairs(s); UnpackPairs(s + more) == Done(r.v, r.rest + more)
    decreases |s|, 1
  {
    hide Unpack;
    ValueMore(s, more);
    var key := Unpack(s);
    if !key.v.Nil? {
      ValueMore(key.rest, more);
      PairsMore(Unpack(key.rest).rest, more);
    }
  }

  /** A packed value that is cut short is refused, wherever it is cut. */
  lemma CutIsInvalid(v: Value, n: nat)
    requires Legal(v) && n < |Pack(v)|
    ensures Unpack(Pack(v)[..n]) == Invalid
  {
    hide Pack, Unpack, Legal;
    var all := Pack(v);
    if Unpack(all[..n]).Done? {
      ValueMore(all[..n], all[n..]);
      assert all[..n] + all[n..] == all && all + [] == all;
      PackRound(v, []);
    }
  }
}
