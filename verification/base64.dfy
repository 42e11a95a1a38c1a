// Base 64 (lua-crypt.c; section 4 of RFC 4648).

module Base64 {
  import opened Options

  type Byte = b: int | 0 <= b < 256

  const PAD: Byte := 61

  /** Entry 'n' of the encoding table: A to Z, a to z, 0 to 9, + and /. */
  function Digit(n: int): (c: Byte)
    requires 0 <= n < 64
  {
    if n < 26 then 65 + n else if n < 52 then 97 + n - 26 else if n < 62 then 48 + n - 52
    else if n == 62 then 43 else 47
  }

  /** The entry of a character in the decoding table: -2 for padding, -1 for anything that is ignored. */
  function Index(c: Byte): (n: int)
    ensures -2 <= n < 64
    ensures n >= 0 ==> Digit(n) == c
    ensures n == -2 <==> c == PAD
  {
    if 65 <= c <= 90 then c - 65 else if 97 <= c <= 122 then c - 97 + 26 else if 48 <= c <= 57 then c - 48 + 52
    else if c == 43 then 62 else if c == 47 then 63 else if c == PAD then -2 else -1
  }

  /** The alphabet of section 4 of RFC 4648: upper case, lower case and digits in order, then + and /. */
  lemma Alphabet(n: nat)
    ensures Digit(0) == 'A' as int && Digit(26) == 'a' as int && Digit(52) == '0' as int
    ensures Digit(62) == '+' as int && Digit(63) == '/' as int && PAD == '=' as int
    ensures n < 61 && n != 25 && n != 51 ==> Digit(n + 1) == Digit(n) + 1
  {
  }

  lemma DigitIndex(n: int)
    requires 0 <= n < 64
    ensures Index(Digit(n)) == n
  {
  }

  // ---- A group of four characters ----

  predicate Chunk(b: seq<Byte>) { 1 <= |b| <= 3 }

  /** The four characters for up to three bytes. */
  function EncodeGroup(b: seq<Byte>): (r: seq<Byte>)
    requires Chunk(b)
    ensures |r| == 4
  {
    if |b| == 1 then
      var v := b[0];
      [Digit(v / 4), Digit(v % 4 * 16), PAD, PAD]
    else if |b| == 2 then
      var v := b[0] as int * 256 + b[1];
      [Digit(v / 1024), Digit(v / 16 % 64), Digit(v % 16 * 4), PAD]
    else
      var v := b[0] as int * 65536 + b[1] as int * 256 + b[2];
      [Digit(v / 262144), Digit(v / 4096 % 64), Digit(v / 64 % 64), Digit(v % 64)]
  }

  function Padding(n: int): int { if n == -2 then 1 else 0 }

  /** What four entries of the decoding table stand for, if they are in order. */
  function DecodeGroup(c: seq<int>): (r: Option<seq<Byte>>)
    requires |c| == 4 && forall k | 0 <= k < 4 :: -2 <= c[k] < 64 && c[k] != -1
  {
    var padding := Padding(c[0]) + Padding(c[1]) + Padding(c[2]) + Padding(c[3]);
    if padding == 0 then
      var v := c[0] * 262144 + c[1] * 4096 + c[2] * 64 + c[3];
      Some([v / 65536, v / 256 % 256, v % 256])
    else if padding == 1 then
      if c[3] != -2 || c[2] % 4 != 0 then None
      else
        var v := c[0] * 1024 + c[1] * 16 + c[2] / 4;
        Some([v / 256, v % 256])
    else if padding == 2 then
      if c[3] != -2 || c[2] != -2 || c[1] % 16 != 0 then None
      else Some([c[0] * 4 + c[1] / 16])
    else None
  }

  function Indexes(t: seq<Byte>): (r: seq<int>)
    ensures |r| == |t| && forall k | 0 <= k < |t| :: r[k] == Index(t[k])
  {
    seq(|t|, k requires 0 <= k < |t| => Index(t[k]))
  }

  /** No character is ignored. */
  predicate Solid(t: seq<Byte>) {
    forall k | 0 <= k < |t| :: Index(t[k]) != -1
  }

  lemma Digits2(v: int)
    requires 0 <= v < 65536
    ensures 0 <= v / 1024 < 64 && 0 <= v / 16 % 64 < 64 && 0 <= v % 16 * 4 < 64
    ensures v / 1024 * 1024 + v / 16 % 64 * 16 + v % 16 == v
    ensures v % 16 * 4 % 4 == 0 && v % 16 * 4 / 4 == v % 16
  {
  }

  lemma FromDigits2(c0: int, c1: int, c2: int)
    requires 0 <= c0 < 64 && 0 <= c1 < 64 && 0 <= c2 < 64 && c2 % 4 == 0
    ensures var v := c0 * 1024 + c1 * 16 + c2 / 4;
            0 <= v < 65536 && v / 1024 == c0 && v / 16 % 64 == c1 && v % 16 * 4 == c2
  {
    var k := c2 / 4;
    var v := c0 * 1024 + c1 * 16 + k;
    assert v / 16 == c0 * 64 + c1 && v % 16 == k;
    assert c2 == k * 4;
  }

  lemma Digits3(v: int)
    requires 0 <= v < 16777216
    ensures 0 <= v / 262144 < 64
    ensures v / 262144 * 262144 + v / 4096 % 64 * 4096 + v / 64 % 64 * 64 + v % 64 == v
  {
    assert v / 64 == v / 4096 * 64 + v / 64 % 64;
    assert v / 4096 == v / 262144 * 64 + v / 4096 % 64;
  }

  lemma Shifted(x: int, r: int)
    requires 0 <= x && 0 <= r < 64
    ensures (x * 64 + r) / 64 == x && (x * 64 + r) % 64 == r
  {
  }

  lemma FromDigits3(c0: int, c1: int, c2: int, c3: int)
    requires 0 <= c0 < 64 && 0 <= c1 < 64 && 0 <= c2 < 64 && 0 <= c3 < 64
    ensures var v := c0 * 262144 + c1 * 4096 + c2 * 64 + c3;
            && 0 <= v < 16777216 && v / 262144 == c0 && v / 4096 % 64 == c1 && v / 64 % 64 == c2 && v % 64 == c3
  {
    var v2 := c0 * 64 + c1;
    var v1 := v2 * 64 + c2;
    var v := v1 * 64 + c3;
    Shifted(v1, c3);
    Shifted(v2, c2);
    Shifted(c0, c1);
    assert v / 4096 == v / 64 / 64 && v / 262144 == v / 64 / 64 / 64;
  }

  lemma Bytes3(b0: Byte, b1: Byte, b2: Byte)
    ensures var v := b0 as int * 65536 + b1 as int * 256 + b2 as int;
            0 <= v < 16777216 && v / 65536 == b0 && v / 256 % 256 == b1 && v % 256 == b2
  {
  }

  lemma FromBytes3(v: int)
    requires 0 <= v < 16777216
    ensures 0 <= v / 65536 < 256 && v / 65536 * 65536 + v / 256 % 256 * 256 + v % 256 == v
  {
  }

  /** A group decodes to what it encodes, and to nothing else. */
  lemma GroupRound(t: seq<Byte>, b: seq<Byte>)
    requires |t| == 4 && Solid(t)
    ensures DecodeGroup(Indexes(t)) == Some(b) <==> Chunk(b) && EncodeGroup(b) == t
  {
    if Chunk(b) && EncodeGroup(b) == t { GroupDecodes(b); }
    if DecodeGroup(Indexes(t)) == Some(b) { GroupEncodes(t, b); }
  }

  lemma GroupDecodes(b: seq<Byte>)
    requires Chunk(b)
    ensures Solid(EncodeGroup(b)) && DecodeGroup(Indexes(EncodeGroup(b))) == Some(b)
  {
    if |b| == 1 {
      DigitIndex(b[0] / 4);
      DigitIndex(b[0] % 4 * 16);
      assert b == [b[0]];
    } else if |b| == 2 {
      TwoDecode(b);
    } else {
      ThreeDecode(b);
    }
  }

  lemma TwoDecode(b: seq<Byte>)
    requires |b| == 2
    ensures Solid(EncodeGroup(b)) && DecodeGroup(Indexes(EncodeGroup(b))) == Some(b)
  {
    hide Index, Digit;
    var v := b[0] as int * 256 + b[1];
    Bytes3(0, b[0], b[1]);
    assert v / 256 == b[0] && b == [b[0], b[1]];
    Digits2(v);
    DigitIndex(v / 1024);
    DigitIndex(v / 16 % 64);
    DigitIndex(v % 16 * 4);
  }

  lemma ThreeDecode(b: seq<Byte>)
    requires |b| == 3
    ensures Solid(EncodeGroup(b)) && DecodeGroup(Indexes(EncodeGroup(b))) == Some(b)
  {
    hide Index, Digit;
    var v := b[0] as int * 65536 + b[1] as int * 256 + b[2];
    Bytes3(b[0], b[1], b[2]);
    assert b == [b[0], b[1], b[2]];
    Digits3(v);
    DigitIndex(v / 262144);
    DigitIndex(v / 4096 % 64);
    DigitIndex(v / 64 % 64);
    DigitIndex(v % 64);
  }

  lemma GroupEncodes(t: seq<Byte>, b: seq<Byte>)
    requires |t| == 4 && Solid(t) && DecodeGroup(Indexes(t)) == Some(b)
    ensures Chunk(b) && EncodeGroup(b) == t
  {
    hide Index, Digit, DecodeGroup, EncodeGroup;
    if Index(t[3]) >= 0 { ThreeEncode(t, b); } else if Index(t[2]) >= 0 { TwoEncode(t, b); } else { OneEncode(t, b); }
  }

  lemma OneEncode(t: seq<Byte>, b: seq<Byte>)
    requires |t| == 4 && Solid(t) && DecodeGroup(Indexes(t)) == Some(b) && Index(t[3]) < 0 && Index(t[2]) < 0
    ensures |b| == 1 && EncodeGroup(b) == t
  {
    hide Index, Digit;
    assert t == [t[0], t[1], t[2], t[3]];
  }

  lemma ThreeEncode(t: seq<Byte>, b: seq<Byte>)
    requires |t| == 4 && Solid(t) && DecodeGroup(Indexes(t)) == Some(b) && Index(t[3]) >= 0
    ensures |b| == 3 && EncodeGroup(b) == t
  {
    hide Index, Digit;
    var c := Indexes(t);
    assert t == [t[0], t[1], t[2], t[3]];
    FromDigits3(c[0], c[1], c[2], c[3]);
    FromBytes3(c[0] * 262144 + c[1] * 4096 + c[2] * 64 + c[3]);
  }

  lemma TwoEncode(t: seq<Byte>, b: seq<Byte>)
    requires |t| == 4 && Solid(t) && DecodeGroup(Indexes(t)) == Some(b) && Index(t[3]) < 0 <= Index(t[2])
    ensures |b| == 2 && EncodeGroup(b) == t
  {
    hide Index, Digit;
    var c := Indexes(t);
    assert t == [t[0], t[1], t[2], t[3]];
    FromDigits2(c[0], c[1], c[2]);
  }

  // ---- A text ----

  function Least(a: nat, b: nat): nat { if a < b then a else b }

  function Encode(b: seq<Byte>): (t: seq<Byte>)
    ensures |t| == (|b| + 2) / 3 * 4
  {
    if b == [] then [] else var n := Least(3, |b|); EncodeGroup(b[..n]) + Encode(b[n..])
  }

  /** The characters that are not ignored. */
  function Significant(t: seq<Byte>): (r: seq<Byte>)
    ensures |r| <= |t| && Solid(r)
  {
    if t == [] then [] else (if Index(t[0]) == -1 then [] else [t[0]]) + Significant(t[1..])
  }

  /** How far the next 'n' characters that count reach. */
  function Fill(t: seq<Byte>, n: nat): (k: Option<nat>)
    ensures k.Some? ==> n <= k.value <= |t|
    decreases |t|
  {
    if n == 0 then Some(0)
    else if t == [] then None
    else match Fill(t[1..], if Index(t[0]) == -1 then n else n - 1)
      case None => None
      case Some(k) => Some(k + 1)
  }

  /** The first four characters that count decoded. */
  function DecodeFirst(t: seq<Byte>, k: nat): Option<seq<Byte>>
    requires k <= |t| && |Significant(t[..k])| == 4
  {
    DecodeGroup(Indexes(Significant(t[..k])))
  }

  function Decode(t: seq<Byte>): Option<seq<Byte>> {
    if t == [] then Some([])
    else match Fill(t, 4)
      case None => None
      case Some(k) =>
        FillIs(t, 4);
        match DecodeFirst(t, k)
        case None => None
        case Some(b) =>
          match Decode(t[k..])
          case None => None
          case Some(rest) => Some(b + rest)
  }

  /** The first character, if it counts. */
  function Head(t: seq<Byte>): seq<Byte>
    requires t != []
  {
    if Index(t[0]) == -1 then [] else [t[0]]
  }

  lemma SignificantStep(t: seq<Byte>)
    requires t != []
    ensures Significant(t) == Head(t) + Significant(t[1..])
  {
  }

  lemma FillStep(t: seq<Byte>, n: nat)
    requires t != [] && n > 0
    ensures |Head(t)| <= 1
    ensures Fill(t, n).Some? <==> Fill(t[1..], n - |Head(t)|).Some?
    ensures Fill(t, n).Some? ==> Fill(t, n).value == Fill(t[1..], n - |Head(t)|).value + 1
  {
  }

  /** Characters are taken until enough of them count. */
  lemma {:induction false} FillIs(t: seq<Byte>, n: nat)
    ensures Fill(t, n).Some? <==> |Significant(t)| >= n
    ensures Fill(t, n).Some? ==>
              var k := Fill(t, n).value;
              && |Significant(t[..k])| == n && Significant(t) == Significant(t[..k]) + Significant(t[k..])
    decreases |t|
  {
    if n == 0 {
      assert t[..0] == [] && t[0..] == t;
    } else if t != [] {
      FillFurther(t, n);
    }
  }

  lemma {:induction false} FillFurther(t: seq<Byte>, n: nat)
    requires t != [] && n > 0
    ensures Fill(t, n).Some? <==> |Significant(t)| >= n
    ensures Fill(t, n).Some? ==>
              var k := Fill(t, n).value;
              && |Significant(t[..k])| == n && Significant(t) == Significant(t[..k]) + Significant(t[k..])
    decreases |t|, 0
  {
    hide Fill, Significant, Head;
    FillStep(t, n);
    SignificantStep(t);
    FillIs(t[1..], n - |Head(t)|);
    if Fill(t, n).Some? {
      var k := Fill(t, n).value;
      SignificantStep(t[..k]);
      assert Head(t[..k]) == Head(t) by { HeadKept(t, k); }
      assert t[..k][1..] == t[1..][..k - 1] && t[k..] == t[1..][k - 1..];
    }
  }

  lemma HeadKept(t: seq<Byte>, k: nat)
    requires 0 < k <= |t|
    ensures Head(t[..k]) == Head(t)
  {
  }

  function Concat(chunks: seq<seq<Byte>>): seq<Byte> {
    if chunks == [] then [] else chunks[0] + Concat(chunks[1..])
  }

  ghost predicate Chunks(chunks: seq<seq<Byte>>) {
    forall k | 0 <= k < |chunks| :: Chunk(chunks[k])
  }

  ghost function EncodeAll(chunks: seq<seq<Byte>>): (t: seq<Byte>)
    requires Chunks(chunks)
    ensures |t| == 4 * |chunks|
  {
    if chunks == [] then [] else EncodeGroup(chunks[0]) + EncodeAll(chunks[1..])
  }

  /** The text encodes the chunks one after the other; characters may be ignored, but not the last one. */
  ghost predicate Writes(t: seq<Byte>, chunks: seq<seq<Byte>>) {
    && Chunks(chunks) && Significant(t) == EncodeAll(chunks)
    && (t != [] ==> Index(t[|t| - 1]) != -1)
  }

  /** A text whose last character counts has a significant part. */
  lemma {:induction false} LastCounts(t: seq<Byte>)
    requires t != [] && Index(t[|t| - 1]) != -1
    ensures Significant(t) != []
  {
    if |t| > 1 { LastCounts(t[1..]); }
  }

  /** What decodes is exactly what is written in groups, each for one to three bytes. */
  lemma DecodesExactly(t: seq<Byte>, b: seq<Byte>)
    ensures Decode(t) == Some(b) <==> exists chunks :: Writes(t, chunks) && Concat(chunks) == b
  {
    if Decode(t) == Some(b) {
      var chunks := DecodedChunks(t);
      assert Writes(t, chunks);
    }
    if chunks :| Writes(t, chunks) && Concat(chunks) == b {
      WrittenDecodes(t, chunks);
    }
  }

  lemma {:induction false} DecodedChunks(t: seq<Byte>) returns (chunks: seq<seq<Byte>>)
    requires Decode(t).Some?
    ensures Writes(t, chunks) && Decode(t) == Some(Concat(chunks))
  {
    hide EncodeGroup, DecodeGroup, Writes, Significant, Concat, Fill, Indexes, Index, Decode;
    if t == [] {
      chunks := [];
      EmptyDecodes();
    } else {
      var k, b := FirstDecodes(t);
      var more := DecodedChunks(t[k..]);
      chunks := [b] + more;
      WrittenFirst(t, k, b, more);
      DecodeSteps(t, k, b, Concat(more));
    }
  }

  lemma EmptyDecodes()
    ensures Writes([], []) && Decode([]) == Some(Concat([]))
  {
  }

  /** The first group of a text that decodes. */
  lemma FirstDecodes(t: seq<Byte>) returns (k: nat, b: seq<Byte>)
    requires t != [] && Decode(t).Some?
    ensures Fill(t, 4) == Some(k) && 0 < k <= |t| && Index(t[k - 1]) != -1 && |Significant(t[..k])| == 4
    ensures DecodeFirst(t, k) == Some(b) && Decode(t[k..]).Some?
    ensures Chunk(b) && Significant(t) == EncodeGroup(b) + Significant(t[k..])
  {
    hide EncodeGroup, DecodeGroup, Significant, Fill, Index;
    FillIs(t, 4);
    FillLast(t, 4);
    k := Fill(t, 4).value;
    b := DecodeFirst(t, k).value;
    GroupRound(Significant(t[..k]), b);
  }

  lemma WrittenFirst(t: seq<Byte>, k: nat, b: seq<Byte>, more: seq<seq<Byte>>)
    requires 0 < k <= |t| && Index(t[k - 1]) != -1 && Chunk(b) && Writes(t[k..], more)
    requires Significant(t) == EncodeGroup(b) + Significant(t[k..])
    ensures Writes(t, [b] + more) && Concat([b] + more) == b + Concat(more)
  {
    hide EncodeGroup, Index, Significant;
    assert ([b] + more)[1..] == more;
  }

  lemma DecodeSteps(t: seq<Byte>, k: nat, b: seq<Byte>, rest: seq<Byte>)
    requires t != [] && Fill(t, 4) == Some(k) && |Significant(t[..k])| == 4
    requires DecodeFirst(t, k) == Some(b) && Decode(t[k..]) == Some(rest)
    ensures Decode(t) == Some(b + rest)
  {
    hide DecodeFirst, Significant, Fill;
  }

  /** The last character taken counts. */
  lemma {:induction false} FillLast(t: seq<Byte>, n: nat)
    requires n > 0 && Fill(t, n).Some?
    ensures var k := Fill(t, n).value; 0 < k <= |t| && Index(t[k - 1]) != -1
    decreases |t|
  {
    var m: nat := if Index(t[0]) == -1 then n else n - 1;
    if m > 0 { FillLast(t[1..], m); }
  }

  lemma {:induction false} WrittenDecodes(t: seq<Byte>, chunks: seq<seq<Byte>>)
    requires Writes(t, chunks)
    ensures Decode(t) == Some(Concat(chunks))
    decreases |chunks|
  {
    hide EncodeGroup, DecodeGroup, DecodeFirst, Significant, Fill, Index, Decode;
    if t == [] {
      EmptyDecodes();
      NothingWritten(chunks);
    } else {
      LastCounts(t);
      FirstWritten(t, chunks);
      var k := Fill(t, 4).value;
      WrittenDecodes(t[k..], chunks[1..]);
      DecodeSteps(t, k, chunks[0], Concat(chunks[1..]));
    }
  }

  lemma NothingWritten(chunks: seq<seq<Byte>>)
    requires Writes([], chunks)
    ensures chunks == []
  {
  }

  /** The first group of what is written. */
  lemma FirstWritten(t: seq<Byte>, chunks: seq<seq<Byte>>)
    requires Writes(t, chunks) && Significant(t) != []
    ensures chunks != [] && Fill(t, 4).Some?
    ensures var k := Fill(t, 4).value;
            && |Significant(t[..k])| == 4 && DecodeFirst(t, k) == Some(chunks[0])
            && Writes(t[k..], chunks[1..])
  {
    hide EncodeGroup, DecodeGroup, Significant, Fill, Index;
    FillIs(t, 4);
    var k := Fill(t, 4).value;
    var first, rest := Significant(t[..k]), Significant(t[k..]);
    assert first == Significant(t)[..4] == EncodeGroup(chunks[0]);
    assert rest == Significant(t)[4..] == EncodeAll(chunks[1..]);
    GroupRound(first, chunks[0]);
  }

  /** In particular decoding undoes encoding. */
  lemma {:induction false} RoundTrip(b: seq<Byte>)
    ensures Solid(Encode(b)) && Decode(Encode(b)) == Some(b)
  {
    if b != [] {
      hide DecodeGroup, EncodeGroup;
      var n := Least(3, |b|);
      var t, rest := EncodeGroup(b[..n]), Encode(b[n..]);
      RoundTrip(b[n..]);
      GroupDecodes(b[..n]);
      SolidFills(t, rest);
      assert (t + rest)[..4] == t && (t + rest)[4..] == rest && b == b[..n] + b[n..];
    }
  }

  lemma {:induction false} SolidSignificant(t: seq<Byte>)
    requires Solid(t)
    ensures Significant(t) == t
  {
    if t != [] { SolidSignificant(t[1..]); }
  }

  lemma SolidFills(t: seq<Byte>, rest: seq<Byte>)
    requires |t| == 4 && Solid(t)
    ensures Fill(t + rest, 4) == Some(4) && Significant((t + rest)[..4]) == t
  {
    assert (t + rest)[..4] == t;
    SolidSignificant(t);
    SolidFill(t + rest, 4);
  }

  lemma {:induction false} SolidFill(t: seq<Byte>, n: nat)
    requires n <= |t| && Solid(t[..n])
    ensures Fill(t, n) == Some(n)
    decreases n
  {
    if n > 0 {
      assert t[..n][0] == t[0];
      assert t[1..][..n - 1] == t[..n][1..];
      SolidFill(t[1..], n - 1);
    }
  }

  /** A character that is ignored is not ignored at the end of a text: the text is refused. */
  lemma TrailingRefused(t: seq<Byte>)
    requires t != [] && Index(t[|t| - 1]) == -1
    ensures Decode(t) == None
  {
    if Decode(t).Some? { var _ := DecodedChunks(t); }
  }

  // ---- The loops ----

  lemma EncodeSplit(t: seq<Byte>, i: nat)
    requires i + 3 <= |t|
    ensures Encode(t[i..]) == EncodeGroup(t[i..i + 3]) + Encode(t[i + 3..])
  {
    assert t[i..][..3] == t[i..i + 3] && t[i..][3..] == t[i + 3..];
  }

  lemma EncodeEnd(b: seq<Byte>)
    requires |b| < 3
    ensures Encode(b) == if b == [] then [] else EncodeGroup(b)
  {
    if b != [] {
      assert b[..|b|] == b && b[|b|..] == [];
      assert Encode(b) == EncodeGroup(b) + Encode([]);
    }
  }

  method Put4(buffer: array<Byte>, j: nat, a: Byte, b: Byte, c: Byte, d: Byte)
    requires j + 4 <= buffer.Length
    modifies buffer
    ensures buffer[..j + 4] == old(buffer[..j]) + [a, b, c, d]
  {
    buffer[j], buffer[j + 1], buffer[j + 2], buffer[j + 3] := a, b, c, d;
  }

  method PutThree(buffer: array<Byte>, j: nat, a: Byte, b: Byte, c: Byte)
    requires j + 4 <= buffer.Length
    modifies buffer
    ensures buffer[..j + 4] == old(buffer[..j]) + EncodeGroup([a, b, c])
  {
    ThreeBytes(a, b, c);
    var v := a as int * 65536 + b as int * 256 + c;
    Put4(buffer, j, Digit(v / 262144), Digit(v / 4096 % 64), Digit(v / 64 % 64), Digit(v % 64));
  }

  /** What is left behind the groups of three bytes. */
  method PutLast(text: seq<Byte>, i: nat, buffer: array<Byte>, j: nat)
    requires i <= |text| < i + 3 && j + |Encode(text[i..])| == buffer.Length
    modifies buffer
    ensures buffer[..] == old(buffer[..j]) + Encode(text[i..])
  {
    hide Encode, EncodeGroup;
    EncodeEnd(text[i..]);
    var padding := |text| - i;
    if padding == 1 {
      OneTwoBytes(text[i], 0);
      assert text[i..] == [text[i]];
      var v := text[i];
      Put4(buffer, j, Digit(v / 4), Digit(v % 4 * 16), PAD, PAD);
    } else if padding == 2 {
      OneTwoBytes(text[i], text[i + 1]);
      assert text[i..] == [text[i], text[i + 1]];
      var v := text[i] as int * 256 + text[i + 1];
      Put4(buffer, j, Digit(v / 1024), Digit(v / 16 % 64), Digit(v % 16 * 4), PAD);
    }
    assert buffer[..buffer.Length] == buffer[..];
  }

  /** 'lb64encode' */
  method EncodeText(text: seq<Byte>) returns (buffer: array<Byte>)
    ensures fresh(buffer) && buffer[..] == Encode(text)
  {
    hide Encode, EncodeGroup;
    var size := |text|;
    buffer := new Byte[(size + 2) / 3 * 4];
    var i, j := 0, 0;
    assert text[0..] == text;
    while i < size - 2
      invariant 0 <= i <= size && i % 3 == 0 && j == i / 3 * 4 && j <= buffer.Length
      invariant buffer[..j] + Encode(text[i..]) == Encode(text)
    {
      EncodeSplit(text, i);
      ghost var done := buffer[..j];
      PutThree(buffer, j, text[i], text[i + 1], text[i + 2]);
      assert text[i..i + 3] == [text[i], text[i + 1], text[i + 2]];
      assert done + (EncodeGroup(text[i..i + 3]) + Encode(text[i + 3..])) == buffer[..j + 4] + Encode(text[i + 3..]);
      i, j := i + 3, j + 4;
    }
    PutLast(text, i, buffer, j);
  }

  lemma ThreeBytes(a: Byte, b: Byte, c: Byte)
    ensures var v := a as int * 65536 + b as int * 256 + c as int;
            && 0 <= v / 262144 < 64
            && EncodeGroup([a, b, c]) == [Digit(v / 262144), Digit(v / 4096 % 64), Digit(v / 64 % 64), Digit(v % 64)]
  {
  }

  lemma OneTwoBytes(a: Byte, b: Byte)
    ensures 0 <= a / 4 < 64 && 0 <= a % 4 * 16 < 64
    ensures EncodeGroup([a]) == [Digit(a / 4), Digit(a % 4 * 16), PAD, PAD]
    ensures var v := a as int * 256 + b as int;
            && 0 <= v / 1024 < 64 && 0 <= v % 16 * 4 < 64
            && EncodeGroup([a, b]) == [Digit(v / 1024), Digit(v / 16 % 64), Digit(v % 16 * 4), PAD]
  {
  }

  /** The next four characters that count, or nothing when the text ends before. */
  method TakeGroup(text: seq<Byte>, i0: nat) returns (ok: bool, c: array<int>, i: nat)
    requires i0 < |text|
    ensures fresh(c) && c.Length == 4 && i0 <= i <= |text|
    ensures ok <==> Fill(text[i0..], 4).Some?
    ensures ok ==> i == i0 + Fill(text[i0..], 4).value && c[..] == Indexes(Significant(text[i0..i]))
    ensures ok ==> i0 + 4 <= i && |Significant(text[i0..i])| == 4
  {
    hide Fill, Significant;
    c := new int[4];
    i := i0;
    var j := 0;
    FillStart(text[i0..]);
    while j < 4
      invariant i0 <= i <= |text| && 0 <= j <= 4
      invariant Fill(text[i0..], 4).Some? <==> Fill(text[i..], 4 - j).Some?
      invariant Fill(text[i0..], 4).Some? ==> i0 + Fill(text[i0..], 4).value == i + Fill(text[i..], 4 - j).value
      invariant |Significant(text[i0..i])| == j && c[..j] == Indexes(Significant(text[i0..i]))
      decreases |text| - i
    {
      if i >= |text| {
        FillEnds(text[i..], 4 - j);
        return false, c, i;
      }
      FillStep(text[i..], 4 - j);
      SignificantSnoc(text[i0..i], text[i]);
      assert text[i..][1..] == text[i + 1..] && text[i0..i] + [text[i]] == text[i0..i + 1];
      c[j] := Index(text[i]);
      i := i + 1;
      if c[j] == -1 {
        continue;
      }
      j := j + 1;
    }
    FillEnds(text[i..], 0);
    FillIs(text[i0..], 4);
    ok := true;
  }

  lemma FillStart(t: seq<Byte>)
    ensures t[0..] == t && Significant([]) == []
  {
  }

  lemma FillEnds(t: seq<Byte>, n: nat)
    ensures n == 0 ==> Fill(t, n) == Some(0)
    ensures n > 0 && t == [] ==> Fill(t, n) == None
  {
  }

  lemma {:induction false} SignificantSnoc(t: seq<Byte>, c: Byte)
    ensures Significant(t + [c]) == Significant(t) + (if Index(c) == -1 then [] else [c])
    decreases |t|
  {
    if t == [] {
      assert t + [c] == [c] && [c][1..] == [];
    } else {
      assert (t + [c])[1..] == t[1..] + [c];
      SignificantSnoc(t[1..], c);
    }
  }

  /** What the characters from 'i' on add to the bytes found so far. */
  function With(sofar: seq<Byte>, rest: Option<seq<Byte>>): Option<seq<Byte>> {
    if rest.None? then None else Some(sofar + rest.value)
  }

  lemma DecodeNext(t: seq<Byte>, i: nat, sofar: seq<Byte>)
    requires i < |t|
    ensures Fill(t[i..], 4).None? ==> Decode(t[i..]) == None
    ensures Fill(t[i..], 4).Some? ==>
              var k := i + Fill(t[i..], 4).value;
              && i < k <= |t| && |Significant(t[i..k])| == 4
              && (match DecodeGroup(Indexes(Significant(t[i..k])))
                  case None => Decode(t[i..]) == None
                  case Some(b) => With(sofar, Decode(t[i..])) == With(sofar + b, Decode(t[k..])))
  {
    hide DecodeGroup, Significant, Fill;
    var u := t[i..];
    if Fill(u, 4).Some? {
      var k := Fill(u, 4).value;
      FillIs(u, 4);
      assert u[..k] == t[i..i + k] && u[k..] == t[i + k..];
      var d := DecodeGroup(Indexes(Significant(t[i..i + k])));
      if d.Some? && Decode(u[k..]).Some? {
        assert sofar + (d.value + Decode(u[k..]).value) == sofar + d.value + Decode(u[k..]).value;
      }
    }
  }

  /** 'lb64decode'; nothing stands for its error. */
  method DecodeText(text: seq<Byte>) returns (r: Option<seq<Byte>>)
    ensures r == Decode(text)
  {
    hide Decode, DecodeGroup, Fill, Significant, Indexes;
    var size := |text|;
    var buffer := new Byte[(size + 3) / 4 * 3];
    var i, output := 0, 0;
    assert text[0..] == text && buffer[..0] == [];
    NoneSoFar(text);
    while i < size
      invariant 0 <= i <= size && 0 <= output <= buffer.Length && output * 4 <= i * 3
      invariant With(buffer[..output], Decode(text[i..])) == Decode(text)
      decreases size - i
    {
      ghost var sofar := buffer[..output];
      DecodeNext(text, i, sofar);
      var ok, c, next := TakeGroup(text, i);
      if !ok {
        return None;
      }
      var added := PutGroup(c[..], buffer, output);
      if added.None? {
        return None;
      }
      i, output := next, output + added.value;
    }
    assert text[i..] == [];
    DecodeEmpty();
    assert buffer[..output] + [] == buffer[..output];
    r := Some(buffer[..output]);
  }

  /** Writes the bytes of a group to the buffer, and returns how many they are. */
  method PutGroup(c: seq<int>, buffer: array<Byte>, output: nat) returns (added: Option<nat>)
    requires |c| == 4 && forall k | 0 <= k < 4 :: -2 <= c[k] < 64 && c[k] != -1
    requires output + 3 <= buffer.Length
    modifies buffer
    ensures added.None? <==> DecodeGroup(c).None?
    ensures added.Some? ==> added.value <= 3 && output + added.value <= buffer.Length
    ensures added.Some? ==> buffer[..output + added.value] == old(buffer[..output]) + DecodeGroup(c).value
  {
    var padding := Padding(c[0]) + Padding(c[1]) + Padding(c[2]) + Padding(c[3]);
    if padding == 0 {
      var v := c[0] * 262144 + c[1] * 4096 + c[2] * 64 + c[3];
      buffer[output], buffer[output + 1], buffer[output + 2] := v / 65536, v / 256 % 256, v % 256;
      return Some(3);
    } else if padding == 1 {
      if c[3] != -2 || c[2] % 4 != 0 {
        return None;
      }
      var v := c[0] * 1024 + c[1] * 16 + c[2] / 4;
      buffer[output], buffer[output + 1] := v / 256, v % 256;
      return Some(2);
    } else if padding == 2 {
      if c[3] != -2 || c[2] != -2 || c[1] % 16 != 0 {
        return None;
      }
      buffer[output] := c[0] * 4 + c[1] / 16;
      return Some(1);
    }
    return None;
  }

  lemma NoneSoFar(text: seq<Byte>)
    ensures With([], Decode(text)) == Decode(text)
  {
    if Decode(text).Some? { assert [] + Decode(text).value == Decode(text).value; }
  }

  lemma DecodeEmpty()
    ensures Decode([]) == Some([])
  {
  }
}
