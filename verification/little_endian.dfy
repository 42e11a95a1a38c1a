// Numbers as bytes, the lowest byte first.

module LittleEndian {

  type Byte = b: int | 0 <= b < 256

  const TWO16 := 0x1_0000
  const TWO32 := 0x1_0000_0000
  const TWO64 := 0x1_0000_0000_0000_0000

  /** The lowest 'w' bytes of a number, the lowest first. */
  function Low(x: nat, w: nat): (r: seq<Byte>)
    ensures |r| == w
    decreases w
  {
    if w == 0 then [] else [x % 256] + Low(x / 256, w - 1)
  }

  function FromLow(s: seq<Byte>): nat {
    if s == [] then 0 else s[0] + 256 * FromLow(s[1..])
  }

  function Power256(w: nat): (p: nat)
    ensures p > 0
  {
    if w == 0 then 1 else 256 * Power256(w - 1)
  }

  lemma {:induction false} LowRound(x: nat, w: nat)
    requires x < Power256(w)
    ensures FromLow(Low(x, w)) == x
    decreases w
  {
    if w > 0 {
      LowRound(x / 256, w - 1);
      assert Low(x, w)[1..] == Low(x / 256, w - 1);
    }
  }

  lemma Powers()
    ensures Power256(1) == 256 && Power256(2) == TWO16 && Power256(4) == TWO32 && Power256(8) == TWO64
  {
    assert Power256(3) == 0x100_0000;
    assert Power256(5) == 0x100_0000_0000;
    assert Power256(6) == 0x1_0000_0000_0000;
    assert Power256(7) == 0x100_0000_0000_0000;
  }

  lemma {:induction false} FromLowBelow(s: seq<Byte>)
    ensures FromLow(s) < Power256(|s|)
  {
    if s != [] { FromLowBelow(s[1..]); }
  }
}
