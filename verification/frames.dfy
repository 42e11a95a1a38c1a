// The framing of lua-netpack.c: two bytes of size, the high one first, and then the data.

module Frames {

  type Byte = b: int | 0 <= b < 256

  const MAX_SIZE := 0x10000

  function ReadSize(hi: Byte, lo: Byte): (n: nat)
    ensures n < MAX_SIZE
  {
    hi * 256 + lo
  }

  /** What 'lpack' makes of a message. */
  function Packed(m: seq<Byte>): (r: seq<Byte>)
    requires |m| < MAX_SIZE
    ensures |r| == |m| + 2 && (r[0] as int) * 256 + r[1] as int == |m| && ReadSize(r[0], r[1]) == |m| && r[2..] == m
  {
    [|m| / 256, |m| % 256] + m
  }

  method Pack(m: seq<Byte>) returns (ok: bool, r: seq<Byte>)
    ensures ok <==> |m| < MAX_SIZE
    ensures ok ==> r == Packed(m)
  {
    if |m| >= MAX_SIZE { return false, []; }
    return true, [|m| / 256 % 256, |m| % 256] + m;
  }

  /** The whole frames at the front of a stream, and what is left. */
  datatype Split = Split(packets: seq<seq<Byte>>, rest: seq<Byte>)

  predicate HasFrame(s: seq<Byte>) { |s| >= 2 && |s| - 2 >= ReadSize(s[0], s[1]) }

  function Unframe(s: seq<Byte>): (r: Split)
    ensures !HasFrame(r.rest) && |r.rest| <= |s|
    ensures !HasFrame(s) ==> r == Split([], s)
    decreases |s|
  {
    if HasFrame(s) then
      var n := ReadSize(s[0], s[1]);
      var more := Unframe(s[2 + n..]);
      Split([s[2..2 + n]] + more.packets, more.rest)
    else Split([], s)
  }

  /** The frame at the front, and what follows it. */
  function FirstFrame(s: seq<Byte>): seq<Byte>
    requires HasFrame(s)
  {
    s[2..2 + ReadSize(s[0], s[1])]
  }

  function AfterFrame(s: seq<Byte>): (r: seq<Byte>)
    requires HasFrame(s)
    ensures |r| < |s|
  {
    s[2 + ReadSize(s[0], s[1])..]
  }

  lemma UnframeFirst(s: seq<Byte>)
    requires HasFrame(s)
    ensures var more := Unframe(AfterFrame(s));
            Unframe(s) == Split([FirstFrame(s)] + more.packets, more.rest)
  {
  }

  lemma FrameStays(a: seq<Byte>, b: seq<Byte>)
    requires HasFrame(a)
    ensures HasFrame(a + b) && FirstFrame(a + b) == FirstFrame(a) && AfterFrame(a + b) == AfterFrame(a) + b
  {
  }

  /** Taking a stream in pieces gives the same frames. */
  lemma {:induction false} UnframeConcat(a: seq<Byte>, b: seq<Byte>)
    ensures var x := Unframe(a);
            var y := Unframe(x.rest + b);
            Unframe(a + b) == Split(x.packets + y.packets, y.rest)
    decreases |a|
  {
    hide Unframe, FirstFrame, AfterFrame;
    if HasFrame(a) {
      FrameStays(a, b);
      UnframeFirst(a);
      UnframeFirst(a + b);
      UnframeConcat(AfterFrame(a), b);
    } else {
      assert [] + Unframe(a + b).packets == Unframe(a + b).packets;
    }
  }

  /** Packed messages back to back. */
  function Stream(ms: seq<seq<Byte>>): seq<Byte>
    requires forall m | m in ms :: |m| < MAX_SIZE
  {
    if ms == [] then [] else Packed(ms[0]) + Stream(ms[1..])
  }

  /** Unframing a stream of packed messages gives the messages. */
  lemma {:induction false} StreamUnframes(ms: seq<seq<Byte>>)
    requires forall m | m in ms :: |m| < MAX_SIZE
    ensures Unframe(Stream(ms)) == Split(ms, [])
  {
    if ms != [] {
      var s := Stream(ms);
      StreamUnframes(ms[1..]);
      assert s[2..2 + |ms[0]|] == ms[0];
      assert s[2 + |ms[0]|..] == Stream(ms[1..]);
    }
  }
}
