// Packet reassembly for many connections (lua-netpack.c): partial packets in a hash, whole ones in a ring.

module NetPack {
  import opened Options
  import opened Rings
  import opened Frames

  const QUEUESIZE := 1024
  const HASHSIZE := 4096

  /** A whole packet of connection 'id'. */
  datatype Packet = Packet(id: nat, data: seq<Byte>)

  /**
   * A partial packet. 'read' is -1 when only the first size byte, 'header', has come; otherwise it is
   * the number of bytes in 'buffer', of 'size'.
   */
  datatype Uncomplete = Uncomplete(id: nat, size: nat, buffer: seq<Byte>, read: int, header: Byte)

  predicate Sound(u: Uncomplete) {
    u.read == -1 || (u.read == |u.buffer| && |u.buffer| < u.size < MAX_SIZE)
  }

  /** The bytes of the stream that a partial packet stands for. */
  function BytesOf(u: Uncomplete): (r: seq<Byte>)
    requires Sound(u)
    ensures !HasFrame(r) && r != []
  {
    if u.read == -1 then [u.header] else [u.size / 256, u.size % 256] + u.buffer
  }

  function HashFd(fd: nat): (h: nat)
    ensures h < HASHSIZE
  {
    (fd / 0x100_0000 + fd / 0x1000 + fd) % 0x1_0000_0000 % HASHSIZE
  }

  /** Where connection 'fd' is in a list of partial packets, or the end. */
  function Find(list: seq<Uncomplete>, fd: nat): (i: nat)
    ensures i <= |list|
    ensures i < |list| ==> list[i].id == fd
    ensures forall k | 0 <= k < i :: list[k].id != fd
  {
    if list == [] || list[0].id == fd then 0 else 1 + Find(list[1..], fd)
  }

  /** The bytes that wait for connection 'fd' in its list. */
  function WaitsIn(list: seq<Uncomplete>, fd: nat): seq<Byte>
    requires forall u | u in list :: Sound(u)
  {
    var i := Find(list, fd);
    if i < |list| then BytesOf(list[i]) else []
  }

  predicate OneEach(list: seq<Uncomplete>) {
    forall i, j | 0 <= i < j < |list| :: list[i].id != list[j].id
  }

  predicate ListOk(list: seq<Uncomplete>, h: nat) {
    OneEach(list) && forall u | u in list :: Sound(u) && HashFd(u.id) == h
  }

  /** A partial packet put in front is what waits for its connection. */
  lemma PutFront(list: seq<Uncomplete>, u: Uncomplete, fd: nat)
    requires ListOk(list, HashFd(u.id)) && Sound(u) && Find(list, u.id) == |list|
    ensures ListOk([u] + list, HashFd(u.id))
    ensures WaitsIn([u] + list, fd) == if fd == u.id then BytesOf(u) else WaitsIn(list, fd)
  {
    PutFrontOk(list, u);
    hide BytesOf, HashFd, ListOk, Sound;
    assert ([u] + list)[1..] == list;
  }

  lemma PutFrontOk(list: seq<Uncomplete>, u: Uncomplete)
    requires ListOk(list, HashFd(u.id)) && Sound(u) && Find(list, u.id) == |list|
    ensures ListOk([u] + list, HashFd(u.id))
  {
    hide HashFd, Sound;
    var l := [u] + list;
    forall i, j | 0 <= i < j < |l| ensures l[i].id != l[j].id {
      if i == 0 { assert list[j - 1].id != u.id; }
    }
  }

  /** A partial packet taken out leaves the others. */
  lemma {:induction false} TakeOut(list: seq<Uncomplete>, h: nat, i: nat, fd: nat)
    requires ListOk(list, h) && i < |list|
    ensures ListOk(list[..i] + list[i + 1..], h)
    ensures WaitsIn(list[..i] + list[i + 1..], fd) == if fd == list[i].id then [] else WaitsIn(list, fd)
    ensures fd == list[i].id ==> Find(list[..i] + list[i + 1..], fd) == |list| - 1
  {
    var l, at := list[..i] + list[i + 1..], Find(list, fd);
    forall x, y | 0 <= x < y < |l| ensures l[x].id != l[y].id {
      var x', y' := if x < i then x else x + 1, if y < i then y else y + 1;
      assert l[x] == list[x'] && l[y] == list[y'];
    }
    var b := Find(l, fd);
    if b < |l| {
      var b' := if b < i then b else b + 1;
      assert l[b] == list[b'];
      if at < |list| { assert at == b'; }
    }
    if fd != list[i].id && at < |list| {
      var a' := if at < i then at else at - 1;
      assert l[a'] == list[at];
    }
  }

  class Queue {
    const hash: array<seq<Uncomplete>>
    var queue: array<Packet>
    var head: nat
    var tail: nat

    ghost predicate Valid()
      reads this, hash
    {
      && hash.Length == HASHSIZE && head < queue.Length && tail < queue.Length
      && forall h | 0 <= h < HASHSIZE :: ListOk(hash[h], h)
    }

    /** The bytes of connection 'fd' that no packet is made of yet. */
    ghost function Waiting(fd: nat): seq<Byte>
      requires Valid()
      reads this, hash
    {
      WaitsIn(hash[HashFd(fd)], fd)
    }

    /** The whole packets that wait to be popped. */
    ghost function Ready(): seq<Packet>
      requires Valid()
      reads this, hash, queue
    {
      Ring(queue[..], head, tail)
    }

    constructor ()
      ensures Valid() && fresh(hash) && fresh(queue) && Ready() == [] && forall fd: nat :: Waiting(fd) == []
    {
      hash := new seq<Uncomplete>[HASHSIZE](_ => []);
      queue := new Packet[QUEUESIZE](_ => Packet(0, []));
      head, tail := 0, 0;
    }

    /** Takes the partial packet of 'fd' out of its list. */
    method FindUncomplete(fd: nat) returns (u: Option<Uncomplete>)
      requires Valid()
      modifies hash
      ensures Valid()
      ensures if u.Some? then u.value.id == fd && Sound(u.value) && BytesOf(u.value) == old(Waiting(fd))
              else old(Waiting(fd)) == []
      ensures forall x: nat :: Waiting(x) == if x == fd then [] else old(Waiting(x))
      ensures Ready() == old(Ready())
    {
      hide HashFd, BytesOf;
      var h := HashFd(fd);
      var i := 0;
      while i < |hash[h]| && hash[h][i].id != fd
        invariant i <= |hash[h]| && Find(hash[h], fd) == i + Find(hash[h][i..], fd)
      {
        i := i + 1;
      }
      if i == |hash[h]| { return None; }
      u := Some(hash[h][i]);
      ghost var list := hash[h];
      hash[h] := hash[h][..i] + hash[h][i + 1..];
      forall x: nat ensures ListOk(hash[h], h) && Waiting(x) == if x == fd then [] else old(Waiting(x)) {
        TakeOut(list, h, i, x);
      }
      TakeOut(list, h, i, fd);
    }

    /** Puts a partial packet in front of its list. */
    method SaveUncomplete(u: Uncomplete)
      requires Valid() && Sound(u) && Waiting(u.id) == []
      modifies hash
      ensures Valid() && forall x: nat :: Waiting(x) == if x == u.id then BytesOf(u) else old(Waiting(x))
      ensures Ready() == old(Ready())
    {
      hide HashFd, BytesOf;
      var h := HashFd(u.id);
      ghost var list := hash[h];
      hash[h] := [u] + hash[h];
      forall x: nat ensures ListOk(hash[h], h) && Waiting(x) == if x == u.id then BytesOf(u) else old(Waiting(x)) {
        PutFront(list, u, x);
      }
    }

    /** Makes room when the ring is full. */
    method ExpandQueue()
      requires hash.Length == HASHSIZE && head < queue.Length && head == tail
      requires forall h | 0 <= h < HASHSIZE :: ListOk(hash[h], h)
      modifies this
      ensures Valid() && fresh(queue) && queue.Length == old(queue.Length) + QUEUESIZE
      ensures Ready() == old(FullRing(queue[..], head))
    {
      var cap := queue.Length;
      var bigger := new Packet[cap + QUEUESIZE](_ => Packet(0, []));
      ghost var want := FullRing(queue[..], head);
      var i := 0;
      while i < cap
        modifies bigger
        invariant i <= cap && bigger[..i] == want[..i]
      {
        WrapIndex(head + i, cap);
        bigger[i] := queue[(head + i) % cap];
        i := i + 1;
      }
      assert want[..cap] == want;
      head, tail, queue := 0, cap, bigger;
      assert queue[..][0..cap] == queue[..cap];
    }

    method PushData(fd: nat, data: seq<Byte>)
      requires Valid()
      modifies this, queue
      ensures Valid() && (queue == old(queue) || fresh(queue))
      ensures Ready() == old(Ready()) + [Packet(fd, data)]
      ensures forall x: nat :: Waiting(x) == old(Waiting(x))
    {
      hide Ring;
      var p := Packet(fd, data);
      RingPush(queue[..], head, tail, p);
      queue[tail] := p;
      assert queue[..] == old(queue[..])[tail := p];
      tail := tail + 1;
      if tail >= queue.Length { tail := 0; }
      if head == tail { ExpandQueue(); }
    }

    /** The next whole packet: 'lpop'. */
    method Pop() returns (p: Option<Packet>)
      requires Valid()
      modifies this`head
      ensures Valid()
      ensures if p.Some? then old(Ready()) == [p.value] + Ready() else old(Ready()) == [] && Ready() == []
      ensures forall x: nat :: Waiting(x) == old(Waiting(x))
    {
      hide Ring;
      RingLength(queue[..], head, tail);
      if head == tail { return None; }
      RingPop(queue[..], head, tail);
      p := Some(queue[head]);
      head := head + 1;
      if head >= queue.Length { head := 0; }
    }

    /** Cuts what follows a whole packet into packets: 'push_more'. */
    method PushMore(fd: nat, buffer: seq<Byte>)
      requires Valid() && buffer != [] && Waiting(fd) == []
      modifies this, hash, queue
      ensures Valid() && (queue == old(queue) || fresh(queue))
      ensures Ready() == old(Ready()) + Tagged(fd, Unframe(buffer).packets)
      ensures forall x: nat :: Waiting(x) == if x == fd then Unframe(buffer).rest else old(Waiting(x))
      decreases |buffer|
    {
      hide Ring, HashFd, Waiting, Ready, Unframe, FirstFrame, AfterFrame, Tagged;
      NoneTagged(fd, []);
      if |buffer| == 1 {
        NoneTagged(fd, Unframe(buffer).packets);
        SaveUncomplete(Uncomplete(fd, 0, [], -1, buffer[0]));
        OneByte(buffer);
        return;
      }
      var size, rest := ReadSize(buffer[0], buffer[1]), buffer[2..];
      if |rest| < size {
        SaveUncomplete(Uncomplete(fd, size, rest, |rest|, 0));
        PartialBytes(buffer, size, rest);
        NoneTagged(fd, Unframe(buffer).packets);
        return;
      }
      CutFrame(buffer, size, rest);
      UnframeFirst(buffer);
      PushData(fd, rest[..size]);
      ghost var more := Unframe(rest[size..]);
      MoreTagged(fd, rest[..size], more.packets);
      if |rest| > size {
        PushMore(fd, rest[size..]);
      } else {
        NothingLeft(rest[size..]);
        NoneTagged(fd, more.packets);
      }
    }

    /** A chunk of connection 'fd': a packet, more than one to be popped, or nothing yet. */
    method Filter(fd: nat, buffer: seq<Byte>) returns (r: Result)
      requires Valid() && buffer != []
      modifies this, hash, queue
      ensures Valid() && (queue == old(queue) || fresh(queue))
      ensures var u := Unframe(old(Waiting(fd)) + buffer);
              && r == ResultOf(u)
              && Ready() == old(Ready()) + (if r.More? then Tagged(fd, u.packets) else [])
              && forall x: nat :: Waiting(x) == if x == fd then u.rest else old(Waiting(x))
    {
      hide Ring, HashFd, Waiting, Ready, Unframe, FirstFrame, AfterFrame, Tagged, HasFrame;
      ghost var s := Waiting(fd) + buffer;
      NoneTagged(fd, []);
      var found := FindUncomplete(fd);
      if found.None? {
        assert s == buffer;
        r := FilterFresh(fd, buffer);
        return;
      }
      var u, rest := found.value, buffer;
      if u.read < 0 {
        u := Uncomplete(fd, ReadSize(u.header, buffer[0]), [], 0, 0);
        rest := buffer[1..];
      }
      assert s == [u.size / 256, u.size % 256] + (u.buffer + rest);
      var need := u.size - |u.buffer|;
      if |rest| < need {
        SaveUncomplete(Uncomplete(fd, u.size, u.buffer + rest, u.read + |rest|, 0));
        PartialBytes(s, u.size, u.buffer + rest);
        return Nothing;
      }
      var packet, left := u.buffer + rest[..need], rest[need..];
      assert (u.buffer + rest)[..u.size] == packet && (u.buffer + rest)[u.size..] == left;
      CutFrame(s, u.size, u.buffer + rest);
      r := Whole(fd, packet, left, s);
    }

    /** A chunk that starts a packet. */
    method FilterFresh(fd: nat, buffer: seq<Byte>) returns (r: Result)
      requires Valid() && buffer != [] && Waiting(fd) == []
      modifies this, hash, queue
      ensures Valid() && (queue == old(queue) || fresh(queue))
      ensures var u := Unframe(buffer);
              && r == ResultOf(u)
              && Ready() == old(Ready()) + (if r.More? then Tagged(fd, u.packets) else [])
              && forall x: nat :: Waiting(x) == if x == fd then u.rest else old(Waiting(x))
    {
      hide Ring, HashFd, Waiting, Ready, Unframe, FirstFrame, AfterFrame, Tagged;
      NoneTagged(fd, []);
      if |buffer| == 1 {
        SaveUncomplete(Uncomplete(fd, 0, [], -1, buffer[0]));
        OneByte(buffer);
        return Nothing;
      }
      var size, rest := ReadSize(buffer[0], buffer[1]), buffer[2..];
      if |rest| < size {
        SaveUncomplete(Uncomplete(fd, size, rest, |rest|, 0));
        PartialBytes(buffer, size, rest);
        return Nothing;
      }
      CutFrame(buffer, size, rest);
      r := Whole(fd, rest[..size], rest[size..], buffer);
    }

    /** A whole packet is there: it is the result if nothing follows it, or else it is queued. */
    method Whole(fd: nat, packet: seq<Byte>, left: seq<Byte>, ghost s: seq<Byte>) returns (r: Result)
      requires Valid() && Waiting(fd) == [] && HasFrame(s) && FirstFrame(s) == packet && AfterFrame(s) == left
      modifies this, hash, queue
      ensures Valid() && (queue == old(queue) || fresh(queue))
      ensures var u := Unframe(s);
              && r == ResultOf(u)
              && Ready() == old(Ready()) + (if r.More? then Tagged(fd, u.packets) else [])
              && forall x: nat :: Waiting(x) == if x == fd then u.rest else old(Waiting(x))
    {
      hide Ring, HashFd, Waiting, Ready, Unframe, FirstFrame, AfterFrame, Tagged, HasFrame;
      NoneTagged(fd, []);
      UnframeFirst(s);
      ghost var more := Unframe(left);
      MoreTagged(fd, packet, more.packets);
      if left == [] {
        NothingLeft(left);
        return Data(packet);
      }
      SomethingLeft(left);
      PushData(fd, packet);
      PushMore(fd, left);
      return More;
    }

    /** The connection ends: what waits for it is dropped. */
    method CloseUncomplete(fd: nat)
      requires Valid()
      modifies hash
      ensures Valid() && Ready() == old(Ready())
      ensures forall x: nat :: Waiting(x) == if x == fd then [] else old(Waiting(x))
    {
      var _ := FindUncomplete(fd);
    }

    /** Pops all packets that are ready. */
    method Drain() returns (log: seq<Packet>)
      requires Valid()
      modifies this`head
      ensures Valid() && log == old(Ready()) && Ready() == []
      ensures forall x: nat :: Waiting(x) == old(Waiting(x))
    {
      hide Ring, Waiting, Ready;
      log := [];
      var p := Pop();
      while p.Some?
        invariant Valid()
        invariant old(Ready()) == log + if p.Some? then [p.value] + Ready() else []
        invariant p.None? ==> Ready() == []
        invariant forall x: nat :: Waiting(x) == old(Waiting(x))
        decreases if p.None? then 0 else |Ready()| + 1
      {
        log := log + [p.value];
        assert old(Ready()) == log + Ready();
        p := Pop();
      }
    }

    /** One chunk and, after "more", the packets it made ready. */
    method Take(fd: nat, buffer: seq<Byte>) returns (got: seq<Packet>)
      requires Valid() && buffer != [] && Ready() == []
      modifies this, hash, queue
      ensures Valid() && (queue == old(queue) || fresh(queue)) && Ready() == []
      ensures var u := Unframe(old(Waiting(fd)) + buffer);
              && got == Tagged(fd, u.packets)
              && forall x: nat :: Waiting(x) == if x == fd then u.rest else old(Waiting(x))
    {
      hide Ring, Waiting, Ready, Unframe, Tagged;
      ghost var u := Unframe(Waiting(fd) + buffer);
      var r := Filter(fd, buffer);
      got := [];
      if r.Data? {
        got := [Packet(fd, r.data)];
      } else if r.More? {
        got := Drain();
      }
      ResultTagged(fd, u, got);
    }
  }

  /** What 'filter' returns. */
  datatype Result = Nothing | Data(data: seq<Byte>) | More

  function ResultOf(u: Split): Result {
    if u.packets == [] then Nothing
    else if |u.packets| == 1 && u.rest == [] then Data(u.packets[0])
    else More
  }

  lemma SomethingLeft(s: seq<Byte>)
    requires s != []
    ensures Unframe(s).packets != [] || Unframe(s).rest != []
  {
  }

  // ---- Whole runs ----

  /** A chunk that arrives on a connection. */
  datatype Chunk = Chunk(fd: nat, bytes: seq<Byte>)

  /** All bytes of a connection. */
  function Gathered(chunks: seq<Chunk>, fd: nat): seq<Byte> {
    if chunks == [] then []
    else
      var c := chunks[|chunks| - 1];
      Gathered(chunks[..|chunks| - 1], fd) + if c.fd == fd then c.bytes else []
  }

  /** The packets of a connection, in order. */
  function Delivered(log: seq<Packet>, fd: nat): seq<seq<Byte>> {
    if log == [] then []
    else
      var p := log[|log| - 1];
      Delivered(log[..|log| - 1], fd) + if p.id == fd then [p.data] else []
  }

  lemma {:induction false} DeliveredTagged(log: seq<Packet>, id: nat, ps: seq<seq<Byte>>, fd: nat)
    ensures Delivered(log + Tagged(id, ps), fd) == Delivered(log, fd) + if fd == id then ps else []
    decreases |ps|
  {
    if ps == [] {
      assert log + Tagged(id, ps) == log;
    } else {
      var n := |ps| - 1;
      var all := log + Tagged(id, ps);
      assert all[..|all| - 1] == log + Tagged(id, ps[..n]);
      DeliveredTagged(log, id, ps[..n], fd);
      assert ps == ps[..n] + [ps[n]];
    }
  }

  /**
   * Chunks of any connections in any interleaving, the queue being drained after each "more": every
   * connection gets the packets of its own bytes, in order, however they were cut.
   */
  method Receive(chunks: seq<Chunk>) returns (log: seq<Packet>)
    requires forall c | c in chunks :: c.bytes != []
    ensures forall fd: nat :: Delivered(log, fd) == Unframe(Gathered(chunks, fd)).packets
  {
    hide *;
    Nowhere();
    var q := new Queue();
    log := [];
    var k := 0;
    while k < |chunks|
      invariant k <= |chunks| && q.Valid() && fresh(q) && fresh(q.hash) && fresh(q.queue) && q.Ready() == []
      invariant forall fd: nat :: q.Waiting(fd) == Unframe(Gathered(chunks[..k], fd)).rest
      invariant forall fd: nat :: Delivered(log, fd) == Unframe(Gathered(chunks[..k], fd)).packets
    {
      var c := chunks[k];
      assert c in chunks;
      ghost var was, u := log, Unframe(q.Waiting(c.fd) + c.bytes);
      var got := q.Take(c.fd, c.bytes);
      log := log + got;
      forall fd: nat
        ensures Unframe(Gathered(chunks[..k + 1], fd)).rest ==
                if fd == c.fd then u.rest else Unframe(Gathered(chunks[..k], fd)).rest
        ensures Delivered(log, fd) == Unframe(Gathered(chunks[..k + 1], fd)).packets
      {
        OneMore(chunks, k, fd);
        DeliveredTagged(was, c.fd, u.packets, fd);
      }
      k := k + 1;
    }
    assert chunks[..k] == chunks;
  }

  lemma Nowhere()
    ensures forall fd: nat :: Gathered([], fd) == [] && Delivered([], fd) == []
    ensures forall chunks: seq<Chunk>, fd: nat :: Gathered(chunks[..0], fd) == []
    ensures Unframe([]) == Split([], [])
  {
  }

  lemma ResultTagged(fd: nat, u: Split, got: seq<Packet>)
    requires match ResultOf(u)
             case Nothing => got == []
             case Data(data) => got == [Packet(fd, data)]
             case More => got == [] + Tagged(fd, u.packets)
    ensures got == Tagged(fd, u.packets)
  {
  }

  /** One chunk adds its packets to those of its connection. */
  lemma OneMore(chunks: seq<Chunk>, k: nat, fd: nat)
    requires k < |chunks|
    ensures var x, c := Unframe(Gathered(chunks[..k], fd)), chunks[k];
            var y := Unframe(x.rest + c.bytes);
            Unframe(Gathered(chunks[..k + 1], fd)) ==
            if c.fd == fd then Split(x.packets + y.packets, y.rest) else x
  {
    hide Unframe;
    assert chunks[..k + 1][..k] == chunks[..k];
    UnframeConcat(Gathered(chunks[..k], fd), chunks[k].bytes);
    assert Gathered(chunks[..k], fd) + [] == Gathered(chunks[..k], fd);
  }

  /** So a connection that carries packed messages delivers exactly those. */
  lemma MessagesArrive(chunks: seq<Chunk>, log: seq<Packet>, fd: nat, ms: seq<seq<Byte>>)
    requires forall m | m in ms :: |m| < MAX_SIZE
    requires Gathered(chunks, fd) == Stream(ms)
    requires Delivered(log, fd) == Unframe(Gathered(chunks, fd)).packets
    ensures Delivered(log, fd) == ms
  {
    StreamUnframes(ms);
  }

  /** The packets of one connection, as they are queued. */
  function Tagged(fd: nat, ps: seq<seq<Byte>>): (r: seq<Packet>)
    ensures |r| == |ps|
  {
    seq(|ps|, i requires 0 <= i < |ps| => Packet(fd, ps[i]))
  }

  lemma NoneTagged(fd: nat, ps: seq<seq<Byte>>)
    ensures ps == [] ==> Tagged(fd, ps) == []
    ensures forall a: seq<Packet> :: a + [] == a
  {
  }

  lemma MoreTagged(fd: nat, p: seq<Byte>, ps: seq<seq<Byte>>)
    ensures Tagged(fd, [p] + ps) == [Packet(fd, p)] + Tagged(fd, ps)
    ensures forall a: seq<Packet> :: (a + [Packet(fd, p)]) + Tagged(fd, ps) == a + ([Packet(fd, p)] + Tagged(fd, ps))
  {
  }

  lemma NothingLeft(s: seq<Byte>)
    requires s == []
    ensures Unframe(s) == Split([], [])
  {
  }

  lemma OneByte(s: seq<Byte>)
    requires |s| == 1
    ensures Unframe(s) == Split([], s) && s == [s[0]]
  {
  }

  /** A size and fewer bytes than it says. */
  lemma PartialBytes(s: seq<Byte>, size: nat, rest: seq<Byte>)
    requires |s| >= 2 && size == ReadSize(s[0], s[1]) && rest == s[2..] && |rest| < size
    ensures [size / 256, size % 256] + rest == s && !HasFrame(s) && Unframe(s) == Split([], s)
  {
  }

  lemma CutFrame(s: seq<Byte>, size: nat, rest: seq<Byte>)
    requires |s| >= 2 && size == ReadSize(s[0], s[1]) && rest == s[2..] && size <= |rest|
    ensures HasFrame(s) && FirstFrame(s) == rest[..size] && AfterFrame(s) == rest[size..]
  {
  }
}
