// The read buffer of lua-socket.c: a list of chunks with an offset, on nodes of a shared pool.

module ReadBuffer {
  import opened Options

  type Byte = b: int | 0 <= b < 256

  /** A pool node; nodes are named by their index in the pool, and -1 is no node. */
  datatype Node = Node(msg: seq<Byte>, next: int)

  // ---- Linked lists of nodes ----

  function First(list: seq<nat>): int { if list == [] then -1 else list[0] }

  function After(list: seq<nat>, i: nat): int
    requires i < |list|
  {
    if i + 1 < |list| then list[i + 1] else -1
  }

  /** The nodes of 'list' are linked in this order. */
  predicate Linked(nodes: seq<Node>, list: seq<nat>) {
    forall i | 0 <= i < |list| :: list[i] < |nodes| && nodes[list[i]].next == After(list, i)
  }

  predicate Distinct(list: seq<nat>) {
    forall i, j | 0 <= i < j < |list| :: list[i] != list[j]
  }

  lemma HeadTail(list: seq<nat>)
    requires list != [] && Distinct(list)
    ensures Distinct(list[1..]) && list[0] !in list[1..]
    ensures forall x :: x in list <==> x == list[0] || x in list[1..]
  {
    assert list == [list[0]] + list[1..];
  }

  lemma AddLast(list: seq<nat>, y: nat)
    requires Distinct(list) && y !in list
    ensures Distinct(list + [y]) && Distinct([y] + list)
    ensures forall x :: x in list + [y] <==> x == y || x in list
    ensures forall x :: x in [y] + list <==> x == y || x in list
  {
  }

  /** Every node is in exactly one place: the buffer, the free list, or another buffer. */
  predicate Shared(n: nat, used: seq<nat>, free: seq<nat>, others: set<nat>) {
    && Distinct(used) && Distinct(free)
    && (forall x | x in used :: x < n && x !in free && x !in others)
    && (forall x | x in free :: x < n && x !in others)
    && (forall x | x in others :: x < n)
    && (forall x: nat | x < n :: x in used || x in free || x in others)
  }

  /** The bytes of the chunks in 'list'. */
  function Bytes(nodes: seq<Node>, list: seq<nat>): seq<Byte>
    requires forall i | 0 <= i < |list| :: list[i] < |nodes|
  {
    if list == [] then [] else nodes[list[0]].msg + Bytes(nodes, list[1..])
  }

  predicate FullChunks(nodes: seq<Node>, list: seq<nat>) {
    forall i | 0 <= i < |list| :: list[i] < |nodes| && nodes[list[i]].msg != []
  }

  /** The offset lies in the first chunk. */
  predicate OffsetOk(nodes: seq<Node>, list: seq<nat>, offset: nat)
    requires FullChunks(nodes, list)
  {
    if list == [] then offset == 0 else offset < |nodes[list[0]].msg|
  }

  lemma {:induction false} BytesSame(a: seq<Node>, b: seq<Node>, list: seq<nat>)
    requires forall i | 0 <= i < |list| :: list[i] < |a| && list[i] < |b| && a[list[i]].msg == b[list[i]].msg
    ensures Bytes(a, list) == Bytes(b, list)
  {
    if list != [] { BytesSame(a, b, list[1..]); }
  }

  lemma {:induction false} BytesSnoc(nodes: seq<Node>, list: seq<nat>, x: nat)
    requires x < |nodes| && forall i | 0 <= i < |list| :: list[i] < |nodes|
    ensures Bytes(nodes, list + [x]) == Bytes(nodes, list) + nodes[x].msg
  {
    if list == [] {
      assert (list + [x])[1..] == [];
    } else {
      assert (list + [x])[1..] == list[1..] + [x];
      BytesSnoc(nodes, list[1..], x);
    }
  }

  /** The bytes from place 'from' of the 'j'-th chunk on. */
  function Suffix(nodes: seq<Node>, list: seq<nat>, j: nat, from: nat): seq<Byte>
    requires forall i | 0 <= i < |list| :: list[i] < |nodes|
    requires j <= |list| && (if j == |list| then from == 0 else from <= |nodes[list[j]].msg|)
  {
    if j == |list| then [] else nodes[list[j]].msg[from..] + Bytes(nodes, list[j + 1..])
  }

  lemma SuffixEnds(nodes: seq<Node>, list: seq<nat>, j: nat)
    requires forall i | 0 <= i < |list| :: list[i] < |nodes|
    requires j < |list|
    ensures Suffix(nodes, list, j, |nodes[list[j]].msg|) == Suffix(nodes, list, j + 1, 0)
  {
    if j + 1 < |list| { assert list[j + 1..][1..] == list[j + 2..]; }
  }

  /** The nodes of other buffers are as they were. */
  predicate Untouched(before: seq<Node>, after: seq<Node>, others: set<nat>) {
    |before| <= |after| && forall x | x in others && x < |before| :: after[x] == before[x]
  }

  lemma UntouchedSelf(a: seq<Node>, others: set<nat>)
    ensures Untouched(a, a, others)
  {
  }

  lemma UntouchedTrans(a: seq<Node>, b: seq<Node>, c: seq<Node>, others: set<nat>)
    requires Untouched(a, b, others) && Untouched(b, c, others)
    ensures Untouched(a, c, others)
  {
  }

  // ---- Moving nodes ----

  /** A node from the free list, with a message, at the end of the buffer's list. */
  function Appended(nodes: seq<Node>, tail: int, x: nat, msg: seq<Byte>): (r: seq<Node>)
    requires x < |nodes| && -1 <= tail < |nodes| && tail != x
    ensures |r| == |nodes|
  {
    var n := nodes[x := Node(msg, -1)];
    if tail < 0 then n else n[tail := n[tail].(next := x)]
  }

  function Last(list: seq<nat>): int { if list == [] then -1 else list[|list| - 1] }

  lemma AppendShares(n: nat, used: seq<nat>, free: seq<nat>, others: set<nat>)
    requires Shared(n, used, free, others) && free != []
    ensures Shared(n, used + [free[0]], free[1..], others)
  {
    HeadTail(free);
    assert free[0] in free;
    AddLast(used, free[0]);
    hide Distinct;
  }

  lemma AppendLinks(nodes: seq<Node>, used: seq<nat>, free: seq<nat>, others: set<nat>, msg: seq<Byte>)
    requires Shared(|nodes|, used, free, others) && free != [] && Linked(nodes, used) && Linked(nodes, free)
    ensures free[0] < |nodes| && -1 <= Last(used) < |nodes| && Last(used) != free[0]
    ensures var nodes' := Appended(nodes, Last(used), free[0], msg);
            && Linked(nodes', used + [free[0]]) && Linked(nodes', free[1..])
            && nodes'[free[0]].msg == msg
            && (forall i | 0 <= i < |used| :: nodes'[used[i]].msg == nodes[used[i]].msg)
            && Untouched(nodes, nodes', others)
  {
    var x, last := free[0], Last(used);
    assert x in free;
    assert used != [] ==> last in used;
    var nodes', used' := Appended(nodes, last, x, msg), used + [x];
    HeadTail(free);
    forall y: nat | y < |nodes| && y != x && y != last ensures nodes'[y] == nodes[y] {
    }
    assert used != [] ==> nodes'[last] == Node(nodes[last].msg, x);
    forall i | 0 <= i < |used'| ensures used'[i] < |nodes'| && nodes'[used'[i]].next == After(used', i) {
      if i < |used| - 1 {
        assert used[i] in used && used[i] != last && nodes[used[i]].next == After(used, i);
      }
    }
    forall i | 0 <= i < |free| - 1
      ensures free[1..][i] < |nodes'| && nodes'[free[1..][i]].next == After(free[1..], i)
    {
      var y := free[i + 1];
      assert free[1..][i] == y && y in free[1..] && y in free && y !in used && nodes[y].next == After(free, i + 1);
    }
    forall i | 0 <= i < |used| ensures nodes'[used[i]].msg == nodes[used[i]].msg {
      assert used[i] in used;
    }
  }

  /** The first node of the buffer's list, emptied, in front of the free list. */
  lemma ReturnShares(n: nat, used: seq<nat>, free: seq<nat>, others: set<nat>)
    requires Shared(n, used, free, others) && used != []
    ensures Shared(n, used[1..], [used[0]] + free, others)
  {
    HeadTail(used);
    assert used[0] in used;
    AddLast(free, used[0]);
    hide Distinct;
  }

  lemma ReturnLinks(nodes: seq<Node>, used: seq<nat>, free: seq<nat>, others: set<nat>)
    requires Shared(|nodes|, used, free, others) && used != [] && Linked(nodes, used) && Linked(nodes, free)
    ensures var nodes' := nodes[used[0] := Node([], First(free))];
            && Linked(nodes', used[1..]) && Linked(nodes', [used[0]] + free)
            && (forall i | 0 <= i < |used| - 1 :: nodes'[used[1..][i]].msg == nodes[used[i + 1]].msg)
            && Untouched(nodes, nodes', others)
  {
    var x := used[0];
    var nodes', free' := nodes[x := Node([], First(free))], [x] + free;
    assert x in used;
    forall i | 0 <= i < |used| - 1
      ensures used[1..][i] == used[i + 1] && nodes'[used[i + 1]] == nodes[used[i + 1]]
      ensures nodes'[used[1..][i]].next == After(used[1..], i)
    {
      assert used[0] != used[i + 1] && nodes[used[i + 1]].next == After(used, i + 1);
    }
    forall i | 0 <= i < |free'| ensures free'[i] < |nodes'| && nodes'[free'[i]].next == After(free', i) {
      if i > 0 { assert free[i - 1] in free && nodes[free[i - 1]].next == After(free, i - 1); }
    }
  }

  // ---- The buffer ----

  class Buffer {
    var nodes: seq<Node>
    var pages: nat
    var freeNode: int
    var size: nat
    var offset: nat
    var head: int
    var tail: int
    ghost var used: seq<nat>
    ghost var free: seq<nat>
    ghost var others: set<nat>

    /** The two lists of nodes. */
    ghost predicate Lists()
      reads this
    {
      && Shared(|nodes|, used, free, others)
      && Linked(nodes, used) && Linked(nodes, free) && head == First(used) && freeNode == First(free)
      && tail == Last(used) && FullChunks(nodes, used)
    }

    /** All but the size, which some operations adjust last. */
    ghost predicate Formed()
      reads this
    {
      Lists() && OffsetOk(nodes, used, offset)
    }

    ghost function Contents(): seq<Byte>
      requires Formed()
      reads this
    {
      Suffix(nodes, used, 0, offset)
    }

    ghost predicate Valid()
      reads this
    {
      Formed() && size == |Contents()|
    }

    constructor ()
      ensures Valid() && Contents() == []
    {
      nodes, pages, freeNode, size, offset, head, tail := [], 0, -1, 0, 0, -1, -1;
      used, free, others := [], [], {};
    }

    /** A page of fresh nodes for the pool, linked to each other. */
    method NewPage(count: nat)
      requires Formed() && freeNode == -1 && count > 0
      modifies this`nodes, this`pages, this`freeNode, this`free
      ensures Formed() && Contents() == old(Contents()) && freeNode >= 0 && pages == old(pages) + 1
      ensures |nodes| == |old(nodes)| + count && Untouched(old(nodes), nodes, others)
    {
      hide Linked, Shared, FullChunks, OffsetOk, Suffix;
      var n, i := |nodes|, 0;
      ghost var was := nodes;
      assert was + PageNodes(n, 0, count) == was;
      while i < count
        invariant i <= count && nodes == was + PageNodes(n, i, count)
        modifies this`nodes
      {
        nodes := nodes + [Node([], if i + 1 == count then -1 else n + i + 1)];
        i := i + 1;
        assert nodes == was + PageNodes(n, i, count);
      }
      free := PageList(n, count);
      freeNode := n;
      pages := pages + 1;
      assert old(free) == [];
      PageKeeps(was, used, others, count, offset);
    }

    /** The size of the next page: 16, 32 and so on up to 4096 nodes. */
    function PageSize(): (n: nat)
      reads this
      ensures n > 0
    {
      var t := 1 + pages;
      if t >= 9 then 4096 else if t == 8 then 2048 else if t == 7 then 1024 else if t == 6 then 512
      else if t == 5 then 256 else if t == 4 then 128 else if t == 3 then 64 else if t == 2 then 32 else 16
    }

    /** Adds a chunk: 'lpushbuffer'. */
    method Push(msg: seq<Byte>) returns (total: nat)
      requires Valid() && msg != []
      modifies this
      ensures Valid() && Contents() == old(Contents()) + msg && total == size
      ensures others == old(others) && Untouched(old(nodes), nodes, others)
    {
      hide Linked, Shared, FullChunks, OffsetOk, Suffix, Appended;
      if freeNode == -1 { NewPage(PageSize()); }
      var x: nat := freeNode;
      ghost var was, before := nodes, used;
      PushKeeps(nodes, used, free, others, msg, offset);
      freeNode := nodes[x].next;
      nodes := nodes[x := Node(msg, -1)];
      if head < 0 {
        head, tail := x, x;
      } else {
        nodes := nodes[tail := nodes[tail].(next := x)];
        tail := x;
      }
      AppendedIs(was, Last(before), x, msg);
      used, free := used + [x], free[1..];
      size := size + |msg|;
      total := size;
    }

    /** Gives the first node back to the pool: 'return_free_node'. */
    method ReturnFreeNode()
      requires Lists() && used != []
      modifies this`nodes, this`head, this`tail, this`freeNode, this`offset, this`used, this`free
      ensures Formed() && used == old(used[1..]) && Contents() == old(Suffix(nodes, used, 1, 0))
      ensures Untouched(old(nodes), nodes, others)
    {
      hide Linked, Shared, FullChunks, OffsetOk, Suffix;
      ReturnKeeps(nodes, used, free, others);
      var x: nat := head;
      offset := 0;
      head := nodes[x].next;
      if head < 0 { tail := -1; }
      nodes := nodes[x := Node([], freeNode)];
      freeNode := x;
      used, free := used[1..], [x] + free;
    }

    /** Takes 'sz' bytes and returns all but the last 'skip' of them. */
    method PopLString(sz: nat, skip: nat) returns (r: seq<Byte>)
      requires Formed() && 0 < sz <= |Contents()| && skip <= sz
      modifies this`nodes, this`head, this`tail, this`freeNode, this`offset, this`used, this`free
      ensures Formed() && r == old(Contents())[..sz - skip] && Contents() == old(Contents())[sz..]
      ensures Untouched(old(nodes), nodes, others)
    {
      hide Linked, Shared, FullChunks, OffsetOk, Suffix;
      FirstChunk(nodes, used, offset);
      var msg := nodes[head].msg;
      if sz < |msg| - offset {
        TakeInside(nodes, used, offset, sz);
        r := msg[offset..offset + (sz - skip)];
        offset := offset + sz;
        return;
      }
      if sz == |msg| - offset {
        r := msg[offset..offset + (sz - skip)];
        ReturnFreeNode();
        return;
      }
      r := PopAcross(sz, skip);
    }

    /** The same over any number of chunks. */
    method PopAcross(sz: nat, skip: nat) returns (r: seq<Byte>)
      requires Formed() && 0 < sz <= |Contents()| && skip <= sz
      modifies this`nodes, this`head, this`tail, this`freeNode, this`offset, this`used, this`free
      ensures Formed() && r == old(Contents())[..sz - skip] && Contents() == old(Contents())[sz..]
      ensures Untouched(old(nodes), nodes, others)
    {
      hide Linked, Shared, FullChunks, OffsetOk, Suffix, Untouched;
      ghost var c := Contents();
      UntouchedSelf(nodes, others);
      r := [];
      var left := sz;
      while true
        invariant Formed() && 0 < left <= sz && left <= |Contents()|
        invariant Contents() == c[sz - left..]
        invariant r == c[..if left > skip then sz - left else sz - skip]
        invariant Untouched(old(nodes), nodes, others)
        decreases left
      {
        FirstChunk(nodes, used, offset);
        var current := nodes[head].msg;
        var bytes := |current| - offset;
        Slices(c, sz - left, current[offset..], Suffix(nodes, used, 1, 0));
        if bytes >= left {
          if left > skip {
            assert current[offset..][..left - skip] == current[offset..offset + (left - skip)];
            r := r + current[offset..offset + (left - skip)];
          }
          if bytes == left {
            ghost var was := nodes;
            ReturnFreeNode();
            UntouchedTrans(old(nodes), was, nodes, others);
          } else {
            TakeInside(nodes, used, offset, left);
            offset := offset + left;
          }
          return;
        }
        var realSz: int := left - skip;
        if realSz > 0 {
          var part := if realSz < bytes then realSz else bytes;
          assert current[offset..][..part] == current[offset..offset + part];
          r := r + current[offset..offset + part];
        }
        ghost var was := nodes;
        ReturnFreeNode();
        UntouchedTrans(old(nodes), was, nodes, others);
        left := left - bytes;
      }
    }

    /** Exactly 'sz' bytes, or nothing when there are fewer or none are wanted: 'lpopbuffer'. */
    method Pop(sz: nat) returns (r: Option<seq<Byte>>)
      requires Valid()
      modifies this
      ensures Valid() && others == old(others) && Untouched(old(nodes), nodes, others)
      ensures if sz == 0 || |old(Contents())| < sz then r == None && Contents() == old(Contents())
              else r == Some(old(Contents())[..sz]) && Contents() == old(Contents())[sz..]
    {
      hide Linked, Shared, FullChunks, OffsetOk, Suffix, Untouched;
      UntouchedSelf(nodes, others);
      if size < sz || sz == 0 { return None; }
      var s := PopLString(sz, 0);
      size := size - sz;
      r := Some(s);
    }

    /** Everything: 'lreadall'. */
    method ReadAll() returns (r: seq<Byte>)
      requires Valid()
      modifies this
      ensures Valid() && r == old(Contents()) && Contents() == [] && used == []
      ensures others == old(others) && Untouched(old(nodes), nodes, others)
    {
      hide Linked, Shared, FullChunks, OffsetOk, Suffix, Untouched;
      UntouchedSelf(nodes, others);
      r := [];
      while head >= 0
        invariant Formed() && r + Contents() == old(Contents())
        invariant others == old(others) && Untouched(old(nodes), nodes, others)
        decreases |used|
      {
        SomeChunk(nodes, used, offset);
        FirstChunk(nodes, used, offset);
        r := r + nodes[head].msg[offset..];
        assert r + Suffix(nodes, used, 1, 0) == old(Contents());
        ghost var was := nodes;
        ReturnFreeNode();
        UntouchedTrans(old(nodes), was, nodes, others);
      }
      NoChunk(nodes, used, offset);
      assert r + [] == r;
      assert r == old(Contents());
      size := 0;
    }

    /** Drops everything: 'lclearbuffer'. */
    method Clear()
      requires Valid()
      modifies this
      ensures Valid() && Contents() == [] && used == []
      ensures others == old(others) && Untouched(old(nodes), nodes, others)
    {
      hide Linked, Shared, FullChunks, OffsetOk, Suffix, Untouched;
      UntouchedSelf(nodes, others);
      while head >= 0
        invariant Formed() && others == old(others) && Untouched(old(nodes), nodes, others)
        decreases |used|
      {
        ghost var was := nodes;
        ReturnFreeNode();
        UntouchedTrans(old(nodes), was, nodes, others);
      }
      size := 0;
      NoChunk(nodes, used, offset);
    }

    /** Whether the separator starts at place 'from' of a chunk, over as many chunks as it takes. */
    method CheckSep(first: nat, start: nat, sep: seq<Byte>, ghost j0: nat) returns (r: bool)
      requires Formed() && j0 < |used| && used[j0] == first < |nodes| && start <= |nodes[first].msg|
      requires |sep| <= |Suffix(nodes, used, j0, start)|
      ensures r <==> Suffix(nodes, used, j0, start)[..|sep|] == sep
    {
      hide Linked, Shared, OffsetOk, Suffix;
      var node, from, rest := first, start, sep;
      ghost var j, all := j0, Suffix(nodes, used, j0, start);
      while true
        invariant j < |used| && used[j] == node < |nodes| && 0 <= from <= |nodes[node].msg|
        invariant |rest| <= |Suffix(nodes, used, j, from)|
        invariant all[..|sep|] == sep <==> Suffix(nodes, used, j, from)[..|rest|] == rest
        decreases |used| - j
      {
        var msg := nodes[node].msg;
        var sz := |msg| - from;
        ChunkAt(nodes, used, j, from);
        if sz >= |rest| { return msg[from..from + |rest|] == rest; }
        if sz > 0 && msg[from..] != rest[..sz] { return false; }
        NextChunk(nodes, used, j);
        PrefixSplit(msg[from..], Suffix(nodes, used, j + 1, 0), rest);
        node := nodes[node].next;
        rest := rest[sz..];
        from := 0;
        j := j + 1;
      }
    }

    /**
     * Reads up to the first separator, which it drops: 'lreadline'. With 'check' it only says whether
     * there is one.
     */
    method ReadLine(check: bool, sep: seq<Byte>) returns (found: bool, line: seq<Byte>)
      requires Valid() && sep != []
      modifies this
      ensures Valid() && others == old(others) && Untouched(old(nodes), nodes, others)
      ensures found <==> exists i :: SepAt(old(Contents()), i, sep)
      ensures found && !check ==>
                exists i :: FirstSep(old(Contents()), i, sep) &&
                  line == old(Contents())[..i] && Contents() == old(Contents())[i + |sep|..]
      ensures !found || check ==> Contents() == old(Contents()) && line == []
    {
      hide Linked, Shared, OffsetOk, Suffix, Untouched, FullChunks;
      UntouchedSelf(nodes, others);
      found, line := false, [];
      if head < 0 {
        NoChunk(nodes, used, offset);
        assert forall k :: !SepAt(Contents(), k, sep);
        return;
      }
      ghost var c := Contents();
      SomeChunk(nodes, used, offset);
      FirstChunk(nodes, used, offset);
      var current: nat, from := head, offset;
      var bytes := |nodes[head].msg| - from;
      ghost var j := 0;
      var i := 0;
      while i <= size - |sep|
        invariant Valid() && Contents() == c && 0 <= i <= |c|
        invariant 0 <= j < |used| && used[j] == current < |nodes| && 0 <= from < |nodes[current].msg|
        invariant bytes == |nodes[current].msg| - from
        invariant InPlace(nodes, used, j, from, c, i)
        invariant forall k | 0 <= k < i :: !SepAt(c, k, sep)
        invariant others == old(others) && Untouched(old(nodes), nodes, others)
      {
        PlaceHas(nodes, used, j, from, c, i);
        var here := CheckSep(current, from, sep, j);
        assert SepAt(c, i, sep) <==> here by { assert c[i..][..|sep|] == c[i..i + |sep|]; }
        if here {
          assert FirstSep(c, i, sep);
          found := true;
          if !check {
            assert c[..i + |sep| - |sep|] == c[..i];
            ghost var was := nodes;
            line := PopLString(i + |sep|, |sep|);
            UntouchedTrans(old(nodes), was, nodes, others);
            size := size - (i + |sep|);
            assert FirstSep(c, i, sep) && line == c[..i] && Contents() == c[i + |sep|..];
          }
          return;
        }
        PlaceNext(nodes, used, j, from, c, i);
        from := from + 1;
        bytes := bytes - 1;
        i := i + 1;
        if bytes == 0 {
          NextChunk(nodes, used, j);
          if nodes[current].next < 0 { break; }
          current := nodes[current].next;
          from := 0;
          j := j + 1;
          bytes := |nodes[current].msg|;
        }
      }
      forall k ensures !SepAt(c, k, sep) {
      }
      assert old(Contents()) == c;
    }
  }

  predicate SepAt(s: seq<Byte>, i: int, sep: seq<Byte>) { 0 <= i <= |s| - |sep| && s[i..i + |sep|] == sep }

  predicate FirstSep(s: seq<Byte>, i: int, sep: seq<Byte>) {
    SepAt(s, i, sep) && forall k | 0 <= k < i :: !SepAt(s, k, sep)
  }

  /** Place 'from' of the 'j'-th chunk is place 'i' of the contents. */
  predicate InPlace(nodes: seq<Node>, used: seq<nat>, j: nat, from: nat, c: seq<Byte>, i: nat)
    requires FullChunks(nodes, used) && j < |used| && from <= |nodes[used[j]].msg| && i <= |c|
  {
    Suffix(nodes, used, j, from) == c[i..]
  }

  lemma PlaceHas(nodes: seq<Node>, used: seq<nat>, j: nat, from: nat, c: seq<Byte>, i: nat)
    requires FullChunks(nodes, used) && j < |used| && from <= |nodes[used[j]].msg| && i <= |c|
    requires InPlace(nodes, used, j, from, c, i)
    ensures Suffix(nodes, used, j, from) == c[i..]
  {
  }

  lemma SomeChunk(nodes: seq<Node>, used: seq<nat>, offset: nat)
    requires FullChunks(nodes, used) && OffsetOk(nodes, used, offset) && used != []
    ensures Suffix(nodes, used, 0, offset) != []
  {
  }

  lemma NoChunk(nodes: seq<Node>, used: seq<nat>, offset: nat)
    requires FullChunks(nodes, used) && OffsetOk(nodes, used, offset) && used == []
    ensures Suffix(nodes, used, 0, offset) == []
  {
  }

  /** What is left of a chunk and what comes after it. */
  lemma ChunkAt(nodes: seq<Node>, used: seq<nat>, j: nat, from: nat)
    requires FullChunks(nodes, used) && j < |used| && from <= |nodes[used[j]].msg|
    ensures var chunk, rest := nodes[used[j]].msg[from..], Suffix(nodes, used, j + 1, 0);
            && Suffix(nodes, used, j, from) == chunk + rest
            && forall n: nat | n <= |chunk| :: (chunk + rest)[..n] == nodes[used[j]].msg[from..from + n]
    ensures j + 1 == |used| ==> Suffix(nodes, used, j + 1, 0) == []
  {
    if j + 1 < |used| { assert used[j + 1..][1..] == used[j + 2..]; }
  }

  /** One place further, in this chunk or at the start of the next. */
  lemma PlaceNext(nodes: seq<Node>, used: seq<nat>, j: nat, from: nat, c: seq<Byte>, i: nat)
    requires FullChunks(nodes, used) && j < |used| && from < |nodes[used[j]].msg| && i <= |c|
    requires InPlace(nodes, used, j, from, c, i)
    ensures i < |c| && InPlace(nodes, used, j, from + 1, c, i + 1)
    ensures from + 1 == |nodes[used[j]].msg| ==>
              if j + 1 < |used| then
                used[j + 1] < |nodes| && InPlace(nodes, used, j + 1, 0, c, i + 1) && nodes[used[j + 1]].msg != []
              else i + 1 == |c|
  {
    var msg := nodes[used[j]].msg;
    var s := Suffix(nodes, used, j, from);
    assert Suffix(nodes, used, j, from + 1) == s[1..];
    assert c[i..][1..] == c[i + 1..];
    if from + 1 == |msg| { SuffixEnds(nodes, used, j); }
  }

  lemma PrefixSplit(chunk: seq<Byte>, more: seq<Byte>, s: seq<Byte>)
    requires |chunk| <= |s| <= |chunk| + |more|
    ensures (chunk + more)[..|s|] == s <==> chunk == s[..|chunk|] && more[..|s| - |chunk|] == s[|chunk|..]
  {
    var t := more[..|s| - |chunk|];
    assert (chunk + more)[..|s|] == chunk + t;
    assert s == s[..|chunk|] + s[|chunk|..];
    if chunk + t == s {
      assert chunk == (chunk + t)[..|chunk|] && t == (chunk + t)[|chunk|..];
    }
  }

  lemma NextChunk(nodes: seq<Node>, used: seq<nat>, j: nat)
    requires Linked(nodes, used) && j < |used|
    ensures nodes[used[j]].next == After(used, j)
  {
  }

  /** Where a string goes on with a chunk, its parts extend what comes before. */
  lemma Slices(c: seq<Byte>, a: nat, chunk: seq<Byte>, rest: seq<Byte>)
    requires a <= |c| && c[a..] == chunk + rest
    ensures forall y | 0 <= y <= |chunk| :: c[..a] + chunk[..y] == c[..a + y]
    ensures rest == c[a + |chunk|..]
    ensures forall y: nat | a + y <= |c| :: c[a..][y..] == c[a + y..]
  {
    assert c == c[..a] + (chunk + rest);
  }

  lemma ReturnKeeps(nodes: seq<Node>, used: seq<nat>, free: seq<nat>, others: set<nat>)
    requires Shared(|nodes|, used, free, others) && used != [] && Linked(nodes, used) && Linked(nodes, free)
    requires FullChunks(nodes, used)
    ensures used[0] < |nodes| && nodes[used[0]].next == First(used[1..])
    ensures Last(used[1..]) == if |used| == 1 then -1 else Last(used)
    ensures var nodes' := nodes[used[0] := Node([], First(free))];
            && Shared(|nodes'|, used[1..], [used[0]] + free, others)
            && Linked(nodes', used[1..]) && Linked(nodes', [used[0]] + free)
            && FullChunks(nodes', used[1..]) && OffsetOk(nodes', used[1..], 0)
            && Suffix(nodes', used[1..], 0, 0) == Suffix(nodes, used, 1, 0)
            && Untouched(nodes, nodes', others)
  {
    var nodes' := nodes[used[0] := Node([], First(free))];
    ReturnShares(|nodes|, used, free, others);
    ReturnLinks(nodes, used, free, others);
    assert forall i | 0 <= i < |used| - 1 :: used[1..][i] == used[i + 1];
    if |used| > 1 {
      assert used[1..][1..] == used[2..];
      forall i | 0 <= i < |used| - 2 ensures nodes'[used[2..][i]].msg == nodes[used[2..][i]].msg {
        assert used[2..][i] == used[1..][i + 1];
      }
      BytesSame(nodes, nodes', used[2..]);
      assert nodes'[used[1..][0]].msg == nodes[used[1]].msg;
    }
  }

  /** The contents start with what is left of the first chunk. */
  lemma FirstChunk(nodes: seq<Node>, used: seq<nat>, offset: nat)
    requires FullChunks(nodes, used) && OffsetOk(nodes, used, offset) && Suffix(nodes, used, 0, offset) != []
    ensures used != [] && First(used) == used[0] && forall i | 0 <= i < |used| :: used[i] < |nodes|
    ensures offset < |nodes[used[0]].msg|
    ensures Suffix(nodes, used, 0, offset) == nodes[used[0]].msg[offset..] + Suffix(nodes, used, 1, 0)
  {
    if |used| > 1 { assert used[1..][1..] == used[2..]; }
  }

  /** Fewer bytes than the first chunk has only move the offset. */
  lemma TakeInside(nodes: seq<Node>, used: seq<nat>, offset: nat, sz: nat)
    requires FullChunks(nodes, used) && OffsetOk(nodes, used, offset)
    requires used != [] && sz < |nodes[used[0]].msg| - offset
    ensures OffsetOk(nodes, used, offset + sz)
    ensures Suffix(nodes, used, 0, offset + sz) == Suffix(nodes, used, 0, offset)[sz..]
  {
  }

  /** The first 'i' nodes of a page of 'count' that starts at 'n'. */
  function PageNodes(n: nat, i: nat, count: nat): (r: seq<Node>)
    ensures |r| == i
  {
    seq(i, k requires 0 <= k < i => Node([], if k + 1 == count then -1 else n + k + 1))
  }

  function PageList(n: nat, count: nat): (r: seq<nat>)
    ensures |r| == count
  {
    seq(count, k requires 0 <= k < count => n + k)
  }

  lemma PageShares(n: nat, used: seq<nat>, others: set<nat>, count: nat)
    requires Shared(n, used, [], others)
    ensures Shared(n + count, used, PageList(n, count), others)
  {
    var free := PageList(n, count);
    assert forall i | 0 <= i < count :: free[i] == n + i;
    forall x: nat | n <= x < n + count ensures x in free {
      assert free[x - n] == x;
    }
  }

  lemma PageLinks(was: seq<Node>, count: nat)
    requires count > 0
    ensures var free := PageList(|was|, count);
            Linked(was + PageNodes(|was|, count, count), free) && First(free) == |was|
  {
    var nodes, free := was + PageNodes(|was|, count, count), PageList(|was|, count);
    forall i | 0 <= i < |free| ensures free[i] < |nodes| && nodes[free[i]].next == After(free, i) {
      assert free[i] == |was| + i && nodes[|was| + i] == PageNodes(|was|, count, count)[i];
    }
  }

  lemma PageKeeps(was: seq<Node>, used: seq<nat>, others: set<nat>, count: nat, offset: nat)
    requires Shared(|was|, used, [], others) && Linked(was, used)
    requires FullChunks(was, used) && OffsetOk(was, used, offset)
    requires count > 0
    ensures var nodes, free := was + PageNodes(|was|, count, count), PageList(|was|, count);
            && Shared(|nodes|, used, free, others) && Linked(nodes, used) && Linked(nodes, free)
            && FullChunks(nodes, used) && OffsetOk(nodes, used, offset)
            && Suffix(nodes, used, 0, offset) == Suffix(was, used, 0, offset) && First(free) == |was|
            && Untouched(was, nodes, others)
  {
    hide PageNodes, PageList;
    var nodes := was + PageNodes(|was|, count, count);
    PageShares(|was|, used, others, count);
    PageLinks(was, count);
    assert forall i | 0 <= i < |used| :: used[i] < |was| && nodes[used[i]] == was[used[i]];
    if used != [] { BytesSame(was, nodes, used[1..]); }
  }

  lemma AppendedIs(nodes: seq<Node>, tail: int, x: nat, msg: seq<Byte>)
    requires x < |nodes| && -1 <= tail < |nodes| && tail != x
    ensures var n := nodes[x := Node(msg, -1)];
            Appended(nodes, tail, x, msg) == if tail < 0 then n else n[tail := n[tail].(next := x)]
  {
  }

  /** What adding a chunk keeps, and what it changes. */
  lemma PushKeeps(nodes: seq<Node>, used: seq<nat>, free: seq<nat>, others: set<nat>, msg: seq<Byte>, offset: nat)
    requires Shared(|nodes|, used, free, others) && free != [] && Linked(nodes, used) && Linked(nodes, free)
    requires FullChunks(nodes, used) && OffsetOk(nodes, used, offset) && msg != []
    ensures free[0] < |nodes| && -1 <= Last(used) < |nodes| && Last(used) != free[0]
    ensures nodes[free[0]].next == First(free[1..])
    ensures var nodes', used' := Appended(nodes, Last(used), free[0], msg), used + [free[0]];
            && Shared(|nodes|, used', free[1..], others) && Linked(nodes', used') && Linked(nodes', free[1..])
            && FullChunks(nodes', used') && OffsetOk(nodes', used', offset)
            && Suffix(nodes', used', 0, offset) == Suffix(nodes, used, 0, offset) + msg
            && Untouched(nodes, nodes', others)
  {
    hide Appended;
    assert free[0] in free && (used != [] ==> Last(used) in used);
    AppendLinks(nodes, used, free, others, msg);
    AppendShares(|nodes|, used, free, others);
    PushedBytes(nodes, Appended(nodes, Last(used), free[0], msg), used, free[0], offset);
  }

  /** A chunk at the end adds its bytes. */
  lemma PushedBytes(a: seq<Node>, b: seq<Node>, list: seq<nat>, x: nat, offset: nat)
    requires FullChunks(a, list) && OffsetOk(a, list, offset) && |a| == |b| && x < |b| && b[x].msg != []
    requires forall i | 0 <= i < |list| :: b[list[i]].msg == a[list[i]].msg
    ensures FullChunks(b, list + [x]) && OffsetOk(b, list + [x], offset)
    ensures Suffix(b, list + [x], 0, offset) == Suffix(a, list, 0, offset) + b[x].msg
  {
    if list == [] {
      assert (list + [x])[1..] == [];
    } else {
      assert (list + [x])[1..] == list[1..] + [x];
      BytesSame(a, b, list[1..]);
      BytesSnoc(b, list[1..], x);
    }
  }
}
