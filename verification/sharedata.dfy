// The read-only table of lua-sharedata.c: a hash filled in two passes, with chains in its own slots.

module SharedData {
  import opened Options

  /** Keys are integers of 'int' range or strings; a value is anything but nil. */
  datatype Key = Int(k: int) | Str(s: seq<nat>)
  datatype Pair = Pair(key: Key, value: nat)

  /** A slot of the hash; 'next' links the slots of one chain, -1 ends it. */
  datatype Node = Node(used: bool, key: Key, value: nat, next: int, keyhash: nat, nocolliding: bool)

  const EMPTY := Node(false, Int(0), 0, -1, 0, false)
  const WORD := 0x1_0000_0000

  /** Integer keys hash to themselves as 32-bit words, strings by any function. */
  function KeyHash(h: seq<nat> -> nat, key: Key): (r: nat)
    ensures r < WORD
  {
    if key.Int? then key.k % WORD else h(key.s) % WORD
  }

  function Main(h: seq<nat> -> nat, key: Key, n: nat): (m: nat)
    requires n > 0
    ensures m < n
  {
    KeyHash(h, key) % n
  }

  predicate InArray(key: Key, sizearray: nat) { key.Int? && 0 < key.k <= sizearray }

  /** The pairs that go to the hash. */
  function HashPairs(pairs: seq<Pair>, sizearray: nat): seq<Pair> {
    if pairs == [] then []
    else
      var p := pairs[|pairs| - 1];
      HashPairs(pairs[..|pairs| - 1], sizearray) + if InArray(p.key, sizearray) then [] else [p]
  }

  predicate Distinct(pairs: seq<Pair>) {
    forall i, j | 0 <= i < j < |pairs| :: pairs[i].key != pairs[j].key
  }

  lemma HashSnoc(pairs: seq<Pair>, k: nat, sizearray: nat)
    requires k < |pairs|
    ensures HashPairs(pairs[..k + 1], sizearray) ==
            HashPairs(pairs[..k], sizearray) + if InArray(pairs[k].key, sizearray) then [] else [pairs[k]]
  {
    assert pairs[..k + 1][..k] == pairs[..k];
  }

  lemma {:induction false} HashMembers(pairs: seq<Pair>, sizearray: nat)
    ensures forall p :: p in HashPairs(pairs, sizearray) <==> p in pairs && !InArray(p.key, sizearray)
    ensures Distinct(pairs) ==> Distinct(HashPairs(pairs, sizearray))
    ensures |HashPairs(pairs, sizearray)| <= |pairs|
  {
    if pairs != [] {
      var n := |pairs| - 1;
      assert pairs == pairs[..n] + [pairs[n]];
      HashMembers(pairs[..n], sizearray);
      if Distinct(pairs) {
        var hp := HashPairs(pairs[..n], sizearray);
        forall i | 0 <= i < |hp| ensures hp[i].key != pairs[n].key {
          assert hp[i] in pairs[..n];
        }
      }
    }
  }

  // ---- Chains ----

  /** The slots of each main slot's chain, from the main slot on. */
  type Chains = seq<seq<nat>>

  /** A slot on the chain of 'm', which has 'size' slots. */
  predicate SlotFits(h: seq<nat> -> nat, x: Node, n: nat, m: nat, next: int, size: nat)
    requires n > 0
  {
    && x.used && Main(h, x.key, n) == m && x.keyhash == KeyHash(h, x.key) && x.next == next
    && (x.nocolliding ==> size == 1)
  }

  /** What follows place 'j' of a chain. */
  function NextOf(c: seq<nat>, j: nat): int { if j + 1 < |c| then c[j + 1] else -1 }

  /** The chain of main slot 'm' runs through 'c' and ends. */
  predicate ChainAt(h: seq<nat> -> nat, nodes: seq<Node>, m: nat, c: seq<nat>)
    requires m < |nodes|
  {
    && (c != [] ==> c[0] == m)
    && (forall j | 0 <= j < |c| ::
          c[j] < |nodes| && SlotFits(h, nodes[c[j]], |nodes|, m, NextOf(c, j), |c|))
    && (forall i, j | 0 <= i < j < |c| :: c[i] != c[j])
  }

  /** Every used slot lies on the chain of its key's main slot; no key is in two slots. */
  predicate Chained(h: seq<nat> -> nat, nodes: seq<Node>, chains: Chains) {
    && |chains| == |nodes|
    && (forall m | 0 <= m < |nodes| :: ChainAt(h, nodes, m, chains[m]))
    && (forall c | 0 <= c < |nodes| && nodes[c].used :: c in chains[Main(h, nodes[c].key, |nodes|)])
    && OneSlotEach(nodes)
  }

  /** No key is in two slots. */
  predicate OneSlotEach(nodes: seq<Node>) {
    forall c, d | 0 <= c < |nodes| && 0 <= d < |nodes| && nodes[c].used && nodes[d].used &&
                  nodes[c].key == nodes[d].key :: c == d
  }

  /** The pair is in the table. */
  predicate Holds(nodes: seq<Node>, p: Pair) {
    exists c :: 0 <= c < |nodes| && nodes[c].used && nodes[c].key == p.key && nodes[c].value == p.value
  }

  /** The table holds nothing but these pairs. */
  predicate OnlyHolds(nodes: seq<Node>, pairs: seq<Pair>) {
    forall c | 0 <= c < |nodes| && nodes[c].used :: Pair(nodes[c].key, nodes[c].value) in pairs
  }

  // ---- Counting ----

  function Elems<T(==)>(s: seq<T>): set<T> { set x | x in s }

  lemma {:induction false} ElemsCount<T>(s: seq<T>)
    requires forall i, j | 0 <= i < j < |s| :: s[i] != s[j]
    ensures |Elems(s)| == |s|
  {
    if s != [] {
      var n := |s| - 1;
      ElemsCount(s[..n]);
      assert Elems(s) == Elems(s[..n]) + {s[n]};
    }
  }

  lemma SubsetCount<T>(a: set<T>, b: set<T>)
    requires a <= b
    ensures |a| <= |b| && (|a| == |b| ==> a == b)
  {
    assert b == a + (b - a);
  }

  function KeysOf(pairs: seq<Pair>): (r: seq<Key>)
    ensures |r| == |pairs|
    ensures forall i | 0 <= i < |pairs| :: r[i] == pairs[i].key
  {
    seq(|pairs|, i requires 0 <= i < |pairs| => pairs[i].key)
  }

  lemma InKeys(pairs: seq<Pair>, p: Pair)
    requires p in pairs
    ensures p.key in Elems(KeysOf(pairs))
  {
    var i :| 0 <= i < |pairs| && pairs[i] == p;
    assert KeysOf(pairs)[i] == p.key;
  }

  function NodeKeys(nodes: seq<Node>): (r: seq<Key>)
    ensures |r| == |nodes|
    ensures forall i | 0 <= i < |nodes| :: r[i] == nodes[i].key
  {
    seq(|nodes|, i requires 0 <= i < |nodes| => nodes[i].key)
  }

  /** A key that is not yet in a table of the right size finds a free slot. */
  lemma FreeSlot(nodes: seq<Node>, pairs: seq<Pair>, p: Pair)
    requires OneSlotEach(nodes) && Distinct(pairs) && |pairs| == |nodes| && p in pairs
    requires OnlyHolds(nodes, pairs)
    requires forall c | 0 <= c < |nodes| && nodes[c].used :: nodes[c].key != p.key
    ensures exists c :: 0 <= c < |nodes| && !nodes[c].used
  {
    hide KeysOf, NodeKeys;
    if forall c | 0 <= c < |nodes| :: nodes[c].used {
      ElemsCount(NodeKeys(nodes));
      ElemsCount(KeysOf(pairs));
      forall k | k in NodeKeys(nodes) ensures k in Elems(KeysOf(pairs)) - {p.key} {
        var c :| 0 <= c < |nodes| && nodes[c].key == k;
        InKeys(pairs, Pair(nodes[c].key, nodes[c].value));
      }
      InKeys(pairs, p);
      SubsetCount(Elems(NodeKeys(nodes)), Elems(KeysOf(pairs)) - {p.key});
      assert false;
    }
  }

  /** As many slots as pairs: a table that holds them all is full. */
  lemma AllUsed(nodes: seq<Node>, pairs: seq<Pair>)
    requires Distinct(pairs) && |pairs| == |nodes|
    requires forall p | p in pairs :: Holds(nodes, p)
    ensures forall c | 0 <= c < |nodes| :: nodes[c].used
  {
    var slots: seq<nat> := [];
    while |slots| < |pairs|
      invariant |slots| <= |pairs|
      invariant forall i | 0 <= i < |slots| ::
                  slots[i] < |nodes| && nodes[slots[i]].used && nodes[slots[i]].key == pairs[i].key
      decreases |pairs| - |slots|
    {
      var p := pairs[|slots|];
      assert Holds(nodes, p);
      var c: nat :| c < |nodes| && nodes[c].used && nodes[c].key == p.key && nodes[c].value == p.value;
      slots := slots + [c];
    }
    ElemsCount(slots);
    SubsetCount(Elems(slots), Below(|nodes|));
    forall c: nat | c < |nodes| ensures nodes[c].used {
      assert c in Below(|nodes|);
      var i :| 0 <= i < |slots| && slots[i] == c;
    }
  }

  /** The numbers below 'n'. */
  function Below(n: nat): (r: set<nat>)
    ensures forall x: nat :: x in r <==> x < n
    ensures |r| == n
  {
    if n == 0 then {} else Below(n - 1) + {n - 1}
  }

  // ---- Linking ----

  function NewNode(h: seq<nat> -> nat, p: Pair, next: int): Node {
    Node(true, p.key, p.value, next, KeyHash(h, p.key), false)
  }

  /** A free slot 'n' linked in behind main slot 'm'. */
  function Linked(h: seq<nat> -> nat, nodes: seq<Node>, m: nat, n: nat, p: Pair): (r: seq<Node>)
    requires m < |nodes| && n < |nodes| && m != n
    ensures |r| == |nodes|
  {
    nodes[n := NewNode(h, p, nodes[m].next)][m := nodes[m].(next := n, nocolliding := false)]
  }

  /** The chain that gets the slot. */
  lemma LinkMain(h: seq<nat> -> nat, nodes: seq<Node>, c: seq<nat>, m: nat, n: nat, p: Pair)
    requires m < |nodes| && n < |nodes| && nodes[m].used && !nodes[n].used && c != []
    requires ChainAt(h, nodes, m, c) && Main(h, p.key, |nodes|) == m
    ensures ChainAt(h, Linked(h, nodes, m, n, p), m, [m, n] + c[1..])
  {
    hide Main, KeyHash;
    var nodes', c' := Linked(h, nodes, m, n, p), [m, n] + c[1..];
    assert c[0] == m;
    forall j | 2 <= j < |c'|
      ensures c'[j] == c[j - 1] && c'[j] < |nodes| && c'[j] != m && c'[j] != n && nodes'[c'[j]] == nodes[c[j - 1]]
    {
      assert c'[j] == c[j - 1] && nodes[c[j - 1]].used && c[0] != c[j - 1];
    }
  }

  /** Chains of other main slots do not meet it. */
  lemma LinkOther(h: seq<nat> -> nat, nodes: seq<Node>, x: nat, c: seq<nat>, m: nat, n: nat, p: Pair)
    requires m < |nodes| && n < |nodes| && nodes[m].used && !nodes[n].used && x < |nodes|
    requires ChainAt(h, nodes, x, c) && m !in c
    ensures ChainAt(h, Linked(h, nodes, m, n, p), x, c)
  {
    hide Main, KeyHash;
    var nodes' := Linked(h, nodes, m, n, p);
    forall j | 0 <= j < |c| ensures c[j] < |nodes| && nodes'[c[j]] == nodes[c[j]] {
      assert c[j] != m && nodes[c[j]].used;
    }
  }

  lemma LinkChains(h: seq<nat> -> nat, nodes: seq<Node>, chains: Chains, m: nat, n: nat, p: Pair)
    requires Chained(h, nodes, chains) && m < |nodes| && n < |nodes|
    requires nodes[m].used && !nodes[n].used && chains[m] != [] && Main(h, p.key, |nodes|) == m
    requires forall c | 0 <= c < |nodes| && nodes[c].used :: nodes[c].key != p.key
    ensures Chained(h, Linked(h, nodes, m, n, p), chains[m := [m, n] + chains[m][1..]])
  {
    hide Main, KeyHash, ChainAt;
    var nodes', c' := Linked(h, nodes, m, n, p), [m, n] + chains[m][1..];
    var chains' := chains[m := c'];
    forall x: nat | x < |nodes| ensures ChainAt(h, nodes', x, chains'[x]) {
      if x == m {
        LinkMain(h, nodes, chains[m], m, n, p);
      } else {
        OnOwnChain(h, nodes, m, chains[m]);
        if m in chains[x] { OnOwnChain(h, nodes, x, chains[x]); }
        LinkOther(h, nodes, x, chains[x], m, n, p);
      }
    }
    OnOwnChain(h, nodes, m, chains[m]);
    forall c: nat | c < |nodes| && nodes'[c].used ensures c in chains'[Main(h, nodes'[c].key, |nodes|)] {
      if c == n {
        assert c'[1] == n;
      } else {
        assert c in chains[Main(h, nodes[c].key, |nodes|)];
        if Main(h, nodes[c].key, |nodes|) == m {
          var j :| 0 <= j < |chains[m]| && chains[m][j] == c;
          assert c'[if j == 0 then 0 else j + 1] == c;
        }
      }
    }
  }

  lemma OnOwnChain(h: seq<nat> -> nat, nodes: seq<Node>, m: nat, c: seq<nat>)
    requires m < |nodes| && ChainAt(h, nodes, m, c)
    ensures c != [] ==> c[0] == m
    ensures forall x | x in c :: x < |nodes| && nodes[x].used && Main(h, nodes[x].key, |nodes|) == m
  {
    hide Main, KeyHash;
  }

  // ---- After the first pass ----

  /** Each used slot is the main slot of its key and a chain of its own. */
  predicate Plain(h: seq<nat> -> nat, nodes: seq<Node>) {
    forall c | 0 <= c < |nodes| && nodes[c].used ::
      && Main(h, nodes[c].key, |nodes|) == c && nodes[c].keyhash == KeyHash(h, nodes[c].key)
      && nodes[c].next == -1 && nodes[c].nocolliding
  }

  function OwnChains(nodes: seq<Node>): (r: Chains)
    ensures |r| == |nodes|
    ensures forall c | 0 <= c < |nodes| :: r[c] == if nodes[c].used then [c] else []
  {
    seq(|nodes|, c requires 0 <= c < |nodes| => if nodes[c].used then [c] else [])
  }

  lemma PlainChained(h: seq<nat> -> nat, nodes: seq<Node>)
    requires Plain(h, nodes)
    ensures Chained(h, nodes, OwnChains(nodes))
  {
    hide Main, KeyHash;
  }

  /** The main slots of these pairs' keys are in use. */
  predicate MainsUsed(h: seq<nat> -> nat, nodes: seq<Node>, pairs: seq<Pair>)
    requires pairs != [] ==> nodes != []
  {
    forall p | p in pairs :: nodes[Main(h, p.key, |nodes|)].used
  }

  /** Of the pairs from 'k' on, only those in their main slots are in the table. */
  predicate LaterInMain(h: seq<nat> -> nat, nodes: seq<Node>, pairs: seq<Pair>, k: nat, sizearray: nat) {
    forall j, c | k <= j < |pairs| && !InArray(pairs[j].key, sizearray) &&
                  0 <= c < |nodes| && nodes[c].used && nodes[c].key == pairs[j].key ::
      c == Main(h, pairs[j].key, |nodes|)
  }

  /** Pairs in the array part are where their keys say. */
  predicate ArrayHolds(arr: seq<Option<nat>>, pairs: seq<Pair>) {
    && (forall p | p in pairs && InArray(p.key, |arr|) :: arr[p.key.k - 1] == Some(p.value))
    && (forall i | 0 <= i < |arr| && arr[i].Some? :: Pair(Int(i + 1), arr[i].value) in pairs)
  }

  /** A table: every pair is in its part, the hash is full and chained, and there is nothing else. */
  ghost predicate IsTable(h: seq<nat> -> nat, arr: seq<Option<nat>>, nodes: seq<Node>, chains: Chains,
                          pairs: seq<Pair>) {
    var hp := HashPairs(pairs, |arr|);
    && Distinct(pairs) && |nodes| == |hp|
    && ArrayHolds(arr, pairs) && Chained(h, nodes, chains)
    && OnlyHolds(nodes, hp) && (forall p | p in hp :: Holds(nodes, p))
  }

  class Table {
    const h: seq<nat> -> nat
    const arr: array<Option<nat>>
    const hash: array<Node>
    ghost var chains: Chains
    ghost const pairs: seq<Pair>

    ghost predicate Valid()
      reads this, arr, hash
    {
      IsTable(h, arr[..], hash[..], chains, pairs)
    }

    /** 'convtable': counts, and fills the table in two passes over the pairs. */
    constructor (f: seq<nat> -> nat, all: seq<Pair>, sizearray: nat)
      requires Distinct(all)
      ensures Valid() && h == f && pairs == all && arr.Length == sizearray
    {
      var sizehash := CountSize(all, sizearray);
      h, pairs := f, all;
      arr := new Option<nat>[sizearray](_ => None);
      hash := new Node[sizehash](_ => EMPTY);
      chains := [];
      new;
      FillNoColliding(f, arr, hash, all);
      chains := FillColliding(f, hash, all, sizearray);
      HashMembers(all, sizearray);
    }

    /** The slot of a key, or -1: 'lookup_key'. */
    method LookupKey(keyhash: nat, key: Key) returns (i: int)
      requires Valid() && keyhash == KeyHash(h, key)
      ensures -1 <= i < hash.Length
      ensures i >= 0 ==> hash[i].key == key
      ensures i < 0 ==> forall c | 0 <= c < hash.Length :: hash[c].key != key
    {
      hide *;
      if hash.Length == 0 { return -1; }
      MainIs(h, key, hash.Length);
      var n := keyhash % hash.Length;
      ghost var c, j := StartAt(key);
      WalkOn(h, hash[..], c, j, key);
      if keyhash != hash[n].keyhash && hash[n].nocolliding { return -1; }
      while true
        invariant j < |c| && n == c[j] < hash.Length && Linear(h, hash[..], c)
        invariant AllFrom(hash[..], c, j, key)
        decreases |c| - j
      {
        WalkOn(h, hash[..], c, j, key);
        if keyhash == hash[n].keyhash && hash[n].key == key { return n; }
        if hash[n].next < 0 { return -1; }
        n := hash[n].next;
        j := j + 1;
      }
    }

    lemma StartAt(key: Key) returns (c: seq<nat>, j: nat)
      requires Valid() && hash.Length > 0
      ensures j < |c| && c[j] == Main(h, key, hash.Length) && Linear(h, hash[..], c) && AllFrom(hash[..], c, j, key)
    {
      hide IsTable, Main, Linear, AllFrom;
      c, j := StartOf(h, arr[..], hash[..], chains, pairs, key);
    }

    /** What indexing finds: 'lindexconf'. */
    method Index(key: Key) returns (v: Option<nat>)
      requires Valid()
      ensures v.Some? ==> Pair(key, v.value) in pairs
      ensures v.None? ==> forall p | p in pairs :: p.key != key
    {
      hide KeyHash, Chained;
      TableParts(h, arr[..], hash[..], chains, pairs);
      HashMembers(pairs, arr.Length);
      if InArray(key, arr.Length) {
        v := arr[key.k - 1];
      } else {
        var i := LookupKey(KeyHash(h, key), key);
        v := if i >= 0 then Some(hash[i].value) else None;
      }
    }

    method FirstHash() returns (r: Option<Key>)
      ensures r == if hash.Length == 0 then None else Some(hash[0].key)
    {
      r := if hash.Length > 0 then Some(hash[0].key) else None;
    }

    /** The next array key from index 'from' on, or else the first hash key. */
    method ArrayNext(from: nat) returns (r: Option<Key>)
      requires from <= arr.Length
      ensures var rest := ArrayKeys(arr[..], from) + NodeKeys(hash[..]);
              r == if rest == [] then None else Some(rest[0])
    {
      var i := from;
      while i < arr.Length
        invariant from <= i <= arr.Length && ArrayKeys(arr[..], from) == ArrayKeys(arr[..], i)
      {
        if arr[i].Some? { return Some(Int(i + 1)); }
        i := i + 1;
      }
      r := FirstHash();
    }

    /** The key after a key: 'lnextkey'. Started without one it visits the keys in this order. */
    method NextKey(key: Option<Key>) returns (r: Option<Key>)
      requires Valid()
      ensures var order := KeyOrder(arr[..], hash[..]);
              if key.None? then r == FirstOf(order)
              else forall i | 0 <= i < |order| && order[i] == key.value :: r == FirstOf(order[i + 1..])
    {
      hide KeyHash, IsTable, ArrayKeys, NodeKeys;
      TableParts(h, arr[..], hash[..], chains, pairs);
      if key.None? {
        r := ArrayNext(0);
        return;
      }
      HashKeysOutside(arr[..], hash[..], pairs);
      if InArray(key.value, arr.Length) {
        r := ArrayNext(key.value.k);
        AfterArrayKey(arr[..], hash[..], key.value.k);
      } else {
        var n := LookupKey(KeyHash(h, key.value), key.value);
        r := if n < 0 || n + 1 == hash.Length then None else Some(hash[n + 1].key);
        if n >= 0 {
          AfterHashKey(arr[..], hash[..], n);
          assert NodeKeys(hash[..])[n + 1..] != [] ==> NodeKeys(hash[..])[n + 1..][0] == hash[n + 1].key;
        } else {
          NotVisited(arr[..], hash[..], key.value);
        }
      }
    }
  }

  function FirstOf(keys: seq<Key>): Option<Key> { if keys == [] then None else Some(keys[0]) }

  /** The array keys that have a value, from index 'from' on. */
  function ArrayKeys(arr: seq<Option<nat>>, from: nat): seq<Key>
    requires from <= |arr|
    decreases |arr| - from
  {
    if from == |arr| then []
    else (if arr[from].Some? then [Int(from + 1)] else []) + ArrayKeys(arr, from + 1)
  }

  /** All keys as they are visited: the array, then the slots of the hash. */
  function KeyOrder(arr: seq<Option<nat>>, nodes: seq<Node>): seq<Key> { ArrayKeys(arr, 0) + NodeKeys(nodes) }

  lemma {:induction false} ArrayKeysIn(arr: seq<Option<nat>>, from: nat)
    requires from <= |arr|
    ensures forall k :: k in ArrayKeys(arr, from) <==> k.Int? && from < k.k <= |arr| && arr[k.k - 1].Some?
    ensures forall i, j | 0 <= i < j < |ArrayKeys(arr, from)| :: ArrayKeys(arr, from)[i] != ArrayKeys(arr, from)[j]
    decreases |arr| - from
  {
    if from < |arr| { ArrayKeysIn(arr, from + 1); }
  }

  /** What comes before index 'from' and what after. */
  lemma {:induction false} ArrayKeysSplit(arr: seq<Option<nat>>, from: nat, at: nat) returns (before: seq<Key>)
    requires from <= at <= |arr|
    ensures ArrayKeys(arr, from) == before + ArrayKeys(arr, at)
    ensures forall k | k in before :: k.Int? && from < k.k <= at
    ensures at > from && arr[at - 1].Some? ==> before != [] && before[|before| - 1] == Int(at)
    decreases at - from
  {
    if at == from {
      before := [];
    } else {
      before := ArrayKeysSplit(arr, from, at - 1);
      var last := if arr[at - 1].Some? then [Int(at)] else [];
      assert before + (last + ArrayKeys(arr, at)) == (before + last) + ArrayKeys(arr, at);
      before := before + last;
    }
  }

  lemma AfterArrayKey(arr: seq<Option<nat>>, nodes: seq<Node>, at: nat)
    requires 0 < at <= |arr| && OneSlotEach(nodes)
    requires forall c | 0 <= c < |nodes| :: nodes[c].used && !InArray(nodes[c].key, |arr|)
    ensures var order := KeyOrder(arr, nodes);
            forall i | 0 <= i < |order| && order[i] == Int(at) :: order[i + 1..] == ArrayKeys(arr, at) + NodeKeys(nodes)
  {
    var order := KeyOrder(arr, nodes);
    var before := ArrayKeysSplit(arr, 0, at);
    ArrayKeysIn(arr, 0);
    forall i | 0 <= i < |order| && order[i] == Int(at)
      ensures order[i + 1..] == ArrayKeys(arr, at) + NodeKeys(nodes)
    {
      assert Int(at) !in NodeKeys(nodes);
      assert i < |ArrayKeys(arr, 0)| && Int(at) in ArrayKeys(arr, 0);
      assert ArrayKeys(arr, 0)[|before| - 1] == Int(at);
      assert i == |before| - 1;
    }
  }

  lemma AfterHashKey(arr: seq<Option<nat>>, nodes: seq<Node>, n: nat)
    requires n < |nodes| && OneSlotEach(nodes)
    requires forall c | 0 <= c < |nodes| :: nodes[c].used && !InArray(nodes[c].key, |arr|)
    ensures var order := KeyOrder(arr, nodes);
            forall i | 0 <= i < |order| && order[i] == nodes[n].key :: order[i + 1..] == NodeKeys(nodes)[n + 1..]
  {
    var order := KeyOrder(arr, nodes);
    ArrayKeysIn(arr, 0);
    var a := |ArrayKeys(arr, 0)|;
    forall i | 0 <= i < |order| && order[i] == nodes[n].key
      ensures order[i + 1..] == NodeKeys(nodes)[n + 1..]
    {
      assert nodes[n].key !in ArrayKeys(arr, 0);
      assert nodes[i - a].key == nodes[n].key;
    }
  }

  lemma NotVisited(arr: seq<Option<nat>>, nodes: seq<Node>, key: Key)
    requires !InArray(key, |arr|) && forall c | 0 <= c < |nodes| :: nodes[c].key != key
    ensures forall i | 0 <= i < |KeyOrder(arr, nodes)| :: KeyOrder(arr, nodes)[i] != key
  {
    ArrayKeysIn(arr, 0);
    forall i | 0 <= i < |KeyOrder(arr, nodes)| ensures KeyOrder(arr, nodes)[i] != key {
      if i < |ArrayKeys(arr, 0)| { assert KeyOrder(arr, nodes)[i] in ArrayKeys(arr, 0); }
    }
  }

  /** The visited keys are exactly the keys of the source table, each once. */
  lemma VisitsAll(h: seq<nat> -> nat, arr: seq<Option<nat>>, nodes: seq<Node>, chains: Chains, pairs: seq<Pair>)
    requires IsTable(h, arr, nodes, chains, pairs)
    ensures var order := KeyOrder(arr, nodes);
            && (forall i, j | 0 <= i < j < |order| :: order[i] != order[j])
            && (forall p | p in pairs :: p.key in order)
            && (forall k | k in order :: exists p :: p in pairs && p.key == k)
  {
    hide IsTable, Distinct, HashPairs, ArrayKeys, OnlyHolds;
    TableParts(h, arr, nodes, chains, pairs);
    ArrayKeysIn(arr, 0);
    HashMembers(pairs, |arr|);
    HashKeysOutside(arr, nodes, pairs);
    var order, a := KeyOrder(arr, nodes), |ArrayKeys(arr, 0)|;
    forall i, j | 0 <= i < j < |order| ensures order[i] != order[j] {
      if i < a <= j {
        assert order[i] in ArrayKeys(arr, 0);
      }
    }
    forall p | p in pairs ensures p.key in order {
      if !InArray(p.key, |arr|) {
        assert Holds(nodes, p);
        var c :| 0 <= c < |nodes| && nodes[c].used && nodes[c].key == p.key && nodes[c].value == p.value;
        assert order[a + c] == p.key;
      } else {
        assert p.key in ArrayKeys(arr, 0);
      }
    }
    forall k | k in order ensures exists p :: p in pairs && p.key == k {
      var i :| 0 <= i < |order| && order[i] == k;
      if i < a {
        assert k in ArrayKeys(arr, 0);
        assert Pair(Int(k.k), arr[k.k - 1].value) in pairs;
      } else {
        assert Pair(nodes[i - a].key, nodes[i - a].value) in pairs;
      }
    }
  }

  lemma HashKeysOutside(arr: seq<Option<nat>>, nodes: seq<Node>, pairs: seq<Pair>)
    requires OnlyHolds(nodes, HashPairs(pairs, |arr|)) && forall c | 0 <= c < |nodes| :: nodes[c].used
    ensures forall c | 0 <= c < |nodes| :: !InArray(nodes[c].key, |arr|) && Pair(nodes[c].key, nodes[c].value) in pairs
  {
    HashMembers(pairs, |arr|);
  }

  /** The slots of 'c' follow each other and end. */
  predicate Linear(h: seq<nat> -> nat, nodes: seq<Node>, c: seq<nat>) {
    forall j | 0 <= j < |c| ::
      && c[j] < |nodes| && nodes[c[j]].next == NextOf(c, j) && nodes[c[j]].keyhash == KeyHash(h, nodes[c[j]].key)
      && (nodes[c[j]].nocolliding ==> |c| == 1)
  }

  /** Every slot with the key lies on the chain at 'j' or after. */
  predicate AllFrom(nodes: seq<Node>, c: seq<nat>, j: nat, key: Key)
    requires j <= |c|
  {
    forall x: nat | x < |nodes| && nodes[x].key == key :: OnFrom(c, j, x)
  }

  predicate OnFrom(c: seq<nat>, j: nat, x: nat) { exists i :: j <= i < |c| && c[i] == x }

  lemma MainIs(h: seq<nat> -> nat, key: Key, n: nat)
    requires n > 0
    ensures Main(h, key, n) == KeyHash(h, key) % n
  {
  }

  /** What a walk along a chain may conclude at place 'j'. */
  lemma WalkOn(h: seq<nat> -> nat, nodes: seq<Node>, c: seq<nat>, j: nat, key: Key)
    requires j < |c| && Linear(h, nodes, c) && AllFrom(nodes, c, j, key)
    ensures c[j] < |nodes|
    ensures var x := nodes[c[j]];
            && (x.key == key ==> x.keyhash == KeyHash(h, key))
            && (x.key != key && (x.next < 0 || x.nocolliding) ==> forall y | 0 <= y < |nodes| :: nodes[y].key != key)
            && (x.next >= 0 ==> j + 1 < |c| && x.next == c[j + 1] < |nodes|)
            && (x.next >= 0 && x.key != key ==> AllFrom(nodes, c, j + 1, key))
  {
    hide KeyHash;
    forall y: nat | y < |nodes| && nodes[y].key == key && nodes[c[j]].key != key ensures OnFrom(c, j + 1, y) {
      assert OnFrom(c, j, y);
      var i :| j <= i < |c| && c[i] == y;
      assert i != j;
    }
  }

  lemma TableParts(h: seq<nat> -> nat, arr: seq<Option<nat>>, nodes: seq<Node>, chains: Chains, pairs: seq<Pair>)
    requires IsTable(h, arr, nodes, chains, pairs)
    ensures Distinct(pairs) && ArrayHolds(arr, pairs) && OnlyHolds(nodes, HashPairs(pairs, |arr|))
    ensures forall p | p in HashPairs(pairs, |arr|) :: Holds(nodes, p)
    ensures forall c | 0 <= c < |nodes| :: nodes[c].used
    ensures OneSlotEach(nodes) && |nodes| == |HashPairs(pairs, |arr|)|
  {
    HashMembers(pairs, |arr|);
    AllUsed(nodes, HashPairs(pairs, |arr|));
  }

  /** From the main slot of any key on, the chain there passes every slot that holds the key. */
  lemma StartOf(h: seq<nat> -> nat, arr: seq<Option<nat>>, nodes: seq<Node>, chains: Chains, pairs: seq<Pair>, key: Key)
    returns (c: seq<nat>, j: nat)
    requires IsTable(h, arr, nodes, chains, pairs) && nodes != []
    ensures j < |c| && c[j] == Main(h, key, |nodes|) && Linear(h, nodes, c) && AllFrom(nodes, c, j, key)
  {
    hide Main, KeyHash;
    TableParts(h, arr, nodes, chains, pairs);
    var n := Main(h, key, |nodes|);
    var m := Main(h, nodes[n].key, |nodes|);
    c := chains[m];
    assert ChainAt(h, nodes, m, c) && ChainAt(h, nodes, n, chains[n]);
    j :| 0 <= j < |c| && c[j] == n;
    forall x: nat | x < |nodes| && nodes[x].key == key ensures OnFrom(c, j, x) {
      assert x in chains[n];
      assert chains[n][0] == n && Main(h, nodes[chains[n][0]].key, |nodes|) == n;
      assert j == 0;
      var i :| 0 <= i < |c| && c[i] == x;
    }
  }

  /** How many pairs go to the hash. */
  method CountSize(pairs: seq<Pair>, sizearray: nat) returns (n: nat)
    ensures n == |HashPairs(pairs, sizearray)|
  {
    n := 0;
    var k := 0;
    while k < |pairs|
      invariant k <= |pairs| && n == |HashPairs(pairs[..k], sizearray)|
    {
      HashSnoc(pairs, k, sizearray);
      if !InArray(pairs[k].key, sizearray) { n := n + 1; }
      k := k + 1;
    }
    assert pairs[..k] == pairs;
  }

  lemma ArrayPut(arr: seq<Option<nat>>, pairs: seq<Pair>, k: nat)
    requires k < |pairs| && Distinct(pairs) && ArrayHolds(arr, pairs[..k]) && InArray(pairs[k].key, |arr|)
    ensures ArrayHolds(arr[pairs[k].key.k - 1 := Some(pairs[k].value)], pairs[..k + 1])
  {
    var i := pairs[k].key.k - 1;
    var arr' := arr[i := Some(pairs[k].value)];
    forall p | p in pairs[..k + 1] && InArray(p.key, |arr|) ensures arr'[p.key.k - 1] == Some(p.value) {
      if p != pairs[k] {
        var x :| 0 <= x < k && pairs[x] == p;
        assert p in pairs[..k] && p.key != pairs[k].key;
      }
    }
    forall x | 0 <= x < |arr| && arr'[x].Some? ensures Pair(Int(x + 1), arr'[x].value) in pairs[..k + 1] {
      if x != i {
        assert Pair(Int(x + 1), arr[x].value) in pairs[..k];
      } else {
        assert pairs[k] in pairs[..k + 1];
      }
    }
  }

  lemma ArraySkip(arr: seq<Option<nat>>, pairs: seq<Pair>, k: nat)
    requires k < |pairs| && ArrayHolds(arr, pairs[..k]) && !InArray(pairs[k].key, |arr|)
    ensures ArrayHolds(arr, pairs[..k + 1])
  {
    assert pairs[..k + 1] == pairs[..k] + [pairs[k]];
  }

  /** A pair in its free main slot, or left for the second pass. */
  lemma MainPut(h: seq<nat> -> nat, nodes: seq<Node>, hp: seq<Pair>, p: Pair)
    requires nodes != [] && Plain(h, nodes) && OnlyHolds(nodes, hp) && MainsUsed(h, nodes, hp)
    ensures var m := Main(h, p.key, |nodes|);
            var nodes' := if nodes[m].used then nodes
                          else nodes[m := Node(true, p.key, p.value, -1, KeyHash(h, p.key), true)];
            Plain(h, nodes') && OnlyHolds(nodes', hp + [p]) && MainsUsed(h, nodes', hp + [p])
  {
    hide Main, KeyHash;
  }

  lemma ArrayRange(key: Key, sizearray: nat)
    requires InArray(key, sizearray)
    ensures key.Int? && 0 < key.k <= sizearray
  {
  }

  lemma StartPlain(h: seq<nat> -> nat, arr: seq<Option<nat>>, nodes: seq<Node>, sizearray: nat)
    requires forall i | 0 <= i < |arr| :: arr[i] == None
    requires forall c | 0 <= c < |nodes| :: nodes[c] == EMPTY
    ensures ArrayHolds(arr, []) && Plain(h, nodes) && OnlyHolds(nodes, []) && MainsUsed(h, nodes, [])
    ensures HashPairs([], sizearray) == []
  {
  }

  /** The first pass: array values, and the first key of each main slot. */
  method FillNoColliding(h: seq<nat> -> nat, arr: array<Option<nat>>, hash: array<Node>, pairs: seq<Pair>)
    requires Distinct(pairs) && hash.Length == |HashPairs(pairs, arr.Length)|
    requires forall i | 0 <= i < arr.Length :: arr[i] == None
    requires forall c | 0 <= c < hash.Length :: hash[c] == EMPTY
    modifies arr, hash
    ensures ArrayHolds(arr[..], pairs) && Plain(h, hash[..])
    ensures OnlyHolds(hash[..], HashPairs(pairs, arr.Length))
    ensures MainsUsed(h, hash[..], HashPairs(pairs, arr.Length))
  {
    hide *;
    StartPlain(h, arr[..], hash[..], arr.Length);
    var k := 0;
    while k < |pairs|
      invariant k <= |pairs|
      invariant ArrayHolds(arr[..], pairs[..k]) && Plain(h, hash[..])
      invariant OnlyHolds(hash[..], HashPairs(pairs[..k], arr.Length))
      invariant HashPairs(pairs[..k], arr.Length) != [] ==> hash.Length > 0
      invariant MainsUsed(h, hash[..], HashPairs(pairs[..k], arr.Length))
    {
      var p := pairs[k];
      HashSnoc(pairs, k, arr.Length);
      if InArray(p.key, arr.Length) {
        ArrayRange(p.key, arr.Length);
        ArrayPut(arr[..], pairs, k);
        ghost var was := arr[..];
        arr[p.key.k - 1] := Some(p.value);
        assert arr[..] == was[p.key.k - 1 := Some(p.value)];
        assert HashPairs(pairs[..k + 1], arr.Length) == HashPairs(pairs[..k], arr.Length);
      } else {
        ArraySkip(arr[..], pairs, k);
        SomeHash(pairs, k, arr.Length);
        MainPut(h, hash[..], HashPairs(pairs[..k], arr.Length), p);
        var m := Main(h, p.key, hash.Length);
        if !hash[m].used {
          ghost var was := hash[..];
          hash[m] := Node(true, p.key, p.value, -1, KeyHash(h, p.key), true);
          assert hash[..] == was[m := Node(true, p.key, p.value, -1, KeyHash(h, p.key), true)];
        }
      }
      k := k + 1;
    }
    assert pairs[..k] == pairs;
  }

  lemma SomeHash(pairs: seq<Pair>, k: nat, sizearray: nat)
    requires k < |pairs| && !InArray(pairs[k].key, sizearray)
    ensures |HashPairs(pairs, sizearray)| > 0
  {
    HashMembers(pairs, sizearray);
    assert pairs[k] in HashPairs(pairs, sizearray);
  }

  // ---- The second pass ----

  /** The chains of these pairs' main slots start there. */
  predicate Started(h: seq<nat> -> nat, nodes: seq<Node>, chains: Chains, pairs: seq<Pair>)
    requires |chains| == |nodes| && (pairs != [] ==> nodes != [])
  {
    forall p | p in pairs :: chains[Main(h, p.key, |nodes|)] != []
  }

  /** What the second pass keeps after 'k' pairs. */
  ghost predicate Filling(h: seq<nat> -> nat, nodes: seq<Node>, chains: Chains, pairs: seq<Pair>, k: nat,
                          sizearray: nat)
    requires k <= |pairs|
  {
    var hp := HashPairs(pairs, sizearray);
    && |nodes| == |hp| && |chains| == |nodes| && Chained(h, nodes, chains) && OnlyHolds(nodes, hp)
    && MainsUsed(h, nodes, hp) && Started(h, nodes, chains, hp)
    && (forall p | p in HashPairs(pairs[..k], sizearray) :: Holds(nodes, p))
    && LaterInMain(h, nodes, pairs, k, sizearray)
  }

  lemma StartFilling(h: seq<nat> -> nat, nodes: seq<Node>, pairs: seq<Pair>, sizearray: nat)
    requires |nodes| == |HashPairs(pairs, sizearray)| && Plain(h, nodes)
    requires OnlyHolds(nodes, HashPairs(pairs, sizearray)) && MainsUsed(h, nodes, HashPairs(pairs, sizearray))
    ensures Filling(h, nodes, OwnChains(nodes), pairs, 0, sizearray)
  {
    hide Main, KeyHash;
    PlainChained(h, nodes);
  }

  /** The pair at 'k' is already in its main slot, or belongs to the array. */
  lemma AlreadyFilled(h: seq<nat> -> nat, nodes: seq<Node>, chains: Chains, pairs: seq<Pair>, k: nat, sizearray: nat)
    requires k < |pairs| && Distinct(pairs) && Filling(h, nodes, chains, pairs, k, sizearray)
    requires !InArray(pairs[k].key, sizearray) ==>
               nodes != [] && var m := Main(h, pairs[k].key, |nodes|); nodes[m].used && nodes[m].key == pairs[k].key
    ensures Filling(h, nodes, chains, pairs, k + 1, sizearray)
  {
    hide Main, KeyHash, ChainAt, Chained, MainsUsed;
    HashSnoc(pairs, k, sizearray);
    HashMembers(pairs, sizearray);
    if !InArray(pairs[k].key, sizearray) {
      var x := nodes[Main(h, pairs[k].key, |nodes|)];
      var q := Pair(x.key, x.value);
      assert q in HashPairs(pairs, sizearray);
      assert q in pairs && pairs[k] in pairs;
      assert Holds(nodes, pairs[k]);
    }
  }

  /** What linking changes: the free slot gets the pair, all keys and values stay. */
  lemma LinkedAt(h: seq<nat> -> nat, nodes: seq<Node>, m: nat, n: nat, p: Pair)
    requires m < |nodes| && n < |nodes| && m != n
    ensures var nodes' := Linked(h, nodes, m, n, p);
            && nodes'[n].used && nodes'[n].key == p.key && nodes'[n].value == p.value
            && (forall c | 0 <= c < |nodes| && c != n ::
                  nodes'[c].used == nodes[c].used && nodes'[c].key == nodes[c].key && nodes'[c].value == nodes[c].value)
  {
  }

  lemma LinkedHolds(h: seq<nat> -> nat, nodes: seq<Node>, m: nat, n: nat, p: Pair, hp: seq<Pair>)
    requires m < |nodes| && n < |nodes| && m != n && !nodes[n].used && OnlyHolds(nodes, hp) && p in hp
    ensures var nodes' := Linked(h, nodes, m, n, p);
            OnlyHolds(nodes', hp) && Holds(nodes', p) && forall q | Holds(nodes, q) :: Holds(nodes', q)
  {
    hide Linked;
    LinkedAt(h, nodes, m, n, p);
    var nodes' := Linked(h, nodes, m, n, p);
    forall q | Holds(nodes, q) ensures Holds(nodes', q) {
      var c :| 0 <= c < |nodes| && nodes[c].used && nodes[c].key == q.key && nodes[c].value == q.value;
      assert nodes'[c].key == q.key;
    }
    assert nodes'[n].key == p.key;
  }

  lemma LinkedMains(h: seq<nat> -> nat, nodes: seq<Node>, chains: Chains, m: nat, n: nat, p: Pair, hp: seq<Pair>,
                    c: seq<nat>)
    requires m < |nodes| && n < |nodes| && m != n && !nodes[n].used && |chains| == |nodes| && c != []
    requires MainsUsed(h, nodes, hp) && Started(h, nodes, chains, hp)
    ensures MainsUsed(h, Linked(h, nodes, m, n, p), hp) && Started(h, Linked(h, nodes, m, n, p), chains[m := c], hp)
  {
    hide Linked, Main;
    LinkedAt(h, nodes, m, n, p);
  }

  lemma LinkedLater(h: seq<nat> -> nat, nodes: seq<Node>, m: nat, n: nat, pairs: seq<Pair>, k: nat, sizearray: nat)
    requires m < |nodes| && n < |nodes| && m != n && !nodes[n].used && k < |pairs| && Distinct(pairs)
    requires LaterInMain(h, nodes, pairs, k, sizearray)
    ensures LaterInMain(h, Linked(h, nodes, m, n, pairs[k]), pairs, k + 1, sizearray)
  {
    hide Linked, Main;
    LinkedAt(h, nodes, m, n, pairs[k]);
  }

  /** The pair at 'k' goes to the free slot 'n', behind its main slot. */
  lemma FilledIn(h: seq<nat> -> nat, nodes: seq<Node>, chains: Chains, pairs: seq<Pair>, k: nat, sizearray: nat,
                 m: nat, n: nat)
    requires k < |pairs| && Distinct(pairs) && Filling(h, nodes, chains, pairs, k, sizearray)
    requires !InArray(pairs[k].key, sizearray) && n < |nodes| && !nodes[n].used && m == Main(h, pairs[k].key, |nodes|)
    requires nodes[m].used && nodes[m].key != pairs[k].key && chains[m] != []
    ensures Filling(h, Linked(h, nodes, m, n, pairs[k]), chains[m := [m, n] + chains[m][1..]], pairs, k + 1, sizearray)
  {
    hide Main, KeyHash, ChainAt, Chained, Linked, MainsUsed, OnlyHolds, LaterInMain, Started, Holds, HashPairs,
         Distinct;
    var p, hp := pairs[k], HashPairs(pairs, sizearray);
    HashSnoc(pairs, k, sizearray);
    HashMembers(pairs, sizearray);
    assert p in pairs;
    NotThere(h, nodes, pairs, k, sizearray);
    LinkChains(h, nodes, chains, m, n, p);
    LinkedHolds(h, nodes, m, n, p, hp);
    LinkedMains(h, nodes, chains, m, n, p, hp, [m, n] + chains[m][1..]);
    LinkedLater(h, nodes, m, n, pairs, k, sizearray);
  }

  lemma NotThere(h: seq<nat> -> nat, nodes: seq<Node>, pairs: seq<Pair>, k: nat, sizearray: nat)
    requires k < |pairs| && nodes != [] && LaterInMain(h, nodes, pairs, k, sizearray)
    requires !InArray(pairs[k].key, sizearray)
    requires nodes[Main(h, pairs[k].key, |nodes|)].key != pairs[k].key
    ensures forall c | 0 <= c < |nodes| && nodes[c].used :: nodes[c].key != pairs[k].key
  {
    hide Main;
  }

  /** The first free slot from 'from' on. */
  method NextFree(hash: array<Node>, from: nat) returns (i: nat)
    requires from <= hash.Length && (forall x | 0 <= x < from :: hash[x].used)
    requires exists x :: 0 <= x < hash.Length && !hash[x].used
    ensures i < hash.Length && !hash[i].used && from <= i && forall x | 0 <= x < i :: hash[x].used
  {
    i := from;
    while hash[i].used
      invariant from <= i < hash.Length
      invariant forall x | 0 <= x < i :: hash[x].used
      decreases hash.Length - i
    {
      i := i + 1;
    }
  }

  method LinkIn(h: seq<nat> -> nat, hash: array<Node>, m: nat, n: nat, p: Pair)
    requires m < hash.Length && n < hash.Length && m != n
    modifies hash
    ensures hash[..] == Linked(h, old(hash[..]), m, n, p)
    ensures forall c | 0 <= c < hash.Length && old(hash[c].used) :: hash[c].used
    ensures hash[n].used
  {
    hash[n] := NewNode(h, p, hash[m].next);
    hash[m] := hash[m].(next := n, nocolliding := false);
  }

  /** The second pass: every other key goes to a free slot, linked in behind its main slot. */
  method FillColliding(h: seq<nat> -> nat, hash: array<Node>, pairs: seq<Pair>, sizearray: nat)
    returns (ghost chains: Chains)
    requires Distinct(pairs) && hash.Length == |HashPairs(pairs, sizearray)| && Plain(h, hash[..])
    requires OnlyHolds(hash[..], HashPairs(pairs, sizearray))
    requires MainsUsed(h, hash[..], HashPairs(pairs, sizearray))
    modifies hash
    ensures Chained(h, hash[..], chains) && OnlyHolds(hash[..], HashPairs(pairs, sizearray))
    ensures forall p | p in HashPairs(pairs, sizearray) :: Holds(hash[..], p)
  {
    hide *;
    StartFilling(h, hash[..], pairs, sizearray);
    chains := OwnChains(hash[..]);
    var emptyslot, k := 0, 0;
    while k < |pairs|
      invariant k <= |pairs| && emptyslot <= hash.Length
      invariant Filling(h, hash[..], chains, pairs, k, sizearray)
      invariant forall i | 0 <= i < emptyslot :: hash[i].used
    {
      var p := pairs[k];
      if InArray(p.key, sizearray) {
        AlreadyFilled(h, hash[..], chains, pairs, k, sizearray);
      } else {
        MainFilled(h, hash[..], chains, pairs, k, sizearray);
        var m := Main(h, p.key, hash.Length);
        if hash[m].key == p.key {
          AlreadyFilled(h, hash[..], chains, pairs, k, sizearray);
        } else {
          var n := NextFree(hash, emptyslot);
          emptyslot := n + 1;
          FilledIn(h, hash[..], chains, pairs, k, sizearray, m, n);
          LinkIn(h, hash, m, n, p);
          chains := chains[m := [m, n] + chains[m][1..]];
        }
      }
      k := k + 1;
    }
    EndFilling(h, hash[..], chains, pairs, sizearray);
  }

  lemma EndFilling(h: seq<nat> -> nat, nodes: seq<Node>, chains: Chains, pairs: seq<Pair>, sizearray: nat)
    requires Filling(h, nodes, chains, pairs, |pairs|, sizearray)
    ensures Chained(h, nodes, chains) && OnlyHolds(nodes, HashPairs(pairs, sizearray))
    ensures forall p | p in HashPairs(pairs, sizearray) :: Holds(nodes, p)
  {
    assert pairs[..|pairs|] == pairs;
  }

  /** The main slot of a hash pair is in use; a pair that is not there finds a free slot. */
  lemma MainFilled(h: seq<nat> -> nat, nodes: seq<Node>, chains: Chains, pairs: seq<Pair>, k: nat, sizearray: nat)
    requires k < |pairs| && Distinct(pairs) && Filling(h, nodes, chains, pairs, k, sizearray)
    requires !InArray(pairs[k].key, sizearray)
    ensures |nodes| > 0 && |chains| == |nodes|
    ensures var m := Main(h, pairs[k].key, |nodes|);
            && nodes[m].used && chains[m] != []
            && (nodes[m].key != pairs[k].key ==> exists x :: 0 <= x < |nodes| && !nodes[x].used)
  {
    hide Main, KeyHash, ChainAt;
    HashMembers(pairs, sizearray);
    var p := pairs[k];
    assert p in pairs;
    assert p in HashPairs(pairs, sizearray);
    if nodes[Main(h, p.key, |nodes|)].key != p.key {
      FreeSlot(nodes, HashPairs(pairs, sizearray), p);
    }
  }
}
