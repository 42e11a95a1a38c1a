// Final adjustments of a pattern tree (lptree.c): sequences and choices are made right associative, in
// the flat array of nodes that a tree is.

module PegFix {
  import opened PegTree

  // Cells that the characters of a set take.
  const SETROOM := 4

  datatype Unary = Rep | Not | And | Capture | Behind(n: nat)

  /**
   * A cell of a flat tree. The first child follows its node; 'ps' is how far away the second one is.
   */
  datatype Node =
    | Op(isSeq: bool, ps: nat)
    | One(tag: Unary)
    | Atom(t: Tree)
    | Grammar
    | Rule(ps: nat)
    | Room

  function Operation(isSeq: bool, p1: Tree, p2: Tree): Tree {
    if isSeq then TSeq(p1, p2) else TChoice(p1, p2)
  }

  predicate IsOp(t: Tree, isSeq: bool) {
    if isSeq then t.TSeq? else t.TChoice?
  }

  /** The array of nodes of a tree. */
  function Flat(t: Tree): (f: seq<Node>)
    ensures |f| > 0
    decreases t, 0
  {
    match t
    case TSeq(p1, p2) => [Op(true, 1 + |Flat(p1)|)] + Flat(p1) + Flat(p2)
    case TChoice(p1, p2) => [Op(false, 1 + |Flat(p1)|)] + Flat(p1) + Flat(p2)
    case TRep(p) => [One(Rep)] + Flat(p)
    case TNot(p) => [One(Not)] + Flat(p)
    case TAnd(p) => [One(And)] + Flat(p)
    case TCapture(p) => [One(Capture)] + Flat(p)
    case TBehind(n, p) => [One(Behind(n))] + Flat(p)
    case TGrammar(rules) => [Grammar] + FlatRules(rules, 0)
    case TSet(_) => [Atom(t)] + seq(SETROOM, _ => Room)
    case _ => [Atom(t)]
  }

  /** The rules from 'r' on: each is followed by the next one, the last one by 'true'. */
  function FlatRules(rules: seq<Tree>, r: nat): (f: seq<Node>)
    requires r <= |rules|
    ensures |f| > 0
    decreases rules, |rules| - r
  {
    if r == |rules| then [Atom(TTrue)]
    else [Rule(1 + |Flat(rules[r])|)] + Flat(rules[r]) + FlatRules(rules, r + 1)
  }

  function Size(t: Tree): nat { |Flat(t)| }

  /** Op (Op a b) c becomes Op a (Op b c), until the first child is no such operation. */
  function Turned(isSeq: bool, t1: Tree, t2: Tree): (t: Tree)
    ensures IsOp(t, isSeq) && !IsOp(t.p1, isSeq)
    ensures Size(t) == 1 + Size(t1) + Size(t2)
    decreases t1
  {
    if IsOp(t1, isSeq) then Turned(isSeq, t1.p1, Operation(isSeq, t1.p2, t2))
    else Operation(isSeq, t1, t2)
  }

  /** The adjusted tree. Grammars inside it were adjusted when they were built. */
  function Fixed(t: Tree): (f: Tree)
    decreases Size(t)
  {
    match t
    case TSeq(p1, p2) => var u := Turned(true, p1, p2); TSeq(Fixed(u.p1), Fixed(u.p2))
    case TChoice(p1, p2) => var u := Turned(false, p1, p2); TChoice(Fixed(u.p1), Fixed(u.p2))
    case TRep(p) => TRep(Fixed(p))
    case TNot(p) => TNot(Fixed(p))
    case TAnd(p) => TAnd(Fixed(p))
    case TCapture(p) => TCapture(Fixed(p))
    case TBehind(n, p) => TBehind(n, Fixed(p))
    case _ => t
  }

  /** No operation has the same operation as its first child. */
  predicate RightAssociative(t: Tree)
    decreases t
  {
    match t
    case TSeq(p1, p2) => !p1.TSeq? && RightAssociative(p1) && RightAssociative(p2)
    case TChoice(p1, p2) => !p1.TChoice? && RightAssociative(p1) && RightAssociative(p2)
    case TRep(p) => RightAssociative(p)
    case TNot(p) => RightAssociative(p)
    case TAnd(p) => RightAssociative(p)
    case TCapture(p) => RightAssociative(p)
    case TBehind(_, p) => RightAssociative(p)
    case _ => true
  }

  /** Adjusting keeps the kind of a tree, and leaves it right associative and of the same size. */
  lemma {:induction false} FixedShape(t: Tree)
    ensures RightAssociative(Fixed(t)) && Size(Fixed(t)) == Size(t)
    ensures Fixed(t).TSeq? == t.TSeq? && Fixed(t).TChoice? == t.TChoice?
    decreases Size(t)
  {
    match t
    case TSeq(p1, p2) => var u := Turned(true, p1, p2); FixedShape(u.p1); FixedShape(u.p2);
    case TChoice(p1, p2) => var u := Turned(false, p1, p2); FixedShape(u.p1); FixedShape(u.p2);
    case TRep(p) => FixedShape(p);
    case TNot(p) => FixedShape(p);
    case TAnd(p) => FixedShape(p);
    case TCapture(p) => FixedShape(p);
    case TBehind(_, p) => FixedShape(p);
    case _ =>
  }

  /** Turning an operation does not change what it means. */
  lemma {:induction false} TurnedMeans(g: seq<Tree>, isSeq: bool, t1: Tree, t2: Tree, s: Subject, i: nat, n: nat)
    requires i <= |s|
    ensures Peg(g, Turned(isSeq, t1, t2), s, i, n) == Peg(g, Operation(isSeq, t1, t2), s, i, n)
    decreases t1
  {
    if IsOp(t1, isSeq) {
      TurnedMeans(g, isSeq, t1.p1, Operation(isSeq, t1.p2, t2), s, i, n);
      Associates(g, isSeq, t1.p1, t1.p2, t2, s, i, n);
    }
  }

  lemma Associates(g: seq<Tree>, isSeq: bool, a: Tree, b: Tree, c: Tree, s: Subject, i: nat, n: nat)
    requires i <= |s|
    ensures Peg(g, Operation(isSeq, a, Operation(isSeq, b, c)), s, i, n) ==
            Peg(g, Operation(isSeq, Operation(isSeq, a, b), c), s, i, n)
  {
    var o := Peg(g, a, s, i, n);
    if isSeq {
      assert Peg(g, TSeq(TSeq(a, b), c), s, i, n) ==
             (var o2 := Peg(g, TSeq(a, b), s, i, n); if o2.Ok? then Peg(g, c, s, o2.pos, n) else o2);
    } else {
      assert Peg(g, TChoice(TChoice(a, b), c), s, i, n) ==
             (var o2 := Peg(g, TChoice(a, b), s, i, n); if o2.Fail? then Peg(g, c, s, i, n) else o2);
    }
  }

  /** The rules of a grammar, each adjusted. */
  function FixedRules(g: seq<Tree>): (f: seq<Tree>)
    ensures |f| == |g| && forall r | 0 <= r < |g| :: f[r] == Fixed(g[r])
  {
    seq(|g|, r requires 0 <= r < |g| => Fixed(g[r]))
  }

  /** Adjusting a pattern, and the rules it refers to, does not change what it means. */
  lemma {:induction false} FixedMeans(g: seq<Tree>, t: Tree, s: Subject, i: nat, n: nat)
    requires i <= |s|
    ensures Peg(FixedRules(g), Fixed(t), s, i, n) == Peg(g, t, s, i, n)
    decreases n, Size(t), 1
  {
    hide FixedRules;
    match t
    case TSeq(p1, p2) => FixedOpMeans(g, t, s, i, n);
    case TChoice(p1, p2) => FixedOpMeans(g, t, s, i, n);
    case TRep(p) => FixedRepMeans(g, p, s, i, n);
    case TNot(p) => FixedMeans(g, p, s, i, n);
    case TAnd(p) => FixedMeans(g, p, s, i, n);
    case TCapture(p) => FixedMeans(g, p, s, i, n);
    case TBehind(k, p) => if k <= i { FixedMeans(g, p, s, i - k, n); }
    case TCall(_, r) => if n > 0 && r < |g| { FixedMeans(g, g[r], s, i, n - 1); }
    case _ =>
  }

  lemma {:induction false} FixedRepMeans(g: seq<Tree>, p: Tree, s: Subject, i: nat, n: nat)
    requires i <= |s|
    ensures Peg(FixedRules(g), TRep(Fixed(p)), s, i, n) == Peg(g, TRep(p), s, i, n)
    decreases n, Size(TRep(p)), 0
  {
    hide FixedRules;
    FixedMeans(g, p, s, i, n);
    var o := Peg(g, p, s, i, n);
    if o.Ok? && n > 0 { FixedRepMeans(g, p, s, o.pos, n - 1); }
  }

  lemma {:induction false} FixedOpMeans(g: seq<Tree>, t: Tree, s: Subject, i: nat, n: nat)
    requires i <= |s| && (t.TSeq? || t.TChoice?)
    ensures Peg(FixedRules(g), Fixed(t), s, i, n) == Peg(g, t, s, i, n)
    decreases n, Size(t), 0
  {
    hide FixedRules, Turned;
    var u := Turned(t.TSeq?, t.p1, t.p2);
    TurnedMeans(g, t.TSeq?, t.p1, t.p2, s, i, n);
    FixedMeans(g, u.p1, s, i, n);
    var o := Peg(g, u.p1, s, i, n);
    if t.TSeq? && o.Ok? { FixedMeans(g, u.p2, s, o.pos, n); }
    if t.TChoice? && o.Fail? { FixedMeans(g, u.p2, s, i, n); }
  }

  // ---- In the array of nodes ----

  /** Turns the operation at 'i': 'correctassociativity'. Around the tree are 'pre' and 'post'. */
  method CorrectAssociativity(a: array<Node>, i: nat, ghost isSeq: bool, ghost t1: Tree, ghost t2: Tree,
                              ghost pre: seq<Node>, ghost post: seq<Node>)
    requires i == |pre| && a[..] == pre + Flat(Operation(isSeq, t1, t2)) + post
    modifies a
    ensures a[..] == pre + Flat(Turned(isSeq, t1, t2)) + post
  {
    hide Flat;
    ghost var b, c := t1, t2;
    OpCells(a[..], pre, isSeq, b, c, post);
    while a[i + 1].Op? && a[i + 1].isSeq == a[i].isSeq
      invariant a[..] == pre + Flat(Operation(isSeq, b, c)) + post
      invariant Turned(isSeq, b, c) == Turned(isSeq, t1, t2)
      invariant i + 1 < a.Length && a[i] == Op(isSeq, 1 + Size(b)) && a[i + 1] == Flat(b)[0]
      decreases b
    {
      OpAt(b);
      OpFlat(isSeq, b, c);
      OpFlat(isSeq, b.p1, b.p2);
      ghost var rest := Flat(b.p2) + Flat(c) + post;
      assert a[..] == pre + [a[i], a[i + 1]] + Flat(b.p1) + rest;
      var size1 := a[i].ps - 1;
      var size11 := a[i + 1].ps - 1;
      var size12 := size1 - size11 - 1;
      TurnOnce(a, i, size11, size12, pre, Flat(b.p1), rest);
      OpFlat(isSeq, b.p2, c);
      OpFlat(isSeq, b.p1, Operation(isSeq, b.p2, c));
      Regroup(pre, Op(isSeq, size11 + 1), Flat(b.p1), Op(isSeq, size12 + 1), Flat(b.p2), Flat(c), post);
      b, c := b.p1, Operation(isSeq, b.p2, c);
      OpCells(a[..], pre, isSeq, b, c, post);
    }
    OpAt(b);
  }

  /** Moves the first part over the inner node, and writes the nodes anew. */
  method TurnOnce(a: array<Node>, i: nat, size11: nat, size12: nat,
                  ghost pre: seq<Node>, ghost first: seq<Node>, ghost rest: seq<Node>)
    requires i == |pre| && size11 == |first| && i + 1 < a.Length && a[i].Op?
    requires a[..] == pre + [a[i], a[i + 1]] + first + rest
    modifies a
    ensures var isSeq := old(a[i].isSeq);
            a[..] == pre + [Op(isSeq, size11 + 1)] + first + [Op(isSeq, size12 + 1)] + rest
  {
    ghost var was := a[..];
    assert was[i + 2..i + 2 + size11] == first && was[i + 2 + size11..] == rest && was[..i] == pre;
    for k := 0 to size11
      invariant forall x | 0 <= x <= i || i + 1 + k <= x < a.Length :: a[x] == was[x]
      invariant forall x | i + 1 <= x < i + 1 + k :: a[x] == first[x - i - 1]
    {
      assert a[i + 2 + k] == was[i + 2..i + 2 + size11][k];
      a[i + 1 + k] := a[i + 2 + k];
    }
    a[i] := Op(a[i].isSeq, size11 + 1);
    a[i + size11 + 1] := Op(a[i].isSeq, size12 + 1);
    ghost var now := pre + [a[i]] + first + [a[i + size11 + 1]] + rest;
    assert |now| == a.Length;
    forall x | 0 <= x < a.Length ensures a[x] == now[x] {
      if x < i { assert pre[x] == was[..i][x]; }
      if i + size11 + 1 < x { assert rest[x - i - 2 - size11] == was[i + 2 + size11..][x - i - 2 - size11]; }
    }
  }

  lemma Regroup(pre: seq<Node>, n: Node, a: seq<Node>, m: Node, b: seq<Node>, c: seq<Node>, post: seq<Node>)
    ensures pre + [n] + a + [m] + (b + c + post) == pre + ([n] + a + ([m] + b + c)) + post
  {
  }

  /** The tree whose first cell is an operation is one. */
  lemma OpAt(t: Tree)
    ensures Flat(t)[0].Op? <==> t.TSeq? || t.TChoice?
    ensures t.TSeq? || t.TChoice? ==> Flat(t)[0] == Op(t.TSeq?, 1 + Size(t.p1)) &&
                                          Size(t) == 1 + Size(t.p1) + Size(t.p2)
  {
  }

  lemma OpCells(a: seq<Node>, pre: seq<Node>, isSeq: bool, b: Tree, c: Tree, post: seq<Node>)
    requires a == pre + Flat(Operation(isSeq, b, c)) + post
    ensures |pre| + 1 < |a| && a[|pre|] == Op(isSeq, 1 + Size(b)) && a[|pre| + 1] == Flat(b)[0]
  {
    OpFlat(isSeq, b, c);
  }

  lemma OpFlat(isSeq: bool, b: Tree, c: Tree)
    ensures Flat(Operation(isSeq, b, c)) == [Op(isSeq, 1 + Size(b))] + Flat(b) + Flat(c)
  {
  }

  // ---- The whole tree ----

  /** Adjusts the tree at 'i': 'finalfix', its jumps back to the start written as calls. */
  method FinalFix(a: array<Node>, i: nat, ghost t: Tree, ghost pre: seq<Node>, ghost post: seq<Node>)
    requires i == |pre| && a[..] == pre + Flat(t) + post
    modifies a
    ensures a[..] == pre + Flat(Fixed(t)) + post
    decreases Size(t)
  {
    hide Flat, Turned;
    FirstCell(a[..], pre, t, post);
    match a[i] {
      case Op(_, _) =>
        var isSeq := a[i].isSeq;
        CorrectAssociativity(a, i, isSeq, t.p1, t.p2, pre, post);
        ghost var u := Turned(isSeq, t.p1, t.p2);
        var d := SecondChild(a, i, isSeq, u, pre, post);
        FinalFix(a, i + 1, u.p1, pre + [Op(isSeq, d)], Flat(u.p2) + post);
        SameSize(u.p1);
        Regroup2(pre, Op(isSeq, d), Flat(Fixed(u.p1)), Flat(u.p2), post);
        FinalFix(a, i + d, u.p2, pre + [Op(isSeq, d)] + Flat(Fixed(u.p1)), post);
        OpFlat(isSeq, Fixed(u.p1), Fixed(u.p2));
        Regroup3(pre, Op(isSeq, d), Flat(Fixed(u.p1)), Flat(Fixed(u.p2)), post);
      case One(_) =>
        ghost var n := a[i];
        Regroup5(pre, n, Flat(t.p), post);
        FinalFix(a, i + 1, t.p, pre + [n], post);
        Regroup5(pre, n, Flat(Fixed(t.p)), post);
      case _ =>
    }
  }

  /** How far the second child is. */
  method SecondChild(a: array<Node>, i: nat, ghost isSeq: bool, ghost u: Tree, ghost pre: seq<Node>,
    ghost post: seq<Node>)
    returns (d: nat)
    requires i == |pre| && IsOp(u, isSeq) && a[..] == pre + Flat(u) + post
    ensures d == 1 + Size(u.p1)
    ensures a[..] == pre + [Op(isSeq, d)] + Flat(u.p1) + (Flat(u.p2) + post)
  {
    hide Flat;
    OpFlat(isSeq, u.p1, u.p2);
    OpCells(a[..], pre, isSeq, u.p1, u.p2, post);
    Regroup2(pre, Op(isSeq, 1 + Size(u.p1)), Flat(u.p1), Flat(u.p2), post);
    d := a[i].ps;
  }

  lemma Regroup2(pre: seq<Node>, n: Node, b: seq<Node>, c: seq<Node>, post: seq<Node>)
    ensures pre + [n] + b + (c + post) == pre + [n] + b + c + post
    ensures pre + ([n] + b + c) + post == pre + [n] + b + (c + post)
  {
  }

  lemma Regroup3(pre: seq<Node>, n: Node, b: seq<Node>, c: seq<Node>, post: seq<Node>)
    ensures pre + [n] + b + c + post == pre + ([n] + b + c) + post
  {
  }

  lemma Regroup5(pre: seq<Node>, n: Node, b: seq<Node>, post: seq<Node>)
    ensures pre + [n] + b + post == pre + ([n] + b) + post
  {
  }

  lemma SameSize(t: Tree)
    ensures Size(Fixed(t)) == Size(t)
  {
    FixedShape(t);
  }

  predicate HasOneChild(t: Tree) { t.TRep? || t.TNot? || t.TAnd? || t.TCapture? || t.TBehind? }

  lemma FirstCell(a: seq<Node>, pre: seq<Node>, t: Tree, post: seq<Node>)
    requires a == pre + Flat(t) + post
    ensures |pre| < |a| && a[|pre|] == Flat(t)[0]
    ensures var n := a[|pre|];
            && (n.Op? ==> IsOp(t, n.isSeq) && t == Operation(n.isSeq, t.p1, t.p2))
            && (n.One? ==> HasOneChild(t) && Flat(t) == [n] + Flat(t.p) && Flat(Fixed(t)) == [n] + Flat(Fixed(t.p)))
            && (!n.Op? && !n.One? ==> Fixed(t) == t)
  {
  }

  /** Adjusts the rules of a grammar under construction, which start at 'i'. */
  method FinalFixRules(a: array<Node>, i: nat, ghost rules: seq<Tree>, ghost r: nat, ghost pre: seq<Node>,
    ghost post: seq<Node>)
    requires r <= |rules| && i == |pre| && a[..] == pre + FlatRules(rules, r) + post
    modifies a
    ensures a[..] == pre + FlatRules(FixedRules(rules), r) + post
    decreases |rules| - r
  {
    hide Flat, Turned, Fixed;
    ghost var fixed := FixedRules(rules);
    assert a[i] == FlatRules(rules, r)[0];
    if a[i].Rule? {
      var d := a[i].ps;
      ghost var rest := FlatRules(rules, r + 1);
      Regroup4(pre, Rule(d), Flat(rules[r]), rest, post);
      FinalFix(a, i + 1, rules[r], pre + [Rule(d)], rest + post);
      SameSize(rules[r]);
      Regroup4(pre, Rule(d), Flat(Fixed(rules[r])), rest, post);
      FinalFixRules(a, i + d, rules, r + 1, pre + [Rule(d)] + Flat(Fixed(rules[r])), post);
      assert FlatRules(fixed, r) == [Rule(d)] + Flat(Fixed(rules[r])) + FlatRules(fixed, r + 1);
      Regroup3(pre, Rule(d), Flat(Fixed(rules[r])), FlatRules(fixed, r + 1), post);
    } else {
      assert r == |rules|;
    }
  }

  lemma Regroup4(pre: seq<Node>, n: Node, b: seq<Node>, c: seq<Node>, post: seq<Node>)
    ensures pre + ([n] + b + c) + post == pre + [n] + b + (c + post)
    ensures pre + [n] + b + (c + post) == pre + [n] + b + c + post
  {
  }
}
