/** Binary trees as values, and trees with a hole.

    A `Tree` is what the linked nodes of a red-black tree stand for; a `Ctx` is the
    rest of the tree around one subtree, written from that subtree up to the root, so
    that the fixup loops, which climb parent links, follow its structure. */
module TreeShape {
  import opened Powers

  datatype Tree<N> =
    | Leaf
    | Node(left: Tree<N>, id: N, black: bool, right: Tree<N>)

  /** `InL(up, id, ..)`: the hole is the left child of `id`; `InR`: the right child. */
  datatype Ctx<N> =
    | Top
    | InL(up: Ctx<N>, id: N, black: bool, right: Tree<N>)
    | InR(up: Ctx<N>, left: Tree<N>, id: N, black: bool)

  ghost function Plug<N>(c: Ctx<N>, t: Tree<N>): Tree<N>
  {
    match c
    case Top => t
    case InL(up, id, b, r) => Plug(up, Node(t, id, b, r))
    case InR(up, l, id, b) => Plug(up, Node(l, id, b, t))
  }

  /** `Append(a, b)` puts the context `a` into the hole of `b`. */
  ghost function Append<N>(a: Ctx<N>, b: Ctx<N>): Ctx<N>
  {
    match a
    case Top => b
    case InL(up, id, k, r) => InL(Append(up, b), id, k, r)
    case InR(up, l, id, k) => InR(Append(up, b), l, id, k)
  }

  /** The subtree one level above the hole, once the hole is filled. */
  ghost function Above<N>(c: Ctx<N>, t: Tree<N>): Tree<N>
    requires !c.Top?
    ensures Plug(c.up, Above(c, t)) == Plug(c, t)
  {
    match c
    case InL(_, id, b, r) => Node(t, id, b, r)
    case InR(_, l, id, b) => Node(l, id, b, t)
  }

  ghost function Depth<N>(c: Ctx<N>): nat
  {
    match c
    case Top => 0
    case InL(up, _, _, _) => 1 + Depth(up)
    case InR(up, _, _, _) => 1 + Depth(up)
  }

  // ---------- node sets ----------

  ghost function Ids<N>(t: Tree<N>): set<N>
  {
    if t.Leaf? then {} else Ids(t.left) + {t.id} + Ids(t.right)
  }

  ghost function CIds<N>(c: Ctx<N>): set<N>
  {
    match c
    case Top => {}
    case InL(up, id, _, r) => {id} + Ids(r) + CIds(up)
    case InR(up, l, id, _) => {id} + Ids(l) + CIds(up)
  }

  ghost predicate Distinct<N>(t: Tree<N>)
  {
    t.Node? ==>
      && t.id !in Ids(t.left) && t.id !in Ids(t.right)
      && Ids(t.left) !! Ids(t.right)
      && Distinct(t.left) && Distinct(t.right)
  }

  ghost predicate CDistinct<N>(c: Ctx<N>)
  {
    match c
    case Top => true
    case InL(up, id, _, r) =>
      id !in Ids(r) && id !in CIds(up) && Ids(r) !! CIds(up) && Distinct(r) && CDistinct(up)
    case InR(up, l, id, _) =>
      id !in Ids(l) && id !in CIds(up) && Ids(l) !! CIds(up) && Distinct(l) && CDistinct(up)
  }

  lemma {:induction false} PlugIds<N>(c: Ctx<N>, t: Tree<N>)
    ensures Ids(Plug(c, t)) == CIds(c) + Ids(t)
    ensures Distinct(Plug(c, t)) <==> CDistinct(c) && Distinct(t) && CIds(c) !! Ids(t)
  {
    match c
    case Top =>
    case InL(up, id, b, r) => PlugIds(up, Node(t, id, b, r));
    case InR(up, l, id, b) => PlugIds(up, Node(l, id, b, t));
  }

  // ---------- in-order sequence ----------

  ghost function Seq<N>(t: Tree<N>): seq<N>
  {
    if t.Leaf? then [] else Seq(t.left) + [t.id] + Seq(t.right)
  }

  /** What precedes and what follows the hole in the in-order sequence. */
  ghost function Before<N>(c: Ctx<N>): seq<N>
  {
    match c
    case Top => []
    case InL(up, _, _, _) => Before(up)
    case InR(up, l, id, _) => Before(up) + Seq(l) + [id]
  }

  ghost function After<N>(c: Ctx<N>): seq<N>
  {
    match c
    case Top => []
    case InL(up, id, _, r) => [id] + Seq(r) + After(up)
    case InR(up, _, _, _) => After(up)
  }

  lemma {:induction false} PlugSeq<N>(c: Ctx<N>, t: Tree<N>)
    ensures Seq(Plug(c, t)) == Before(c) + Seq(t) + After(c)
  {
    match c
    case Top =>
    case InL(up, id, b, r) =>
      PlugSeq(up, Node(t, id, b, r));
      RegroupLeft(Before(up), Seq(t), [id], Seq(r), After(up));
    case InR(up, l, id, b) =>
      PlugSeq(up, Node(l, id, b, t));
      RegroupRight(Before(up), Seq(l), [id], Seq(t), After(up));
  }

  lemma RegroupLeft<N>(a: seq<N>, l: seq<N>, x: seq<N>, r: seq<N>, b: seq<N>)
    ensures a + (l + x + r) + b == a + l + (x + r + b)
  {
  }

  lemma RegroupRight<N>(a: seq<N>, l: seq<N>, x: seq<N>, r: seq<N>, b: seq<N>)
    ensures a + (l + x + r) + b == (a + l + x) + r + b
  {
  }

  lemma {:induction false} InSeq<N>(t: Tree<N>, n: N)
    ensures n in Seq(t) <==> n in Ids(t)
  {
    if t.Node? {
      InSeq(t.left, n);
      InSeq(t.right, n);
    }
  }

  lemma Regroup<N>(a: seq<N>, l: seq<N>, x: seq<N>, r: seq<N>, b: seq<N>)
    ensures a + (l + x + r) + b == (a + l) + x + (r + b)
  {
  }

  lemma PlugSeqNode<N>(c: Ctx<N>, t: Tree<N>)
    requires t.Node?
    ensures Seq(Plug(c, t)) == (Before(c) + Seq(t.left)) + [t.id] + (Seq(t.right) + After(c))
  {
    PlugSeq(c, t);
    Regroup(Before(c), Seq(t.left), [t.id], Seq(t.right), After(c));
  }

  lemma SameSeq<N>(c: Ctx<N>, t: Tree<N>, t': Tree<N>)
    requires Seq(t) == Seq(t')
    ensures Seq(Plug(c, t)) == Seq(Plug(c, t')) && Ids(t) == Ids(t')
  {
    PlugSeq(c, t);
    PlugSeq(c, t');
    forall n | n in Ids(t) ensures n in Ids(t') {
      InSeq(t, n);
      InSeq(t', n);
    }
    forall n | n in Ids(t') ensures n in Ids(t) {
      InSeq(t, n);
      InSeq(t', n);
    }
  }

  ghost predicate NoDup<N>(s: seq<N>)
  {
    forall i, j :: 0 <= i < j < |s| ==> s[i] != s[j]
  }

  lemma NoDupConcat<N>(a: seq<N>, b: seq<N>)
    requires NoDup(a) && NoDup(b) && forall x :: x in a ==> x !in b
    ensures NoDup(a + b)
  {
    forall i, j | 0 <= i < j < |a + b|
      ensures (a + b)[i] != (a + b)[j]
    {
      if i < |a| <= j {
        assert a[i] in a && b[j - |a|] in b;
      }
    }
  }

  /** A tree listed like `c` with the single node `n` in its hole. */
  lemma OneInHole<N>(c: Ctx<N>, n: N, black: bool, t: Tree<N>)
    requires Seq(t) == Seq(Plug(c, Node(Leaf, n, black, Leaf)))
    ensures Seq(t) == Before(c) + [n] + After(c)
    ensures Ids(t) == CIds(c) + {n}
  {
    var one := Node(Leaf, n, black, Leaf);
    PlugSeq(c, one);
    assert Seq(one) == [n];
    PlugIds(c, one);
    SameSeq(Top, t, Plug(c, one));
  }

  /** Distinct trees list every node once. */
  lemma {:induction false} SeqNoDup<N>(t: Tree<N>)
    requires Distinct(t)
    ensures NoDup(Seq(t))
  {
    if t.Node? {
      SeqNoDup(t.left);
      SeqNoDup(t.right);
      forall x: N ensures x in Seq(t.left) <==> x in Ids(t.left) { InSeq(t.left, x); }
      forall x: N ensures x in Seq(t.right) <==> x in Ids(t.right) { InSeq(t.right, x); }
      NoDupConcat(Seq(t.left), [t.id]);
      forall x | x in Seq(t.left) + [t.id] ensures x !in Seq(t.right) {
        InSeq(t.left, x);
        InSeq(t.right, x);
      }
      NoDupConcat(Seq(t.left) + [t.id], Seq(t.right));
    }
  }

  /** `s` without the first occurrence of `n`. */
  ghost function Removed<N>(s: seq<N>, n: N): seq<N>
  {
    if s == [] then []
    else if s[0] == n then s[1..]
    else [s[0]] + Removed(s[1..], n)
  }

  lemma {:induction false} RemovedMiddle<N>(a: seq<N>, n: N, b: seq<N>)
    requires n !in a
    ensures Removed(a + [n] + b, n) == a + b
  {
    var s := a + [n] + b;
    if a == [] {
      assert s[1..] == b;
    } else {
      assert s[1..] == a[1..] + [n] + b;
      RemovedMiddle(a[1..], n, b);
    }
  }

  // ---------- focusing on a node ----------

  /** The context of node `n` in `t`, itself placed in `c`. */
  lemma {:induction false} Focus<N>(c: Ctx<N>, t: Tree<N>, n: N) returns (c': Ctx<N>, t': Tree<N>)
    requires n in Ids(t)
    ensures t'.Node? && t'.id == n
    ensures Plug(c', t') == Plug(c, t)
    decreases t
  {
    if t.id == n {
      c', t' := c, t;
    } else if n in Ids(t.left) {
      c', t' := Focus(InL(c, t.id, t.black, t.right), t.left, n);
    } else {
      c', t' := Focus(InR(c, t.left, t.id, t.black), t.right, n);
    }
  }

  lemma {:induction false} AppendPlug<N>(a: Ctx<N>, b: Ctx<N>, t: Tree<N>)
    ensures Plug(Append(a, b), t) == Plug(b, Plug(a, t))
  {
    match a
    case Top =>
    case InL(up, id, k, r) => AppendPlug(up, b, Node(t, id, k, r));
    case InR(up, l, id, k) => AppendPlug(up, b, Node(l, id, k, t));
  }

  lemma {:induction false} AppendIds<N>(a: Ctx<N>, b: Ctx<N>)
    ensures CIds(Append(a, b)) == CIds(a) + CIds(b)
    ensures CDistinct(Append(a, b)) <==> CDistinct(a) && CDistinct(b) && CIds(a) !! CIds(b)
  {
    match a
    case Top =>
    case InL(up, id, k, r) => AppendIds(up, b);
    case InR(up, l, id, k) => AppendIds(up, b);
  }

  lemma {:induction false} AppendSeqs<N>(a: Ctx<N>, b: Ctx<N>)
    ensures Before(Append(a, b)) == Before(b) + Before(a)
    ensures After(Append(a, b)) == After(a) + After(b)
  {
    match a
    case Top =>
    case InL(up, id, k, r) => AppendSeqs(up, b);
    case InR(up, l, id, k) => AppendSeqs(up, b);
  }

  // ---------- the red-black conditions ----------

  ghost predicate BlackRoot<N>(t: Tree<N>) { t.Leaf? || t.black }

  /** Black nodes on the leftmost path. */
  ghost function BH<N>(t: Tree<N>): nat
  {
    if t.Leaf? then 0 else BH(t.left) + (if t.black then 1 else 0)
  }

  /** Every path down to a leaf has the same number of black nodes. */
  ghost predicate Bal<N>(t: Tree<N>)
  {
    t.Node? ==> Bal(t.left) && Bal(t.right) && BH(t.left) == BH(t.right)
  }

  /** No red node has a red child. */
  ghost predicate NoRR<N>(t: Tree<N>)
  {
    t.Node? ==>
      && NoRR(t.left) && NoRR(t.right)
      && (!t.black ==> BlackRoot(t.left) && BlackRoot(t.right))
  }

  ghost predicate RedBlack<N>(t: Tree<N>) { BlackRoot(t) && Bal(t) && NoRR(t) }

  /** The node above the hole exists and is black. */
  ghost predicate BlackAbove<N>(c: Ctx<N>) { !c.Top? && c.black }

  /** `c` becomes a red-black tree when a black-rooted red-black tree of black height `h`
      fills its hole. */
  ghost predicate CtxOK<N>(c: Ctx<N>, h: nat)
  {
    match c
    case Top => true
    case InL(up, _, b, r) =>
      && Bal(r) && NoRR(r) && BH(r) == h
      && (!b ==> BlackRoot(r) && BlackAbove(up))
      && CtxOK(up, if b then h + 1 else h)
    case InR(up, l, _, b) =>
      && Bal(l) && NoRR(l) && BH(l) == h
      && (!b ==> BlackRoot(l) && BlackAbove(up))
      && CtxOK(up, if b then h + 1 else h)
  }

  /** A plugged tree is red-black exactly when hole and filling fit. */
  lemma {:induction false} PlugRedBlack<N>(c: Ctx<N>, t: Tree<N>)
    ensures RedBlack(Plug(c, t)) <==>
            CtxOK(c, BH(t)) && Bal(t) && NoRR(t) && (BlackRoot(t) || BlackAbove(c))
  {
    match c
    case Top =>
    case InL(up, id, b, r) => PlugRedBlack(up, Node(t, id, b, r));
    case InR(up, l, id, b) => PlugRedBlack(up, Node(l, id, b, t));
  }

  lemma CtxUp<N>(c: Ctx<N>, t: Tree<N>)
    requires CtxOK(c, BH(t)) && Bal(t) && !c.Top?
    ensures CtxOK(c.up, BH(Above(c, t))) && Bal(Above(c, t))
  {
  }

  // ---------- rotations ----------

  ghost function RotatedLeft<N>(t: Tree<N>): Tree<N>
    requires t.Node? && t.right.Node?
  {
    Node(Node(t.left, t.id, t.black, t.right.left), t.right.id, t.right.black, t.right.right)
  }

  ghost function RotatedRight<N>(t: Tree<N>): Tree<N>
    requires t.Node? && t.left.Node?
  {
    Node(t.left.left, t.left.id, t.left.black, Node(t.left.right, t.id, t.black, t.right))
  }

  lemma RotatedLeftSame<N>(t: Tree<N>)
    requires t.Node? && t.right.Node?
    ensures Ids(RotatedLeft(t)) == Ids(t)
    ensures Distinct(RotatedLeft(t)) <==> Distinct(t)
    ensures Seq(RotatedLeft(t)) == Seq(t)
  {
    assert Ids(t) == Ids(t.left) + {t.id} + (Ids(t.right.left) + {t.right.id} + Ids(t.right.right));
    RotatedLeftSeq(t);
  }

  lemma RotatedLeftSeq<N>(t: Tree<N>)
    requires t.Node? && t.right.Node?
    ensures Seq(RotatedLeft(t)) == Seq(t)
  {
    hide Seq;
    SeqNode(t);
    SeqNode(t.right);
    SeqNode(RotatedLeft(t));
    SeqNode(RotatedLeft(t).left);
    Turned(Seq(t.left), [t.id], Seq(t.right.left), [t.right.id], Seq(t.right.right));
  }

  lemma SeqNode<N>(t: Tree<N>)
    requires t.Node?
    ensures Seq(t) == Seq(t.left) + [t.id] + Seq(t.right)
    ensures t.left.Leaf? ==> Seq(t) == [t.id] + Seq(t.right)
  {
  }

  lemma Turned<N>(a: seq<N>, x: seq<N>, m: seq<N>, y: seq<N>, b: seq<N>)
    ensures a + x + (m + y + b) == (a + x + m) + y + b
  {
  }

  lemma RotatedRightSame<N>(t: Tree<N>)
    requires t.Node? && t.left.Node?
    ensures Ids(RotatedRight(t)) == Ids(t) && Seq(RotatedRight(t)) == Seq(t)
    ensures Distinct(RotatedRight(t)) <==> Distinct(t)
  {
    var t' := RotatedRight(t);
    assert RotatedLeft(t') == t;
    RotatedLeftSame(t');
  }

  // ---------- height ----------

  ghost function Height<N>(t: Tree<N>): nat
  {
    if t.Leaf? then 0
    else 1 + (if Height(t.left) > Height(t.right) then Height(t.left) else Height(t.right))
  }

  ghost function Size<N>(t: Tree<N>): nat
    ensures Size(t) == |Seq(t)|
  {
    if t.Leaf? then 0 else Size(t.left) + 1 + Size(t.right)
  }

  lemma {:induction false} BlackHeightBounds<N>(t: Tree<N>)
    requires Bal(t) && NoRR(t)
    ensures Size(t) + 1 >= Pow2(BH(t))
    ensures Height(t) <= 2 * BH(t) + (if BlackRoot(t) then 0 else 1)
  {
    if t.Node? {
      BlackHeightBounds(t.left);
      BlackHeightBounds(t.right);
    }
  }

  /** Height at most 2 * log2(n + 1), squared to stay in the integers. */
  lemma {:induction false} HeightBound<N>(t: Tree<N>)
    requires RedBlack(t)
    ensures Pow2(Height(t)) <= (|Seq(t)| + 1) * (|Seq(t)| + 1)
  {
    BlackHeightBounds(t);
    var h := BH(t);
    Pow2Add(h, h);
    Pow2Mono(Height(t), h + h);
    SquareMono(Pow2(h), Size(t) + 1);
  }
}
