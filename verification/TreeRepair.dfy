/** The recolourings and rotations of the fixup loops, on tree values. */
module TreeRepair {
  import opened TreeShape

  // ---------- repairing after an insertion ----------

  ghost function Blackened<N>(t: Tree<N>): Tree<N>
  {
    if t.Leaf? then Leaf else t.(black := true)
  }

  /** Red-black but for the red root of `t`, whose parent may be red too. */
  ghost predicate RedOffends<N>(c: Ctx<N>, t: Tree<N>)
  {
    t.Node? && !t.black && CtxOK(c, BH(t)) && Bal(t) && NoRR(t)
  }

  /** What the repair knows two levels up. */
  lemma Grandparent<N>(c: Ctx<N>, t: Tree<N>)
    requires RedOffends(c, t) && !c.Top? && !c.black
    ensures BlackAbove(c.up)
    ensures var P := Above(c, t); var G := Above(c.up, P);
            && CtxOK(c.up.up, BH(G)) && Bal(G) && Bal(P)
            && NoRR(P.left) && NoRR(P.right) && NoRR(Blackened(G.left)) && NoRR(Blackened(G.right))
  {
    CtxUp(c, t);
    CtxUp(c.up, Above(c, t));
    assert NoRR(Blackened(Above(c, t)));
  }

  /** Rotating the red parent makes the inner red child the outer one. */
  lemma InnerLeft<N>(c: Ctx<N>, t: Tree<N>)
    requires t.Node? && t.left.Node? && !t.left.black && t.left.right.Node? && !t.left.right.black
    requires Bal(t) && NoRR(t.left.left) && NoRR(t.left.right) && BlackRoot(t.left.left)
    ensures var p := RotatedLeft(t.left); var t' := t.(left := p);
            && Bal(t') && BH(t') == BH(t) && Seq(Plug(c, t')) == Seq(Plug(c, t))
            && !p.left.black && NoRR(p.left) && NoRR(p.right) && BlackRoot(p.right)
  {
    assert Bal(t.left) && Bal(t.left.right);
    RotatedLeftSame(t.left);
    SameSeq(c, t, t.(left := RotatedLeft(t.left)));
  }

  lemma InnerRight<N>(c: Ctx<N>, t: Tree<N>)
    requires t.Node? && t.right.Node? && !t.right.black && t.right.left.Node? && !t.right.left.black
    requires Bal(t) && NoRR(t.right.right) && NoRR(t.right.left) && BlackRoot(t.right.right)
    ensures var p := RotatedRight(t.right); var t' := t.(right := p);
            && Bal(t') && BH(t') == BH(t) && Seq(Plug(c, t')) == Seq(Plug(c, t))
            && !p.right.black && NoRR(p.right) && NoRR(p.left) && BlackRoot(p.left)
  {
    assert Bal(t.right) && Bal(t.right.left);
    RotatedRightSame(t.right);
    SameSeq(c, t, t.(right := RotatedRight(t.right)));
  }

  ghost function PushedRed<N>(t: Tree<N>): Tree<N>
    requires t.Node? && t.left.Node? && t.right.Node?
  {
    Node(t.left.(black := true), t.id, false, t.right.(black := true))
  }

  lemma PushedRedOK<N>(c: Ctx<N>, t: Tree<N>)
    requires t.Node? && t.black && t.left.Node? && !t.left.black && t.right.Node? && !t.right.black
    requires CtxOK(c, BH(t)) && Bal(t) && NoRR(Blackened(t.left)) && NoRR(Blackened(t.right))
    ensures RedOffends(c, PushedRed(t))
    ensures Seq(Plug(c, PushedRed(t))) == Seq(Plug(c, t))
  {
    SameSeq(c, t, PushedRed(t));
  }

  ghost function LiftedLeft<N>(t: Tree<N>): Tree<N>
    requires t.Node? && t.left.Node?
  {
    Node(t.left.left, t.left.id, true, Node(t.left.right, t.id, false, t.right))
  }

  lemma LiftedLeftOK<N>(c: Ctx<N>, t: Tree<N>)
    requires t.Node? && t.black && t.left.Node? && !t.left.black && t.left.left.Node? && !t.left.left.black
    requires CtxOK(c, BH(t)) && Bal(t) && NoRR(t.left.left) && NoRR(t.left.right) && NoRR(t.right)
    requires BlackRoot(t.left.right) && BlackRoot(t.right)
    ensures var t' := LiftedLeft(t);
            && RedOffends(InL(c, t'.id, true, t'.right), t'.left)
            && Seq(Plug(c, t')) == Seq(Plug(c, t))
  {
    RotatedRightSame(t);
    assert Seq(LiftedLeft(t)) == Seq(RotatedRight(t));
    SameSeq(c, t, LiftedLeft(t));
  }

  ghost function LiftedRight<N>(t: Tree<N>): Tree<N>
    requires t.Node? && t.right.Node?
  {
    Node(Node(t.left, t.id, false, t.right.left), t.right.id, true, t.right.right)
  }

  lemma LiftedRightOK<N>(c: Ctx<N>, t: Tree<N>)
    requires t.Node? && t.black && t.right.Node? && !t.right.black && t.right.right.Node? && !t.right.right.black
    requires CtxOK(c, BH(t)) && Bal(t) && NoRR(t.right.right) && NoRR(t.right.left) && NoRR(t.left)
    requires BlackRoot(t.right.left) && BlackRoot(t.left)
    ensures var t' := LiftedRight(t);
            && RedOffends(InR(c, t'.left, t'.id, true), t'.right)
            && Seq(Plug(c, t')) == Seq(Plug(c, t))
  {
    RotatedLeftSame(t);
    assert Seq(LiftedRight(t)) == Seq(RotatedLeft(t));
    SameSeq(c, t, LiftedRight(t));
  }

  // ---------- repairing after a deletion ----------

  /** The filling `t` is one black node short, and only its root may offend. */
  ghost predicate Short<N>(c: Ctx<N>, t: Tree<N>)
  {
    Bal(t) && NoRR(Blackened(t)) && CtxOK(c, BH(t) + 1)
  }

  /** A shortage that blackening the root of `t` ends. */
  ghost predicate Settled<N>(c: Ctx<N>, t: Tree<N>)
  {
    Bal(t) && NoRR(Blackened(t)) && (c.Top? || (!BlackRoot(t) && Short(c, t)))
  }

  lemma SettledOK<N>(c: Ctx<N>, t: Tree<N>)
    requires Settled(c, t)
    ensures RedBlack(Plug(c, Blackened(t))) && Seq(Plug(c, Blackened(t))) == Seq(Plug(c, t))
  {
    PlugRedBlack(c, Blackened(t));
    SameSeq(c, t, Blackened(t));
  }

  /** Removing a node with at most one child: a black one leaves a shortage, a red one none. */
  lemma SplicedBlack<N>(c: Ctx<N>, t: Tree<N>, t': Tree<N>)
    requires RedBlack(Plug(c, t)) && t.Node? && t.black
    requires (t.left.Leaf? && t' == t.right) || (t.right.Leaf? && t' == t.left)
    ensures Short(c, t')
  {
    PlugRedBlack(c, t);
    ThinNode(t, t');
  }

  lemma SplicedRed<N>(c: Ctx<N>, t: Tree<N>, t': Tree<N>)
    requires RedBlack(Plug(c, t)) && t.Node? && !t.black
    requires (t.left.Leaf? && t' == t.right) || (t.right.Leaf? && t' == t.left)
    ensures RedBlack(Plug(c, t'))
  {
    PlugRedBlack(c, t);
    ThinNode(t, t');
    PlugRedBlack(c, t');
  }

  lemma ThinNode<N>(t: Tree<N>, t': Tree<N>)
    requires Bal(t) && NoRR(t) && t.Node?
    requires (t.left.Leaf? && t' == t.right) || (t.right.Leaf? && t' == t.left)
    ensures BH(t) == (if t.black then 1 else 0) && BH(t') == 0
    ensures Bal(t') && NoRR(t') && NoRR(Blackened(t')) && (!t.black ==> BlackRoot(t'))
  {
    assert t'.Node? ==> NoRR(t'.left) && NoRR(t'.right);
  }

  /** The node at the end of a leftmost path. */
  ghost predicate LeftSpine<N>(c: Ctx<N>)
  {
    c.Top? || (c.InL? && LeftSpine(c.up))
  }

  lemma {:induction false} NothingBefore<N>(c: Ctx<N>)
    requires LeftSpine(c)
    ensures Before(c) == []
  {
    if !c.Top? {
      NothingBefore(c.up);
    }
  }

  ghost predicate RightSpine<N>(c: Ctx<N>)
  {
    c.Top? || (c.InR? && RightSpine(c.up))
  }

  lemma {:induction false} NothingAfter<N>(c: Ctx<N>)
    requires RightSpine(c)
    ensures After(c) == []
  {
    if !c.Top? {
      NothingAfter(c.up);
    }
  }

  /** Contexts that differ in the name of one node accept the same fillings. */
  lemma {:induction false} RenamedCtx<N>(a: Ctx<N>, up: Ctx<N>, l: Tree<N>, x: N, y: N, black: bool, h: nat)
    ensures CtxOK(Append(a, InR(up, l, x, black)), h) <==> CtxOK(Append(a, InR(up, l, y, black)), h)
    ensures BlackAbove(Append(a, InR(up, l, x, black))) <==> BlackAbove(Append(a, InR(up, l, y, black)))
  {
    match a
    case Top =>
    case InL(b, _, k, r) => RenamedCtx(b, up, l, x, y, black, if k then h + 1 else h);
    case InR(b, _, _, k) => RenamedCtx(b, up, l, x, y, black, if k then h + 1 else h);
  }

  lemma OnlyOnce<N>(a: seq<N>, x: N, b: seq<N>)
    requires NoDup(a + [x] + b)
    ensures x !in a
  {
    var s := a + [x] + b;
    assert s[|a|] == x;
    assert forall k :: 0 <= k < |a| ==> a[k] == s[k] && s[k] != s[|a|];
  }

  lemma RemovedNode<N>(c: Ctx<N>, t: Tree<N>)
    requires t.Node? && Distinct(Plug(c, t))
    ensures Seq(Plug(c, t)) == (Before(c) + Seq(t.left)) + [t.id] + (Seq(t.right) + After(c))
    ensures Removed(Seq(Plug(c, t)), t.id) == (Before(c) + Seq(t.left)) + (Seq(t.right) + After(c))
  {
    PlugSeqNode(c, t);
    SeqNoDup(Plug(c, t));
    OnlyOnce(Before(c) + Seq(t.left), t.id, Seq(t.right) + After(c));
    RemovedMiddle(Before(c) + Seq(t.left), t.id, Seq(t.right) + After(c));
  }

  lemma OuterSeq<N>(c: Ctx<N>, t: Tree<N>, t': Tree<N>)
    requires t.Node? && Distinct(Plug(c, t))
    requires (t.left.Leaf? && t' == t.right) || (t.right.Leaf? && t' == t.left)
    ensures Seq(Plug(c, t')) == Removed(Seq(Plug(c, t)), t.id)
  {
    RemovedNode(c, t);
    PlugSeq(c, t');
    Splice(Before(c), Seq(t.left), Seq(t.right), After(c));
  }

  lemma Splice<N>(a: seq<N>, l: seq<N>, r: seq<N>, b: seq<N>)
    ensures l == [] ==> (a + l) + (r + b) == a + r + b
    ensures r == [] ==> (a + l) + (r + b) == a + l + b
  {
  }

  /** What is left of a sequence without one of its nodes. */
  lemma RemovedSplit<N>(s: seq<N>, n: N) returns (a: seq<N>, b: seq<N>)
    requires NoDup(s) && n in s
    ensures s == a + [n] + b && Removed(s, n) == a + b && n !in a && n !in b
  {
    var k :| 0 <= k < |s| && s[k] == n;
    a, b := s[..k], s[k + 1..];
    assert s == a + [n] + b;
    OnlyOnce(a, n, b);
    assert forall i :: 0 <= i < |b| ==> b[i] == s[k + 1 + i] && s[k + 1 + i] != s[k];
    RemovedMiddle(a, n, b);
  }

  lemma RemovedIds<N>(t: Tree<N>, t': Tree<N>, n: N, a: seq<N>, b: seq<N>)
    requires Seq(t) == a + [n] + b && Seq(t') == a + b && n !in a && n !in b
    ensures Ids(t') == Ids(t) - {n}
  {
    forall x | x in Ids(t') ensures x in Ids(t) - {n} {
      InSeq(t', x);
      InSeq(t, x);
      assert x in a || x in b;
    }
    forall x | x in Ids(t) - {n} ensures x in Ids(t') {
      InSeq(t', x);
      InSeq(t, x);
      assert x in a || x in b;
    }
  }

  lemma SuccessorBlack<N>(a: Ctx<N>, up: Ctx<N>, l: Tree<N>, x: N, y: N, black: bool, s: Tree<N>)
    requires RedBlack(Plug(Append(a, InR(up, l, x, black)), s)) && s.Node? && s.left.Leaf? && s.black
    ensures Short(Append(a, InR(up, l, y, black)), s.right)
  {
    SplicedBlack(Append(a, InR(up, l, x, black)), s, s.right);
    RenamedCtx(a, up, l, x, y, black, BH(s.right) + 1);
  }

  lemma SuccessorRed<N>(a: Ctx<N>, up: Ctx<N>, l: Tree<N>, x: N, y: N, black: bool, s: Tree<N>)
    requires RedBlack(Plug(Append(a, InR(up, l, x, black)), s)) && s.Node? && s.left.Leaf? && !s.black
    ensures RedBlack(Plug(Append(a, InR(up, l, y, black)), s.right))
  {
    var cx, cy := Append(a, InR(up, l, x, black)), Append(a, InR(up, l, y, black));
    SplicedRed(cx, s, s.right);
    PlugRedBlack(cx, s.right);
    RenamedCtx(a, up, l, x, y, black, BH(s.right));
    PlugRedBlack(cy, s.right);
  }

  /** Putting the successor of an inner node `x` in its place removes `x` from the sequence. */
  lemma SuccessorSeq<N>(c: Ctx<N>, l: Tree<N>, x: N, black: bool, a: Ctx<N>, s: Tree<N>)
    requires LeftSpine(a) && s.Node? && s.left.Leaf?
    requires Distinct(Plug(c, Node(l, x, black, Plug(a, s))))
    ensures Seq(Plug(Append(a, InR(c, l, s.id, black)), s.right))
            == Removed(Seq(Plug(c, Node(l, x, black, Plug(a, s)))), x)
  {
    AppendPlug(a, InR(c, l, s.id, black), s.right);
    PlugSeqNode(c, Node(l, s.id, black, Plug(a, s.right)));
    RemovedNode(c, Node(l, x, black, Plug(a, s)));
    SpineSeq(a, s);
    MoveOver(Before(c) + Seq(l), [s.id], Seq(Plug(a, s.right)), After(c));
  }

  lemma MoveOver<N>(a: seq<N>, x: seq<N>, m: seq<N>, b: seq<N>)
    ensures a + x + (m + b) == a + ((x + m) + b)
  {
  }

  lemma SpineSeq<N>(a: Ctx<N>, s: Tree<N>)
    requires LeftSpine(a) && s.Node? && s.left.Leaf?
    ensures Seq(Plug(a, s)) == [s.id] + Seq(Plug(a, s.right))
  {
    hide Seq, Plug, Before, After, LeftSpine;
    NothingBefore(a);
    PlugSeq(a, s);
    PlugSeq(a, s.right);
    SeqNode(s);
    Front(s.id, Seq(s.right), After(a));
  }

  lemma Front<N>(x: N, r: seq<N>, b: seq<N>)
    ensures [] + ([x] + r) + b == [x] + ([] + r + b)
  {
  }

  /** A red sibling, turned above the parent, leaves a black sibling. */
  lemma RedSiblingLeft<N>(c: Ctx<N>, t: Tree<N>)
    requires Short(c, t) && BlackRoot(t) && c.InL? && !BlackRoot(c.right)
    ensures var s := c.right;
            var c' := InL(InL(c.up, s.id, true, s.right), c.id, false, s.left);
            && c.black && s.left.Node? && s.left.black
            && Short(c', t) && Seq(Plug(c', t)) == Seq(Plug(c, t))
            && Above(c'.up, Above(c', t)) == RotatedLeft(Node(t, c.id, false, s.(black := true)))
  {
    var s := c.right;
    var P := Above(c, t);
    assert Bal(s) && NoRR(s);
    RotatedLeftSame(P);
    var P' := Node(Node(t, c.id, false, s.left), s.id, true, s.right);
    assert Seq(P') == Seq(RotatedLeft(P));
    SameSeq(c.up, P, P');
  }

  /** A black sibling with no red child turns red, and the shortage moves up. */
  lemma PlainSiblingLeft<N>(c: Ctx<N>, t: Tree<N>)
    requires Short(c, t) && BlackRoot(t) && c.InL? && c.right.Node? && c.right.black
    requires BlackRoot(c.right.left) && BlackRoot(c.right.right)
    ensures var t' := Node(t, c.id, c.black, c.right.(black := false));
            Short(c.up, t') && Seq(Plug(c.up, t')) == Seq(Plug(c, t))
  {
    var t' := Node(t, c.id, c.black, c.right.(black := false));
    SameSeq(c.up, Above(c, t), t');
  }

  /** A red inner nephew is turned outwards. */
  lemma InnerNephewLeft<N>(c: Ctx<N>, t: Tree<N>)
    requires Short(c, t) && BlackRoot(t) && c.InL? && c.right.Node? && c.right.black
    requires !BlackRoot(c.right.left) && BlackRoot(c.right.right)
    ensures var s := c.right;
            var s' := RotatedRight(Node(s.left.(black := true), s.id, false, s.right));
            && Short(c.(right := s'), t) && Seq(Plug(c.(right := s'), t)) == Seq(Plug(c, t))
  {
    var s := c.right;
    var s1 := Node(s.left.(black := true), s.id, false, s.right);
    var s' := RotatedRight(s1);
    RotatedRightSame(s1);
    assert Seq(s1) == Seq(s);
    assert Bal(s) && NoRR(s) && Bal(s.left) && NoRR(s.left);
    assert BH(s.left.right) == BH(s.left.left) == BH(s.left) == BH(s.right);
    assert s' == Node(s.left.left, s.left.id, true, Node(s.left.right, s.id, false, s.right));
    assert Bal(s'.right) && NoRR(s'.right) && BH(s'.right) == BH(s'.left) == BH(s.left);
    assert Bal(s') && NoRR(s') && BH(s') == BH(s);
    SameSeq(c.up, Above(c, t), Above(c.(right := s'), t));
  }

  ghost function TurnedOuterLeft<N>(c: Ctx<N>, t: Tree<N>): Tree<N>
    requires c.InL? && c.right.Node? && c.right.right.Node?
  {
    var s := c.right;
    RotatedLeft(Node(t, c.id, true, Node(s.left, s.id, c.black, s.right.(black := true))))
  }

  /** With a red outer nephew one rotation ends the shortage. */
  lemma OuterNephewLeft<N>(c: Ctx<N>, t: Tree<N>)
    requires Short(c, t) && BlackRoot(t) && c.InL? && c.right.Node? && c.right.black && !BlackRoot(c.right.right)
    ensures var t' := TurnedOuterLeft(c, t);
            RedBlack(Plug(c.up, t')) && Seq(Plug(c.up, t')) == Seq(Plug(c, t))
  {
    var s := c.right;
    var P := Node(t, c.id, true, Node(s.left, s.id, c.black, s.right.(black := true)));
    RotatedLeftSame(P);
    assert Seq(P.right) == Seq(s);
    assert Seq(P) == Seq(Above(c, t));
    assert Bal(s.right) && NoRR(s.right);
    var t' := RotatedLeft(P);
    assert Bal(t'.left) && Bal(t'.right) && NoRR(t'.left) && NoRR(t'.right);
    assert Bal(t') && NoRR(t') && CtxOK(c.up, BH(t'));
    SameSeq(c.up, Above(c, t), t');
    PlugRedBlack(c.up, t');
  }

  /** A red sibling, turned above the parent, leaves a black sibling. */
  lemma RedSiblingRight<N>(c: Ctx<N>, t: Tree<N>)
    requires Short(c, t) && BlackRoot(t) && c.InR? && !BlackRoot(c.left)
    ensures var s := c.left;
            var c' := InR(InR(c.up, s.left, s.id, true), s.right, c.id, false);
            && c.black && s.right.Node? && s.right.black
            && Short(c', t) && Seq(Plug(c', t)) == Seq(Plug(c, t))
            && Above(c'.up, Above(c', t)) == RotatedRight(Node(s.(black := true), c.id, false, t))
  {
    var s := c.left;
    var P := Above(c, t);
    assert Bal(s) && NoRR(s);
    RotatedRightSame(P);
    var P' := Node(s.left, s.id, true, Node(s.right, c.id, false, t));
    assert Seq(P') == Seq(RotatedRight(P));
    SameSeq(c.up, P, P');
  }

  /** A black sibling with no red child turns red, and the shortage moves up. */
  lemma PlainSiblingRight<N>(c: Ctx<N>, t: Tree<N>)
    requires Short(c, t) && BlackRoot(t) && c.InR? && c.left.Node? && c.left.black
    requires BlackRoot(c.left.right) && BlackRoot(c.left.left)
    ensures var t' := Node(c.left.(black := false), c.id, c.black, t);
            Short(c.up, t') && Seq(Plug(c.up, t')) == Seq(Plug(c, t))
  {
    var t' := Node(c.left.(black := false), c.id, c.black, t);
    SameSeq(c.up, Above(c, t), t');
  }

  /** A red inner nephew is turned outwards. */
  lemma InnerNephewRight<N>(c: Ctx<N>, t: Tree<N>)
    requires Short(c, t) && BlackRoot(t) && c.InR? && c.left.Node? && c.left.black
    requires !BlackRoot(c.left.right) && BlackRoot(c.left.left)
    ensures var s := c.left;
            var s' := RotatedLeft(Node(s.left, s.id, false, s.right.(black := true)));
            && Short(c.(left := s'), t) && Seq(Plug(c.(left := s'), t)) == Seq(Plug(c, t))
  {
    var s := c.left;
    var s1 := Node(s.left, s.id, false, s.right.(black := true));
    var s' := RotatedLeft(s1);
    RotatedLeftSame(s1);
    assert Seq(s1) == Seq(s);
    assert Bal(s) && NoRR(s) && Bal(s.right) && NoRR(s.right);
    assert BH(s.right.right) == BH(s.right.left) == BH(s.right) == BH(s.left);
    assert s' == Node(Node(s.left, s.id, false, s.right.left), s.right.id, true, s.right.right);
    assert Bal(s'.left) && NoRR(s'.left) && BH(s'.left) == BH(s'.right) == BH(s.left);
    assert Bal(s') && NoRR(s') && BH(s') == BH(s);
    SameSeq(c.up, Above(c, t), Above(c.(left := s'), t));
  }

  ghost function TurnedOuterRight<N>(c: Ctx<N>, t: Tree<N>): Tree<N>
    requires c.InR? && c.left.Node? && c.left.left.Node?
  {
    var s := c.left;
    RotatedRight(Node(Node(s.left.(black := true), s.id, c.black, s.right), c.id, true, t))
  }

  /** With a red outer nephew one rotation ends the shortage. */
  lemma OuterNephewRight<N>(c: Ctx<N>, t: Tree<N>)
    requires Short(c, t) && BlackRoot(t) && c.InR? && c.left.Node? && c.left.black && !BlackRoot(c.left.left)
    ensures var t' := TurnedOuterRight(c, t);
            RedBlack(Plug(c.up, t')) && Seq(Plug(c.up, t')) == Seq(Plug(c, t))
  {
    var s := c.left;
    var P := Node(Node(s.left.(black := true), s.id, c.black, s.right), c.id, true, t);
    RotatedRightSame(P);
    assert Seq(P.left) == Seq(s);
    assert Seq(P) == Seq(Above(c, t));
    assert Bal(s.left) && NoRR(s.left);
    var t' := RotatedRight(P);
    assert Bal(t'.left) && Bal(t'.right) && NoRR(t'.left) && NoRR(t'.right);
    assert Bal(t') && NoRR(t') && CtxOK(c.up, BH(t'));
    SameSeq(c.up, Above(c, t), t');
    PlugRedBlack(c.up, t');
  }
}
