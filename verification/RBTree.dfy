/** The intrusive red-black tree of kernel/lib/rbtree.c: linked nodes with parent links,
    rebalanced bottom-up after insertion and deletion.

    Each method is proved against a tree value (`tree`), and the loops carry a context `c`
    and a subtree `t` with `Plug(c, t)` the tree being repaired. */
module RBTrees {
  import opened TreeRepair
  import opened TreeShape

  /** `black` and `parent` share one word in the source. */
  class RBNode<K(!new)> {
    var key: K
    var parent: RBNode?<K>
    var left: RBNode?<K>
    var right: RBNode?<K>
    var black: bool

    constructor (key: K)
      ensures this.key == key
    {
      this.key := key;
      parent, left, right, black := null, null, null, false;
    }
  }

  // ---------- ordering ----------

  ghost predicate Asymmetric<K>(less: (K, K) -> bool, a: K, b: K)
  {
    less(a, b) ==> !less(b, a)
  }

  ghost predicate Chains<K>(less: (K, K) -> bool, a: K, b: K, c: K)
  {
    !less(a, b) && !less(b, c) ==> !less(a, c)
  }

  /** What the tree needs of its comparator: a strict weak order. */
  ghost predicate StrictWeak<K(!new)>(less: (K, K) -> bool)
  {
    && (forall a, b :: Asymmetric(less, a, b))
    && (forall a, b, c :: Chains(less, a, b, c))
  }

  /** `s` ascends: no later node has a key below an earlier one's. */
  ghost predicate SortedBy<K(!new)>(less: (K, K) -> bool, keys: map<RBNode<K>, K>, s: seq<RBNode<K>>)
  {
    && (forall n :: n in s ==> n in keys)
    && (forall i, j :: 0 <= i < j < |s| ==> !less(keys[s[j]], keys[s[i]]))
  }

  /** Everything in `a` stays before a node with key `k`, everything in `b` after it. */
  ghost predicate Separates<K(!new)>(less: (K, K) -> bool, keys: map<RBNode<K>, K>, k: K,
                                     a: seq<RBNode<K>>, b: seq<RBNode<K>>)
  {
    && (forall e :: e in a ==> e in keys && !less(k, keys[e]))
    && (forall e :: e in b ==> e in keys && less(k, keys[e]))
  }

  lemma SortedMiddle<K(!new)>(less: (K, K) -> bool, keys: map<RBNode<K>, K>, a: seq<RBNode<K>>, x: RBNode<K>,
                              b: seq<RBNode<K>>)
    requires SortedBy(less, keys, a + [x] + b)
    ensures x in keys
    ensures forall e :: e in a ==> e in keys && !less(keys[x], keys[e])
    ensures forall e :: e in b ==> e in keys && !less(keys[e], keys[x])
  {
    var s := a + [x] + b;
    assert s[|a|] == x;
    forall e | e in a ensures e in keys && !less(keys[x], keys[e]) {
      var k :| 0 <= k < |a| && a[k] == e;
      assert s[k] == e;
    }
    forall e | e in b ensures e in keys && !less(keys[e], keys[x]) {
      var k :| 0 <= k < |b| && b[k] == e;
      assert s[|a| + 1 + k] == e;
    }
  }

  lemma SortedWithout<K(!new)>(less: (K, K) -> bool, keys: map<RBNode<K>, K>, a: seq<RBNode<K>>, x: RBNode<K>,
                               b: seq<RBNode<K>>)
    requires SortedBy(less, keys, a + [x] + b) && x !in a && x !in b
    ensures SortedBy(less, keys - {x}, a + b)
  {
    var s, s' := a + [x] + b, a + b;
    forall n | n in s' ensures n in keys - {x} {
      assert n in s;
    }
    forall i, j | 0 <= i < j < |s'| ensures !less(keys[s'[j]], keys[s'[i]]) {
      var i', j' := if i < |a| then i else i + 1, if j < |a| then j else j + 1;
      assert s[i'] == s'[i] && s[j'] == s'[j];
    }
  }

  /** One comparison of the descent: everything right of a node that comes after `k` comes
      after `k`, and everything left of one that does not, does not. */
  lemma SplitRight<K(!new)>(less: (K, K) -> bool, keys: map<RBNode<K>, K>, k: K,
                            a: seq<RBNode<K>>, x: RBNode<K>, b: seq<RBNode<K>>)
    requires StrictWeak(less) && SortedBy(less, keys, a + [x] + b) && x in keys && less(k, keys[x])
    ensures forall e :: e in b ==> e in keys && less(k, keys[e])
  {
    SortedMiddle(less, keys, a, x, b);
    forall e | e in b ensures less(k, keys[e]) {
      assert Chains(less, k, keys[e], keys[x]);
    }
  }

  lemma SplitLeft<K(!new)>(less: (K, K) -> bool, keys: map<RBNode<K>, K>, k: K,
                           a: seq<RBNode<K>>, x: RBNode<K>, b: seq<RBNode<K>>)
    requires StrictWeak(less) && SortedBy(less, keys, a + [x] + b) && x in keys && !less(k, keys[x])
    ensures forall e :: e in a ==> e in keys && !less(k, keys[e])
  {
    SortedMiddle(less, keys, a, x, b);
    forall e | e in a ensures !less(k, keys[e]) {
      assert Chains(less, k, keys[x], keys[e]);
    }
  }

  lemma SplitSorted<K(!new)>(less: (K, K) -> bool, keys: map<RBNode<K>, K>, k: K, c: Ctx<RBNode<K>>, t: Tree<RBNode<K>>)
    requires StrictWeak(less) && t.Node? && SortedBy(less, keys, Seq(Plug(c, t)))
    requires Separates(less, keys, k, Before(c), After(c))
    ensures t.id in keys
    ensures less(k, keys[t.id]) ==> Separates(less, keys, k, Before(c), After(InL(c, t.id, t.black, t.right)))
    ensures !less(k, keys[t.id]) ==> Separates(less, keys, k, Before(InR(c, t.left, t.id, t.black)), After(c))
  {
    hide StrictWeak, SortedBy, Plug;
    PlugSeqNode(c, t);
    var a, x, b := Before(c) + Seq(t.left), t.id, Seq(t.right) + After(c);
    SortedMiddle(less, keys, a, x, b);
    if less(k, keys[x]) {
      SplitRight(less, keys, k, a, x, b);
      assert After(InL(c, x, t.black, t.right)) == [x] + b;
    } else {
      SplitLeft(less, keys, k, a, x, b);
      assert Before(InR(c, t.left, x, t.black)) == a + [x];
    }
  }

  lemma SortedInsert<K(!new)>(less: (K, K) -> bool, keys: map<RBNode<K>, K>, a: seq<RBNode<K>>, node: RBNode<K>, k: K,
                              b: seq<RBNode<K>>)
    requires StrictWeak(less) && SortedBy(less, keys, a + b) && Separates(less, keys, k, a, b)
    requires node !in keys
    ensures SortedBy(less, keys[node := k], a + [node] + b)
  {
    var s, s', ks := a + b, a + [node] + b, keys[node := k];
    forall i, j | 0 <= i < j < |s'| ensures !less(ks[s'[j]], ks[s'[i]]) {
      if i == |a| {
        assert s'[j] == b[j - |a| - 1] && Asymmetric(less, k, ks[s'[j]]);
      } else if j == |a| {
        assert s'[i] == a[i];
      } else {
        var i', j' := if i < |a| then i else i - 1, if j < |a| then j else j - 1;
        assert s[i'] == s'[i] && s[j'] == s'[j];
      }
    }
  }

  /** The links of one node, as a value. */
  datatype Cell<K(!new)> = Cell(left: RBNode?<K>, right: RBNode?<K>, parent: RBNode?<K>, black: bool)

  type Mem<K(!new)> = map<RBNode<K>, Cell<K>>

  // ---------- what the links have to look like ----------

  ghost function Ptr<K(!new)>(t: Tree<RBNode<K>>): RBNode?<K>
  {
    if t.Leaf? then null else t.id
  }

  /** The parent of whatever fills the hole; `bp` is the parent of the whole. */
  ghost function CPar<K(!new)>(c: Ctx<RBNode<K>>, bp: RBNode?<K>): RBNode?<K>
  {
    if c.Top? then bp else c.id
  }

  ghost function RootOf<K(!new)>(c: Ctx<RBNode<K>>, hole: RBNode?<K>): RBNode?<K>
  {
    match c
    case Top => hole
    case InL(up, id, _, _) => RootOf(up, id)
    case InR(up, _, id, _) => RootOf(up, id)
  }

  /** The memory `m` holds the tree `t`, and `par` is its root's parent link. */
  ghost predicate Rep<K(!new)>(m: Mem<K>, t: Tree<RBNode<K>>, par: RBNode?<K>)
  {
    t.Node? ==>
      && t.id in m && m[t.id] == Cell(Ptr(t.left), Ptr(t.right), par, t.black)
      && Rep(m, t.left, t.id) && Rep(m, t.right, t.id)
  }

  ghost predicate RepC<K(!new)>(m: Mem<K>, c: Ctx<RBNode<K>>, hole: RBNode?<K>, bp: RBNode?<K>)
  {
    match c
    case Top => true
    case InL(up, id, b, r) =>
      && id in m && m[id] == Cell(hole, Ptr(r), CPar(up, bp), b)
      && Rep(m, r, id) && RepC(m, up, id, bp)
    case InR(up, l, id, b) =>
      && id in m && m[id] == Cell(Ptr(l), hole, CPar(up, bp), b)
      && Rep(m, l, id) && RepC(m, up, id, bp)
  }

  /** `m` holds `Plug(c, t)`, seen from the subtree `t`. */
  ghost predicate At<K(!new)>(m: Mem<K>, root: RBNode?<K>, c: Ctx<RBNode<K>>, t: Tree<RBNode<K>>)
  {
    && CDistinct(c) && Distinct(t) && CIds(c) !! Ids(t)
    && root == RootOf(c, Ptr(t))
    && RepC(m, c, Ptr(t), null) && Rep(m, t, CPar(c, null))
  }

  /** Above a subtree there is another root. */
  lemma {:induction false} RootAbove<K(!new)>(c: Ctx<RBNode<K>>, hole: RBNode?<K>)
    ensures !c.Top? ==> RootOf(c, hole) != null && RootOf(c, hole) in CIds(c)
  {
    match c
    case Top =>
    case InL(up, id, _, _) => RootAbove(up, id);
    case InR(up, _, id, _) => RootAbove(up, id);
  }

  lemma {:induction false} RepFrame<K(!new)>(m: Mem<K>, m': Mem<K>, t: Tree<RBNode<K>>, par: RBNode?<K>)
    requires Rep(m, t, par)
    requires forall n :: n in Ids(t) && n in m ==> n in m' && m'[n] == m[n]
    ensures Rep(m', t, par)
  {
    if t.Node? {
      RepFrame(m, m', t.left, t.id);
      RepFrame(m, m', t.right, t.id);
    }
  }

  lemma {:induction false} RepCFrame<K(!new)>(m: Mem<K>, m': Mem<K>, c: Ctx<RBNode<K>>, hole: RBNode?<K>,
                                              bp: RBNode?<K>)
    requires RepC(m, c, hole, bp)
    requires forall n :: n in CIds(c) && n in m ==> n in m' && m'[n] == m[n]
    ensures RepC(m', c, hole, bp)
  {
    match c
    case Top =>
    case InL(up, id, b, r) => RepFrame(m, m', r, id); RepCFrame(m, m', up, id, bp);
    case InR(up, l, id, b) => RepFrame(m, m', l, id); RepCFrame(m, m', up, id, bp);
  }

  lemma AtFrame<K(!new)>(m: Mem<K>, m': Mem<K>, root: RBNode?<K>, c: Ctx<RBNode<K>>, t: Tree<RBNode<K>>)
    requires At(m, root, c, t)
    requires forall n :: n in CIds(c) + Ids(t) && n in m ==> n in m' && m'[n] == m[n]
    ensures At(m', root, c, t)
  {
    RepFrame(m, m', t, CPar(c, null));
    RepCFrame(m, m', c, Ptr(t), null);
  }

  lemma {:induction false} RepPlug<K(!new)>(m: Mem<K>, c: Ctx<RBNode<K>>, t: Tree<RBNode<K>>, bp: RBNode?<K>)
    ensures Rep(m, Plug(c, t), bp) <==> RepC(m, c, Ptr(t), bp) && Rep(m, t, CPar(c, bp))
    ensures Ptr(Plug(c, t)) == RootOf(c, Ptr(t))
  {
    match c
    case Top =>
    case InL(up, id, b, r) => RepPlug(m, up, Node(t, id, b, r), bp);
    case InR(up, l, id, b) => RepPlug(m, up, Node(l, id, b, t), bp);
  }

  lemma AtInner<K(!new)>(m: Mem<K>, root: RBNode?<K>, a: Ctx<RBNode<K>>, d: Ctx<RBNode<K>>, t: Tree<RBNode<K>>)
    ensures At(m, root, Append(a, d), t) <==> At(m, root, d, Plug(a, t))
  {
    AtPlug(m, root, Append(a, d), t);
    AtPlug(m, root, d, Plug(a, t));
    AppendPlug(a, d, t);
  }

  /** Moving the focus does not change what is held. */
  lemma AtPlug<K(!new)>(m: Mem<K>, root: RBNode?<K>, c: Ctx<RBNode<K>>, t: Tree<RBNode<K>>)
    ensures At(m, root, c, t) <==> At(m, root, Top, Plug(c, t))
  {
    RepPlug(m, c, t, null);
    PlugIds(c, t);
  }

  lemma {:induction false} RepAppend<K(!new)>(m: Mem<K>, a: Ctx<RBNode<K>>, b: Ctx<RBNode<K>>, hole: RBNode?<K>,
                                              bp: RBNode?<K>)
    ensures RepC(m, Append(a, b), hole, bp) <==>
            RepC(m, a, hole, CPar(b, bp)) && RepC(m, b, RootOf(a, hole), bp)
    ensures RootOf(Append(a, b), hole) == RootOf(b, RootOf(a, hole))
    ensures CPar(Append(a, b), bp) == CPar(a, CPar(b, bp))
  {
    match a
    case Top =>
    case InL(up, id, k, r) => RepAppend(m, up, b, id, bp);
    case InR(up, l, id, k) => RepAppend(m, up, b, id, bp);
  }

  lemma ZoomL<K(!new)>(m: Mem<K>, root: RBNode?<K>, c: Ctx<RBNode<K>>, t: Tree<RBNode<K>>)
    requires t.Node?
    ensures At(m, root, c, t) <==> At(m, root, InL(c, t.id, t.black, t.right), t.left)
  {
  }

  lemma ZoomR<K(!new)>(m: Mem<K>, root: RBNode?<K>, c: Ctx<RBNode<K>>, t: Tree<RBNode<K>>)
    requires t.Node?
    ensures At(m, root, c, t) <==> At(m, root, InR(c, t.left, t.id, t.black), t.right)
  {
  }

  lemma Unzoom<K(!new)>(m: Mem<K>, root: RBNode?<K>, c: Ctx<RBNode<K>>, t: Tree<RBNode<K>>)
    requires !c.Top?
    ensures At(m, root, c, t) <==> At(m, root, c.up, Above(c, t))
  {
  }

  /** What the links at and above the focus are. */
  lemma FocusLinks<K(!new)>(m: Mem<K>, root: RBNode?<K>, c: Ctx<RBNode<K>>, t: Tree<RBNode<K>>)
    requires At(m, root, c, t)
    ensures t.Node? ==> t.id in m && m[t.id] == Cell(Ptr(t.left), Ptr(t.right), CPar(c, null), t.black)
    ensures !c.Top? ==> var u := Above(c, t);
                        c.id in m && m[c.id] == Cell(Ptr(u.left), Ptr(u.right), CPar(c.up, null), c.black)
    ensures !c.Top? && !c.up.Top? ==>
              var u := Above(c.up, Above(c, t));
              c.up.id in m && m[c.up.id] == Cell(Ptr(u.left), Ptr(u.right), CPar(c.up.up, null), c.up.black)
    ensures t.Node? && c.InR? ==> Ptr(c.left) != t.id
    ensures !c.Top? && c.up.InR? ==> Ptr(c.up.left) != c.id
  {
    if !c.Top? {
      Unzoom(m, root, c, t);
      if !c.up.Top? {
        Unzoom(m, root, c.up, Above(c, t));
      }
    }
  }

  /** What the repair finds beside a short left child. */
  lemma SiblingLinksLeft<K(!new)>(m: Mem<K>, root: RBNode?<K>, c: Ctx<RBNode<K>>, t: Tree<RBNode<K>>)
    requires At(m, root, c, t) && c.InL?
    ensures c.id in m && m[c.id].right == Ptr(c.right) && m[c.id].black == c.black
    ensures var s := c.right;
            s.Node? ==>
              && s.id in m && m[s.id] == Cell(Ptr(s.left), Ptr(s.right), c.id, s.black)
              && (s.left.Node? ==> s.left.id in m && m[s.left.id].black == s.left.black)
              && (s.right.Node? ==> s.right.id in m && m[s.right.id].black == s.right.black)
  {
    assert Rep(m, c.right, c.id);
    if c.right.Node? {
      assert Rep(m, c.right.left, c.right.id) && Rep(m, c.right.right, c.right.id);
    }
  }

  /** What the repair finds beside a short right child. */
  lemma SiblingLinksRight<K(!new)>(m: Mem<K>, root: RBNode?<K>, c: Ctx<RBNode<K>>, t: Tree<RBNode<K>>)
    requires At(m, root, c, t) && c.InR?
    ensures c.id in m && m[c.id].left == Ptr(c.left) && m[c.id].black == c.black
    ensures var s := c.left;
            s.Node? ==>
              && s.id in m && m[s.id] == Cell(Ptr(s.left), Ptr(s.right), c.id, s.black)
              && (s.right.Node? ==> s.right.id in m && m[s.right.id].black == s.right.black)
              && (s.left.Node? ==> s.left.id in m && m[s.left.id].black == s.left.black)
  {
    assert Rep(m, c.left, c.id);
    if c.left.Node? {
      assert Rep(m, c.left.right, c.left.id) && Rep(m, c.left.left, c.left.id);
    }
  }

  lemma RecolorAt<K(!new)>(m: Mem<K>, root: RBNode?<K>, c: Ctx<RBNode<K>>, t: Tree<RBNode<K>>, black: bool)
    requires At(m, root, c, t) && t.Node?
    ensures At(m[t.id := m[t.id].(black := black)], root, c, t.(black := black))
  {
    var m' := m[t.id := m[t.id].(black := black)];
    RepFrame(m, m', t.left, t.id);
    RepFrame(m, m', t.right, t.id);
    RepCFrame(m, m', c, t.id, null);
  }

  /** A new red leaf in the empty slot in focus. */
  lemma LinkAt<K(!new)>(m: Mem<K>, root: RBNode?<K>, c: Ctx<RBNode<K>>, node: RBNode<K>)
    requires At(m, root, c, Leaf) && !c.Top? && node !in CIds(c)
    ensures c.id in m
    ensures var m1 := m[node := Cell(null, null, c.id, false)];
            var m2 := m1[c.id := if c.InL? then m1[c.id].(left := node) else m1[c.id].(right := node)];
            At(m2, root, c, Node(Leaf, node, false, Leaf))
  {
    var m1 := m[node := Cell(null, null, c.id, false)];
    var m2 := m1[c.id := if c.InL? then m1[c.id].(left := node) else m1[c.id].(right := node)];
    match c
    case InL(up, id, b, r) => RepFrame(m, m2, r, id); RepCFrame(m, m2, up, id, null);
    case InR(up, l, id, b) => RepFrame(m, m2, l, id); RepCFrame(m, m2, up, id, null);
  }

  // ---------- what relinking does to the memory ----------

  /** The memory after the parent link of `n`, if any, became `par`. */
  ghost function WithParent<K(!new)>(m: Mem<K>, n: RBNode?<K>, par: RBNode?<K>): Mem<K>
    requires n != null ==> n in m
  {
    if n == null then m else m[n := m[n].(parent := par)]
  }

  /** The memory after `par`, if any, points to `n'` where it pointed to `n`. */
  ghost function WithChild<K(!new)>(m: Mem<K>, par: RBNode?<K>, n: RBNode<K>, n': RBNode?<K>): Mem<K>
    requires par != null ==> par in m
  {
    if par == null then m
    else if m[par].left == n then m[par := m[par].(left := n')]
    else m[par := m[par].(right := n')]
  }

  lemma RepWithParent<K(!new)>(m: Mem<K>, t: Tree<RBNode<K>>, was: RBNode?<K>, par: RBNode?<K>)
    requires Distinct(t) && Rep(m, t, was)
    ensures Rep(WithParent(m, Ptr(t), par), t, par)
  {
    var m' := WithParent(m, Ptr(t), par);
    if t.Node? {
      RepFrame(m, m', t.left, t.id);
      RepFrame(m, m', t.right, t.id);
    }
  }

  lemma RepWithChild<K(!new)>(m: Mem<K>, c: Ctx<RBNode<K>>, n: RBNode<K>, n': RBNode?<K>)
    requires CDistinct(c) && n !in CIds(c) && RepC(m, c, n, null)
    ensures RepC(WithChild(m, CPar(c, null), n, n'), c, n', null)
    ensures !c.Top? ==> RootOf(c, n') == RootOf(c, n)
  {
    var m' := WithChild(m, CPar(c, null), n, n');
    match c
    case Top =>
    case InL(up, id, b, r) =>
      RepFrame(m, m', r, id);
      RepCFrame(m, m', up, id, null);
    case InR(up, l, id, b) =>
      assert l.Node? ==> l.id in Ids(l);
      RepFrame(m, m', l, id);
      RepCFrame(m, m', up, id, null);
  }

  // ---------- taking a node out ----------

  /** A node with at most one child is replaced by that child. */
  lemma SpliceAt<K(!new)>(m: Mem<K>, c: Ctx<RBNode<K>>, t: Tree<RBNode<K>>, t': Tree<RBNode<K>>)
    requires At(m, RootOf(c, Ptr(t)), c, t) && t.Node?
    requires (t.left.Leaf? && t' == t.right) || (t.right.Leaf? && t' == t.left)
    ensures (t'.Node? ==> t'.id in m) && (!c.Top? ==> c.id in m)
    ensures var m' := WithChild(WithParent(m, Ptr(t'), CPar(c, null)), CPar(c, null), t.id, Ptr(t'));
            At(m', RootOf(c, Ptr(t')), c, t') && m'[t.id] == m[t.id]
    ensures !c.Top? ==> RootOf(c, Ptr(t')) == RootOf(c, t.id)
  {
    assert Rep(m, t', t.id) && Distinct(t') && Ids(t') <= Ids(t);
    var par := CPar(c, null);
    var m1 := WithParent(m, Ptr(t'), par);
    var m2 := WithChild(m1, par, t.id, Ptr(t'));
    assert t'.Node? ==> t'.id in Ids(t');
    RepWithParent(m, t', t.id, par);
    RepCFrame(m, m1, c, t.id, null);
    RepWithChild(m1, c, t.id, Ptr(t'));
    RepFrame(m1, m2, t', par);
  }

  /** Every link a substitution of `y` for `x` follows stays inside the memory. */
  ghost predicate CanSubstitute<K(!new)>(m: Mem<K>, x: RBNode<K>, y: RBNode<K>)
  {
    && x in m && y in m && x != y
    && (m[x].left != null ==> m[x].left in m)
    && (m[x].right != null ==> m[x].right in m)
    && (m[x].parent != null ==> m[x].parent in m && m[x].parent != x)
  }

  /** The memory after `y` took the place of `x`. */
  ghost function MemSubstitute<K(!new)>(m: Mem<K>, x: RBNode<K>, y: RBNode<K>): Mem<K>
    requires CanSubstitute(m, x, y)
  {
    var m1 := m[y := m[x]];
    var m2 := WithChild(m1, m[x].parent, x, y);
    var m3 := WithParent(m2, m[x].left, y);
    WithParent(m3, m[x].right, y)
  }

  lemma SubstituteLinks<K(!new)>(m: Mem<K>, root: RBNode?<K>, c: Ctx<RBNode<K>>, t: Tree<RBNode<K>>, y: RBNode<K>)
    requires At(m, root, c, t) && t.Node? && y in m && y !in CIds(c) && y !in Ids(t)
    ensures t.id in m && m[t.id] == Cell(Ptr(t.left), Ptr(t.right), CPar(c, null), t.black)
    ensures CanSubstitute(m, t.id, y)
  {
    assert Rep(m, t.left, t.id) && Rep(m, t.right, t.id);
  }

  lemma SubstituteCtx<K(!new)>(m: Mem<K>, root: RBNode?<K>, c: Ctx<RBNode<K>>, t: Tree<RBNode<K>>, y: RBNode<K>)
    requires At(m, root, c, t) && t.Node? && y in m && y !in CIds(c) && y !in Ids(t)
    ensures CanSubstitute(m, t.id, y)
    ensures RepC(MemSubstitute(m, t.id, y), c, y, null)
    ensures !c.Top? ==> RootOf(c, y) == root
  {
    SubstituteLinks(m, root, c, t, y);
    var m1 := m[y := m[t.id]];
    assert (t.left.Node? ==> t.left.id in Ids(t.left)) && (t.right.Node? ==> t.right.id in Ids(t.right));
    RepCFrame(m, m1, c, t.id, null);
    RepWithChild(m1, c, t.id, y);
    RepCFrame(WithChild(m1, CPar(c, null), t.id, y), MemSubstitute(m, t.id, y), c, y, null);
  }

  lemma SubstituteKid<K(!new)>(m: Mem<K>, root: RBNode?<K>, c: Ctx<RBNode<K>>, t: Tree<RBNode<K>>, y: RBNode<K>,
                               kid: Tree<RBNode<K>>)
    requires At(m, root, c, t) && t.Node? && y in m && y !in CIds(c) && y !in Ids(t)
    requires kid == t.left || kid == t.right
    ensures CanSubstitute(m, t.id, y)
    ensures Rep(MemSubstitute(m, t.id, y), kid, y)
  {
    SubstituteLinks(m, root, c, t, y);
    var other := if kid == t.left then t.right else t.left;
    assert Rep(m, kid, t.id);
    assert (kid.Node? ==> kid.id in Ids(kid)) && (other.Node? ==> other.id in Ids(other));
    RepWithParent(m, kid, t.id, y);
    RepFrame(WithParent(m, Ptr(kid), y), MemSubstitute(m, t.id, y), kid, y);
  }

  lemma SubstituteAt<K(!new)>(m: Mem<K>, root: RBNode?<K>, c: Ctx<RBNode<K>>, t: Tree<RBNode<K>>, y: RBNode<K>)
    requires At(m, root, c, t) && t.Node? && y in m && y !in CIds(c) && y !in Ids(t)
    ensures CanSubstitute(m, t.id, y)
    ensures At(MemSubstitute(m, t.id, y), RootOf(c, y), c, t.(id := y))
    ensures !c.Top? ==> RootOf(c, y) == root
  {
    SubstituteLinks(m, root, c, t, y);
    SubstituteCtx(m, root, c, t, y);
    SubstituteKid(m, root, c, t, y, t.left);
    SubstituteKid(m, root, c, t, y, t.right);
    assert (t.left.Node? ==> t.left.id in Ids(t.left)) && (t.right.Node? ==> t.right.id in Ids(t.right));
  }

  /** What a left rotation finds in the memory. */
  lemma RightPieces<K(!new)>(m: Mem<K>, root: RBNode?<K>, c: Ctx<RBNode<K>>, t: Tree<RBNode<K>>)
    requires At(m, root, c, t) && t.Node? && t.right.Node?
    ensures var x, y, a, b, d := t.id, t.right.id, t.left, t.right.left, t.right.right;
            && Rep(m, a, x) && Rep(m, b, y) && Rep(m, d, y)
            && x in m && y in m && m[x] == Cell(Ptr(a), y, CPar(c, null), t.black)
            && m[y] == Cell(Ptr(b), Ptr(d), x, t.right.black)
            && x != y && Distinct(b)
            && x !in Ids(a) + Ids(b) + Ids(d) + CIds(c)
            && y !in Ids(a) + Ids(b) + Ids(d) + CIds(c)
            && Ids(a) !! Ids(b) !! Ids(d) !! CIds(c)
            && (!c.Top? ==> c.id in m && c.id in CIds(c))
            && (b.Node? ==> b.id in m && b.id in Ids(b))
            && CanRotLeft(m, x)
  {
    assert Rep(m, t.right, t.id) && Distinct(t.right);
    assert Ids(t.right) == Ids(t.right.left) + {t.right.id} + Ids(t.right.right);
  }

  /** A rotation at `x` finds its child and every link it follows inside the memory. */
  ghost predicate CanRotLeft<K(!new)>(m: Mem<K>, x: RBNode<K>)
  {
    && x in m && m[x].right != null && m[x].right in m && m[x].right != x
    && m[m[x].right].left != x
    && (m[m[x].right].left != null ==> m[m[x].right].left in m)
    && (m[x].parent != null ==> m[x].parent in m)
  }

  /** The inner grandchild has changed sides. */
  ghost function MemInnerLeft<K(!new)>(m: Mem<K>, x: RBNode<K>): Mem<K>
    requires CanRotLeft(m, x)
  {
    var y := m[x].right;
    var m1 := m[x := m[x].(right := m[y].left)];
    var m2 := WithParent(m1, m[y].left, x);
    m2[y := m2[y].(left := x)]
  }

  /** The memory after a left rotation at `x`. */
  ghost function MemRotLeft<K(!new)>(m: Mem<K>, x: RBNode<K>): Mem<K>
    requires CanRotLeft(m, x)
  {
    var y := m[x].right;
    var m3 := MemInnerLeft(m, x);
    var m4 := m3[y := m3[y].(parent := m3[x].parent)];
    var m5 := WithChild(m4, m4[y].parent, x, y);
    m5[x := m5[x].(parent := y)]
  }

  /** The cells of the two nodes after the rotation, and those it does not touch. */
  lemma RotLeftCells<K(!new)>(m: Mem<K>, c: Ctx<RBNode<K>>, t: Tree<RBNode<K>>)
    requires At(m, RootOf(c, Ptr(t)), c, t) && t.Node? && t.right.Node?
    ensures CanRotLeft(m, t.id)
    ensures var y, m' := t.right.id, MemRotLeft(m, t.id);
            && m'.Keys == m.Keys && y in m'
            && m'[t.id] == Cell(Ptr(t.left), Ptr(t.right.left), y, t.black)
            && m'[y] == Cell(t.id, Ptr(t.right.right), CPar(c, null), t.right.black)
            && (forall n :: n in m && n != t.id && n != y && n != Ptr(t.right.left) && n != CPar(c, null) ==>
                  m'[n] == m[n])
  {
    hide Rep, RepC, Distinct, CDistinct;
    RightPieces(m, RootOf(c, Ptr(t)), c, t);
  }

  /** The rotated memory holds the rotated tree. */
  lemma RotLeftAt<K(!new)>(m: Mem<K>, c: Ctx<RBNode<K>>, t: Tree<RBNode<K>>)
    requires At(m, RootOf(c, Ptr(t)), c, t) && t.Node? && t.right.Node?
    ensures CanRotLeft(m, t.id)
    ensures At(MemRotLeft(m, t.id), RootOf(c, t.right.id), c, RotatedLeft(t))
    ensures !c.Top? ==> RootOf(c, t.right.id) == RootOf(c, t.id)
  {
    hide MemRotLeft, CanRotLeft, RepC, CDistinct;
    RotLeftCells(m, c, t);
    RotatedLeftSame(t);
    RightPieces(m, RootOf(c, Ptr(t)), c, t);
    RotLeftCtx(m, c, t);
    RotLeftMiddle(m, c, t);
    RepFrame(m, MemRotLeft(m, t.id), t.left, t.id);
    RepFrame(m, MemRotLeft(m, t.id), t.right.right, t.right.id);
    assert Rep(MemRotLeft(m, t.id), RotatedLeft(t).left, t.right.id);
  }

  lemma RotLeftMiddle<K(!new)>(m: Mem<K>, c: Ctx<RBNode<K>>, t: Tree<RBNode<K>>)
    requires At(m, RootOf(c, Ptr(t)), c, t) && t.Node? && t.right.Node?
    ensures CanRotLeft(m, t.id)
    ensures Rep(MemRotLeft(m, t.id), t.right.left, t.id)
  {
    RightPieces(m, RootOf(c, Ptr(t)), c, t);
    var b := t.right.left;
    RepWithParent(m, b, t.right.id, t.id);
    RepFrame(WithParent(m, Ptr(b), t.id), MemRotLeft(m, t.id), b, t.id);
  }

  lemma RotLeftCtx<K(!new)>(m: Mem<K>, c: Ctx<RBNode<K>>, t: Tree<RBNode<K>>)
    requires At(m, RootOf(c, Ptr(t)), c, t) && t.Node? && t.right.Node?
    ensures CanRotLeft(m, t.id)
    ensures RepC(MemRotLeft(m, t.id), c, t.right.id, null)
  {
    RightPieces(m, RootOf(c, Ptr(t)), c, t);
    RepWithChild(m, c, t.id, t.right.id);
    RepCFrame(WithChild(m, CPar(c, null), t.id, t.right.id), MemRotLeft(m, t.id), c, t.right.id, null);
  }

  /** What a right rotation finds in the memory. */
  lemma LeftPieces<K(!new)>(m: Mem<K>, root: RBNode?<K>, c: Ctx<RBNode<K>>, t: Tree<RBNode<K>>)
    requires At(m, root, c, t) && t.Node? && t.left.Node?
    ensures var x, y, a, b, d := t.id, t.left.id, t.right, t.left.right, t.left.left;
            && Rep(m, a, x) && Rep(m, b, y) && Rep(m, d, y)
            && x in m && y in m && m[x] == Cell(y, Ptr(a), CPar(c, null), t.black)
            && m[y] == Cell(Ptr(d), Ptr(b), x, t.left.black)
            && x != y && Distinct(b)
            && x !in Ids(a) + Ids(b) + Ids(d) + CIds(c)
            && y !in Ids(a) + Ids(b) + Ids(d) + CIds(c)
            && Ids(a) !! Ids(b) !! Ids(d) !! CIds(c)
            && (!c.Top? ==> c.id in m && c.id in CIds(c))
            && (b.Node? ==> b.id in m && b.id in Ids(b))
            && CanRotRight(m, x)
  {
    assert Rep(m, t.left, t.id) && Distinct(t.left);
    assert Ids(t.left) == Ids(t.left.right) + {t.left.id} + Ids(t.left.left);
  }

  ghost predicate CanRotRight<K(!new)>(m: Mem<K>, x: RBNode<K>)
  {
    && x in m && m[x].left != null && m[x].left in m && m[x].left != x
    && m[m[x].left].right != x
    && (m[m[x].left].right != null ==> m[m[x].left].right in m)
    && (m[x].parent != null ==> m[x].parent in m)
  }

  /** The memory after a right rotation at `x`. */
  ghost function MemInnerRight<K(!new)>(m: Mem<K>, x: RBNode<K>): Mem<K>
    requires CanRotRight(m, x)
  {
    var y := m[x].left;
    var m1 := m[x := m[x].(left := m[y].right)];
    var m2 := WithParent(m1, m[y].right, x);
    m2[y := m2[y].(right := x)]
  }

  ghost function MemRotRight<K(!new)>(m: Mem<K>, x: RBNode<K>): Mem<K>
    requires CanRotRight(m, x)
  {
    var y := m[x].left;
    var m3 := MemInnerRight(m, x);
    var m4 := m3[y := m3[y].(parent := m3[x].parent)];
    var m5 := WithChild(m4, m4[x].parent, x, y);
    m5[x := m5[x].(parent := y)]
  }

  /** The cells of the two nodes after the rotation, and those it does not touch. */
  lemma RotRightCells<K(!new)>(m: Mem<K>, c: Ctx<RBNode<K>>, t: Tree<RBNode<K>>)
    requires At(m, RootOf(c, Ptr(t)), c, t) && t.Node? && t.left.Node?
    ensures CanRotRight(m, t.id)
    ensures var y, m' := t.left.id, MemRotRight(m, t.id);
            && m'.Keys == m.Keys && y in m'
            && m'[t.id] == Cell(Ptr(t.left.right), Ptr(t.right), y, t.black)
            && m'[y] == Cell(Ptr(t.left.left), t.id, CPar(c, null), t.left.black)
            && (forall n :: n in m && n != t.id && n != y && n != Ptr(t.left.right) && n != CPar(c, null) ==>
                  m'[n] == m[n])
  {
    hide Rep, RepC, Distinct, CDistinct;
    LeftPieces(m, RootOf(c, Ptr(t)), c, t);
  }

  /** The rotated memory holds the rotated tree. */
  lemma RotRightAt<K(!new)>(m: Mem<K>, c: Ctx<RBNode<K>>, t: Tree<RBNode<K>>)
    requires At(m, RootOf(c, Ptr(t)), c, t) && t.Node? && t.left.Node?
    ensures CanRotRight(m, t.id)
    ensures At(MemRotRight(m, t.id), RootOf(c, t.left.id), c, RotatedRight(t))
    ensures !c.Top? ==> RootOf(c, t.left.id) == RootOf(c, t.id)
  {
    hide MemRotRight, CanRotRight, RepC, CDistinct;
    RotRightCells(m, c, t);
    RotatedRightSame(t);
    LeftPieces(m, RootOf(c, Ptr(t)), c, t);
    RotRightCtx(m, c, t);
    RotRightMiddle(m, c, t);
    RepFrame(m, MemRotRight(m, t.id), t.right, t.id);
    RepFrame(m, MemRotRight(m, t.id), t.left.left, t.left.id);
    assert Rep(MemRotRight(m, t.id), RotatedRight(t).right, t.left.id);
  }

  lemma RotRightMiddle<K(!new)>(m: Mem<K>, c: Ctx<RBNode<K>>, t: Tree<RBNode<K>>)
    requires At(m, RootOf(c, Ptr(t)), c, t) && t.Node? && t.left.Node?
    ensures CanRotRight(m, t.id)
    ensures Rep(MemRotRight(m, t.id), t.left.right, t.id)
  {
    LeftPieces(m, RootOf(c, Ptr(t)), c, t);
    var b := t.left.right;
    RepWithParent(m, b, t.left.id, t.id);
    RepFrame(WithParent(m, Ptr(b), t.id), MemRotRight(m, t.id), b, t.id);
  }

  lemma RotRightCtx<K(!new)>(m: Mem<K>, c: Ctx<RBNode<K>>, t: Tree<RBNode<K>>)
    requires At(m, RootOf(c, Ptr(t)), c, t) && t.Node? && t.left.Node?
    ensures CanRotRight(m, t.id)
    ensures RepC(MemRotRight(m, t.id), c, t.left.id, null)
  {
    LeftPieces(m, RootOf(c, Ptr(t)), c, t);
    RepWithChild(m, c, t.id, t.left.id);
    RepCFrame(WithChild(m, CPar(c, null), t.id, t.left.id), MemRotRight(m, t.id), c, t.left.id, null);
  }

  class RBTree<K(!new)> {
    var root: RBNode?<K>
    const less: (K, K) -> bool
    /** The tree the links form, and the links as a value. */
    ghost var tree: Tree<RBNode<K>>
    ghost var mem: Mem<K>
    ghost var keys: map<RBNode<K>, K>

    ghost predicate Matches()
      reads this`mem, mem.Keys
    {
      forall n :: n in mem ==>
        n.left == mem[n].left && n.right == mem[n].right && n.parent == mem[n].parent && n.black == mem[n].black
    }

    ghost predicate KeysMatch()
      reads this`keys, keys.Keys`key
    {
      forall n :: n in keys ==> n.key == keys[n]
    }

    ghost function Contents(): seq<RBNode<K>>
      reads this`tree
    {
      Seq(tree)
    }

    ghost predicate Valid()
      reads this, mem.Keys
    {
      && StrictWeak(less)
      && Matches() && mem.Keys == Ids(tree)
      && At(mem, root, Top, tree)
      && RedBlack(tree)
      && keys.Keys == mem.Keys && KeysMatch()
      && SortedBy(less, keys, Contents())
    }

    constructor (less: (K, K) -> bool)
      requires StrictWeak(less)
      ensures Valid() && this.less == less && Contents() == []
    {
      this.less := less;
      root := null;
      tree := Leaf;
      mem := map[];
      keys := map[];
    }

    // ---------- one link at a time ----------

    method SetLeft(n: RBNode<K>, v: RBNode?<K>)
      requires Matches() && n in mem
      modifies this`mem, n`left
      ensures Matches() && mem == old(mem)[n := old(mem)[n].(left := v)]
    {
      n.left := v;
      mem := mem[n := mem[n].(left := v)];
    }

    method SetRight(n: RBNode<K>, v: RBNode?<K>)
      requires Matches() && n in mem
      modifies this`mem, n`right
      ensures Matches() && mem == old(mem)[n := old(mem)[n].(right := v)]
    {
      n.right := v;
      mem := mem[n := mem[n].(right := v)];
    }

    method SetParent(n: RBNode<K>, v: RBNode?<K>)
      requires Matches() && n in mem
      modifies this`mem, n`parent
      ensures Matches() && mem == old(mem)[n := old(mem)[n].(parent := v)]
    {
      n.parent := v;
      mem := mem[n := mem[n].(parent := v)];
    }

    method SetCol(n: RBNode<K>, v: bool)
      requires Matches() && n in mem
      modifies this`mem, n`black
      ensures Matches() && mem == old(mem)[n := old(mem)[n].(black := v)]
    {
      n.black := v;
      mem := mem[n := mem[n].(black := v)];
    }

    /** Makes `n'` what `par`, or else the root link, points to instead of `n`. */
    method ReplaceChild(par: RBNode?<K>, n: RBNode<K>, n': RBNode?<K>)
      requires Matches() && (par != null ==> par in mem)
      modifies this`mem, this`root, mem.Keys`left, mem.Keys`right
      ensures Matches() && mem == WithChild(old(mem), par, n, n')
      ensures root == if par == null then n' else old(root)
    {
      if par != null {
        if n == par.left { SetLeft(par, n'); }
        else { SetRight(par, n'); }
      } else {
        root := n';
      }
    }

    // ---------- rotations ----------

    method RotLeft(node: RBNode<K>, ghost c: Ctx<RBNode<K>>, ghost t: Tree<RBNode<K>>)
      requires Matches() && At(mem, root, c, t)
      requires t.Node? && t.id == node && t.right.Node?
      modifies this`root, this`mem, mem.Keys`left, mem.Keys`right, mem.Keys`parent
      ensures Matches() && mem.Keys == old(mem.Keys)
      ensures At(mem, root, c, RotatedLeft(t))
    {
      RightPieces(mem, root, c, t);
      RotLeftAt(mem, c, t);
      RelinkLeft(node);
    }

    method MoveInnerLeft(node: RBNode<K>, right: RBNode<K>)
      requires Matches() && CanRotLeft(mem, node) && node.right == right
      modifies this`mem, mem.Keys`left, mem.Keys`right, mem.Keys`parent
      ensures Matches() && mem == MemInnerLeft(old(mem), node)
    {
      SetRight(node, right.left);
      if node.right != null { SetParent(right.left, node); }
      SetLeft(right, node);
    }

    method RelinkLeft(node: RBNode<K>)
      requires Matches() && CanRotLeft(mem, node)
      modifies this`root, this`mem, mem.Keys`left, mem.Keys`right, mem.Keys`parent
      ensures Matches() && mem == MemRotLeft(old(mem), node)
      ensures root == if old(node.parent) == null then old(node.right) else old(root)
    {
      var right := node.right;
      MoveInnerLeft(node, right);
      SetParent(right, node.parent);
      ReplaceChild(right.parent, node, right);
      SetParent(node, right);
    }

    method RotRight(node: RBNode<K>, ghost c: Ctx<RBNode<K>>, ghost t: Tree<RBNode<K>>)
      requires Matches() && At(mem, root, c, t)
      requires t.Node? && t.id == node && t.left.Node?
      modifies this`root, this`mem, mem.Keys`left, mem.Keys`right, mem.Keys`parent
      ensures Matches() && mem.Keys == old(mem.Keys)
      ensures At(mem, root, c, RotatedRight(t))
    {
      LeftPieces(mem, root, c, t);
      RotRightAt(mem, c, t);
      RelinkRight(node);
    }

    method MoveInnerRight(node: RBNode<K>, left: RBNode<K>)
      requires Matches() && CanRotRight(mem, node) && node.left == left
      modifies this`mem, mem.Keys`left, mem.Keys`right, mem.Keys`parent
      ensures Matches() && mem == MemInnerRight(old(mem), node)
    {
      SetLeft(node, left.right);
      if node.left != null { SetParent(left.right, node); }
      SetRight(left, node);
    }

    method RelinkRight(node: RBNode<K>)
      requires Matches() && CanRotRight(mem, node)
      modifies this`root, this`mem, mem.Keys`left, mem.Keys`right, mem.Keys`parent
      ensures Matches() && mem == MemRotRight(old(mem), node)
      ensures root == if old(node.parent) == null then old(node.left) else old(root)
    {
      var left := node.left;
      MoveInnerRight(node, left);
      SetParent(left, node.parent);
      ReplaceChild(node.parent, node, left);
      SetParent(node, left);
    }

    /** Recolours the root of the subtree in focus. */
    method Recolor(n: RBNode<K>, black: bool, ghost c: Ctx<RBNode<K>>, ghost t: Tree<RBNode<K>>)
      requires Matches() && At(mem, root, c, t) && t.Node? && t.id == n
      modifies this`mem, n`black
      ensures Matches() && mem.Keys == old(mem.Keys)
      ensures At(mem, root, c, t.(black := black))
    {
      RecolorAt(mem, root, c, t, black);
      SetCol(n, black);
    }

    // ---------- insertion ----------

    /** A grandparent over two red children turns red over two black ones. */
    method PushRed(l: RBNode<K>, r: RBNode<K>, g: RBNode<K>, ghost c: Ctx<RBNode<K>>, ghost t: Tree<RBNode<K>>)
      requires Matches() && At(mem, root, c, t)
      requires t.Node? && t.id == g && t.left.Node? && t.left.id == l && t.right.Node? && t.right.id == r
      modifies this`mem, mem.Keys`black
      ensures Matches() && mem.Keys == old(mem.Keys)
      ensures At(mem, root, c, PushedRed(t))
    {
      ghost var t1 := t.(left := t.left.(black := true));
      ghost var t2 := t1.(right := t.right.(black := true));
      ZoomL(mem, root, c, t);
      Recolor(l, true, InL(c, g, t.black, t.right), t.left);
      ZoomL(mem, root, c, t1);
      ZoomR(mem, root, c, t1);
      Recolor(r, true, InR(c, t1.left, g, t.black), t.right);
      ZoomR(mem, root, c, t2);
      Recolor(g, false, c, t2);
    }

    /** The left child `p` of `g` becomes black and moves above `g`, which becomes red. */
    method LiftLeft(p: RBNode<K>, g: RBNode<K>, ghost c: Ctx<RBNode<K>>, ghost t: Tree<RBNode<K>>)
      requires Matches() && At(mem, root, c, t)
      requires t.Node? && t.id == g && t.left.Node? && t.left.id == p
      modifies this`root, this`mem, mem.Keys`left, mem.Keys`right, mem.Keys`parent, mem.Keys`black
      ensures Matches() && mem.Keys == old(mem.Keys)
      ensures At(mem, root, c, LiftedLeft(t))
    {
      ghost var t1 := t.(left := t.left.(black := true));
      ZoomL(mem, root, c, t);
      Recolor(p, true, InL(c, g, t.black, t.right), t.left);
      ZoomL(mem, root, c, t1);
      Recolor(g, false, c, t1);
      RotRight(g, c, t1.(black := false));
    }

    /** The right child `p` of `g` becomes black and moves above `g`, which becomes red. */
    method LiftRight(p: RBNode<K>, g: RBNode<K>, ghost c: Ctx<RBNode<K>>, ghost t: Tree<RBNode<K>>)
      requires Matches() && At(mem, root, c, t)
      requires t.Node? && t.id == g && t.right.Node? && t.right.id == p
      modifies this`root, this`mem, mem.Keys`right, mem.Keys`left, mem.Keys`parent, mem.Keys`black
      ensures Matches() && mem.Keys == old(mem.Keys)
      ensures At(mem, root, c, LiftedRight(t))
    {
      ghost var t1 := t.(right := t.right.(black := true));
      ZoomR(mem, root, c, t);
      Recolor(p, true, InR(c, t.left, g, t.black), t.right);
      ZoomR(mem, root, c, t1);
      Recolor(g, false, c, t1);
      RotLeft(g, c, t1.(black := false));
    }

    /** The red parent is a left child and the uncle is black: at most two rotations. */
    method TurnLeft(node: RBNode<K>, par0: RBNode<K>, gPar: RBNode<K>, ghost c: Ctx<RBNode<K>>,
                    ghost t: Tree<RBNode<K>>)
      returns (next: RBNode<K>, ghost c': Ctx<RBNode<K>>, ghost t': Tree<RBNode<K>>)
      requires Matches() && At(mem, root, c, t)
      requires t.Node? && t.id == gPar && t.black && t.left.Node? && t.left.id == par0 && !t.left.black
      requires CtxOK(c, BH(t)) && Bal(t) && NoRR(t.right) && BlackRoot(t.right)
      requires NoRR(t.left.left) && NoRR(t.left.right)
      requires || (Ptr(t.left.left) == node && !t.left.left.black && BlackRoot(t.left.right))
               || (Ptr(t.left.right) == node && !t.left.right.black && BlackRoot(t.left.left))
      modifies this`root, this`mem, mem.Keys`left, mem.Keys`right, mem.Keys`parent, mem.Keys`black
      ensures mem.Keys == old(mem.Keys)
      ensures Inserting(next, c', t') && Depth(c') == Depth(c) + 1
      ensures Seq(Plug(c', t')) == Seq(Plug(c, t))
    {
      var par := par0;
      next := node;
      ghost var cp, G := InL(c, gPar, true, t.right), t;
      ZoomL(mem, root, c, t);
      FocusLinks(mem, root, cp, t.left);
      if par.right == node {
        RotLeft(par, cp, t.left);
        InnerLeft(c, t);
        G := t.(left := RotatedLeft(t.left));
        ZoomL(mem, root, c, G);
        next, par := par, node;
      }
      LiftLeft(par, gPar, c, G);
      LiftedLeftOK(c, G);
      ZoomL(mem, root, c, LiftedLeft(G));
      c', t' := InL(c, par, true, LiftedLeft(G).right), G.left.left;
    }

    /** One round with the red parent a left child. */
    method FixInsLeft(node: RBNode<K>, ghost c: Ctx<RBNode<K>>, ghost t: Tree<RBNode<K>>)
      returns (next: RBNode<K>, ghost c': Ctx<RBNode<K>>, ghost t': Tree<RBNode<K>>)
      requires Inserting(node, c, t)
      requires !c.Top? && !c.black && c.up.InL?
      modifies this`root, this`mem, mem.Keys`left, mem.Keys`right, mem.Keys`parent, mem.Keys`black
      ensures mem.Keys == old(mem.Keys)
      ensures Inserting(next, c', t') && Depth(c') < Depth(c)
      ensures Seq(Plug(c', t')) == Seq(Plug(c, t))
    {
      Grandparent(c, t);
      FocusLinks(mem, root, c, t);
      Unzoom(mem, root, c, t);
      Unzoom(mem, root, c.up, Above(c, t));
      var par := node.parent;
      var gPar := par.parent;
      ghost var up, G := c.up.up, Above(c.up, Above(c, t));
      var uncle := gPar.right;
      if uncle != null && !uncle.black {
        FocusLinks(mem, root, up, G);
        PushRed(par, uncle, gPar, up, G);
        PushedRedOK(up, G);
        next, c', t' := gPar, up, PushedRed(G);
      } else {
        next, c', t' := TurnLeft(node, par, gPar, up, G);
      }
    }

    /** The red parent is a right child and the uncle is black: at most two rotations. */
    method TurnRight(node: RBNode<K>, par0: RBNode<K>, gPar: RBNode<K>, ghost c: Ctx<RBNode<K>>,
                     ghost t: Tree<RBNode<K>>)
      returns (next: RBNode<K>, ghost c': Ctx<RBNode<K>>, ghost t': Tree<RBNode<K>>)
      requires Matches() && At(mem, root, c, t)
      requires t.Node? && t.id == gPar && t.black && t.right.Node? && t.right.id == par0 && !t.right.black
      requires CtxOK(c, BH(t)) && Bal(t) && NoRR(t.left) && BlackRoot(t.left)
      requires NoRR(t.right.right) && NoRR(t.right.left)
      requires || (Ptr(t.right.right) == node && !t.right.right.black && BlackRoot(t.right.left))
               || (Ptr(t.right.left) == node && !t.right.left.black && BlackRoot(t.right.right))
      modifies this`root, this`mem, mem.Keys`right, mem.Keys`left, mem.Keys`parent, mem.Keys`black
      ensures mem.Keys == old(mem.Keys)
      ensures Inserting(next, c', t') && Depth(c') == Depth(c) + 1
      ensures Seq(Plug(c', t')) == Seq(Plug(c, t))
    {
      var par := par0;
      next := node;
      ghost var cp, G := InR(c, t.left, gPar, true), t;
      ZoomR(mem, root, c, t);
      FocusLinks(mem, root, cp, t.right);
      if par.left == node {
        RotRight(par, cp, t.right);
        InnerRight(c, t);
        G := t.(right := RotatedRight(t.right));
        ZoomR(mem, root, c, G);
        next, par := par, node;
      }
      LiftRight(par, gPar, c, G);
      LiftedRightOK(c, G);
      ZoomR(mem, root, c, LiftedRight(G));
      c', t' := InR(c, LiftedRight(G).left, par, true), G.right.right;
    }

    /** One round with the red parent a right child. */
    method FixInsRight(node: RBNode<K>, ghost c: Ctx<RBNode<K>>, ghost t: Tree<RBNode<K>>)
      returns (next: RBNode<K>, ghost c': Ctx<RBNode<K>>, ghost t': Tree<RBNode<K>>)
      requires Inserting(node, c, t)
      requires !c.Top? && !c.black && c.up.InR?
      modifies this`root, this`mem, mem.Keys`right, mem.Keys`left, mem.Keys`parent, mem.Keys`black
      ensures mem.Keys == old(mem.Keys)
      ensures Inserting(next, c', t') && Depth(c') < Depth(c)
      ensures Seq(Plug(c', t')) == Seq(Plug(c, t))
    {
      Grandparent(c, t);
      FocusLinks(mem, root, c, t);
      Unzoom(mem, root, c, t);
      Unzoom(mem, root, c.up, Above(c, t));
      var par := node.parent;
      var gPar := par.parent;
      ghost var up, G := c.up.up, Above(c.up, Above(c, t));
      var uncle := gPar.left;
      if uncle != null && !uncle.black {
        FocusLinks(mem, root, up, G);
        PushRed(uncle, par, gPar, up, G);
        PushedRedOK(up, G);
        next, c', t' := gPar, up, PushedRed(G);
      } else {
        next, c', t' := TurnRight(node, par, gPar, up, G);
      }
    }

    /** The state of the repair after an insertion, with `node` the root of `t`. */
    ghost predicate Inserting(node: RBNode<K>, c: Ctx<RBNode<K>>, t: Tree<RBNode<K>>)
      reads this`mem, this`root, mem.Keys
    {
      Matches() && At(mem, root, c, t) && RedOffends(c, t) && t.id == node
    }

    method FixAfterIns(node0: RBNode<K>, ghost c0: Ctx<RBNode<K>>, ghost t0: Tree<RBNode<K>>)
      returns (ghost result: Tree<RBNode<K>>)
      requires Inserting(node0, c0, t0)
      modifies this`root, this`mem, mem.Keys`left, mem.Keys`right, mem.Keys`parent, mem.Keys`black
      ensures Matches() && mem.Keys == old(mem.Keys)
      ensures At(mem, root, Top, result) && RedBlack(result)
      ensures Seq(result) == Seq(Plug(c0, t0))
    {
      var node := node0;
      ghost var c, t := c0, t0;
      while node.parent != null && !node.parent.black
        invariant mem.Keys == old(mem.Keys) && Inserting(node, c, t)
        invariant Seq(Plug(c, t)) == Seq(Plug(c0, t0))
        decreases Depth(c)
      {
        FocusLinks(mem, root, c, t);
        node, c, t := FixInsRound(node, c, t);
      }
      result := BlackenRoot(c, t);
    }

    method FixInsRound(node: RBNode<K>, ghost c: Ctx<RBNode<K>>, ghost t: Tree<RBNode<K>>)
      returns (next: RBNode<K>, ghost c': Ctx<RBNode<K>>, ghost t': Tree<RBNode<K>>)
      requires Inserting(node, c, t)
      requires !c.Top? && !c.black
      modifies this`root, this`mem, mem.Keys`left, mem.Keys`right, mem.Keys`parent, mem.Keys`black
      ensures mem.Keys == old(mem.Keys)
      ensures Inserting(next, c', t') && Depth(c') < Depth(c)
      ensures Seq(Plug(c', t')) == Seq(Plug(c, t))
    {
      FocusLinks(mem, root, c, t);
      if node.parent == node.parent.parent.left {
        next, c', t' := FixInsLeft(node, c, t);
      } else {
        next, c', t' := FixInsRight(node, c, t);
      }
    }

    method BlackenRoot(ghost c: Ctx<RBNode<K>>, ghost t: Tree<RBNode<K>>) returns (ghost result: Tree<RBNode<K>>)
      requires Matches() && At(mem, root, c, t) && RedOffends(c, t) && (c.Top? || c.black)
      modifies this`mem, mem.Keys`black
      ensures Matches() && mem.Keys == old(mem.Keys)
      ensures At(mem, root, Top, result) && RedBlack(result)
      ensures Seq(result) == Seq(Plug(c, t))
    {
      result := Plug(c, t);
      AtPlug(mem, root, c, t);
      PlugRedBlack(c, t);
      PlugIds(c, t);
      assert t.id in Ids(result);
      FocusLinks(mem, root, Top, result);
      Recolor(root, true, Top, result);
      result := result.(black := true);
    }

    /** The descent of the insert macro: the empty slot where `node` belongs, as the
        parent `lst` and the side. */
    method FindSlot(node: RBNode<K>) returns (lst: RBNode<K>, goLeft: bool, ghost c: Ctx<RBNode<K>>)
      requires Valid() && root != null
      ensures At(mem, root, c, Leaf) && Plug(c, Leaf) == tree
      ensures !c.Top? && lst == c.id && goLeft == c.InL?
      ensures Separates(less, keys, node.key, Before(c), After(c))
    {
      var src := root;
      lst, goLeft := root, true;
      ghost var t := tree;
      c := Top;
      while src != null
        invariant At(mem, root, c, t) && src == Ptr(t) && Plug(c, t) == tree
        invariant c.Top? ==> t == tree
        invariant !c.Top? ==> lst == c.id && goLeft == c.InL?
        invariant Separates(less, keys, node.key, Before(c), After(c))
        decreases t
      {
        FocusLinks(mem, root, c, t);
        ZoomL(mem, root, c, t);
        ZoomR(mem, root, c, t);
        assert Seq(Plug(c, t)) == Contents();
        SplitSorted(less, keys, node.key, c, t);
        lst := src;
        goLeft := less(node.key, lst.key);
        if goLeft {
          src := src.left;
          c, t := InL(c, t.id, t.black, t.right), t.left;
        } else {
          src := src.right;
          c, t := InR(c, t.left, t.id, t.black), t.right;
        }
      }
    }

    method InsNode(node: RBNode<K>)
      requires Valid() && node !in Contents()
      modifies this, mem.Keys`left, mem.Keys`right, mem.Keys`parent, mem.Keys`black
      modifies node`left, node`right, node`parent, node`black
      ensures Valid()
      ensures exists k :: InsertedAt(old(Contents()), old(keys), node, k, Contents())
    {
      InSeq(tree, node);
      if root == null {
        root := node;
        node.left, node.right, node.parent, node.black := null, null, null, true;
        tree := Node(Leaf, node, true, Leaf);
        mem := map[node := Cell(null, null, null, true)];
        keys := map[node := node.key];
        assert InsertedAt(old(Contents()), old(keys), node, 0, Contents());
      } else {
        InsBelow(node);
      }
    }

    /** `s'` is `s` with `node` put at position `k`, after every node that does not come
        strictly after it. */
    ghost predicate InsertedAt(s: seq<RBNode<K>>, keys: map<RBNode<K>, K>, node: RBNode<K>, k: int, s': seq<RBNode<K>>)
      reads node`key
    {
      && 0 <= k <= |s|
      && s' == s[..k] + [node] + s[k..]
      && Separates(less, keys, node.key, s[..k], s[k..])
    }

    method InsBelow(node: RBNode<K>)
      requires Valid() && node !in mem && root != null
      modifies this, mem.Keys`left, mem.Keys`right, mem.Keys`parent, mem.Keys`black
      modifies node`left, node`right, node`parent, node`black
      ensures Valid()
      ensures exists k :: InsertedAt(old(Contents()), old(keys), node, k, Contents())
    {
      ghost var s := Contents();
      var lst, goLeft;
      ghost var c;
      lst, goLeft, c := FindSlot(node);
      EmptySlot(c, node);
      InsAt(node, lst, goLeft, c);
      assert InsertedAt(s, old(keys), node, |Before(c)|, Contents());
    }

    method InsAt(node: RBNode<K>, lst: RBNode<K>, goLeft: bool, ghost c: Ctx<RBNode<K>>)
      requires StrictWeak(less) && Matches() && At(mem, root, c, Leaf)
      requires mem.Keys == CIds(c) == keys.Keys && node !in mem && KeysMatch()
      requires !c.Top? && lst == c.id && goLeft == c.InL?
      requires RedOffends(c, Node(Leaf, node, false, Leaf))
      requires SortedBy(less, keys[node := node.key], Before(c) + [node] + After(c))
      modifies this, mem.Keys`left, mem.Keys`right, mem.Keys`parent, mem.Keys`black
      modifies node`left, node`right, node`parent, node`black
      ensures Valid()
      ensures Contents() == Before(c) + [node] + After(c)
    {
      hide RedOffends, SortedBy, Separates, StrictWeak;
      LinkNode(node, lst, goLeft, c);
      keys := keys[node := node.key];
      Rebalance(node, c);
    }

    method Rebalance(node: RBNode<K>, ghost c: Ctx<RBNode<K>>)
      requires StrictWeak(less) && Inserting(node, c, Node(Leaf, node, false, Leaf))
      requires mem.Keys == CIds(c) + {node} == keys.Keys && KeysMatch()
      requires SortedBy(less, keys, Before(c) + [node] + After(c))
      modifies this`root, this`mem, this`keys, this`tree, mem.Keys`left, mem.Keys`right, mem.Keys`parent, mem.Keys`black
      ensures Valid()
      ensures Contents() == Before(c) + [node] + After(c)
    {
      hide RedBlack, At, StrictWeak, SortedBy, RedOffends;
      ghost var result := FixAfterIns(node, c, Node(Leaf, node, false, Leaf));
      OneInHole(c, node, false, result);
      Install(mem, keys, result);
    }

    /** What filling an empty slot makes of a valid tree's value. */
    lemma EmptySlot(c: Ctx<RBNode<K>>, node: RBNode<K>)
      requires StrictWeak(less) && RedBlack(tree) && tree == Plug(c, Leaf) && node !in Ids(tree)
      requires Distinct(tree) && keys.Keys == Ids(tree) && SortedBy(less, keys, Contents())
      requires Separates(less, keys, node.key, Before(c), After(c))
      ensures Ids(tree) == CIds(c) && Contents() == Before(c) + After(c)
      ensures RedOffends(c, Node(Leaf, node, false, Leaf))
      ensures SortedBy(less, keys[node := node.key], Before(c) + [node] + After(c))
    {
      hide StrictWeak, SortedBy, Separates, RedBlack, Distinct;
      PlugIds(c, Leaf);
      PlugSeq(c, Leaf);
      assert Contents() == Before(c) + After(c);
      PlugRedBlack(c, Leaf);
      SortedInsert(less, keys, Before(c), node, node.key, After(c));
    }

    method LinkNode(node: RBNode<K>, lst: RBNode<K>, goLeft: bool, ghost c: Ctx<RBNode<K>>)
      requires Matches() && At(mem, root, c, Leaf) && mem.Keys == CIds(c) && node !in mem
      requires !c.Top? && lst == c.id && goLeft == c.InL?
      modifies this`mem, lst`left, lst`right
      modifies node`left, node`right, node`parent, node`black
      ensures Matches() && mem.Keys == old(mem.Keys) + {node}
      ensures At(mem, root, c, Node(Leaf, node, false, Leaf))
    {
      ghost var m := mem;
      node.left, node.right, node.parent, node.black := null, null, lst, false;
      mem := mem[node := Cell(null, null, lst, false)];
      if goLeft { SetLeft(lst, node); } else { SetRight(lst, node); }
      LinkAt(m, root, c, node);
    }

    // ---------- deletion ----------

    /** The red sibling of the short left child turns black above its parent. */
    method TurnSiblingLeft(other: RBNode<K>, par: RBNode<K>, ghost c: Ctx<RBNode<K>>, ghost t: Tree<RBNode<K>>)
      returns (ghost c': Ctx<RBNode<K>>)
      requires Deleting(c, t) && BlackRoot(t)
      requires c.InL? && par == c.id && Ptr(c.right) == other && !BlackRoot(c.right)
      modifies this`root, this`mem, mem.Keys`left, mem.Keys`right, mem.Keys`parent, mem.Keys`black
      ensures Deleting(c', t) && mem.Keys == old(mem.Keys)
      ensures c'.InL? && c'.id == par && !c'.black && c'.right.Node? && c'.right.black
      ensures Depth(c'.up) == Depth(c) && Seq(Plug(c', t)) == Seq(Plug(c, t))
    {
      ghost var up, s, P := c.up, c.right, Above(c, t);
      RedSiblingLeft(c, t);
      Unzoom(mem, root, c, t);
      ZoomR(mem, root, up, P);
      Recolor(other, true, InR(up, t, par, c.black), s);
      ghost var P1 := P.(right := s.(black := true));
      ZoomR(mem, root, up, P1);
      Recolor(par, false, up, P1);
      RotLeft(par, up, P1.(black := false));
      c' := InL(InL(up, other, true, s.right), par, false, s.left);
      Unzoom(mem, root, c', t);
      Unzoom(mem, root, c'.up, Above(c', t));
    }

    /** The black sibling of the short left child has a red child: at most two rotations end the repair. */
    method TurnNephewLeft(other0: RBNode<K>, par: RBNode<K>, ghost c0: Ctx<RBNode<K>>, ghost t: Tree<RBNode<K>>)
      returns (ghost result: Tree<RBNode<K>>)
      requires Deleting(c0, t) && BlackRoot(t)
      requires c0.InL? && par == c0.id && c0.right.Node? && c0.right.id == other0 && c0.right.black
      requires !BlackRoot(c0.right.left) || !BlackRoot(c0.right.right)
      modifies this`root, this`mem, mem.Keys`left, mem.Keys`right, mem.Keys`parent, mem.Keys`black
      ensures Matches() && mem.Keys == old(mem.Keys)
      ensures At(mem, root, Top, result) && RedBlack(result)
      ensures Seq(result) == Seq(Plug(c0, t))
    {
      var other := other0;
      ghost var c := c0;
      SiblingLinksLeft(mem, root, c, t);
      if other.right == null || other.right.black {
        InnerNephewLeft(c, t);
        TurnInnerLeft(other, c, t);
        c := c.(right := RotatedRight(Node(c.right.left.(black := true), other, false, c.right.right)));
        SiblingLinksLeft(mem, root, c, t);
        other := par.right;
      }
      TurnOuterLeft(other, par, c, t);
      OuterNephewLeft(c, t);
      ghost var t' := TurnedOuterLeft(c, t);
      result := Plug(c.up, t');
      AtPlug(mem, root, c.up, t');
    }

    method TurnInnerLeft(other: RBNode<K>, ghost c: Ctx<RBNode<K>>, ghost t: Tree<RBNode<K>>)
      requires Matches() && At(mem, root, c, t)
      requires c.InL? && c.right.Node? && c.right.id == other && c.right.left.Node?
      modifies this`root, this`mem, mem.Keys`left, mem.Keys`right, mem.Keys`parent, mem.Keys`black
      ensures Matches() && mem.Keys == old(mem.Keys)
      ensures var s := c.right;
              At(mem, root, c.(right := RotatedRight(Node(s.left.(black := true), s.id, false, s.right))), t)
    {
      ghost var cs, s := InR(c.up, t, c.id, c.black), c.right;
      SiblingLinksLeft(mem, root, c, t);
      Unzoom(mem, root, c, t);
      Unzoom(mem, root, cs, s);
      ZoomL(mem, root, cs, s);
      Recolor(other.left, true, InL(cs, other, s.black, s.right), s.left);
      ghost var s1 := s.(left := s.left.(black := true));
      ZoomL(mem, root, cs, s1);
      Recolor(other, false, cs, s1);
      ghost var s2 := s1.(black := false);
      RotRight(other, cs, s2);
      Unzoom(mem, root, cs, RotatedRight(s2));
      Unzoom(mem, root, c.(right := RotatedRight(s2)), t);
    }

    method TurnOuterLeft(other: RBNode<K>, par: RBNode<K>, ghost c: Ctx<RBNode<K>>, ghost t: Tree<RBNode<K>>)
      requires Matches() && At(mem, root, c, t)
      requires c.InL? && par == c.id && c.right.Node? && c.right.id == other && c.right.right.Node?
      modifies this`root, this`mem, mem.Keys`left, mem.Keys`right, mem.Keys`parent, mem.Keys`black
      ensures Matches() && mem.Keys == old(mem.Keys)
      ensures At(mem, root, c.up, TurnedOuterLeft(c, t))
    {
      ghost var up, s, P := c.up, c.right, Above(c, t);
      SiblingLinksLeft(mem, root, c, t);
      Unzoom(mem, root, c, t);
      ZoomR(mem, root, up, P);
      ghost var s1 := s.(black := c.black);
      Recolor(other, par.black, InR(up, t, par, c.black), s);
      ZoomR(mem, root, up, P.(right := s1));
      Recolor(par, true, up, P.(right := s1));
      ghost var P1 := P.(right := s1, black := true);
      ZoomR(mem, root, up, P1);
      ZoomR(mem, root, InR(up, t, par, true), s1);
      Recolor(other.right, true, InR(InR(up, t, par, true), s1.left, other, c.black), s1.right);
      ghost var s2 := s1.(right := s1.right.(black := true));
      ZoomR(mem, root, InR(up, t, par, true), s2);
      ZoomR(mem, root, up, P1.(right := s2));
      RotLeft(par, up, P1.(right := s2));
    }

    /** One round with the short subtree a left child. */
    method FixDelLeft(par: RBNode<K>, ghost c0: Ctx<RBNode<K>>, ghost t: Tree<RBNode<K>>)
      returns (done: bool, ghost c': Ctx<RBNode<K>>, ghost t': Tree<RBNode<K>>)
      requires Deleting(c0, t) && BlackRoot(t) && c0.InL? && par == c0.id
      modifies this`root, this`mem, mem.Keys`left, mem.Keys`right, mem.Keys`parent, mem.Keys`black
      ensures mem.Keys == old(mem.Keys)
      ensures Seq(Plug(c', t')) == Seq(Plug(c0, t))
      ensures if done then Matches() && At(mem, root, Top, t') && RedBlack(t') && c' == Top
              else Deleting(c', t') && Ptr(t') == par && (Depth(c') < Depth(c0) || !BlackRoot(t'))
    {
      hide Rep, RepC, At, RedBlack;
      ghost var c := c0;
      SiblingLinksLeft(mem, root, c, t);
      var other := par.right;
      if !other.black {
        c := TurnSiblingLeft(other, par, c, t);
        SiblingLinksLeft(mem, root, c, t);
        other := par.right;
      }
      if (other.left == null || other.left.black) && (other.right == null || other.right.black) {
        PlainSiblingLeft(c, t);
        Unzoom(mem, root, c, t);
        ZoomR(mem, root, c.up, Above(c, t));
        Recolor(other, false, InR(c.up, t, par, c.black), c.right);
        c', t' := c.up, Node(t, par, c.black, c.right.(black := false));
        ZoomR(mem, root, c', t');
        done := false;
      } else {
        t' := TurnNephewLeft(other, par, c, t);
        c', done := Top, true;
      }
    }

    /** The red sibling of the short right child turns black above its parent. */
    method TurnSiblingRight(other: RBNode<K>, par: RBNode<K>, ghost c: Ctx<RBNode<K>>, ghost t: Tree<RBNode<K>>)
      returns (ghost c': Ctx<RBNode<K>>)
      requires Deleting(c, t) && BlackRoot(t)
      requires c.InR? && par == c.id && Ptr(c.left) == other && !BlackRoot(c.left)
      modifies this`root, this`mem, mem.Keys`right, mem.Keys`left, mem.Keys`parent, mem.Keys`black
      ensures Deleting(c', t) && mem.Keys == old(mem.Keys)
      ensures c'.InR? && c'.id == par && !c'.black && c'.left.Node? && c'.left.black
      ensures Depth(c'.up) == Depth(c) && Seq(Plug(c', t)) == Seq(Plug(c, t))
    {
      ghost var up, s, P := c.up, c.left, Above(c, t);
      RedSiblingRight(c, t);
      Unzoom(mem, root, c, t);
      ZoomL(mem, root, up, P);
      Recolor(other, true, InL(up, par, c.black, t), s);
      ghost var P1 := P.(left := s.(black := true));
      ZoomL(mem, root, up, P1);
      Recolor(par, false, up, P1);
      RotRight(par, up, P1.(black := false));
      c' := InR(InR(up, s.left, other, true), s.right, par, false);
      Unzoom(mem, root, c', t);
      Unzoom(mem, root, c'.up, Above(c', t));
    }

    /** The black sibling of the short right child has a red child: at most two rotations end the repair. */
    method TurnNephewRight(other0: RBNode<K>, par: RBNode<K>, ghost c0: Ctx<RBNode<K>>, ghost t: Tree<RBNode<K>>)
      returns (ghost result: Tree<RBNode<K>>)
      requires Deleting(c0, t) && BlackRoot(t)
      requires c0.InR? && par == c0.id && c0.left.Node? && c0.left.id == other0 && c0.left.black
      requires !BlackRoot(c0.left.right) || !BlackRoot(c0.left.left)
      modifies this`root, this`mem, mem.Keys`right, mem.Keys`left, mem.Keys`parent, mem.Keys`black
      ensures Matches() && mem.Keys == old(mem.Keys)
      ensures At(mem, root, Top, result) && RedBlack(result)
      ensures Seq(result) == Seq(Plug(c0, t))
    {
      var other := other0;
      ghost var c := c0;
      SiblingLinksRight(mem, root, c, t);
      if other.left == null || other.left.black {
        InnerNephewRight(c, t);
        TurnInnerRight(other, c, t);
        c := c.(left := RotatedLeft(Node(c.left.left, other, false, c.left.right.(black := true))));
        SiblingLinksRight(mem, root, c, t);
        other := par.left;
      }
      TurnOuterRight(other, par, c, t);
      OuterNephewRight(c, t);
      ghost var t' := TurnedOuterRight(c, t);
      result := Plug(c.up, t');
      AtPlug(mem, root, c.up, t');
    }

    method TurnInnerRight(other: RBNode<K>, ghost c: Ctx<RBNode<K>>, ghost t: Tree<RBNode<K>>)
      requires Matches() && At(mem, root, c, t)
      requires c.InR? && c.left.Node? && c.left.id == other && c.left.right.Node?
      modifies this`root, this`mem, mem.Keys`right, mem.Keys`left, mem.Keys`parent, mem.Keys`black
      ensures Matches() && mem.Keys == old(mem.Keys)
      ensures var s := c.left;
              At(mem, root, c.(left := RotatedLeft(Node(s.left, s.id, false, s.right.(black := true)))), t)
    {
      ghost var cs, s := InL(c.up, c.id, c.black, t), c.left;
      SiblingLinksRight(mem, root, c, t);
      Unzoom(mem, root, c, t);
      Unzoom(mem, root, cs, s);
      ZoomR(mem, root, cs, s);
      Recolor(other.right, true, InR(cs, s.left, other, s.black), s.right);
      ghost var s1 := s.(right := s.right.(black := true));
      ZoomR(mem, root, cs, s1);
      Recolor(other, false, cs, s1);
      ghost var s2 := s1.(black := false);
      RotLeft(other, cs, s2);
      Unzoom(mem, root, cs, RotatedLeft(s2));
      Unzoom(mem, root, c.(left := RotatedLeft(s2)), t);
    }

    method TurnOuterRight(other: RBNode<K>, par: RBNode<K>, ghost c: Ctx<RBNode<K>>, ghost t: Tree<RBNode<K>>)
      requires Matches() && At(mem, root, c, t)
      requires c.InR? && par == c.id && c.left.Node? && c.left.id == other && c.left.left.Node?
      modifies this`root, this`mem, mem.Keys`right, mem.Keys`left, mem.Keys`parent, mem.Keys`black
      ensures Matches() && mem.Keys == old(mem.Keys)
      ensures At(mem, root, c.up, TurnedOuterRight(c, t))
    {
      hide At, Rep, RepC;
      ghost var up, s, P := c.up, c.left, Above(c, t);
      SiblingLinksRight(mem, root, c, t);
      Unzoom(mem, root, c, t);
      ZoomL(mem, root, up, P);
      ghost var s1 := s.(black := c.black);
      Recolor(other, par.black, InL(up, par, c.black, t), s);
      ZoomL(mem, root, up, P.(left := s1));
      Recolor(par, true, up, P.(left := s1));
      ghost var P1 := P.(left := s1, black := true);
      ZoomL(mem, root, up, P1);
      ZoomL(mem, root, InL(up, par, true, t), s1);
      Recolor(other.left, true, InL(InL(up, par, true, t), other, c.black, s1.right), s1.left);
      ghost var s2 := s1.(left := s1.left.(black := true));
      ZoomL(mem, root, InL(up, par, true, t), s2);
      ZoomL(mem, root, up, P1.(left := s2));
      RotRight(par, up, P1.(left := s2));
    }

    /** One round with the short subtree a right child. */
    method FixDelRight(par: RBNode<K>, ghost c0: Ctx<RBNode<K>>, ghost t: Tree<RBNode<K>>)
      returns (done: bool, ghost c': Ctx<RBNode<K>>, ghost t': Tree<RBNode<K>>)
      requires Deleting(c0, t) && BlackRoot(t) && c0.InR? && par == c0.id
      modifies this`root, this`mem, mem.Keys`right, mem.Keys`left, mem.Keys`parent, mem.Keys`black
      ensures mem.Keys == old(mem.Keys)
      ensures Seq(Plug(c', t')) == Seq(Plug(c0, t))
      ensures if done then Matches() && At(mem, root, Top, t') && RedBlack(t') && c' == Top
              else Deleting(c', t') && Ptr(t') == par && (Depth(c') < Depth(c0) || !BlackRoot(t'))
    {
      ghost var c := c0;
      SiblingLinksRight(mem, root, c, t);
      var other := par.left;
      if !other.black {
        c := TurnSiblingRight(other, par, c, t);
        SiblingLinksRight(mem, root, c, t);
        other := par.left;
      }
      if (other.right == null || other.right.black) && (other.left == null || other.left.black) {
        PlainSiblingRight(c, t);
        Unzoom(mem, root, c, t);
        ZoomL(mem, root, c.up, Above(c, t));
        Recolor(other, false, InL(c.up, par, c.black, t), c.left);
        c', t' := c.up, Node(c.left.(black := false), par, c.black, t);
        ZoomL(mem, root, c', t');
        done := false;
      } else {
        t' := TurnNephewRight(other, par, c, t);
        c', done := Top, true;
      }
    }

    /** The state of the repair after a deletion. */
    ghost predicate Deleting(c: Ctx<RBNode<K>>, t: Tree<RBNode<K>>)
      reads this`mem, this`root, mem.Keys
    {
      Matches() && At(mem, root, c, t) && Short(c, t)
    }

    method FixAfterDel(node0: RBNode?<K>, par0: RBNode?<K>, ghost c0: Ctx<RBNode<K>>, ghost t0: Tree<RBNode<K>>)
      returns (ghost result: Tree<RBNode<K>>)
      requires Deleting(c0, t0) && node0 == Ptr(t0) && par0 == CPar(c0, null)
      modifies this`root, this`mem, mem.Keys`left, mem.Keys`right, mem.Keys`parent, mem.Keys`black
      ensures Matches() && mem.Keys == old(mem.Keys)
      ensures At(mem, root, Top, result) && RedBlack(result)
      ensures Seq(result) == Seq(Plug(c0, t0))
    {
      hide RepC, CtxOK, Bal;
      var node, par := node0, par0;
      ghost var c, t := c0, t0;
      while (node == null || node.black) && node != root
        invariant mem.Keys == old(mem.Keys) && Deleting(c, t)
        invariant node == Ptr(t) && par == CPar(c, null)
        invariant Seq(Plug(c, t)) == Seq(Plug(c0, t0))
        decreases if BlackRoot(t) then Depth(c) + 1 else 0
      {
        FocusLinks(mem, root, c, t);
        var done;
        done, c, t := FixDelRound(node, par, c, t);
        if done {
          node := root;
          break;
        }
        FocusLinks(mem, root, c, t);
        node := par;
        par := node.parent;
      }
      RootAbove(c, Ptr(t));
      result := Finish(node, c, t);
    }

    method FixDelRound(node: RBNode?<K>, par: RBNode?<K>, ghost c: Ctx<RBNode<K>>, ghost t: Tree<RBNode<K>>)
      returns (done: bool, ghost c': Ctx<RBNode<K>>, ghost t': Tree<RBNode<K>>)
      requires Deleting(c, t) && BlackRoot(t) && node == Ptr(t) && par == CPar(c, null) && !c.Top?
      modifies this`root, this`mem, mem.Keys`left, mem.Keys`right, mem.Keys`parent, mem.Keys`black
      ensures mem.Keys == old(mem.Keys)
      ensures Seq(Plug(c', t')) == Seq(Plug(c, t))
      ensures if done then Matches() && At(mem, root, Top, t') && RedBlack(t') && c' == Top
              else Deleting(c', t') && Ptr(t') == par && (Depth(c') < Depth(c) || !BlackRoot(t'))
    {
      FocusLinks(mem, root, c, t);
      if par.left == node {
        done, c', t' := FixDelLeft(par, c, t);
      } else {
        done, c', t' := FixDelRight(par, c, t);
      }
    }

    /** The last step: the node the repair stopped at turns black. */
    method Finish(node: RBNode?<K>, ghost c: Ctx<RBNode<K>>, ghost t: Tree<RBNode<K>>)
      returns (ghost result: Tree<RBNode<K>>)
      requires Matches() && At(mem, root, c, t) && Settled(c, t) && node == Ptr(t)
      modifies this`mem, mem.Keys`black
      ensures Matches() && mem.Keys == old(mem.Keys)
      ensures At(mem, root, Top, result) && RedBlack(result)
      ensures Seq(result) == Seq(Plug(c, t))
    {
      SettledOK(c, t);
      FocusLinks(mem, root, c, t);
      if node != null { Recolor(node, true, c, t); }
      result := Plug(c, Blackened(t));
      AtPlug(mem, root, c, Blackened(t));
    }

    /** Puts `child` in the place of `node`, which has no other child. */
    method Unlink(node: RBNode<K>, child: RBNode?<K>, par: RBNode?<K>,
                  ghost c: Ctx<RBNode<K>>, ghost t: Tree<RBNode<K>>, ghost t': Tree<RBNode<K>>)
      requires Matches() && At(mem, root, c, t) && t.Node? && t.id == node
      requires (t.left.Leaf? && t' == t.right) || (t.right.Leaf? && t' == t.left)
      requires child == Ptr(t') && par == CPar(c, null)
      modifies this`root, this`mem, mem.Keys`left, mem.Keys`right, mem.Keys`parent
      ensures Matches() && mem.Keys == old(mem.Keys)
      ensures At(mem, root, c, t') && mem[node] == old(mem[node])
    {
      hide Rep, RepC;
      SpliceAt(mem, c, t, t');
      if child != null { SetParent(child, par); }
      ReplaceChild(par, node, child);
    }

    /** Puts `y` in the place of `x`. */
    method Substitute(x: RBNode<K>, y: RBNode<K>, ghost c: Ctx<RBNode<K>>, ghost t: Tree<RBNode<K>>)
      requires Matches() && At(mem, root, c, t) && t.Node? && t.id == x && t.left.Node?
      requires y in mem && y !in CIds(c) && y !in Ids(t)
      modifies this`root, this`mem, mem.Keys`left, mem.Keys`right, mem.Keys`parent, mem.Keys`black
      ensures Matches() && mem.Keys == old(mem.Keys)
      ensures At(mem, root, c, t.(id := y))
    {
      SubstituteAt(mem, root, c, t, y);
      SubstituteLinks(mem, root, c, t, y);
      RelinkSubstitute(x, y);
    }

    method RelinkSubstitute(x: RBNode<K>, y: RBNode<K>)
      requires Matches() && CanSubstitute(mem, x, y) && x.left != null
      modifies this`root, this`mem, mem.Keys`left, mem.Keys`right, mem.Keys`parent, mem.Keys`black
      ensures Matches() && mem == MemSubstitute(old(mem), x, y)
      ensures root == if old(x.parent) == null then y else old(root)
    {
      CopyLinks(x, y);
      ReplaceChild(x.parent, x, y);
      SetParent(x.left, y);
      if x.right != null { SetParent(x.right, y); }
    }

    method CopyLinks(x: RBNode<K>, y: RBNode<K>)
      requires Matches() && x in mem && y in mem && x != y
      modifies this`mem, y`left, y`right, y`parent, y`black
      ensures Matches() && mem == old(mem)[y := old(mem)[x]]
    {
      y.parent, y.black, y.left, y.right := x.parent, x.black, x.left, x.right;
      mem := mem[y := mem[x]];
    }

    /** The repair that a removed node of colour `black` leaves to do. */
    ghost predicate ToRepair(black: bool, c: Ctx<RBNode<K>>, t: Tree<RBNode<K>>)
    {
      if black then Short(c, t) else RedBlack(Plug(c, t))
    }

    method Rebalanced(black: bool, child: RBNode?<K>, par: RBNode?<K>, ghost c: Ctx<RBNode<K>>,
                      ghost t: Tree<RBNode<K>>)
      returns (ghost result: Tree<RBNode<K>>)
      requires Matches() && At(mem, root, c, t) && ToRepair(black, c, t)
      requires child == Ptr(t) && par == CPar(c, null)
      modifies this`root, this`mem, mem.Keys`left, mem.Keys`right, mem.Keys`parent, mem.Keys`black
      ensures Matches() && mem.Keys == old(mem.Keys)
      ensures At(mem, root, Top, result) && RedBlack(result)
      ensures Seq(result) == Seq(Plug(c, t))
    {
      if black {
        result := FixAfterDel(child, par, c, t);
      } else {
        result := Plug(c, t);
        AtPlug(mem, root, c, t);
      }
    }

    method DelNode(node: RBNode<K>)
      requires Valid() && node in Contents()
      modifies this, mem.Keys`left, mem.Keys`right, mem.Keys`parent, mem.Keys`black
      ensures Valid()
      ensures Contents() == Removed(old(Contents()), node)
    {
      hide SortedBy, StrictWeak, Removed, RedBlack, At, Plug;
      ghost var c, t := Place(node);
      ghost var result := DelAt(node, c, t);
      Forget(node, result);
    }

    lemma Place(node: RBNode<K>) returns (c: Ctx<RBNode<K>>, t: Tree<RBNode<K>>)
      requires Valid() && node in Contents()
      ensures At(mem, root, c, t) && t.Node? && t.id == node && Plug(c, t) == tree
      ensures Distinct(tree) && node in Ids(tree)
    {
      hide SortedBy, StrictWeak, RedBlack;
      InSeq(tree, node);
      c, t := Focus(Top, tree, node);
      AtPlug(mem, root, c, t);
    }

    method DelAt(node: RBNode<K>, ghost c: Ctx<RBNode<K>>,
                 ghost t: Tree<RBNode<K>>) returns (ghost result: Tree<RBNode<K>>)
      requires Matches() && At(mem, root, c, t) && t.Node? && t.id == node && RedBlack(Plug(c, t))
      modifies this`root, this`mem, mem.Keys`left, mem.Keys`right, mem.Keys`parent, mem.Keys`black
      ensures Matches() && mem.Keys == old(mem.Keys)
      ensures At(mem, root, Top, result) && RedBlack(result)
      ensures Seq(result) == Removed(Seq(Plug(c, t)), node)
    {
      hide Removed, RedBlack, At, Plug, Seq;
      FocusLinks(mem, root, c, t);
      if node.left == null {
        result := DelOuter(node, node.right, c, t, t.right);
      } else if node.right == null {
        result := DelOuter(node, node.left, c, t, t.left);
      } else {
        result := DelInner(node, c, t);
      }
    }

    /** Removes a node with at most one child. */
    method DelOuter(node: RBNode<K>, child: RBNode?<K>, ghost c: Ctx<RBNode<K>>, ghost t: Tree<RBNode<K>>,
                    ghost t': Tree<RBNode<K>>)
      returns (ghost result: Tree<RBNode<K>>)
      requires Matches() && At(mem, root, c, t) && t.Node? && t.id == node && RedBlack(Plug(c, t))
      requires (t.left.Leaf? && t' == t.right) || (t.right.Leaf? && t' == t.left)
      requires child == Ptr(t')
      modifies this`root, this`mem, mem.Keys`left, mem.Keys`right, mem.Keys`parent, mem.Keys`black
      ensures Matches() && mem.Keys == old(mem.Keys)
      ensures At(mem, root, Top, result) && RedBlack(result)
      ensures Seq(result) == Removed(Seq(Plug(c, t)), node)
    {
      FocusLinks(mem, root, c, t);
      PlugIds(c, t);
      OuterSeq(c, t, t');
      if t.black { SplicedBlack(c, t, t'); } else { SplicedRed(c, t, t'); }
      var par := node.parent;
      var col := node.black;
      Unlink(node, child, par, c, t, t');
      result := Rebalanced(col, child, par, c, t');
    }

    /** Removes a node with two children: its successor takes its place. */
    method DelInner(old': RBNode<K>, ghost c: Ctx<RBNode<K>>, ghost t: Tree<RBNode<K>>)
      returns (ghost result: Tree<RBNode<K>>)
      requires Matches() && At(mem, root, c, t) && t.Node? && t.id == old' && RedBlack(Plug(c, t))
      requires t.left.Node? && t.right.Node?
      modifies this`root, this`mem, mem.Keys`left, mem.Keys`right, mem.Keys`parent, mem.Keys`black
      ensures Matches() && mem.Keys == old(mem.Keys)
      ensures At(mem, root, Top, result) && RedBlack(result)
      ensures Seq(result) == Removed(Seq(Plug(c, t)), old')
    {
      var node;
      ghost var a, s;
      node, a, s := Successor(old', c, t);
      ghost var ca := Append(a, InR(c, t.left, old', t.black));
      FocusLinks(mem, root, ca, s);
      PlugIds(c, t);
      PlugIds(a, s);
      assert a.InL? ==> a.id in Ids(t.right) && ca.id == a.id;
      SuccessorValue(c, t, a, s);
      var child, par, col := node.right, node.parent, node.black;
      Unlink(node, child, par, ca, s, s.right);
      if node.parent == old' { par := node; }
      TakeOver(old', node, c, t, a, s);
      result := Rebalanced(col, child, par, Append(a, InR(c, t.left, node, t.black)), s.right);
    }

    /** The leftmost node right of `x`. */
    method Successor(x: RBNode<K>, ghost c: Ctx<RBNode<K>>, ghost t: Tree<RBNode<K>>)
      returns (node: RBNode<K>, ghost a: Ctx<RBNode<K>>, ghost s: Tree<RBNode<K>>)
      requires Matches() && At(mem, root, c, t) && t.Node? && t.id == x && t.right.Node?
      ensures LeftSpine(a) && t.right == Plug(a, s) && s.Node? && s.id == node && s.left.Leaf?
      ensures At(mem, root, Append(a, InR(c, t.left, x, t.black)), s)
    {
      FocusLinks(mem, root, c, t);
      ZoomR(mem, root, c, t);
      ghost var d := InR(c, t.left, x, t.black);
      node := x.right;
      a, s := Top, t.right;
      FocusLinks(mem, root, d, s);
      while node.left != null
        invariant LeftSpine(a) && t.right == Plug(a, s) && s.Node? && s.id == node
        invariant At(mem, root, Append(a, d), s)
        invariant node in mem && mem[node].left == Ptr(s.left)
        decreases s
      {
        ZoomL(mem, root, Append(a, d), s);
        node := node.left;
        a, s := InL(a, s.id, s.black, s.right), s.left;
        FocusLinks(mem, root, Append(a, d), s);
      }
    }

    /** The unlinked successor takes the links and the colour of `x`. */
    method TakeOver(x: RBNode<K>, y: RBNode<K>, ghost c: Ctx<RBNode<K>>, ghost t: Tree<RBNode<K>>,
                    ghost a: Ctx<RBNode<K>>, ghost s: Tree<RBNode<K>>)
      requires t.Node? && t.id == x && t.left.Node? && t.right == Plug(a, s) && s.Node? && s.id == y
      requires Matches() && At(mem, root, Append(a, InR(c, t.left, x, t.black)), s.right)
      requires Distinct(Plug(c, t)) && y in mem
      modifies this`root, this`mem, mem.Keys`left, mem.Keys`right, mem.Keys`parent, mem.Keys`black
      ensures Matches() && mem.Keys == old(mem.Keys)
      ensures At(mem, root, Append(a, InR(c, t.left, y, t.black)), s.right)
    {
      ghost var t1 := t.(right := Plug(a, s.right));
      AtInner(mem, root, a, InR(c, t.left, x, t.black), s.right);
      ZoomR(mem, root, c, t1);
      PlugIds(c, t);
      PlugIds(a, s);
      PlugIds(a, s.right);
      Substitute(x, y, c, t1);
      ZoomR(mem, root, c, t1.(id := y));
      AtInner(mem, root, a, InR(c, t.left, y, t.black), s.right);
    }

    lemma SuccessorValue(c: Ctx<RBNode<K>>, t: Tree<RBNode<K>>, a: Ctx<RBNode<K>>, s: Tree<RBNode<K>>)
      requires t.Node? && t.right == Plug(a, s) && LeftSpine(a) && s.Node? && s.left.Leaf?
      requires RedBlack(Plug(c, t)) && Distinct(Plug(c, t))
      ensures var d := Append(a, InR(c, t.left, s.id, t.black));
              && ToRepair(s.black, d, s.right)
              && Seq(Plug(d, s.right)) == Removed(Seq(Plug(c, t)), t.id)
    {
      AppendPlug(a, InR(c, t.left, t.id, t.black), s);
      if s.black {
        SuccessorBlack(a, c, t.left, t.id, s.id, t.black, s);
      } else {
        SuccessorRed(a, c, t.left, t.id, s.id, t.black, s);
      }
      SuccessorSeq(c, t.left, t.id, t.black, a, s);
    }

    lemma ForgetValue(node: RBNode<K>, result: Tree<RBNode<K>>)
      requires Distinct(tree) && keys.Keys == Ids(tree) && SortedBy(less, keys, Contents())
      requires node in Ids(tree) && Seq(result) == Removed(Contents(), node)
      ensures Ids(result) == Ids(tree) - {node}
      ensures SortedBy(less, keys - {node}, Seq(result))
    {
      InSeq(tree, node);
      SeqNoDup(tree);
      var a, b := RemovedSplit(Contents(), node);
      SortedWithout(less, keys, a, node, b);
      RemovedIds(tree, result, node, a, b);
    }

    /** Drops a removed node from what the tree accounts for. */
    ghost method Forget(node: RBNode<K>, result: Tree<RBNode<K>>)
      requires StrictWeak(less) && Matches() && KeysMatch() && At(mem, root, Top, result) && RedBlack(result)
      requires mem.Keys == keys.Keys == Ids(tree) && Distinct(tree) && SortedBy(less, keys, Contents())
      requires node in Ids(tree) && Seq(result) == Removed(Contents(), node)
      modifies this`mem, this`keys, this`tree
      ensures Valid() && tree == result
    {
      hide At, RedBlack, Distinct, SortedBy, StrictWeak, Removed;
      ForgetValue(node, result);
      AtFrame(mem, mem - {node}, root, Top, result);
      Install(mem - {node}, keys - {node}, result);
    }

    /** From now on the tree is `t`. */
    ghost method Install(m: Mem<K>, k: map<RBNode<K>, K>, t: Tree<RBNode<K>>)
      requires StrictWeak(less) && At(m, root, Top, t) && RedBlack(t) && SortedBy(less, k, Seq(t))
      requires m.Keys == k.Keys == Ids(t) && Held(m) && (forall n :: n in k ==> n.key == k[n])
      modifies this`mem, this`keys, this`tree
      ensures Valid() && tree == t
    {
      hide At, RedBlack, SortedBy, StrictWeak, Ids, Seq;
      mem, keys, tree := m, k, t;
    }

    /** The nodes' links are those of `m`. */
    ghost predicate Held(m: Mem<K>)
      reads m.Keys
    {
      forall n :: n in m ==>
          n.left == m[n].left && n.right == m[n].right && n.parent == m[n].parent && n.black == m[n].black
    }

    // ---------- queries ----------

    method GetMin() returns (res: RBNode?<K>)
      requires Valid()
      ensures Contents() == [] <==> res == null
      ensures res != null ==> res == Contents()[0] && forall e :: e in Contents() ==> !less(e.key, res.key)
    {
      if root == null { return null; }
      res := root;
      ghost var c, t := Top, tree;
      FocusLinks(mem, root, c, t);
      while res.left != null
        invariant At(mem, root, c, t) && t.Node? && t.id == res && Plug(c, t) == tree && LeftSpine(c)
        invariant res in mem && mem[res].left == Ptr(t.left)
        decreases t
      {
        ZoomL(mem, root, c, t);
        res := res.left;
        c, t := InL(c, t.id, t.black, t.right), t.left;
        FocusLinks(mem, root, c, t);
      }
      NothingBefore(c);
      PlugSeqNode(c, t);
      assert Contents() == [] + [res] + (Seq(t.right) + After(c));
      SortedMiddle(less, keys, [], res, Seq(t.right) + After(c));
      assert Asymmetric(less, res.key, res.key);
    }

    method GetMax() returns (res: RBNode?<K>)
      requires Valid()
      ensures Contents() == [] <==> res == null
      ensures res != null ==>
                res == Contents()[|Contents()| - 1] && forall e :: e in Contents() ==> !less(res.key, e.key)
    {
      if root == null { return null; }
      res := root;
      ghost var c, t := Top, tree;
      FocusLinks(mem, root, c, t);
      while res.right != null
        invariant At(mem, root, c, t) && t.Node? && t.id == res && Plug(c, t) == tree && RightSpine(c)
        invariant res in mem && mem[res].right == Ptr(t.right)
        decreases t
      {
        ZoomR(mem, root, c, t);
        res := res.right;
        c, t := InR(c, t.left, t.id, t.black), t.right;
        FocusLinks(mem, root, c, t);
      }
      NothingAfter(c);
      PlugSeqNode(c, t);
      assert Contents() == (Before(c) + Seq(t.left)) + [res] + [];
      SortedMiddle(less, keys, Before(c) + Seq(t.left), res, []);
      assert Asymmetric(less, res.key, res.key);
    }
  }

  // ---------- the comparators in use ----------

  /** Run queues and the tree of killed tasks: virtual run time, then pid. */
  datatype CFSKey = CFSKey(vRunTime: int, pid: nat)

  predicate CFSLess(a: CFSKey, b: CFSKey)
  {
    if a.vRunTime != b.vRunTime then a.vRunTime < b.vRunTime else a.pid < b.pid
  }

  /** Software timers: expiry, then id. */
  datatype TimerKey = TimerKey(expireJiffies: nat, id: nat)

  predicate TimerLess(a: TimerKey, b: TimerKey)
  {
    if a.expireJiffies != b.expireJiffies then a.expireJiffies < b.expireJiffies else a.id < b.id
  }

  /** Both comparators order totally, so distinct keys are never level. */
  lemma ComparatorsAreTotal()
    ensures StrictWeak(CFSLess) && forall a, b :: a != b ==> CFSLess(a, b) || CFSLess(b, a)
    ensures StrictWeak(TimerLess) && forall a, b :: a != b ==> TimerLess(a, b) || TimerLess(b, a)
  {
  }

  /** In a tree of timers the earlier one stands first, and of two that expire together the one with the
      smaller id. So the due ones come before all the others. */
  lemma {:induction false} TimersInOrder(tree: RBTree<TimerKey>, i: nat, j: nat)
    requires tree.Valid() && tree.less == TimerLess && i < j < |tree.Contents()|
    ensures var a, b := tree.Contents()[i].key, tree.Contents()[j].key;
            a.expireJiffies < b.expireJiffies || (a.expireJiffies == b.expireJiffies && a.id <= b.id)
  {
    InOrder(tree, i, j);
  }

  /** The same in a run queue: the task that has run least stands first, and of two that have run equally
      long the one with the smaller pid. */
  lemma {:induction false} TasksInOrder(tree: RBTree<CFSKey>, i: nat, j: nat)
    requires tree.Valid() && tree.less == CFSLess && i < j < |tree.Contents()|
    ensures var a, b := tree.Contents()[i].key, tree.Contents()[j].key;
            a.vRunTime < b.vRunTime || (a.vRunTime == b.vRunTime && a.pid <= b.pid)
  {
    InOrder(tree, i, j);
  }

  lemma InOrder<K(!new)>(tree: RBTree<K>, i: nat, j: nat)
    requires tree.Valid() && i < j < |tree.Contents()|
    ensures !tree.less(tree.Contents()[j].key, tree.Contents()[i].key)
  {
    hide RBTree.Valid, RBTree.Contents;
    OrderIs(tree);
  }

  lemma OrderIs<K(!new)>(tree: RBTree<K>)
    requires tree.Valid()
    ensures forall i, j :: 0 <= i < j < |tree.Contents()| ==>
              !tree.less(tree.Contents()[j].key, tree.Contents()[i].key)
  {
    hide At, RedBlack, StrictWeak, RBTree.Matches;
    var s := tree.Contents();
    assert forall n :: n in s ==> n.key == tree.keys[n];
  }
}
