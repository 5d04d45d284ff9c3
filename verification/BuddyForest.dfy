/** What the allocator's descriptors, bitmap and free lists have to say about a collection of
    root frames, and how one change to one root changes it. */
module BuddyForest {
  import opened Powers
  import opened BuddyTree
  import opened FreeLists

  /** `struct Page` without its list links: order and head flag are fields of `attr`, and
      `shared` is the KernelShare flag, which excuses a frame from usage accounting. */
  datatype Page = Page(order: nat, buddyId: nat, head: bool, shared: bool)

  ghost predicate InRoot(r: Root, p: nat)
  {
    InRange(p, r.base, r.order)
  }

  ghost predicate RootOK(r: Root, n: nat)
  {
    && Fits(r.frame, r.order) && r.order < 16
    && Multiple(r.base, Pow2(r.order)) && r.base + Pow2(r.order) <= n
  }

  ghost predicate WellFormed(f: seq<Root>, n: nat)
  {
    && (forall i :: 0 <= i < |f| ==> RootOK(f[i], n))
    && (forall i: nat, j: nat, p: nat :: 0 <= i < j < |f| && InRoot(f[i], p) ==> !InRoot(f[j], p))
  }

  ghost predicate Managed(f: seq<Root>, p: nat)
  {
    exists i :: 0 <= i < |f| && InRoot(f[i], p)
  }

  ghost function RootCover(r: Root, p: nat): Cover
  {
    if Fits(r.frame, r.order) && InRoot(r, p) then CoverAt(r.frame, r.base, r.order, 1, p) else Inner
  }

  ghost function RootBits(r: Root): set<(nat, nat)>
  {
    if Fits(r.frame, r.order) then Bits(r.frame, r.base, r.order) else {}
  }

  ghost function RootAllocated(r: Root): set<(nat, nat)>
  {
    if Fits(r.frame, r.order) then Allocated(r.frame, r.base, r.order) else {}
  }

  // ---------- the three representations ----------

  ghost predicate Describes(pg: Page, c: Cover)
  {
    if c.Inner? then !pg.head else pg.head && pg.order == c.order && pg.buddyId == c.id
  }

  /** Descriptors: every frame's head carries order and identifier, no other page the head flag. */
  ghost predicate PagesOK(pages: seq<Page>, f: seq<Root>)
  {
    && (forall i: nat, p: nat :: 0 <= i < |f| && InRoot(f[i], p) && p < |pages| ==>
          Describes(pages[p], RootCover(f[i], p)))
    && (forall p: nat :: 0 <= p < |pages| && pages[p].head ==> Managed(f, p))
  }

  /** Bitmap: exactly the pairs with one whole free buddy. */
  ghost predicate BitsOK(ones: set<(nat, nat)>, f: seq<Root>)
  {
    && (forall i: nat, k: nat, p: nat :: 0 <= i < |f| && InRoot(f[i], p) ==>
          ((k, p) in ones <==> (k, p) in RootBits(f[i])))
    && (forall k: nat, p: nat :: (k, p) in ones ==> Managed(f, p))
  }

  ghost predicate FreeHere(r: Root, k: nat, p: nat)
  {
    RootCover(r, p).Head? && RootCover(r, p).free && RootCover(r, p).order == k
  }

  /** Free lists: list `k` holds exactly the whole free frames of order `k`. */
  ghost predicate ListsOK(lists: seq<seq<nat>>, f: seq<Root>)
  {
    && (forall i: nat, k: nat, p: nat :: 0 <= i < |f| && InRoot(f[i], p) && 0 <= k < |lists| ==>
          (p in lists[k] <==> FreeHere(f[i], k, p)))
    && (forall k: nat, p: nat :: 0 <= k < |lists| && p in lists[k] ==> Managed(f, p))
  }

  /** The allocated frames of all roots. */
  ghost predicate IsAllocated(f: seq<Root>, k: nat, p: nat)
  {
    exists i :: 0 <= i < |f| && (k, p) in RootAllocated(f[i])
  }

  ghost predicate IsFree(f: seq<Root>, k: nat, p: nat)
  {
    exists i :: 0 <= i < |f| && FreeHere(f[i], k, p)
  }

  ghost predicate AllReduced(f: seq<Root>)
  {
    forall i :: 0 <= i < |f| ==> Reduced(f[i].frame)
  }

  /** The same root frames, differently divided. */
  ghost predicate SameRoots(f: seq<Root>, g: seq<Root>)
  {
    && |f| == |g|
    && (forall i :: 0 <= i < |f| ==> f[i].base == g[i].base && f[i].order == g[i].order)
  }

  /** `f` with the hole `c` of its root `i` filled with `t`. */
  ghost function With(f: seq<Root>, i: nat, c: Path, t: Frame): seq<Root>
    requires i < |f|
  {
    f[i := f[i].(frame := Plug(c, t))]
  }

  // ---------- changing one root ----------

  lemma SameManaged(f: seq<Root>, i: nat, r: Root, p: nat)
    requires i < |f| && r.base == f[i].base && r.order == f[i].order
    ensures Managed(f[i := r], p) <==> Managed(f, p)
  {
    if Managed(f, p) {
      var j :| 0 <= j < |f| && InRoot(f[j], p);
      assert InRoot(f[i := r][j], p);
    }
    if Managed(f[i := r], p) {
      var j :| 0 <= j < |f| && InRoot(f[i := r][j], p);
      assert InRoot(f[j], p);
    }
  }

  lemma WellFormedUpdate(f: seq<Root>, i: nat, r: Root, n: nat)
    requires WellFormed(f, n) && i < |f| && r.base == f[i].base && r.order == f[i].order
    requires Fits(r.frame, r.order)
    ensures WellFormed(f[i := r], n)
  {
    var g := f[i := r];
    forall a: nat, b: nat, p: nat | 0 <= a < b < |g| && InRoot(g[a], p) ensures !InRoot(g[b], p) {
      assert InRoot(f[a], p);
      assert InRoot(g[b], p) == InRoot(f[b], p);
    }
    assert RootOK(f[i], n);
  }

  lemma PagesUpdate(pages: seq<Page>, pages': seq<Page>, f: seq<Root>, i: nat, r: Root)
    requires WellFormed(f, |pages|) && PagesOK(pages, f) && i < |f| && r.base == f[i].base && r.order == f[i].order
    requires |pages'| == |pages|
    requires forall p: nat :: 0 <= p < |pages| && !InRoot(f[i], p) ==> pages'[p] == pages[p]
    requires forall p: nat :: 0 <= p < |pages| && InRoot(f[i], p) ==> Describes(pages'[p], RootCover(r, p))
    ensures PagesOK(pages', f[i := r])
  {
    var g := f[i := r];
    forall j: nat, p: nat | 0 <= j < |g| && InRoot(g[j], p) && p < |pages'|
      ensures Describes(pages'[p], RootCover(g[j], p))
    {
      if j != i {
        assert InRoot(f[j], p) && !InRoot(f[i], p);
      } else {
        assert InRoot(f[i], p);
      }
    }
    forall p: nat | 0 <= p < |pages'| && pages'[p].head ensures Managed(g, p) {
      SameManaged(f, i, r, p);
      assert !InRoot(f[i], p) ==> pages[p].head;
    }
  }

  lemma BitsUpdate(ones: set<(nat, nat)>, ones': set<(nat, nat)>, f: seq<Root>, i: nat, r: Root, n: nat)
    requires WellFormed(f, n) && BitsOK(ones, f) && i < |f| && r.base == f[i].base && r.order == f[i].order
    requires forall k: nat, p: nat :: !InRoot(f[i], p) ==> ((k, p) in ones' <==> (k, p) in ones)
    requires forall k: nat, p: nat :: InRoot(f[i], p) ==> ((k, p) in ones' <==> (k, p) in RootBits(r))
    ensures BitsOK(ones', f[i := r])
  {
    var g := f[i := r];
    forall j: nat, k: nat, p: nat | 0 <= j < |g| && InRoot(g[j], p)
      ensures (k, p) in ones' <==> (k, p) in RootBits(g[j])
    {
      if j != i {
        assert InRoot(f[j], p) && !InRoot(f[i], p);
      } else {
        assert InRoot(f[i], p);
      }
    }
    forall k: nat, p: nat | (k, p) in ones' ensures Managed(g, p) {
      SameManaged(f, i, r, p);
      if !InRoot(f[i], p) {
        assert (k, p) in ones;
      }
    }
  }

  lemma ListsUpdate(lists: seq<seq<nat>>, lists': seq<seq<nat>>, f: seq<Root>, i: nat, r: Root, n: nat)
    requires WellFormed(f, n) && ListsOK(lists, f) && i < |f| && r.base == f[i].base && r.order == f[i].order
    requires |lists'| == |lists|
    requires forall k: nat, p: nat :: 0 <= k < |lists| && !InRoot(f[i], p) ==> (p in lists'[k] <==> p in lists[k])
    requires forall k: nat, p: nat :: 0 <= k < |lists| && InRoot(f[i], p) ==> (p in lists'[k] <==> FreeHere(r, k, p))
    ensures ListsOK(lists', f[i := r])
  {
    var g := f[i := r];
    forall j: nat, k: nat, p: nat | 0 <= j < |g| && InRoot(g[j], p) && 0 <= k < |lists'|
      ensures p in lists'[k] <==> FreeHere(g[j], k, p)
    {
      if j != i {
        assert InRoot(f[j], p) && !InRoot(f[i], p);
      } else {
        assert InRoot(f[i], p);
      }
    }
    forall k: nat, p: nat | 0 <= k < |lists'| && p in lists'[k] ensures Managed(g, p) {
      SameManaged(f, i, r, p);
      if !InRoot(f[i], p) {
        assert p in lists[k];
      }
    }
  }

  // ---------- a whole frame changes hands ----------

  /** Root `i` of `f` is `c` around the whole frame `t`. */
  ghost predicate HasWhole(f: seq<Root>, n: nat, i: nat, c: Path, t: Frame)
  {
    && WellFormed(f, n) && i < |f| && !t.Split?
    && PathFits(c, f[i].order) && f[i].frame == Plug(c, t)
  }

  ghost function Base(f: seq<Root>, i: nat, c: Path): nat
    requires i < |f| && PathFits(c, f[i].order)
  {
    HoleBase(c, f[i].base, f[i].order)
  }

  ghost function Order(f: seq<Root>, i: nat, c: Path): nat
    requires i < |f| && PathFits(c, f[i].order)
  {
    HoleOrder(c, f[i].order)
  }

  lemma WithWellFormed(f: seq<Root>, n: nat, i: nat, c: Path, t: Frame)
    requires WellFormed(f, n) && i < |f| && PathFits(c, f[i].order) && Fits(t, HoleOrder(c, f[i].order))
    ensures WellFormed(With(f, i, c, t), n)
  {
    PlugFits(c, t, f[i].order);
    WellFormedUpdate(f, i, f[i].(frame := Plug(c, t)), n);
  }

  lemma HoleInRoot(f: seq<Root>, n: nat, i: nat, c: Path)
    requires WellFormed(f, n) && i < |f| && PathFits(c, f[i].order)
    ensures InRoot(f[i], Base(f, i, c)) && Base(f, i, c) + Pow2(Order(f, i, c)) <= n
    ensures Order(f, i, c) <= f[i].order < 16
  {
    HoleInside(c, f[i].base, f[i].order);
    assert RootOK(f[i], n);
  }

  /** The head of a whole frame is described by its descriptor. */
  lemma WholeHead(pages: seq<Page>, f: seq<Root>, i: nat, c: Path, t: Frame)
    requires HasWhole(f, |pages|, i, c, t) && PagesOK(pages, f)
    ensures Base(f, i, c) < |pages|
    ensures var pg := pages[Base(f, i, c)];
            pg.head && pg.order == Order(f, i, c) && pg.buddyId == HoleId(c)
  {
    var r, p := f[i], Base(f, i, c);
    HoleInRoot(f, |pages|, i, c);
    MarkCover(c, t, t, r.base, r.order, p);
    assert Describes(pages[p], RootCover(r, p));
  }

  lemma MarkPages(pages: seq<Page>, f: seq<Root>, i: nat, c: Path, t: Frame, t': Frame)
    requires HasWhole(f, |pages|, i, c, t) && PagesOK(pages, f) && !t'.Split?
    ensures PagesOK(pages, With(f, i, c, t')) && HasWhole(With(f, i, c, t'), |pages|, i, c, t')
  {
    var r, r' := f[i], f[i].(frame := Plug(c, t'));
    WithWellFormed(f, |pages|, i, c, t');
    forall p: nat | p < |pages| && InRoot(r, p) ensures Describes(pages[p], RootCover(r', p)) {
      MarkCover(c, t, t', r.base, r.order, p);
      MarkCover(c, t', t, r.base, r.order, p);
      assert Describes(pages[p], RootCover(r, p));
    }
    PagesUpdate(pages, pages, f, i, r');
  }

  /** The bitmap after `revBit` on the frame in the hole. */
  ghost function Flipped(ones: set<(nat, nat)>, f: seq<Root>, i: nat, c: Path): set<(nat, nat)>
    requires i < |f| && PathFits(c, f[i].order)
  {
    if c.Top? then ones else Toggle(ones, PairBit(c, f[i].base, f[i].order))
  }

  lemma MarkOnes(ones: set<(nat, nat)>, f: seq<Root>, n: nat, i: nat, c: Path, t: Frame, t': Frame)
    requires HasWhole(f, n, i, c, t) && BitsOK(ones, f) && !t'.Split? && t' != t
    ensures BitsOK(Flipped(ones, f, i, c), With(f, i, c, t'))
    ensures !c.Top? && t'.Free? ==> (PairBit(c, f[i].base, f[i].order) in Flipped(ones, f, i, c) <==> !c.sib.Free?)
  {
    var r, r', ones' := f[i], f[i].(frame := Plug(c, t')), Flipped(ones, f, i, c);
    MarkBits(c, r.base, r.order);
    if !c.Top? {
      HoleInRoot(f, n, i, c.up);
    }
    forall k: nat, p: nat | InRoot(r, p) ensures (k, p) in ones' <==> (k, p) in RootBits(r') {
      assert (k, p) in ones <==> (k, p) in RootBits(r);
    }
    BitsUpdate(ones, ones', f, i, r', n);
  }

  lemma InList(lists: seq<seq<nat>>, f: seq<Root>, n: nat, i: nat, c: Path, t: Frame, k: nat)
    requires HasWhole(f, n, i, c, t) && ListsOK(lists, f) && k < |lists|
    ensures Base(f, i, c) in lists[k] <==> t.Free? && k == Order(f, i, c)
  {
    var r, p := f[i], Base(f, i, c);
    HoleInRoot(f, n, i, c);
    MarkCover(c, t, t, r.base, r.order, p);
    assert p in lists[k] <==> FreeHere(r, k, p);
  }

  lemma InsertList(lists: seq<seq<nat>>, f: seq<Root>, n: nat, i: nat, c: Path)
    requires HasWhole(f, n, i, c, Used) && ListsOK(lists, f) && |lists| == ORDERS
    ensures var k, p := Order(f, i, c), Base(f, i, c);
            && k < ORDERS
            && ListsOK(lists[k := lists[k] + [p]], With(f, i, c, Free))
  {
    var r, r', k, q := f[i], f[i].(frame := Plug(c, Free)), Order(f, i, c), Base(f, i, c);
    HoleInRoot(f, n, i, c);
    var lists' := lists[k := lists[k] + [q]];
    forall j: nat, p: nat | j < |lists| && InRoot(r, p) ensures p in lists'[j] <==> FreeHere(r', j, p) {
      MarkCover(c, Free, Used, r.base, r.order, p);
      MarkCover(c, Used, Free, r.base, r.order, p);
      assert p in lists[j] <==> FreeHere(r, j, p);
    }
    ListsUpdate(lists, lists', f, i, r', n);
  }

  lemma InWithout(s: seq<nat>, at: nat, p: nat)
    requires at < |s| && NoRepeat(s)
    ensures p in Without(s, at) <==> p in s && p != s[at]
  {
    if p in s && p != s[at] {
      var j :| 0 <= j < |s| && s[j] == p;
      assert Without(s, at)[if j < at then j else j - 1] == p;
    }
    if p in Without(s, at) {
      var j :| 0 <= j < |s| - 1 && Without(s, at)[j] == p;
      assert s[if j < at then j else j + 1] == p;
    }
  }

  lemma RemoveList(lists: seq<seq<nat>>, f: seq<Root>, n: nat, i: nat, c: Path, at: nat)
    requires HasWhole(f, n, i, c, Free) && ListsOK(lists, f) && |lists| == ORDERS
    requires var k := Order(f, i, c);
             k < ORDERS && NoRepeat(lists[k]) && at < |lists[k]| && lists[k][at] == Base(f, i, c)
    ensures var k := Order(f, i, c);
            ListsOK(lists[k := Without(lists[k], at)], With(f, i, c, Used))
  {
    var r, r', k, q := f[i], f[i].(frame := Plug(c, Used)), Order(f, i, c), Base(f, i, c);
    HoleInRoot(f, n, i, c);
    var lists' := lists[k := Without(lists[k], at)];
    forall j: nat, p: nat | j < |lists| && InRoot(r, p) ensures p in lists'[j] <==> FreeHere(r', j, p) {
      MarkCover(c, Free, Used, r.base, r.order, p);
      MarkCover(c, Used, Free, r.base, r.order, p);
      assert p in lists[j] <==> FreeHere(r, j, p);
      InWithout(lists[k], at, p);
    }
    forall j: nat, p: nat | j < |lists| && !InRoot(r, p) ensures p in lists'[j] <==> p in lists[j] {
      InWithout(lists[k], at, p);
    }
    ListsUpdate(lists, lists', f, i, r', n);
  }

  // ---------- an allocated frame is halved ----------

  lemma SplitPages(pages: seq<Page>, pages': seq<Page>, f: seq<Root>, i: nat, c: Path, right: Frame)
    requires HasWhole(f, |pages|, i, c, Used) && PagesOK(pages, f) && !right.Split? && Order(f, i, c) > 0
    requires var b, o := Base(f, i, c), Order(f, i, c);
             && b + Pow2(o) <= |pages| == |pages'|
             && (forall p: nat :: p < |pages| && p != b && p != b + Pow2(o - 1) ==> pages'[p] == pages[p])
             && b + Pow2(o - 1) < |pages|
             && Describes(pages'[b], Head(o - 1, 2 * HoleId(c), false))
             && Describes(pages'[b + Pow2(o - 1)], Head(o - 1, 2 * HoleId(c) + 1, false))
    ensures PagesOK(pages', With(f, i, c, Split(Used, right)))
  {
    var r, r' := f[i], f[i].(frame := Plug(c, Split(Used, right)));
    var b, o := Base(f, i, c), Order(f, i, c);
    HoleInRoot(f, |pages|, i, c);
    assert Pow2(o) == 2 * Pow2(o - 1);
    forall p: nat | p < |pages| && InRoot(r, p) ensures Describes(pages'[p], RootCover(r', p)) {
      SplitCover(c, Used, right, Used, r.base, r.order, p);
      MarkCover(c, Used, Used, r.base, r.order, p);
      assert Describes(pages[p], RootCover(r, p));
    }
    HoleInside(c, r.base, r.order);
    PagesUpdate(pages, pages', f, i, r');
  }

  lemma SplitOnes(ones: set<(nat, nat)>, f: seq<Root>, n: nat, i: nat, c: Path, right: Frame)
    requires HasWhole(f, n, i, c, Used) && BitsOK(ones, f) && !right.Split? && Order(f, i, c) > 0
    ensures var bit := (Order(f, i, c) - 1, Base(f, i, c));
            && bit !in ones
            && BitsOK(if right.Free? then ones + {bit} else ones, With(f, i, c, Split(Used, right)))
  {
    var r, r', bit := f[i], f[i].(frame := Plug(c, Split(Used, right))), (Order(f, i, c) - 1, Base(f, i, c));
    var ones' := if right.Free? then ones + {bit} else ones;
    HoleInRoot(f, n, i, c);
    SplitBits(c, right, r.base, r.order);
    forall k: nat, p: nat | InRoot(r, p) ensures (k, p) in ones' <==> (k, p) in RootBits(r') {
      assert (k, p) in ones <==> (k, p) in RootBits(r);
    }
    BitsUpdate(ones, ones', f, i, r', n);
  }

  lemma RightHalfUnlisted(lists: seq<seq<nat>>, f: seq<Root>, n: nat, i: nat, c: Path)
    requires HasWhole(f, n, i, c, Used) && ListsOK(lists, f) && |lists| == ORDERS && Order(f, i, c) > 0
    ensures var q := Base(f, i, c) + Pow2(Order(f, i, c) - 1);
            InRoot(f[i], q) && q < n && forall j :: 0 <= j < ORDERS ==> q !in lists[j]
  {
    var r, k := f[i], Order(f, i, c) - 1;
    var q := Base(f, i, c) + Pow2(k);
    HoleInRoot(f, n, i, c);
    HoleInside(c, r.base, r.order);
    assert Pow2(k + 1) == 2 * Pow2(k);
    MarkCover(c, Used, Used, r.base, r.order, q);
    forall j: nat | j < ORDERS ensures q !in lists[j] {
      assert q in lists[j] <==> FreeHere(r, j, q);
    }
  }

  lemma SplitLists(lists: seq<seq<nat>>, lists': seq<seq<nat>>, f: seq<Root>, n: nat, i: nat, c: Path, right: Frame)
    requires HasWhole(f, n, i, c, Used) && ListsOK(lists, f) && |lists| == ORDERS
    requires !right.Split? && 0 < Order(f, i, c) <= ORDERS
    requires var k := Order(f, i, c) - 1;
             lists' == if right.Free? then lists[k := lists[k] + [Base(f, i, c) + Pow2(k)]] else lists
    ensures ListsOK(lists', With(f, i, c, Split(Used, right)))
  {
    hide CoverAt, HoleBase, HoleId, Pow2;
    var r, r' := f[i], f[i].(frame := Plug(c, Split(Used, right)));
    HoleInRoot(f, n, i, c);
    RightHalfUnlisted(lists, f, n, i, c);
    forall j: nat, p: nat | j < |lists| && InRoot(r, p) ensures p in lists'[j] <==> FreeHere(r', j, p) {
      SplitCover(c, Used, right, Used, r.base, r.order, p);
      MarkCover(c, Used, Used, r.base, r.order, p);
      assert p in lists[j] <==> FreeHere(r, j, p);
    }
    ListsUpdate(lists, lists', f, i, r', n);
  }

  /** The right half of a halved frame is whole, and its pair's bit is the new one. */
  lemma RightHalf(f: seq<Root>, n: nat, i: nat, c: Path, right: Frame)
    requires HasWhole(f, n, i, c, Used) && 0 < Order(f, i, c) && !right.Split?
    ensures var g := With(f, i, c, Split(Used, right));
            && g == With(f, i, InL(c, right), Used) && HasWhole(g, n, i, InL(c, right), Used)
            && HasWhole(g, n, i, InR(c, Used), right)
            && Base(g, i, InR(c, Used)) == Base(f, i, c) + Pow2(Order(f, i, c) - 1)
            && PairBit(InR(c, Used), g[i].base, g[i].order) == (Order(f, i, c) - 1, Base(f, i, c))
  {
    hide WellFormed;
    WithWellFormed(f, n, i, c, Split(Used, right));
  }

  // ---------- two free buddies merge ----------

  /** The frame in the hole and its free buddy. */
  ghost predicate CanMerge(f: seq<Root>, n: nat, i: nat, c: Path)
  {
    HasWhole(f, n, i, c, Used) && !c.Top? && c.sib.Free?
  }

  /** The buddy's place in the tree. */
  ghost function BuddyPath(c: Path, t: Frame): Path
    requires !c.Top?
  {
    if c.InL? then InR(c.up, t) else InL(c.up, t)
  }

  lemma BuddyIsWhole(f: seq<Root>, n: nat, i: nat, c: Path)
    requires CanMerge(f, n, i, c)
    ensures HasWhole(f, n, i, BuddyPath(c, Used), Free)
    ensures Order(f, i, BuddyPath(c, Used)) == Order(f, i, c)
    ensures Base(f, i, BuddyPath(c, Used)) == if c.InL? then Base(f, i, c) + Pow2(Order(f, i, c))
              else Base(f, i, c) - Pow2(Order(f, i, c))
    ensures Base(f, i, c.up) == if c.InL? then Base(f, i, c) else Base(f, i, c) - Pow2(Order(f, i, c))
    ensures Order(f, i, c.up) == Order(f, i, c) + 1
  {
  }

  /** Which of the two is the left one, and what the descriptors say of both. */
  lemma MergeSides(pages: seq<Page>, f: seq<Root>, i: nat, c: Path)
    requires CanMerge(f, |pages|, i, c) && PagesOK(pages, f)
    ensures var p, b, o := Base(f, i, c), Base(f, i, BuddyPath(c, Used)), Order(f, i, c);
            var l, r := if c.InR? then b else p, if c.InR? then p else b;
            && p < |pages| && b < |pages| && (c.InR? <==> pages[p].buddyId % 2 == 1)
            && l == Base(f, i, c.up) && r == l + Pow2(o) < l + Pow2(o + 1) <= |pages|
            && pages[l].buddyId / 2 == HoleId(c.up) && pages[p].order == o && Order(f, i, c.up) == o + 1
  {
    var b := BuddyPath(c, Used);
    BuddyIsWhole(f, |pages|, i, c);
    IdParity(c);
    IdParity(b);
    WholeHead(pages, f, i, c, Used);
    WholeHead(pages, f, i, b, Free);
    HoleInRoot(f, |pages|, i, c.up);
    assert Pow2(Order(f, i, c.up)) == 2 * Pow2(Order(f, i, c));
  }

  lemma MergePages(pages: seq<Page>, pages': seq<Page>, f: seq<Root>, i: nat, c: Path)
    requires CanMerge(f, |pages|, i, c) && PagesOK(pages, f)
    requires var b, o := Base(f, i, c.up), Order(f, i, c);
             && b + Pow2(o) < |pages| == |pages'|
             && (forall p: nat :: p < |pages| && p != b && p != b + Pow2(o) ==> pages'[p] == pages[p])
             && Describes(pages'[b], Head(o + 1, HoleId(c.up), false))
             && !pages'[b + Pow2(o)].head
    ensures PagesOK(pages', With(f, i, c.up, Used)) && HasWhole(With(f, i, c.up, Used), |pages|, i, c.up, Used)
  {
    hide CoverAt, RootCover, Describes, HoleBase, HoleId, Pow2;
    var r, r' := f[i], f[i].(frame := Plug(c.up, Used));
    var l, rt := if c.InL? then Used else Free, if c.InL? then Free else Used;
    var b, o := Base(f, i, c.up), Order(f, i, c);
    assert r.frame == Plug(c.up, Split(l, rt)) && Order(f, i, c.up) == o + 1;
    WithWellFormed(f, |pages|, i, c.up, Used);
    HoleInRoot(f, |pages|, i, c.up);
    HoleInside(c.up, r.base, r.order);
    Pow2Double(o);
    forall p: nat | p < |pages| && InRoot(r, p) ensures Describes(pages'[p], RootCover(r', p)) {
      assert Describes(pages[p], RootCover(r, p));
      MergedPage(pages[p], pages'[p], r, c.up, l, rt, p);
    }
    PagesUpdate(pages, pages', f, i, r');
  }

  /** The descriptor of one page when two halves become one frame. */
  lemma MergedPage(pg: Page, pg': Page, r: Root, c: Path, l: Frame, rt: Frame, p: nat)
    requires PathFits(c, r.order) && !l.Split? && !rt.Split? && HoleOrder(c, r.order) > 0
    requires r.frame == Plug(c, Split(l, rt)) && InRoot(r, p) && Describes(pg, RootCover(r, p))
    requires var b, o := HoleBase(c, r.base, r.order), HoleOrder(c, r.order);
             && (p == b ==> Describes(pg', Head(o, HoleId(c), false)))
             && (p == b + Pow2(o - 1) ==> !pg'.head)
             && (p != b && p != b + Pow2(o - 1) ==> pg' == pg)
    ensures Describes(pg', RootCover(r.(frame := Plug(c, Used)), p))
  {
    hide CoverAt, HoleBase, HoleId, Plug;
    SplitCover(c, l, rt, Used, r.base, r.order, p);
    MarkCover(c, Used, Split(l, rt), r.base, r.order, p);
  }

  lemma MergeOnes(ones: set<(nat, nat)>, f: seq<Root>, n: nat, i: nat, c: Path)
    requires CanMerge(f, n, i, c) && BitsOK(ones, With(f, i, c, Free))
    ensures BitsOK(ones, With(f, i, c.up, Used))
  {
    var g := With(f, i, c, Free);
    WithWellFormed(f, n, i, c, Free);
    MergeBits(c, f[i].base, f[i].order);
    var r' := f[i].(frame := Plug(c.up, Used));
    forall k: nat, p: nat | InRoot(g[i], p) ensures (k, p) in ones <==> (k, p) in RootBits(r') {
      assert (k, p) in ones <==> (k, p) in RootBits(g[i]);
    }
    BitsUpdate(ones, ones, g, i, r', n);
    assert g[i := r'] == With(f, i, c.up, Used);
  }

  lemma MergeLists(lists: seq<seq<nat>>, f: seq<Root>, n: nat, i: nat, c: Path)
    requires CanMerge(f, n, i, c) && ListsOK(lists, With(f, i, BuddyPath(c, Used), Used))
    ensures ListsOK(lists, With(f, i, c.up, Used))
  {
    hide CoverAt, HoleBase, HoleId, Pow2;
    var g := With(f, i, BuddyPath(c, Used), Used);
    BuddyIsWhole(f, n, i, c);
    WithWellFormed(f, n, i, BuddyPath(c, Used), Used);
    var r, r' := g[i], f[i].(frame := Plug(c.up, Used));
    assert r.frame == Plug(c.up, Split(Used, Used));
    forall j: nat, p: nat | j < |lists| && InRoot(r, p) ensures p in lists[j] <==> FreeHere(r', j, p) {
      SplitCover(c.up, Used, Used, Used, r.base, r.order, p);
      MarkCover(c.up, Used, Split(Used, Used), r.base, r.order, p);
      assert p in lists[j] <==> FreeHere(r, j, p);
    }
    ListsUpdate(lists, lists, g, i, r', n);
    assert g[i := r'] == With(f, i, c.up, Used);
  }

  // ---------- the allocated frames, before and after ----------

  /** The allocated frames of `g` are those of `f` and `(k, p)`, which is new. */
  ghost predicate Gained(f: seq<Root>, g: seq<Root>, k: nat, p: nat)
  {
    && SameRoots(f, g) && !IsAllocated(f, k, p)
    && (forall j: nat, q: nat :: IsAllocated(g, j, q) <==> IsAllocated(f, j, q) || (j == k && q == p))
  }

  /** If one root gains allocated frames, so does the forest. */
  lemma RootGains(f: seq<Root>, g: seq<Root>, i: nat, more: set<(nat, nat)>, k: nat, p: nat)
    requires i < |f| == |g| && g == f[i := g[i]] && RootAllocated(g[i]) == RootAllocated(f[i]) + more
    ensures IsAllocated(g, k, p) <==> IsAllocated(f, k, p) || (k, p) in more
  {
    if IsAllocated(g, k, p) {
      var a :| 0 <= a < |g| && (k, p) in RootAllocated(g[a]);
      assert a != i ==> (k, p) in RootAllocated(f[a]);
    }
    if IsAllocated(f, k, p) {
      var a :| 0 <= a < |f| && (k, p) in RootAllocated(f[a]);
      assert (k, p) in RootAllocated(g[a]);
    }
    if (k, p) in more {
      assert (k, p) in RootAllocated(g[i]);
    }
  }

  lemma OneRootChanged(f: seq<Root>, g: seq<Root>, n: nat, i: nat, k: nat, p: nat)
    requires WellFormed(f, n) && i < |f| == |g| && g == f[i := g[i]] && g[i].base == f[i].base
    requires g[i].order == f[i].order
    requires Fits(g[i].frame, g[i].order)
    requires (k, p) !in RootAllocated(f[i]) && RootAllocated(g[i]) == RootAllocated(f[i]) + {(k, p)}
    ensures Gained(f, g, k, p)
  {
    forall j: nat, q: nat ensures IsAllocated(g, j, q) <==> IsAllocated(f, j, q) || (j == k && q == p) {
      RootGains(f, g, i, {(k, p)}, j, q);
    }
    if IsAllocated(f, k, p) {
      var a :| 0 <= a < |f| && (k, p) in RootAllocated(f[a]);
      AllocatedInRange(f[a].frame, f[a].base, f[a].order, k, p);
      AllocatedInRange(g[i].frame, g[i].base, g[i].order, k, p);
      assert InRoot(f[a], p) && InRoot(f[i], p);
    }
  }

  /** Taking the free frame in a hole and halving it down to `(k, base)`. */
  lemma GainedByTaking(f: seq<Root>, n: nat, i: nat, c: Path, c': Path)
    requires HasWhole(f, n, i, c, Free) && PathFits(c', f[i].order)
    requires PathAllocated(c', f[i].base, f[i].order) == PathAllocated(c, f[i].base, f[i].order)
    ensures Gained(f, With(f, i, c', Used), Order(f, i, c'), Base(f, i, c'))
  {
    var r, g := f[i], With(f, i, c', Used);
    var k, p := Order(f, i, c'), Base(f, i, c');
    PlugAllocated(c, Free, r.base, r.order);
    PlugAllocated(c', Used, r.base, r.order);
    if (k, p) in PathAllocated(c', r.base, r.order) {
      PathAllocatedOutside(c', r.base, r.order, k, p);
    }
    OneRootChanged(f, g, n, i, k, p);
  }

  /** Freeing the allocated frame of `c0`, merged up to the frame of `c`. */
  lemma LostByFreeing(f: seq<Root>, n: nat, i: nat, c0: Path, c: Path)
    requires HasWhole(f, n, i, c0, Used) && PathFits(c, f[i].order)
    requires PathAllocated(c, f[i].base, f[i].order) == PathAllocated(c0, f[i].base, f[i].order)
    ensures Gained(With(f, i, c, Free), f, Order(f, i, c0), Base(f, i, c0))
  {
    var r, g := f[i], With(f, i, c, Free);
    var k, p := Order(f, i, c0), Base(f, i, c0);
    PlugAllocated(c, Free, r.base, r.order);
    PlugAllocated(c0, Used, r.base, r.order);
    if (k, p) in PathAllocated(c0, r.base, r.order) {
      PathAllocatedOutside(c0, r.base, r.order, k, p);
    }
    WithWellFormed(f, n, i, c, Free);
    assert f == g[i := f[i]];
    OneRootChanged(g, f, n, i, k, p);
  }

  /** Whole allocated frames are the allocated ones. */
  lemma WholeAllocated(f: seq<Root>, n: nat, k: nat, p: nat) returns (i: nat, c: Path)
    requires WellFormed(f, n) && IsAllocated(f, k, p)
    ensures HasWhole(f, n, i, c, Used) && Order(f, i, c) == k && Base(f, i, c) == p
  {
    i :| 0 <= i < |f| && (k, p) in RootAllocated(f[i]);
    var r := f[i];
    c := AllocatedPath(Top, r.frame, r.base, r.order, k, p);
  }

  lemma {:induction false} AllocatedPath(c: Path, t: Frame, rb: nat, ro: nat, k: nat, p: nat) returns (c': Path)
    requires PathFits(c, ro) && Fits(t, HoleOrder(c, ro))
    requires (k, p) in Allocated(t, HoleBase(c, rb, ro), HoleOrder(c, ro))
    ensures PathFits(c', ro) && Plug(c', Used) == Plug(c, t) && HoleOrder(c', ro) == k && HoleBase(c', rb, ro) == p
    decreases t
  {
    if t.Used? {
      c' := c;
    } else if (k, p) in Allocated(t.left, HoleBase(c, rb, ro), HoleOrder(c, ro) - 1) {
      c' := AllocatedPath(InL(c, t.right), t.left, rb, ro, k, p);
    } else {
      c' := AllocatedPath(InR(c, t.left), t.right, rb, ro, k, p);
    }
  }

  lemma WholeIsAllocated(f: seq<Root>, n: nat, i: nat, c: Path)
    requires HasWhole(f, n, i, c, Used)
    ensures IsAllocated(f, Order(f, i, c), Base(f, i, c))
  {
    PlugAllocated(c, Used, f[i].base, f[i].order);
    assert (Order(f, i, c), Base(f, i, c)) in RootAllocated(f[i]);
  }

  /** No allocated frame starts inside a whole free one. */
  lemma NoneInFree(f: seq<Root>, n: nat, i: nat, c: Path, k: nat, p: nat)
    requires HasWhole(f, n, i, c, Free) && IsAllocated(f, k, p)
    ensures !InRange(p, Base(f, i, c), Order(f, i, c))
  {
    var j :| 0 <= j < |f| && (k, p) in RootAllocated(f[j]);
    AllocatedInRange(f[j].frame, f[j].base, f[j].order, k, p);
    assert InRoot(f[j], p);
    HoleInside(c, f[i].base, f[i].order);
    if j == i {
      PlugAllocated(c, Free, f[i].base, f[i].order);
      PathAllocatedOutside(c, f[i].base, f[i].order, k, p);
    } else if InRange(p, Base(f, i, c), Order(f, i, c)) {
      assert InRoot(f[i], p);
    }
  }

  /** Whole free frames are the free ones. */
  lemma WholeFree(f: seq<Root>, n: nat, k: nat, p: nat) returns (i: nat, c: Path)
    requires WellFormed(f, n) && IsFree(f, k, p)
    ensures HasWhole(f, n, i, c, Free) && Order(f, i, c) == k && Base(f, i, c) == p
  {
    i :| 0 <= i < |f| && FreeHere(f[i], k, p);
    var r := f[i];
    var t;
    c, t := Locate(Top, r.frame, r.base, r.order, p);
  }

  lemma FreeInList(lists: seq<seq<nat>>, f: seq<Root>, k: nat, p: nat)
    requires ListsOK(lists, f) && k < |lists|
    ensures p in lists[k] <==> IsFree(f, k, p)
  {
    if p in lists[k] {
      assert Managed(f, p);
      var i :| 0 <= i < |f| && InRoot(f[i], p);
      assert FreeHere(f[i], k, p);
    }
    if IsFree(f, k, p) {
      var i :| 0 <= i < |f| && FreeHere(f[i], k, p);
      assert InRoot(f[i], p);
    }
  }

  /** A free root frame has no bit to be cleared, so when it is freed again it is linked into the list that
      it is in already. */
  lemma RootFreedTwice(f: seq<Root>, n: nat, lists: seq<seq<nat>>, i: nat)
    requires WellFormed(f, n) && ListsOK(lists, f) && |lists| == ORDERS && i < |f| && f[i].frame == Free
    ensures f[i].order < |lists| && f[i].base in lists[f[i].order]
    ensures Bits(Used, f[i].base, f[i].order) == Bits(Free, f[i].base, f[i].order) == {}
  {
    assert InRoot(f[i], f[i].base) && FreeHere(f[i], f[i].order, f[i].base);
  }

  // ---------- laying down a root frame ----------

  /** A free root over pages that no root has yet. */
  ghost predicate Fresh(f: seq<Root>, r: Root, n: nat)
  {
    WellFormed(f, n) && RootOK(r, n) && r.frame == Free && forall p: nat :: InRoot(r, p) ==> !Managed(f, p)
  }

  lemma AppendManaged(f: seq<Root>, r: Root, p: nat)
    ensures Managed(f + [r], p) <==> Managed(f, p) || InRoot(r, p)
  {
    var g := f + [r];
    if Managed(f, p) {
      var i :| 0 <= i < |f| && InRoot(f[i], p);
      assert InRoot(g[i], p);
    }
    if InRoot(r, p) {
      assert InRoot(g[|f|], p);
    }
    if Managed(g, p) {
      var i :| 0 <= i < |g| && InRoot(g[i], p);
      assert i < |f| ==> InRoot(f[i], p);
    }
  }

  lemma AppendWellFormed(f: seq<Root>, r: Root, n: nat)
    requires Fresh(f, r, n)
    ensures WellFormed(f + [r], n)
  {
    var g := f + [r];
    forall a: nat, b: nat, p: nat | 0 <= a < b < |g| && InRoot(g[a], p) ensures !InRoot(g[b], p) {
      assert InRoot(f[a], p) && Managed(f, p);
    }
  }

  lemma AppendRoot(pages: seq<Page>, ones: set<(nat, nat)>, lists: seq<seq<nat>>, f: seq<Root>, r: Root, pg: Page)
    requires Fresh(f, r, |pages|) && |lists| == ORDERS && Describes(pg, Head(r.order, 1, true))
    requires PagesOK(pages, f) && BitsOK(ones, f) && ListsOK(lists, f)
    ensures r.base < |pages| && PagesOK(pages[r.base := pg], f + [r]) && BitsOK(ones, f + [r])
    ensures forall k :: 0 <= k < ORDERS ==> r.base !in lists[k]
    ensures ListsOK(lists[r.order := lists[r.order] + [r.base]], f + [r])
  {
    var g, n := f + [r], |pages|;
    assert InRoot(r, r.base);
    forall p: nat ensures Managed(g, p) <==> Managed(f, p) || InRoot(r, p) {
      AppendManaged(f, r, p);
    }
    forall i: nat, p: nat | i < |f| && InRoot(f[i], p) ensures !InRoot(r, p) {
      assert Managed(f, p);
    }
    forall i: nat, p: nat | i < |g| && InRoot(g[i], p) && p < n
      ensures Describes(pages[r.base := pg][p], RootCover(g[i], p))
    {
      assert i < |f| ==> InRoot(f[i], p);
    }
    forall i: nat, k: nat, p: nat | i < |g| && InRoot(g[i], p) ensures (k, p) in ones <==> (k, p) in RootBits(g[i]) {
      assert i < |f| ==> InRoot(f[i], p);
      assert (k, p) in ones ==> Managed(f, p);
    }
    var lists' := lists[r.order := lists[r.order] + [r.base]];
    forall i: nat, k: nat, p: nat | i < |g| && InRoot(g[i], p) && k < ORDERS
      ensures p in lists'[k] <==> FreeHere(g[i], k, p)
    {
      assert i < |f| ==> InRoot(f[i], p);
      assert p in lists[k] ==> Managed(f, p);
    }
  }

  // ---------- dividing an allocated frame ----------

  /** The allocated frames of `g` are those of `f` with `(k, p)` replaced by its two halves. */
  ghost predicate Divided(f: seq<Root>, g: seq<Root>, k: nat, p: nat)
  {
    && SameRoots(f, g) && k > 0 && IsAllocated(f, k, p)
    && (forall j: nat, q: nat :: IsAllocated(g, j, q) <==>
          || (IsAllocated(f, j, q) && !(j == k && q == p))
          || (j == k - 1 && (q == p || q == p + Pow2(k - 1))))
  }

  lemma HalvesAllocated(f: seq<Root>, n: nat, i: nat, c: Path)
    requires HasWhole(f, n, i, c, Used) && Order(f, i, c) > 0
    ensures var k, p := Order(f, i, c) - 1, Base(f, i, c);
            RootAllocated(With(f, i, c, Split(Used, Used))[i])
              == RootAllocated(With(f, i, c, Free)[i]) + {(k, p), (k, p + Pow2(k))}
  {
    PlugAllocated(c, Free, f[i].base, f[i].order);
    PlugAllocated(c, Split(Used, Used), f[i].base, f[i].order);
  }

  lemma DividedBySplitting(f: seq<Root>, n: nat, i: nat, c: Path)
    requires HasWhole(f, n, i, c, Used) && Order(f, i, c) > 0
    ensures Divided(f, With(f, i, c, Split(Used, Used)), Order(f, i, c), Base(f, i, c))
  {
    var k, p := Order(f, i, c), Base(f, i, c);
    var r, h, g := f[i], With(f, i, c, Free), With(f, i, c, Split(Used, Used));
    WholeIsAllocated(f, n, i, c);
    LostByFreeing(f, n, i, c, c);
    assert g == h[i := g[i]];
    var more := {(k - 1, p), (k - 1, p + Pow2(k - 1))};
    HalvesAllocated(f, n, i, c);
    forall j: nat, x: nat ensures IsAllocated(g, j, x) <==> IsAllocated(h, j, x) || (j, x) in more {
      RootGains(h, g, i, more, j, x);
    }
  }

  // ---------- what the allocated frames determine ----------

  ghost predicate SameAllocated(f: seq<Root>, g: seq<Root>)
  {
    forall k: nat, p: nat :: IsAllocated(f, k, p) <==> IsAllocated(g, k, p)
  }

  lemma SameRootAllocated(f: seq<Root>, g: seq<Root>, n: nat, i: nat)
    requires WellFormed(f, n) && WellFormed(g, n) && SameRoots(f, g) && SameAllocated(f, g) && i < |f|
    ensures RootAllocated(f[i]) <= RootAllocated(g[i])
  {
    forall x | x in RootAllocated(f[i]) ensures x in RootAllocated(g[i]) {
      assert IsAllocated(f, x.0, x.1) && IsAllocated(g, x.0, x.1);
      var j :| 0 <= j < |g| && (x.0, x.1) in RootAllocated(g[j]);
      AllocatedInRange(f[i].frame, f[i].base, f[i].order, x.0, x.1);
      AllocatedInRange(g[j].frame, g[j].base, g[j].order, x.0, x.1);
      assert InRoot(f[i], x.1) && InRoot(f[j], x.1);
    }
  }

  /** Over the same roots, the allocated frames determine every free frame: the order in which
      frames were allocated, divided and freed leaves no trace. */
  lemma AllocatedDetermines(f: seq<Root>, g: seq<Root>, n: nat)
    requires WellFormed(f, n) && WellFormed(g, n) && SameRoots(f, g) && SameAllocated(f, g)
    requires AllReduced(f) && AllReduced(g)
    ensures f == g
  {
    forall i: nat | i < |f| ensures f[i] == g[i] {
      SameRootAllocated(f, g, n, i);
      SameRootAllocated(g, f, n, i);
      assert RootOK(f[i], n) && RootOK(g[i], n);
      Canonical(f[i].frame, g[i].frame, f[i].base, f[i].order);
    }
  }

  /** With everything freed, the free frames are the root frames again. */
  lemma AllFreed(f: seq<Root>, n: nat)
    requires WellFormed(f, n) && AllReduced(f) && forall k: nat, p: nat :: !IsAllocated(f, k, p)
    ensures forall i :: 0 <= i < |f| ==> f[i].frame == Free
    ensures forall k: nat, p: nat :: IsFree(f, k, p) <==> exists i :: 0 <= i < |f| && f[i].order == k && f[i].base == p
  {
    forall i: nat | i < |f| ensures f[i].frame == Free {
      var s := RootAllocated(f[i]);
      assert s == {} by {
        if x :| x in s {
          assert (x.0, x.1) in RootAllocated(f[i]) && IsAllocated(f, x.0, x.1);
        }
      }
      NothingAllocated(f[i].frame, f[i].base, f[i].order);
    }
    forall k: nat, p: nat | IsFree(f, k, p) ensures exists i :: 0 <= i < |f| && f[i].order == k && f[i].base == p {
      var i :| 0 <= i < |f| && FreeHere(f[i], k, p);
    }
    forall i: nat | i < |f| ensures IsFree(f, f[i].order, f[i].base) {
      assert FreeHere(f[i], f[i].order, f[i].base);
    }
  }

  /** Every managed page lies in exactly one whole frame. */
  lemma FramesTile(f: seq<Root>, n: nat, i: nat, p: nat) returns (h: nat)
    requires WellFormed(f, n) && i < |f| && InRoot(f[i], p)
    ensures RootCover(f[i], h).Head? && InRange(p, h, RootCover(f[i], h).order)
    ensures forall j: nat, g: nat :: j < |f| && RootCover(f[j], g).Head? && InRange(p, g, RootCover(f[j], g).order) ==>
              j == i && g == h
  {
    h := Tiles(f[i].frame, f[i].base, f[i].order, 1, p);
    forall j: nat, g: nat | j < |f| && RootCover(f[j], g).Head? && InRange(p, g, RootCover(f[j], g).order)
      ensures j == i && g == h
    {
      HeadFits(f[j].frame, f[j].base, f[j].order, 1, g);
      assert InRoot(f[j], p);
    }
  }

  /** Each frame's order, identifier and page number fit together and into their fields. */
  lemma HeadNumbers(f: seq<Root>, n: nat, i: nat, p: nat) returns (depth: nat)
    requires WellFormed(f, n) && i < |f| && RootCover(f[i], p).Head?
    ensures var h := RootCover(f[i], p);
            && h.order + depth == f[i].order
            && Pow2(depth) <= h.id < 2 * Pow2(depth) <= 65536
            && p == f[i].base + (h.id - Pow2(depth)) * Pow2(h.order)
            && Multiple(p, Pow2(h.order))
  {
    var r := f[i];
    assert RootOK(r, n);
    hide Fits, Multiple, Pow2, Plug, CoverAt, HoleId, HoleBase, PathFits;
    var c := LocateInRoot(r.frame, r.base, r.order, p);
    HolePosition(c, r.base, r.order);
    HoleIdDepth(c);
    HoleAligned(c, r.base, r.order);
    depth := Depth(c);
    Pow2Mono(depth, 15);
    HalfWord();
  }
}
