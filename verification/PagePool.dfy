/** The pool that page tables are taken from: a stack of frames of mixed order, filled and split
    through the buddy allocator (kernel/memory/pgtable.c). */
module PagePool {
  import opened Powers
  import opened BuddyTree
  import opened BuddyForest
  import opened Buddy
  import opened Serving

  const MAX_CACHE: nat := 0x1100
  const MIN_CACHE: nat := 0x100
  const REFILL_ORDER: nat := 11

  /** `p` is the head of an allocated frame, of the order its descriptor gives. */
  ghost predicate Owned(f: seq<Root>, pages: seq<Page>, p: int)
  {
    0 <= p < |pages| && pages[p].head && IsAllocated(f, pages[p].order, p)
  }

  /** The frames on the stack and those in hand: all allocated, none twice. */
  ghost predicate Holding(f: seq<Root>, pages: seq<Page>, s: seq<int>, held: set<int>)
  {
    && WellFormed(f, |pages|) && PagesOK(pages, f)
    && (forall i :: 0 <= i < |s| ==> Owned(f, pages, s[i]) && s[i] !in held)
    && (forall p :: p in held ==> Owned(f, pages, p))
    && (forall i, j :: 0 <= i < j < |s| ==> s[i] != s[j])
  }

  /** The number of pages in the frames on the stack. */
  ghost function Total(pages: seq<Page>, s: seq<int>): nat
  {
    if s == [] then 0
    else Total(pages, s[..|s| - 1]) + (if 0 <= s[|s| - 1] < |pages| then Pow2(pages[s[|s| - 1]].order) else 0)
  }

  lemma {:induction false} TotalSame(pages: seq<Page>, pages': seq<Page>, s: seq<int>)
    requires |pages| == |pages'| && forall i :: 0 <= i < |s| && 0 <= s[i] < |pages| ==>
              pages'[s[i]].order == pages[s[i]].order
    ensures Total(pages', s) == Total(pages, s)
  {
    if s != [] {
      TotalSame(pages, pages', s[..|s| - 1]);
    }
  }

  lemma TotalPush(pages: seq<Page>, s: seq<int>, p: nat)
    requires p < |pages|
    ensures Total(pages, s + [p]) == Total(pages, s) + Pow2(pages[p].order)
  {
    assert (s + [p])[..|s|] == s;
  }

  lemma {:induction false} TotalAtLeast(f: seq<Root>, pages: seq<Page>, s: seq<int>)
    requires forall i :: 0 <= i < |s| ==> Owned(f, pages, s[i])
    ensures Total(pages, s) >= |s|
  {
    if s != [] {
      TotalAtLeast(f, pages, s[..|s| - 1]);
      assert Owned(f, pages, s[|s| - 1]);
    }
  }

  /** The descriptors of the frames on the stack and of `held` are as before. */
  ghost predicate Unmoved(pages: seq<Page>, pages': seq<Page>, s: seq<int>, held: set<int>)
  {
    && |pages| == |pages'|
    && (forall i :: 0 <= i < |s| ==> 0 <= s[i] < |pages| && pages'[s[i]] == pages[s[i]])
    && (forall q :: q in held ==> 0 <= q < |pages| && pages'[q] == pages[q])
  }

  /** Splitting a frame in hand puts a new one on the stack and keeps the number of pages. */
  lemma DividedHolding(f: seq<Root>, g: seq<Root>, pages: seq<Page>, pages': seq<Page>, s: seq<int>, held: set<int>,
                       p: nat, r: nat)
    requires Holding(f, pages, s, held) && p in held && pages[p].order > 0
    requires Divided(f, g, pages[p].order, p) && WellFormed(g, |pages'|) && PagesOK(pages', g) && |pages'| == |pages|
    requires r == p + Pow2(pages[p].order - 1) < |pages|
    requires pages'[r].order == pages'[p].order == pages[p].order - 1
    requires forall q: nat :: q < |pages| && q != p && q != r ==> pages'[q] == pages[q]
    ensures Holding(g, pages', s + [r], held)
    ensures Total(pages', s + [r]) + Pow2(pages'[p].order) == Total(pages, s) + Pow2(pages[p].order)
    ensures Unmoved(pages, pages', s, held - {p})
  {
    hide WellFormed, PagesOK, SameRoots, Total;
    var k := pages[p].order;
    assert Pow2(k) == 2 * Pow2(k - 1);
    assert IsAllocated(g, k - 1, p) && IsAllocated(g, k - 1, r);
    AllocatedHead(pages', g, k - 1, p);
    AllocatedHead(pages', g, k - 1, r);
    forall q: int | Owned(f, pages, q) && q != p ensures q != r && Owned(g, pages', q) && pages'[q] == pages[q] {
      if q == r { AllocatedApart(f, |pages|, k, p, pages[q].order, q); }
      assert IsAllocated(g, pages[q].order, q);
    }
    TotalSame(pages, pages', s);
    TotalPush(pages', s, r);
  }

  lemma GainedHolding(f: seq<Root>, g: seq<Root>, pages: seq<Page>, pages': seq<Page>, s: seq<int>, held: set<int>,
                      k: nat, r: nat)
    requires Holding(f, pages, s, held) && Gained(f, g, k, r) && WellFormed(g, |pages'|) && PagesOK(pages', g)
    requires |pages'| == |pages|
    requires forall j: nat, q: nat :: IsAllocated(f, j, q) && q < |pages| && q != r ==> pages'[q] == pages[q]
    ensures r < |pages'| && Holding(g, pages', s + [r], held) && pages'[r].order == k
    ensures Total(pages', s + [r]) == Total(pages, s) + Pow2(k)
    ensures Unmoved(pages, pages', s, held)
  {
    hide WellFormed, PagesOK, SameRoots, Total;
    AllocatedHead(pages', g, k, r);
    forall q: int | Owned(f, pages, q) ensures q != r && Owned(g, pages', q) && pages'[q] == pages[q] {
      assert IsAllocated(g, pages[q].order, q) && IsAllocated(g, k, r);
      if q == r { AllocatedApart(g, |pages|, k, r, pages[q].order, q); }
    }
    TotalSame(pages, pages', s);
    TotalPush(pages', s, r);
  }

  lemma LostHolding(f: seq<Root>, g: seq<Root>, pages: seq<Page>, pages': seq<Page>, s: seq<int>, held: set<int>,
                    p: nat)
    requires Holding(f, pages, s, held) && p in held && Gained(g, f, pages[p].order, p)
    requires WellFormed(g, |pages'|) && PagesOK(pages', g) && |pages'| == |pages|
    requires forall j: nat, q: nat :: IsAllocated(g, j, q) && q < |pages| && q != p ==> pages'[q] == pages[q]
    ensures Holding(g, pages', s, held - {p}) && Total(pages', s) == Total(pages, s)
    ensures Unmoved(pages, pages', s, held - {p})
  {
    forall q: int | Owned(f, pages, q) && q != p ensures Owned(g, pages', q) && pages'[q] == pages[q] {
      assert IsAllocated(g, pages[q].order, q);
    }
    TotalSame(pages, pages', s);
  }

  lemma StackUnmoved(pages: seq<Page>, pages': seq<Page>, s: seq<int>, held: set<int>)
    requires Unmoved(pages, pages', s, held)
    ensures Unmoved(pages, pages', s, {})
  {
  }

  /** What another client of the allocator does leaves the frames of this one alone. */
  lemma KeptHolding(f: seq<Root>, g: seq<Root>, pages: seq<Page>, pages': seq<Page>, own: set<int>, own': set<int>,
                    s: seq<int>, held: set<int>)
    requires Holding(f, pages, s, held) && Served(f, pages, g, pages', own, own')
    requires WellFormed(g, |pages'|) && PagesOK(pages', g)
    requires own !! held && forall i :: 0 <= i < |s| ==> s[i] !in own
    ensures Holding(g, pages', s, held) && Total(pages', s) == Total(pages, s) && Unmoved(pages, pages', s, held)
    ensures own' !! held && forall i :: 0 <= i < |s| ==> s[i] !in own'
  {
    hide WellFormed, PagesOK, IsAllocated, Total;
    forall q: int | Owned(f, pages, q) && q !in own ensures Owned(g, pages', q) && pages'[q] == pages[q] && q !in own' {
      assert Heads(f, q);
    }
    forall q | q in held ensures q !in own' {
      assert Owned(f, pages, q) && q !in own;
    }
    forall i | 0 <= i < |s| ensures s[i] !in own' {
      assert Owned(f, pages, s[i]);
    }
    TotalSame(pages, pages', s);
  }

  ghost function Elements(s: seq<int>): set<int>
  {
    set p | p in s
  }

  lemma ElementsPushed(s: seq<int>, p: int)
    ensures Elements(s + [p]) == Elements(s) + {p}
  {
  }

  // ---------- frames that are in no task's account ----------

  /** The frames on the stack and those of `held` are marked as shared: no task's list has them. */
  ghost predicate AllShared(pages: seq<Page>, s: seq<int>, held: set<int>)
  {
    && (forall i :: 0 <= i < |s| ==> 0 <= s[i] < |pages| && pages[s[i]].shared)
    && (forall q :: q in held ==> 0 <= q < |pages| && pages[q].shared)
  }

  lemma SharedSame(pages: seq<Page>, pages': seq<Page>, s: seq<int>, held: set<int>, less: set<int>)
    requires AllShared(pages, s, held) && Unmoved(pages, pages', s, less) && less <= held
    ensures AllShared(pages', s, less)
  {
  }

  lemma SharedLess(pages: seq<Page>, s: seq<int>, held: set<int>, less: set<int>)
    requires AllShared(pages, s, held) && less <= held
    ensures AllShared(pages, s, less)
  {
  }

  lemma SharedPush(pages: seq<Page>, s: seq<int>, held: set<int>, p: nat)
    requires AllShared(pages, s, held) && p < |pages| && pages[p].shared
    ensures AllShared(pages, s + [p], held)
  {
  }

  lemma SharedSplit(pages: seq<Page>, pages': seq<Page>, s: seq<int>, held: set<int>, p: nat, r: nat)
    requires AllShared(pages, s, held) && Unmoved(pages, pages', s, held - {p}) && p in held
    requires r < |pages'| && pages'[r].shared == pages'[p].shared == pages[p].shared
    ensures AllShared(pages', s + [r], held)
  {
  }

  // ---------- room on the stack ----------

  const DEPTH: nat := 0x10a

  /** A frame that will be split leaves room for its parts. */
  ghost predicate Roomy(pages: seq<Page>, s: seq<int>)
  {
    forall i :: 0 <= i < |s| && 0 <= s[i] < |pages| && pages[s[i]].order > 0 ==> i + pages[s[i]].order <= DEPTH
  }

  lemma RoomyPush(pages: seq<Page>, pages': seq<Page>, s: seq<int>, p: nat)
    requires Roomy(pages, s) && Unmoved(pages, pages', s, {}) && p < |pages|
    requires pages'[p].order > 0 ==> |s| + pages'[p].order <= DEPTH
    ensures Roomy(pages', s) && Roomy(pages', s + [p])
  {
  }

  lemma RoomySame(pages: seq<Page>, pages': seq<Page>, s: seq<int>)
    requires Roomy(pages, s) && Unmoved(pages, pages', s, {})
    ensures Roomy(pages', s)
  {
  }

  lemma SelfUnmoved(f: seq<Root>, pages: seq<Page>, s: seq<int>, held: set<int>)
    requires Holding(f, pages, s, held)
    ensures Unmoved(pages, pages, s, {})
  {
  }

  class Pool {
    const buddy: BuddyAllocator
    const cachePool: array<int>
    var cachePoolSize: nat
    var cacheSize: nat
    /** The pages in use as page tables. */
    ghost var out: set<int>

    ghost function Stack(): seq<int>
      reads this`cachePoolSize, cachePool
      requires cachePoolSize <= cachePool.Length
    {
      cachePool[..cachePoolSize]
    }

    ghost predicate Separate()
    {
      cachePool.Length == MAX_CACHE && cachePool !in buddy.Repr()
    }

    ghost function Orders(): seq<Page>
      reads buddy.pages
    {
      buddy.pages[..]
    }

    /** The frames on the stack and those of `held`. */
    ghost function All(held: set<int>): set<int>
      reads this`cachePoolSize, cachePool
    {
      if cachePoolSize <= cachePool.Length then Elements(Stack()) + held else held
    }

    /** The stack is in order while `held` are in hand and `extra` pages of `cacheSize` not on it. */
    ghost predicate Stocked(held: set<int>, extra: nat)
      reads this, cachePool, buddy.Repr()
    {
      && Separate() && buddy.Valid() && cachePoolSize <= MAX_CACHE
      && Holding(buddy.roots, Orders(), Stack(), held)
      && Total(Orders(), Stack()) + extra == cacheSize && Roomy(Orders(), Stack())
      && AllShared(Orders(), Stack(), held)
    }

    /** Pages given out are single. */
    ghost predicate Singles()
      reads this`out, buddy.pages
    {
      forall p :: p in out ==> 0 <= p < buddy.pages.Length && buddy.pages[p].order == 0
    }

    ghost predicate Valid()
      reads this, cachePool, buddy.Repr()
    {
      Stocked(out, 0) && cacheSize >= MIN_CACHE && Singles()
    }

    constructor (b: BuddyAllocator)
      requires b.Valid()
      ensures buddy == b && fresh(cachePool) && Stocked({}, 0) && cachePoolSize == 0 && out == {}
    {
      buddy, cachePoolSize, cacheSize, out := b, 0, 0, {};
      cachePool := new int[MAX_CACHE](_ => -1);
    }

    // ---------- taking a page ----------

    method Push(p: int)
      requires cachePoolSize < cachePool.Length
      modifies this`cachePoolSize, cachePool
      ensures cachePoolSize == old(cachePoolSize) + 1 <= cachePool.Length && Stack() == old(Stack()) + [p]
    {
      cachePool[cachePoolSize] := p;
      cachePoolSize := cachePoolSize + 1;
    }

    /** One round of the splitting loop. */
    method SplitOne(page: int, ghost held: set<int>)
      requires page in held && Stocked(held, Pow2(OrderOf(page))) && OrderOf(page) > 0
      requires cachePoolSize + OrderOf(page) <= DEPTH
      modifies this`cachePoolSize, cachePool, buddy`roots, buddy.pages
      ensures Stocked(held, Pow2(OrderOf(page))) && OrderOf(page) == old(OrderOf(page)) - 1
      ensures cachePoolSize == old(cachePoolSize) + 1
      ensures forall q :: q in held && q != page ==> OrderOf(q) == old(OrderOf(q))
      ensures SameFree(old(buddy.roots))
      ensures Served(old(buddy.roots), old(Orders()), buddy.roots, Orders(), old(All(held)), All(held))
    {
      hide AllShared, Roomy, Total, WellFormed, PagesOK, IsAllocated, IsFree, Divided;
      hide BuddyAllocator.Valid, Served, Elements;
      ElementsPushed(Stack(), page + Pow2(OrderOf(page) - 1));
      InHand(page, held);
      BuddyIs();
      hide Holding;
      ghost var f, pages, s := buddy.roots, Orders(), Stack();
      FreeIsListed();
      var r := buddy.DivideFrame(page);
      FreeIsListed();
      BuddyIs();
      Push(r);
      DividedHolding(f, buddy.roots, pages, Orders(), s, held, page, r);
      ServedDivide(f, pages, buddy.roots, Orders(), pages[page].order, page);
      ServedWider(f, pages, buddy.roots, Orders(), {page}, {page, r}, old(All(held)), All(held));
      StackUnmoved(pages, Orders(), s, held - {page});
      RoomyPush(pages, Orders(), s, r);
      SharedSplit(pages, Orders(), s, held, page, r);
    }

    lemma InHand(p: int, held: set<int>)
      requires cachePoolSize <= cachePool.Length
      requires p in held && Holding(buddy.roots, Orders(), Stack(), held)
      ensures 0 <= p < buddy.pages.Length && buddy.pages[p].head && IsAllocated(buddy.roots, buddy.pages[p].order, p)
    {
    }

    lemma FreeIsListed()
      requires buddy.Valid()
      ensures |buddy.free.lists| == MAX_ORDER + 1
      ensures forall k: nat, p: nat :: k <= MAX_ORDER ==> (IsFree(buddy.roots, k, p) <==> p in buddy.free.lists[k])
    {
      forall k: nat, p: nat | k <= MAX_ORDER ensures IsFree(buddy.roots, k, p) <==> p in buddy.free.lists[k] {
        FreeInList(buddy.free.lists, buddy.roots, k, p);
      }
    }

    lemma BuddyIs()
      requires buddy.Valid()
      ensures WellFormed(buddy.roots, buddy.pages.Length) && PagesOK(Orders(), buddy.roots)
    {
    }

    ghost function OrderOf(p: int): nat
      reads buddy.pages
    {
      if 0 <= p < buddy.pages.Length then buddy.pages[p].order else 0
    }

    /** Puts a new frame of order `k` on the stack; -1 if there is none. */
    method PushNew(k: nat, ghost held: set<int>) returns (ok: bool)
      requires Stocked(held, 0) && cachePoolSize + k <= DEPTH && cachePoolSize < MAX_CACHE
      modifies this`cachePoolSize, this`cacheSize, cachePool, buddy.Repr()
      ensures ok <==> exists j: nat, p: nat :: k <= j <= MAX_ORDER && old(IsFree(buddy.roots, j, p))
      ensures ok ==> Stocked(held, 0) && cacheSize == old(cacheSize) + Pow2(k)
      ensures ok ==> forall q :: q in held ==> OrderOf(q) == old(OrderOf(q))
      ensures ok ==> Served(old(buddy.roots), old(Orders()), buddy.roots, Orders(), old(All(held)), All(held))
    {
      hide AllShared, Roomy, Total, WellFormed, PagesOK, IsAllocated, Gained, Holding, BuddyAllocator.Valid;
      hide BuddyAllocator.BestFit, Served, Elements;
      BuddyIs();
      ghost var f, pages, s := buddy.roots, Orders(), Stack();
      var r := buddy.Alloc(k, true);
      Push(r);
      if r == -1 { return false; }
      BuddyIs();
      GainedHolding(f, buddy.roots, pages, Orders(), s, held, k, r);
      ServedGain(f, pages, buddy.roots, Orders(), k, r);
      ElementsPushed(s, r);
      ServedWider(f, pages, buddy.roots, Orders(), {}, {r}, old(All(held)), All(held));
      StackUnmoved(pages, Orders(), s, held);
      RoomyPush(pages, Orders(), s, r);
      SharedSame(pages, Orders(), s, held, held);
      SharedPush(Orders(), s, held, r);
      cacheSize := cacheSize + Pow2(k);
      ok := true;
    }

    /** `MM_PageTable_init`: the pool starts with one frame of 0x1000 pages. */
    method Init() returns (ok: bool)
      requires Stocked({}, 0) && cachePoolSize == 0 && cacheSize == 0 && out == {}
      modifies this`cachePoolSize, this`cacheSize, cachePool, buddy.Repr()
      ensures ok <==> exists j: nat, p: nat :: 12 <= j <= MAX_ORDER && old(IsFree(buddy.roots, j, p))
      ensures ok ==> Valid() && cacheSize == 0x1000
      ensures ok ==> Served(old(buddy.roots), old(Orders()), buddy.roots, Orders(), {}, All(out))
    {
      hide AllShared, Holding, Roomy, Total, BuddyAllocator.Valid, Served;
      assert All({}) == {};
      ok := PushNew(12, {});
      assert Pow2(12) == 0x1000 by { assert Pow2(6) == 64; Pow2Add(6, 6); }
    }

    /** Whole free frames are as before. */
    ghost predicate SameFree(f: seq<Root>)
      reads buddy
    {
      forall k: nat, p: nat :: k <= MAX_ORDER ==> (IsFree(buddy.roots, k, p) <==> IsFree(f, k, p))
    }

    lemma PopTop()
      requires Valid()
      ensures cachePoolSize > 0
      ensures var top := cachePool[cachePoolSize - 1];
              && top !in out && Owned(buddy.roots, Orders(), top)
              && Holding(buddy.roots, Orders(), cachePool[..cachePoolSize - 1], out + {top})
              && Total(Orders(), cachePool[..cachePoolSize - 1]) + Pow2(OrderOf(top)) == cacheSize
              && Roomy(Orders(), cachePool[..cachePoolSize - 1])
              && AllShared(Orders(), cachePool[..cachePoolSize - 1], out + {top})
              && (OrderOf(top) > 0 ==> cachePoolSize - 1 + OrderOf(top) <= DEPTH)
    {
      hide BuddyAllocator.Valid, WellFormed, PagesOK;
      var s := Stack();
      assert Total(Orders(), []) == 0;
      assert s != [];
      assert s[..|s| - 1] == cachePool[..cachePoolSize - 1];
      assert Owned(buddy.roots, Orders(), s[|s| - 1]);
    }

    /** Takes the top frame off the stack. */
    method Pop() returns (page: int)
      requires Valid()
      modifies this`cachePoolSize, cachePool
      ensures page !in out && 0 <= page < buddy.pages.Length
      ensures Stocked(out + {page}, Pow2(OrderOf(page)))
      ensures OrderOf(page) > 0 ==> cachePoolSize + OrderOf(page) <= DEPTH
      ensures cachePoolSize < MAX_CACHE && All(out + {page}) == old(All(out))
      ensures cachePool[cachePoolSize] == -1
    {
      hide AllShared, Holding, Total, Roomy, BuddyAllocator.Valid, WellFormed, PagesOK, Elements;
      PopTop();
      ghost var s := cachePool[..cachePoolSize - 1];
      ElementsPushed(s, cachePool[cachePoolSize - 1]);
      page := cachePool[cachePoolSize - 1];
      cachePoolSize := cachePoolSize - 1;
      cachePool[cachePoolSize] := -1;
      assert Stack() == s && old(Stack()) == s + [page];
      assert Elements(s) + {page} + out == Elements(s) + (out + {page});
    }

    /** In the middle of splitting the frame in hand; `f`, `pages` and `own` are from the beginning. */
    ghost predicate Splitting(page: int, f: seq<Root>, pages: seq<Page>, own: set<int>)
      reads this, cachePool, buddy.Repr()
    {
      && page !in out && 0 <= page < buddy.pages.Length && Stocked(out + {page}, Pow2(OrderOf(page))) && Singles()
      && SameFree(f) && Served(f, pages, buddy.roots, Orders(), own, All(out + {page}))
    }

    method SplitRound(page: int, ghost f: seq<Root>, ghost pages: seq<Page>, ghost own: set<int>)
      requires Splitting(page, f, pages, own) && OrderOf(page) > 0 && cachePoolSize + OrderOf(page) <= DEPTH
      modifies this`cachePoolSize, cachePool, buddy`roots, buddy.pages
      ensures Splitting(page, f, pages, own)
      ensures OrderOf(page) == old(OrderOf(page)) - 1 && cachePoolSize == old(cachePoolSize) + 1
    {
      hide Stocked, IsFree, Served, Elements, All;
      ghost var g, mid, a := buddy.roots, Orders(), All(out + {page});
      SplitOne(page, out + {page});
      ServedTwice(f, pages, g, mid, buddy.roots, Orders(), own, a, All(out + {page}));
    }

    /** Splits the frame in hand down to a page. */
    method Split(page: int)
      requires page !in out && Stocked(out + {page}, Pow2(OrderOf(page))) && Singles()
      requires OrderOf(page) > 0 ==> cachePoolSize + OrderOf(page) <= DEPTH
      requires 0 <= page < buddy.pages.Length
      modifies this`cachePoolSize, cachePool, buddy`roots, buddy.pages
      ensures Stocked(out + {page}, 1) && Singles() && OrderOf(page) == 0 && SameFree(old(buddy.roots))
      ensures cachePoolSize <= old(cachePoolSize) || cachePoolSize <= DEPTH
      ensures Served(old(buddy.roots), old(Orders()), buddy.roots, Orders(), old(All(out + {page})), All(out + {page}))
    {
      NothingDone(out + {page});
      hide Stocked, Singles, SameFree, Served, All;
      ghost var f, pages, own := buddy.roots, Orders(), All(out + {page});
      while buddy.pages[page].order > 0
        invariant Splitting(page, f, pages, own)
        invariant OrderOf(page) > 0 ==> cachePoolSize + OrderOf(page) <= DEPTH
        invariant cachePoolSize <= old(cachePoolSize) || cachePoolSize + OrderOf(page) <= DEPTH
        decreases OrderOf(page)
      {
        SplitRound(page, f, pages, own);
      }
    }

    lemma NothingDone(held: set<int>)
      requires buddy.Valid()
      ensures SameFree(buddy.roots)
      ensures Served(buddy.roots, Orders(), buddy.roots, Orders(), All(held), All(held))
    {
      ServedNot(buddy.roots, Orders(), All(held));
    }

    lemma RefillPages()
      ensures Pow2(REFILL_ORDER) == 0x800
    {
      assert Pow2(5) == 32 && Pow2(6) == 64;
      Pow2Add(5, 6);
    }

    /** A page from the stack, split if need be. */
    method TakeOne() returns (page: int)
      requires Valid()
      modifies this`out, this`cachePoolSize, this`cacheSize, cachePool, buddy`roots, buddy.pages
      ensures Stocked(out, 0) && Singles() && 0 <= page < buddy.pages.Length
      ensures page !in old(out) && out == old(out) + {page} && cacheSize == old(cacheSize) - 1
      ensures SameFree(old(buddy.roots))
      ensures Served(old(buddy.roots), old(Orders()), buddy.roots, Orders(), old(All(out)), All(out))
    {
      hide AllShared, Holding, Roomy, Total, BuddyAllocator.Valid, Served, Elements, SameFree;
      page := Pop();
      Split(page);
      cacheSize := cacheSize - 1;
      out := out + {page};
    }

    /** `MM_PageTable_alloc`: a single page, -1 if the pool had to be filled up and could not be. */
    method Alloc() returns (page: int)
      requires Valid()
      modifies this, cachePool, buddy.Repr()
      ensures page == -1 <==> old(cacheSize) == MIN_CACHE && !old(Refillable())
      ensures page != -1 ==>
                cacheSize == if old(cacheSize) == MIN_CACHE then MIN_CACHE - 1 + 0x800 else old(cacheSize) - 1
      ensures old(cacheSize) != MIN_CACHE ==> (Refillable() <==> old(Refillable()))
      ensures page != -1 ==> Valid() && 0 <= page < buddy.pages.Length
      ensures page != -1 ==> page !in old(out) && out == old(out) + {page} && buddy.pages[page].shared
      ensures page != -1 ==> Served(old(buddy.roots), old(Orders()), buddy.roots, Orders(), old(All(out)), All(out))
    {
      hide Stocked, All, Served, Elements;
      page := TakeOne();
      if cacheSize < MIN_CACHE {
        StackSize();
        RefillPages();
        ghost var g, mid, a := buddy.roots, Orders(), All(out);
        var ok := PushNew(REFILL_ORDER, out);
        if !ok { return -1; }
        ServedTwice(old(buddy.roots), old(Orders()), g, mid, buddy.roots, Orders(), old(All(out)), a, All(out));
      }
      Marked(page);
    }

    /** There is a free frame to fill the pool up with. */
    ghost predicate Refillable()
      reads buddy
    {
      exists k: nat, p: nat :: REFILL_ORDER <= k <= MAX_ORDER && IsFree(buddy.roots, k, p)
    }

    /** The next `k` pages are there, or the pool can be filled up. */
    ghost predicate Serves(k: nat)
      reads this`cacheSize, buddy
    {
      cacheSize >= MIN_CACHE + k || Refillable()
    }

    lemma StackSize()
      requires Stocked(out, 0)
      ensures cachePoolSize <= cacheSize
    {
      hide BuddyAllocator.Valid, WellFormed, PagesOK;
      TotalAtLeast(buddy.roots, Orders(), Stack());
    }

    // ---------- giving a page back ----------

    /** The array is full: the page goes back to the allocator. */
    method GiveBack(page: nat)
      requires Valid() && page in out && cachePoolSize == MAX_CACHE
      modifies this`out, buddy.Repr()
      ensures Valid() && out == old(out) - {page}
      ensures Stack() == old(Stack()) && Gained(buddy.roots, old(buddy.roots), 0, page)
      ensures Served(old(buddy.roots), old(Orders()), buddy.roots, Orders(), old(All(out)), All(out))
    {
      hide AllShared, Roomy, Total, IsFree, WellFormed, PagesOK, Holding;
      hide BuddyAllocator.Valid, Served, Elements, Gained;
      InHand(page, out);
      BuddyIs();
      ghost var f, pages, s := buddy.roots, Orders(), Stack();
      buddy.FreePages(page);
      BuddyIs();
      LostHolding(f, buddy.roots, pages, Orders(), s, out, page);
      ServedLoss(f, pages, buddy.roots, Orders(), 0, page);
      ServedWider(f, pages, buddy.roots, Orders(), {page}, {}, old(All(out)), All(out - {page}));
      StackUnmoved(pages, Orders(), s, out - {page});
      RoomySame(pages, Orders(), s);
      SharedSame(pages, Orders(), s, out, out - {page});
      out := out - {page};
    }

    lemma Marked(page: nat)
      requires Valid() && page in out
      ensures page < buddy.pages.Length && buddy.pages[page].shared
    {
      hide Holding, Roomy, Total, BuddyAllocator.Valid;
    }

    /** The page goes on the stack. */
    method PutAside(page: nat)
      requires Valid() && page in out && cachePoolSize < MAX_CACHE
      modifies this`out, this`cachePoolSize, this`cacheSize, cachePool
      ensures Valid() && out == old(out) - {page}
      ensures Stack() == old(Stack()) + [page]
      ensures Served(buddy.roots, Orders(), buddy.roots, Orders(), old(All(out)), All(out))
    {
      hide AllShared, Roomy, Total, IsFree, WellFormed, PagesOK, BuddyAllocator.Valid, Served, Elements;
      InHand(page, out);
      Marked(page);
      BuddyIs();
      ghost var f, pages, s := buddy.roots, Orders(), Stack();
      Push(page);
      cacheSize := cacheSize + 1;
      ServedNot(f, pages, old(All(out)));
      ElementsPushed(s, page);
      assert All(out - {page}) == old(All(out));
      TotalPush(pages, s, page);
      SelfUnmoved(f, pages, s, out);
      RoomyPush(pages, pages, s, page);
      SharedPush(pages, s, out, page);
      SharedLess(pages, s + [page], out, out - {page});
      out := out - {page};
    }

    /** `MM_PageTable_free` for a page in use as a page table. */
    method Free(page: nat)
      requires Valid() && page in out
      modifies this, cachePool, buddy.Repr()
      ensures Valid() && out == old(out) - {page}
      ensures old(cachePoolSize) < MAX_CACHE ==> Stack() == old(Stack()) + [page] && buddy.roots == old(buddy.roots)
      ensures old(cachePoolSize) == MAX_CACHE ==>
                Stack() == old(Stack()) && Gained(buddy.roots, old(buddy.roots), 0, page)
      ensures Served(old(buddy.roots), old(Orders()), buddy.roots, Orders(), old(All(out)), All(out))
    {
      if cachePoolSize == MAX_CACHE {
        GiveBack(page);
      } else {
        PutAside(page);
      }
    }
  }
}
