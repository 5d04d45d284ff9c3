/** What a task uses: the page frames and memory blocks charged to it (kernel/memory/buddy.c,
    kernel/memory/SLAB.c) and their return when it exits (kernel/task/mgr.c). */
module TaskUsage {
  import opened Powers
  import opened BuddyTree
  import opened BuddyForest
  import opened Buddy
  import opened PagePool
  import opened Serving

  /** A private memory block. */
  datatype Block = Block(addr: nat, size: nat)

  const PAGE_BYTES: nat := 4096

  ghost function BlockBytes(s: seq<Block>): nat
  {
    if s == [] then 0 else BlockBytes(s[1..]) + s[0].size
  }

  function WithoutAt<T>(s: seq<T>, i: nat): seq<T>
    requires i < |s|
  {
    s[..i] + s[i + 1..]
  }

  lemma {:induction false} BlockRemoved(s: seq<Block>, i: nat)
    requires i < |s|
    ensures BlockBytes(WithoutAt(s, i)) + s[i].size == BlockBytes(s)
  {
    if i > 0 {
      BlockRemoved(s[1..], i - 1);
      assert WithoutAt(s, i) == [s[0]] + WithoutAt(s[1..], i - 1);
    } else {
      assert WithoutAt(s, 0) == s[1..];
    }
  }

  lemma {:induction false} BlockAdded(s: seq<Block>, b: Block)
    ensures BlockBytes(s + [b]) == BlockBytes(s) + b.size
  {
    if s != [] {
      BlockAdded(s[1..], b);
      assert (s + [b])[1..] == s[1..] + [b];
    }
  }

  // ---------- frames on the list ----------

  lemma {:induction false} TotalRemoved(pages: seq<Page>, s: seq<int>, i: nat)
    requires i < |s| && 0 <= s[i] < |pages|
    ensures Total(pages, WithoutAt(s, i)) + Pow2(pages[s[i]].order) == Total(pages, s)
    decreases |s|
  {
    var n := |s| - 1;
    if i < n {
      TotalRemoved(pages, s[..n], i);
      assert WithoutAt(s, i)[..n - 1] == WithoutAt(s[..n], i);
    } else {
      assert WithoutAt(s, i) == s[..n];
    }
  }

  /** The frame at `i` is halved and its right half added. */
  lemma TotalHalved(pages: seq<Page>, pages': seq<Page>, s: seq<int>, i: nat, r: nat)
    requires i < |s| && |pages'| == |pages| && 0 <= s[i] < |pages| && r < |pages| && pages[s[i]].order > 0
    requires pages'[s[i]].order == pages'[r].order == pages[s[i]].order - 1
    requires forall j :: 0 <= j < |s| && j != i && 0 <= s[j] < |pages| ==> pages'[s[j]] == pages[s[j]]
    ensures Total(pages', s + [r]) == Total(pages, s)
  {
    hide Total;
    var t := WithoutAt(s, i);
    TotalRemoved(pages, s, i);
    TotalRemoved(pages', s, i);
    forall j | 0 <= j < |t| && 0 <= t[j] < |pages| ensures pages'[t[j]].order == pages[t[j]].order {
      assert t[j] == s[if j < i then j else j + 1];
    }
    TotalSame(pages, pages', t);
    TotalPush(pages', s, r);
    assert Pow2(pages[s[i]].order) == 2 * Pow2(pages[s[i]].order - 1);
  }

  /** The charged frames: allocated, not shared, none twice. */
  ghost predicate Charged(f: seq<Root>, pages: seq<Page>, s: seq<int>)
  {
    Holding(f, pages, s, {}) && forall i :: 0 <= i < |s| && 0 <= s[i] < |pages| ==> !pages[s[i]].shared
  }

  lemma ChargedMore(f: seq<Root>, g: seq<Root>, pages: seq<Page>, pages': seq<Page>, s: seq<int>, k: nat, r: nat)
    requires Charged(f, pages, s) && Gained(f, g, k, r) && WellFormed(g, |pages'|) && PagesOK(pages', g)
    requires |pages'| == |pages|
    requires forall j: nat, q: nat :: IsAllocated(f, j, q) && q < |pages| && q != r ==> pages'[q] == pages[q]
    ensures r < |pages'| && pages'[r].order == k
    ensures Charged(g, pages', s) && Total(pages', s) == Total(pages, s)
    ensures !pages'[r].shared ==> Charged(g, pages', s + [r]) && Total(pages', s + [r]) == Total(pages, s) + Pow2(k)
  {
    hide WellFormed, PagesOK, IsAllocated, Gained;
    GainedHolding(f, g, pages, pages', s, {}, k, r);
    TotalSame(pages, pages', s);
    HoldingLess(g, pages', s, r);
  }

  /** What another client of the allocator does leaves the charged frames and their sum alone. */
  lemma KeptCharged(f: seq<Root>, g: seq<Root>, pages: seq<Page>, pages': seq<Page>, own: set<int>, own': set<int>,
                    s: seq<int>)
    requires Charged(f, pages, s) && Served(f, pages, g, pages', own, own') && own !! Elements(s)
    requires WellFormed(g, |pages'|) && PagesOK(pages', g)
    ensures Charged(g, pages', s) && Total(pages', s) == Total(pages, s) && own' !! Elements(s)
  {
    hide WellFormed, PagesOK, IsAllocated, Total, Served;
    assert forall i :: 0 <= i < |s| ==> s[i] in Elements(s);
    KeptHolding(f, g, pages, pages', own, own', s, {});
  }

  lemma HoldingLess(f: seq<Root>, pages: seq<Page>, s: seq<int>, r: int)
    requires Holding(f, pages, s + [r], {})
    ensures Holding(f, pages, s, {})
  {
    assert forall i :: 0 <= i < |s| ==> s[i] == (s + [r])[i];
  }

  lemma ChargedLess(f: seq<Root>, g: seq<Root>, pages: seq<Page>, pages': seq<Page>, s: seq<int>, i: nat)
    requires Charged(f, pages, s) && i < |s| && 0 <= s[i] < |pages| && Gained(g, f, pages[s[i]].order, s[i])
    requires WellFormed(g, |pages'|) && PagesOK(pages', g) && |pages'| == |pages|
    requires forall j: nat, q: nat :: IsAllocated(g, j, q) && q < |pages| && q != s[i] ==> pages'[q] == pages[q]
    ensures Charged(g, pages', WithoutAt(s, i))
    ensures Total(pages', WithoutAt(s, i)) + Pow2(pages[s[i]].order) == Total(pages, s)
  {
    hide WellFormed, PagesOK, IsAllocated, Gained, Total;
    var t := WithoutAt(s, i);
    assert forall j :: 0 <= j < |t| ==> t[j] == s[if j < i then j else j + 1];
    assert Holding(f, pages, t, {s[i]});
    LostHolding(f, g, pages, pages', t, {s[i]}, s[i]);
    TotalRemoved(pages, s, i);
    assert {s[i]} - {s[i]} == {};
  }

  /** A frame not on the list is freed. */
  lemma ChargedSame(f: seq<Root>, g: seq<Root>, pages: seq<Page>, pages': seq<Page>, s: seq<int>, p: nat)
    requires Charged(f, pages, s) && p !in s && Owned(f, pages, p) && Gained(g, f, pages[p].order, p)
    requires WellFormed(g, |pages'|) && PagesOK(pages', g) && |pages'| == |pages|
    requires forall j: nat, q: nat :: IsAllocated(g, j, q) && q < |pages| && q != p ==> pages'[q] == pages[q]
    ensures Charged(g, pages', s) && Total(pages', s) == Total(pages, s)
  {
    hide WellFormed, PagesOK, IsAllocated, Gained;
    assert Holding(f, pages, s, {p});
    LostHolding(f, g, pages, pages', s, {p}, p);
    assert {p} - {p} == {};
  }

  lemma SharedHalved(f: seq<Root>, g: seq<Root>, pages: seq<Page>, pages': seq<Page>, s: seq<int>, p: nat, r: nat)
    requires Charged(f, pages, s) && p !in s && Halved(f, g, pages, pages', p, r)
    ensures Charged(g, pages', s) && Total(pages', s) == Total(pages, s)
  {
    hide WellFormed, PagesOK, IsAllocated, Divided, Total;
    assert Holding(f, pages, s, {p});
    DividedHolding(f, g, pages, pages', s, {p}, p, r);
    HoldingHeld(g, pages', s, r, {p});
    TotalSame(pages, pages', s);
  }

  /** The frame `p` was halved, `r` being its right half. */
  ghost predicate Halved(f: seq<Root>, g: seq<Root>, pages: seq<Page>, pages': seq<Page>, p: nat, r: nat)
  {
    && Owned(f, pages, p) && pages[p].order > 0 && |pages'| == |pages|
    && Divided(f, g, pages[p].order, p) && WellFormed(g, |pages'|) && PagesOK(pages', g)
    && r == p + Pow2(pages[p].order - 1) < |pages| && pages'[r].shared == pages'[p].shared == pages[p].shared
    && pages'[r].order == pages'[p].order == pages[p].order - 1
    && (forall q: nat :: q < |pages| && q != p && q != r ==> pages'[q] == pages[q])
  }

  lemma ChargedHalved(f: seq<Root>, g: seq<Root>, pages: seq<Page>, pages': seq<Page>, s: seq<int>, i: nat, r: nat)
    requires Charged(f, pages, s) && i < |s| && 0 <= s[i] && Halved(f, g, pages, pages', s[i], r)
    ensures Charged(g, pages', s + [r]) && Total(pages', s + [r]) == Total(pages, s)
  {
    hide WellFormed, PagesOK, IsAllocated, Divided, Total, Holding, Owned;
    var p, t := s[i], WithoutAt(s, i);
    TakenOff(f, pages, s, i);
    DividedHolding(f, g, pages, pages', t, {p}, p, r);
    BackOn(g, pages', s, i, r);
    assert forall j :: 0 <= j < |s| && j != i ==> s[j] == t[if j < i then j else j - 1];
    TotalHalved(pages, pages', s, i, r);
  }

  lemma TakenOff(f: seq<Root>, pages: seq<Page>, s: seq<int>, i: nat)
    requires Holding(f, pages, s, {}) && i < |s|
    ensures Holding(f, pages, WithoutAt(s, i), {s[i]})
  {
    hide IsAllocated;
    var t := WithoutAt(s, i);
    assert forall j :: 0 <= j < |t| ==> t[j] == s[if j < i then j else j + 1];
  }

  lemma HoldingHeld(f: seq<Root>, pages: seq<Page>, s: seq<int>, r: int, held: set<int>)
    requires Holding(f, pages, s + [r], held)
    ensures Holding(f, pages, s, {})
  {
    assert forall i :: 0 <= i < |s| ==> s[i] == (s + [r])[i];
  }

  lemma BackOn(f: seq<Root>, pages: seq<Page>, s: seq<int>, i: nat, r: int)
    requires i < |s| && Holding(f, pages, WithoutAt(s, i) + [r], {s[i]})
    ensures Holding(f, pages, s + [r], {})
  {
    var t, u := WithoutAt(s, i) + [r], s + [r];
    assert forall j :: 0 <= j < |u| && j != i ==> u[j] == t[if j < i then j else j - 1];
  }

  /** The bytes of a frame. */
  function FrameBytes(order: nat): nat
  {
    Pow2(order + 12)
  }

  lemma FrameBytesIs(order: nat)
    ensures FrameBytes(order) == PAGE_BYTES * Pow2(order)
  {
    Pow2Add(order, 12);
    Pow2Add(6, 6);
    assert Pow2(6) == 64;
  }

  /** Unlinking an element. */
  function Unlinked(s: seq<int>, p: int): seq<int>
  {
    if s == [] then [] else if s[0] == p then s[1..] else [s[0]] + Unlinked(s[1..], p)
  }

  lemma {:induction false} UnlinkedAt(s: seq<int>, p: int) returns (i: nat)
    requires p in s
    ensures i < |s| && s[i] == p && Unlinked(s, p) == WithoutAt(s, i)
  {
    if s[0] == p {
      i := 0;
    } else {
      var j := UnlinkedAt(s[1..], p);
      i := j + 1;
      assert WithoutAt(s, i) == [s[0]] + WithoutAt(s[1..], j);
    }
  }

  class TaskMem {
    const buddy: BuddyAllocator
    var totUsage: int
    var pageUsage: seq<int>
    var kmallocUsage: seq<Block>

    ghost function Pages(): seq<Page>
      reads buddy.pages
    {
      buddy.pages[..]
    }

    /** The frames on the list. */
    ghost function Mine(): set<int>
      reads this`pageUsage
    {
      Elements(pageUsage)
    }

    ghost predicate Valid()
      reads this, buddy.Repr()
    {
      && buddy.Valid() && Charged(buddy.roots, Pages(), pageUsage)
      && totUsage == PAGE_BYTES * Total(Pages(), pageUsage) + BlockBytes(kmallocUsage)
    }

    constructor (b: BuddyAllocator)
      requires b.Valid()
      ensures Valid() && buddy == b && totUsage == 0 && pageUsage == [] && kmallocUsage == []
    {
      buddy, totUsage, pageUsage, kmallocUsage := b, 0, [], [];
    }

    lemma BuddyIs()
      requires buddy.Valid()
      ensures WellFormed(buddy.roots, buddy.pages.Length) && PagesOK(Pages(), buddy.roots)
    {
    }

    // ---------- page frames ----------

    /** `MM_Buddy_alloc`: the frame is charged unless it is shared. */
    method Alloc(log2Size: nat, shared: bool) returns (page: int)
      requires Valid()
      modifies this`totUsage, this`pageUsage, buddy.Repr()
      ensures Valid() && -1 <= page && (page == -1 ==> totUsage == old(totUsage) && pageUsage == old(pageUsage))
      ensures page == -1 <==> forall k: nat, p: nat :: log2Size <= k <= MAX_ORDER ==> !IsFree(old(buddy.roots), k, p)
      ensures page != -1 ==> Gained(old(buddy.roots), buddy.roots, log2Size, page)
      ensures page != -1 ==> pageUsage == if shared then old(pageUsage) else old(pageUsage) + [page]
      ensures page != -1 ==> totUsage == old(totUsage) + if shared then 0 else FrameBytes(log2Size)
      ensures page == -1 ==> buddy.roots == old(buddy.roots) && Pages() == old(Pages())
      ensures page != -1 ==>
                && Served(old(buddy.roots), old(Pages()), buddy.roots, Pages(), old(Mine()), Mine() + {page})
                && page < buddy.pages.Length && buddy.pages[page].shared == shared
    {
      hide WellFormed, PagesOK, IsAllocated, Gained, Charged, Total, IsFree, BuddyAllocator.Valid;
      hide BuddyAllocator.BestFit, Served, Elements;
      BuddyIs();
      ghost var f, pages := buddy.roots, Pages();
      page := buddy.Alloc(log2Size, shared);
      if page != -1 {
        GainServed(f, pages, log2Size, page);
        Record(page, log2Size, shared, f, pages);
      }
    }

    /** `MM_Buddy_alloc4G`, likewise. */
    method Alloc4G(log2Size: nat, shared: bool) returns (page: int)
      requires Valid()
      modifies this`totUsage, this`pageUsage, buddy.Repr()
      ensures Valid() && -1 <= page && (page == -1 ==> totUsage == old(totUsage) && pageUsage == old(pageUsage))
      ensures page == -1 <==> forall k: nat, p: nat :: log2Size <= k <= MAX_ORDER && p < PAGES_4G ==>
                !IsFree(old(buddy.roots), k, p)
      ensures page != -1 ==> Gained(old(buddy.roots), buddy.roots, log2Size, page) && page + Pow2(log2Size) <= PAGES_4G
      ensures page != -1 ==> pageUsage == if shared then old(pageUsage) else old(pageUsage) + [page]
      ensures page != -1 ==> totUsage == old(totUsage) + if shared then 0 else FrameBytes(log2Size)
      ensures page == -1 ==> buddy.roots == old(buddy.roots) && Pages() == old(Pages())
      ensures page != -1 ==>
                && Served(old(buddy.roots), old(Pages()), buddy.roots, Pages(), old(Mine()), Mine() + {page})
                && page < buddy.pages.Length && buddy.pages[page].shared == shared
    {
      hide WellFormed, PagesOK, IsAllocated, Gained, Charged, Total, IsFree, BuddyAllocator.Valid, Served, Elements;
      BuddyIs();
      ghost var f, pages := buddy.roots, Pages();
      page := buddy.Alloc4G(log2Size, shared);
      if page != -1 {
        GainServed(f, pages, log2Size, page);
        Record(page, log2Size, shared, f, pages);
      }
    }

    lemma GainServed(f: seq<Root>, pages: seq<Page>, k: nat, page: nat)
      requires WellFormed(f, |pages|) && PagesOK(pages, f) && Gained(f, buddy.roots, k, page)
      requires buddy.Valid() && |pages| == buddy.pages.Length && buddy.Untouched(pages, Pages(), f, page)
      ensures Served(f, pages, buddy.roots, Pages(), Mine(), Mine() + {page})
      ensures Served(f, pages, buddy.roots, Pages(), Mine(), Elements(pageUsage + [page]) + {page})
    {
      BuddyIs();
      hide WellFormed, PagesOK, Gained, BuddyAllocator.Valid, Served, Elements;
      ServedGain(f, pages, buddy.roots, Pages(), k, page);
      ServedWider(f, pages, buddy.roots, Pages(), {}, {page}, Mine(), Mine() + {page});
      ElementsPushed(pageUsage, page);
      assert Mine() + {page} + {page} == Mine() + {page};
    }

    method Record(page: nat, log2Size: nat, shared: bool, ghost f: seq<Root>, ghost pages: seq<Page>)
      requires buddy.Valid() && Charged(f, pages, pageUsage) && Gained(f, buddy.roots, log2Size, page)
      requires totUsage == PAGE_BYTES * Total(pages, pageUsage) + BlockBytes(kmallocUsage)
      requires |pages| == buddy.pages.Length && page < |pages| && buddy.pages[page].shared == shared
      requires buddy.Untouched(pages, Pages(), f, page)
      modifies this`totUsage, this`pageUsage
      ensures Valid() && pageUsage == (if shared then old(pageUsage) else old(pageUsage) + [page])
      ensures totUsage == old(totUsage) + if shared then 0 else FrameBytes(log2Size)
    {
      hide WellFormed, PagesOK, IsAllocated, Gained, Charged, Total, BuddyAllocator.Valid;
      BuddyIs();
      FrameBytesIs(log2Size);
      ChargedMore(f, buddy.roots, pages, Pages(), pageUsage, log2Size, page);
      if !shared {
        pageUsage := pageUsage + [page];
        totUsage := totUsage + FrameBytes(log2Size);
      }
    }

    /** `MM_Buddy_free` of a frame of this task, or of a shared one. */
    method Free(page: nat)
      requires Valid() && Owned(buddy.roots, Pages(), page) && (buddy.pages[page].shared <==> page !in pageUsage)
      modifies this`totUsage, this`pageUsage, buddy.Repr()
      ensures Valid() && Gained(buddy.roots, old(buddy.roots), old(buddy.pages[page].order), page)
      ensures pageUsage == if old(buddy.pages[page].shared) then old(pageUsage) else Unlinked(old(pageUsage), page)
      ensures totUsage == old(totUsage) - if old(buddy.pages[page].shared) then 0
                else FrameBytes(old(buddy.pages[page].order))
      ensures Served(old(buddy.roots), old(Pages()), buddy.roots, Pages(), old(Mine()) + {page}, Mine())
      ensures page !in Mine()
    {
      hide WellFormed, PagesOK, IsAllocated, Gained, Charged, Total, BuddyAllocator.Valid, Served, Elements;
      BuddyIs();
      ghost var f, pages, s := buddy.roots, Pages(), pageUsage;
      var ord := buddy.pages[page].order;
      FrameBytesIs(ord);
      if !buddy.pages[page].shared {
        ghost var i := UnlinkedAt(s, page);
        TotalRemoved(pages, s, i);
        ChargedOnce(s, i);
        totUsage := totUsage - FrameBytes(ord);
        pageUsage := Unlinked(pageUsage, page);
        buddy.FreePages(page);
        BuddyIs();
        ChargedLess(f, buddy.roots, pages, Pages(), s, i);
        LossServed(f, pages, ord, page, Elements(s));
      } else {
        buddy.FreePages(page);
        BuddyIs();
        ChargedSame(f, buddy.roots, pages, Pages(), s, page);
        LossServed(f, pages, ord, page, Elements(s));
        NotElement(s, page);
      }
    }

    /** `MM_Buddy_free` of a frame that is charged to another task: the frame leaves that task's list, and
        this task's total. Neither account is right any more. */
    method FreeForeign(owner: TaskMem, page: nat)
      requires Valid() && owner.Valid() && owner != this && owner.buddy == buddy && Mine() !! owner.Mine()
      requires page in owner.pageUsage
      modifies this`totUsage, owner`pageUsage, buddy.Repr()
      ensures buddy.Valid() && Gained(buddy.roots, old(buddy.roots), old(buddy.pages[page].order), page)
      ensures owner.pageUsage == Unlinked(old(owner.pageUsage), page)
      ensures totUsage == old(totUsage) - FrameBytes(old(buddy.pages[page].order))
      ensures !Valid() && !owner.Valid()
    {
      hide WellFormed, PagesOK, IsAllocated, Gained, Charged, Total, BuddyAllocator.Valid, Served, Elements;
      BuddyIs();
      ghost var f, pages, s := buddy.roots, Pages(), owner.pageUsage;
      ghost var i := UnlinkedAt(s, page);
      AccountIs(owner, i);
      TotalRemoved(pages, s, i);
      var ord := buddy.pages[page].order;
      FrameBytesIs(ord);
      totUsage := totUsage - FrameBytes(ord);
      owner.pageUsage := Unlinked(owner.pageUsage, page);
      buddy.FreePages(page);
      BuddyIs();
      ChargedLess(f, buddy.roots, pages, Pages(), s, i);
      ServedLoss(f, pages, buddy.roots, Pages(), ord, page);
      KeptCharged(f, buddy.roots, pages, Pages(), {page}, {}, pageUsage);
    }

    lemma AccountIs(t: TaskMem, i: nat)
      requires t.Valid() && t.buddy == buddy
      ensures Charged(buddy.roots, Pages(), t.pageUsage)
      ensures t.totUsage == PAGE_BYTES * Total(Pages(), t.pageUsage) + BlockBytes(t.kmallocUsage)
      ensures i < |t.pageUsage| ==> Owned(buddy.roots, Pages(), t.pageUsage[i]) && t.pageUsage[i] in t.Mine()
      ensures i < |t.pageUsage| ==> !buddy.pages[t.pageUsage[i]].shared
    {
      hide BuddyAllocator.Valid, IsAllocated, Total;
      assert i < |t.pageUsage| ==> Owned(buddy.roots, Pages(), t.pageUsage[i]);
    }

    lemma ChargedOnce(s: seq<int>, i: nat)
      requires Charged(buddy.roots, Pages(), s) && i < |s|
      ensures Elements(WithoutAt(s, i)) <= Elements(s) && s[i] !in Elements(WithoutAt(s, i))
    {
      hide WellFormed, PagesOK, IsAllocated;
    }

    lemma NotElement(s: seq<int>, p: int)
      requires p !in s
      ensures p !in Elements(s)
    {
    }

    lemma LossServed(f: seq<Root>, pages: seq<Page>, k: nat, page: nat, own: set<int>)
      requires WellFormed(f, |pages|) && PagesOK(pages, f) && Gained(buddy.roots, f, k, page) && Mine() <= own
      requires buddy.Valid() && |pages| == buddy.pages.Length && buddy.Untouched(pages, Pages(), buddy.roots, page)
      ensures Served(f, pages, buddy.roots, Pages(), own + {page}, Mine())
    {
      hide WellFormed, PagesOK, Gained, BuddyAllocator.Valid, Served, Elements;
      ServedLoss(f, pages, buddy.roots, Pages(), k, page);
      ServedWider(f, pages, buddy.roots, Pages(), {page}, {}, own + {page}, Mine());
    }

    /** `MM_Buddy_divPageFrame`: the right half is charged if the frame was; the total stays. */
    method DivideFrame(headPage: nat) returns (rPage: int)
      requires Valid() && Owned(buddy.roots, Pages(), headPage)
      requires (buddy.pages[headPage].shared <==> headPage !in pageUsage)
      modifies this`pageUsage, buddy`roots, buddy.pages
      ensures Valid()
      ensures old(buddy.pages[headPage].order) == 0 ==> rPage == -1 && pageUsage == old(pageUsage)
      ensures old(buddy.pages[headPage].order) > 0 ==>
                Divided(old(buddy.roots), buddy.roots, old(buddy.pages[headPage].order), headPage)
      ensures old(buddy.pages[headPage].order) > 0 ==>
                pageUsage == if old(buddy.pages[headPage].shared) then old(pageUsage) else old(pageUsage) + [rPage]
      ensures old(buddy.pages[headPage].order) == 0 ==> buddy.roots == old(buddy.roots) && Pages() == old(Pages())
      ensures old(buddy.pages[headPage].order) > 0 ==>
                && Served(old(buddy.roots), old(Pages()), buddy.roots, Pages(), old(Mine()) + {headPage},
                          Mine() + {headPage, rPage})
                && rPage == headPage + Pow2(old(buddy.pages[headPage].order) - 1) < buddy.pages.Length
                && buddy.pages[rPage].shared == buddy.pages[headPage].shared == old(buddy.pages[headPage].shared)
    {
      hide WellFormed, PagesOK, IsAllocated, Divided, Charged, Total, BuddyAllocator.Valid, Served, Elements;
      BuddyIs();
      ghost var f, pages, s := buddy.roots, Pages(), pageUsage;
      rPage := buddy.DivideFrame(headPage);
      if rPage == -1 { return; }
      BuddyIs();
      ServedDivide(f, pages, buddy.roots, Pages(), pages[headPage].order, headPage);
      ServedWider(f, pages, buddy.roots, Pages(), {headPage}, {headPage, rPage}, Elements(s) + {headPage},
                  Elements(s) + {headPage, rPage});
      ElementsPushed(s, rPage);
      assert Elements(s) + {rPage} + {headPage, rPage} == Elements(s) + {headPage, rPage};
      if buddy.pages[headPage].shared {
        SharedHalved(f, buddy.roots, pages, Pages(), s, headPage, rPage);
      } else {
        ghost var i :| 0 <= i < |s| && s[i] == headPage;
        ChargedHalved(f, buddy.roots, pages, Pages(), s, i, rPage);
        pageUsage := pageUsage + [rPage];
      }
    }

    // ---------- private memory blocks ----------

    /** `_addUsage`. */
    method AddUsage(addr: nat, size: nat)
      requires Valid()
      modifies this`totUsage, this`kmallocUsage
      ensures Valid() && kmallocUsage == old(kmallocUsage) + [Block(addr, size)] && totUsage == old(totUsage) + size
    {
      hide Charged, Total, BuddyAllocator.Valid;
      BlockAdded(kmallocUsage, Block(addr, size));
      kmallocUsage := kmallocUsage + [Block(addr, size)];
      totUsage := totUsage + size;
    }

    /** `_delUsage`: the first record of the block; false if it is not private memory. */
    method DelUsage(addr: nat) returns (found: bool)
      requires Valid()
      modifies this`totUsage, this`kmallocUsage
      ensures Valid()
      ensures found <==> exists b :: b in old(kmallocUsage) && b.addr == addr
      ensures !found ==> kmallocUsage == old(kmallocUsage) && totUsage == old(totUsage)
      ensures found ==>
                exists i: nat :: FirstAt(old(kmallocUsage), addr, i) && kmallocUsage == WithoutAt(old(kmallocUsage), i)
                                && totUsage == old(totUsage) - old(kmallocUsage)[i].size
    {
      hide Charged, Total, BuddyAllocator.Valid;
      for i := 0 to |kmallocUsage|
        invariant kmallocUsage == old(kmallocUsage) && totUsage == old(totUsage)
        invariant forall j :: 0 <= j < i ==> kmallocUsage[j].addr != addr
      {
        if kmallocUsage[i].addr == addr {
          BlockRemoved(kmallocUsage, i);
          totUsage := totUsage - kmallocUsage[i].size;
          kmallocUsage := WithoutAt(kmallocUsage, i);
          assert FirstAt(old(kmallocUsage), addr, i);
          return true;
        }
      }
      found := false;
    }

    ghost predicate FirstAt(s: seq<Block>, addr: nat, i: nat)
    {
      i < |s| && s[i].addr == addr && forall j :: 0 <= j < i ==> s[j].addr != addr
    }

    // ---------- exit ----------

    /** The frames allocated now are those of `f` but the ones in `gone`. */
    ghost predicate Returned(f: seq<Root>, gone: set<int>)
      reads buddy
    {
      SameRoots(buddy.roots, f) && forall k: nat, p: nat :: IsAllocated(buddy.roots, k, p) <==>
          IsAllocated(f, k, p) && p !in gone
    }

    lemma OneMore(f: seq<Root>, g: seq<Root>, pages: seq<Page>, gone: set<int>, p: nat)
      requires SameRoots(g, f) && forall k: nat, q: nat :: IsAllocated(g, k, q) <==> IsAllocated(f, k, q) && q !in gone
      requires WellFormed(g, |pages|) && PagesOK(pages, g) && Owned(g, pages, p)
      requires Gained(buddy.roots, g, pages[p].order, p)
      ensures Returned(f, gone + {p})
    {
      hide WellFormed, PagesOK;
      forall k: nat, q: nat ensures IsAllocated(buddy.roots, k, q) <==> IsAllocated(f, k, q) && q !in gone + {p} {
        if q == p && IsAllocated(g, k, q) { AllocatedHead(pages, g, k, q); }
      }
    }

    /** In the middle of freeing everything: `f`, `pages` and `s` are from the beginning, `gone` are the frames
        freed since. */
    ghost predicate Freeing(f: seq<Root>, pages: seq<Page>, s: seq<int>, gone: set<int>)
      reads this, buddy.Repr()
    {
      && Valid() && Returned(f, gone) && Served(f, pages, buddy.roots, Pages(), Elements(s), Mine())
      && gone == (set p | p in s && p !in pageUsage) && (forall p :: p in pageUsage ==> p in s)
    }

    method FreeFirst(ghost f: seq<Root>, ghost pages: seq<Page>, ghost s: seq<int>,
                     ghost gone: set<int>) returns (ghost gone': set<int>)
      requires Freeing(f, pages, s, gone) && pageUsage != []
      modifies this`totUsage, this`pageUsage, buddy.Repr()
      ensures Freeing(f, pages, s, gone') && |pageUsage| == |old(pageUsage)| - 1
    {
      hide Charged, Total, WellFormed, PagesOK, IsAllocated, BuddyAllocator.Valid, Served, Elements;
      Head();
      BuddyIs();
      ghost var g, mid, t := buddy.roots, Pages(), pageUsage;
      var page := pageUsage[0];
      Free(page);
      HeadIn(t);
      ServedTwice(f, pages, g, mid, buddy.roots, Pages(), Elements(s), Elements(t), Mine());
      OneMore(f, g, mid, gone, page);
      gone' := gone + {page};
      assert t == [page] + pageUsage;
    }

    /** The loop of `Task_exit` over the page frames. */
    method FreeAll()
      requires Valid()
      modifies this`totUsage, this`pageUsage, buddy.Repr()
      ensures Valid() && pageUsage == []
      ensures Returned(old(buddy.roots), set p | p in old(pageUsage))
      ensures Served(old(buddy.roots), old(Pages()), buddy.roots, Pages(), old(Mine()), {})
    {
      StartServed();
      hide Valid, Served, Elements, IsAllocated;
      ghost var gone: set<int> := {};
      ghost var f, s, pages := buddy.roots, pageUsage, Pages();
      while pageUsage != []
        invariant Freeing(f, pages, s, gone)
        decreases |pageUsage|
      {
        gone := FreeFirst(f, pages, s, gone);
      }
      assert gone == set p | p in s;
      NoElements();
    }

    lemma StartServed()
      requires Valid()
      ensures Served(buddy.roots, Pages(), buddy.roots, Pages(), Mine(), Mine())
    {
      BuddyIs();
      ServedNot(buddy.roots, Pages(), Mine());
    }

    lemma HeadIn(s: seq<int>)
      requires s != []
      ensures Elements(s) + {s[0]} == Elements(s)
    {
    }

    lemma NoElements()
      ensures Elements([]) == {}
    {
    }

    /** The first frame on the list, which is on it once. */
    lemma Head()
      requires Valid() && pageUsage != []
      ensures pageUsage[0] >= 0 && Owned(buddy.roots, Pages(), pageUsage[0]) && !buddy.pages[pageUsage[0]].shared
      ensures pageUsage[0] !in pageUsage[1..] && Unlinked(pageUsage, pageUsage[0]) == pageUsage[1..]
    {
      hide BuddyAllocator.Valid, WellFormed, PagesOK, Total;
      assert Owned(buddy.roots, Pages(), pageUsage[0]);
    }

    /** `Task_exit`: both loops end, everything charged is returned, and the final check finds nothing left. */
    method Exit() returns (failed: bool)
      requires Valid()
      modifies this, buddy.Repr()
      ensures !failed && totUsage == 0 && pageUsage == [] && kmallocUsage == [] && buddy.Valid()
      ensures Returned(old(buddy.roots), set p | p in old(pageUsage))
      ensures Served(old(buddy.roots), old(Pages()), buddy.roots, Pages(), old(Mine()), {})
    {
      hide Charged, Returned, WellFormed, PagesOK, BuddyAllocator.Valid, Served, Elements;
      FreeAll();
      DropAll();
      failed := totUsage > 0;
    }

    /** The loop over the memory blocks. */
    method DropAll()
      requires Valid()
      modifies this`totUsage, this`kmallocUsage
      ensures Valid() && kmallocUsage == []
    {
      hide Charged, Total, BuddyAllocator.Valid;
      while kmallocUsage != []
        invariant Valid()
        decreases |kmallocUsage|
      {
        ghost var s := kmallocUsage;
        assert s[0] in s;
        var found := DelUsage(kmallocUsage[0].addr);
      }
    }
  }
}
