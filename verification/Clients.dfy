/** All the clients of one buddy allocator together: the page-table pool, the tasks, and whoever has
    shared frames. Each keeps what it promises while the others allocate, divide and free. */
module Clients {
  import opened Powers
  import opened BuddyTree
  import opened BuddyForest
  import opened Buddy
  import opened PagePool
  import opened Serving
  import opened TaskUsage

  /** There is no free frame of order `least` or more, or none that starts below page `limit`. */
  ghost predicate NoneFree(f: seq<Root>, least: nat)
  {
    forall k: nat, p: nat :: least <= k <= MAX_ORDER ==> !IsFree(f, k, p)
  }

  ghost predicate NoneFreeBelow(f: seq<Root>, least: nat, limit: nat)
  {
    forall k: nat, p: nat :: least <= k <= MAX_ORDER && p < limit ==> !IsFree(f, k, p)
  }

  class Memory {
    const buddy: BuddyAllocator
    const pool: Pool
    var tasks: set<TaskMem>
    /** The shared frames that are on no list. */
    ghost var loose: set<int>

    ghost function Pages(): seq<Page>
      reads buddy.pages
    {
      buddy.pages[..]
    }

    ghost predicate Joint()
      reads this`tasks
    {
      pool.buddy == buddy && forall t :: t in tasks ==> t.buddy == buddy
    }

    /** The account of a task is right for the allocator's state `f` with the descriptors `pages`. */
    ghost predicate TaskOK(t: TaskMem, f: seq<Root>, pages: seq<Page>)
      reads t
    {
      && Charged(f, pages, t.pageUsage)
      && t.totUsage == PAGE_BYTES * Total(pages, t.pageUsage) + BlockBytes(t.kmallocUsage)
    }

    ghost predicate PoolOK(f: seq<Root>, pages: seq<Page>)
      reads pool, pool.cachePool
    {
      && pool.Separate() && pool.cachePoolSize <= MAX_CACHE && pool.cacheSize >= MIN_CACHE
      && Holding(f, pages, pool.Stack(), pool.out) && Total(pages, pool.Stack()) == pool.cacheSize
      && Roomy(pages, pool.Stack()) && AllShared(pages, pool.Stack(), pool.out)
      && (forall p :: p in pool.out ==> 0 <= p < |pages| && pages[p].order == 0)
    }

    ghost predicate LooseOK(f: seq<Root>, pages: seq<Page>, l: set<int>)
    {
      forall p :: p in l ==> Owned(f, pages, p) && pages[p].shared
    }

    ghost predicate AllOK(f: seq<Root>, pages: seq<Page>)
      reads this`tasks, this`loose, tasks, pool, pool.cachePool
    {
      (forall t :: t in tasks ==> TaskOK(t, f, pages)) && PoolOK(f, pages) && LooseOK(f, pages, loose)
    }

    /** No frame is on two lists. */
    ghost predicate Apart()
      reads this`tasks, this`loose, tasks, pool, pool.cachePool
    {
      && (forall t, u :: t in tasks && u in tasks && t != u ==> t.Mine() !! u.Mine())
      && (forall t :: t in tasks ==> t.Mine() !! pool.All(pool.out) && t.Mine() !! loose)
      && loose !! pool.All(pool.out)
    }

    ghost predicate Valid()
      reads this, tasks, pool, pool.cachePool, buddy.Repr()
    {
      Joint() && buddy.Valid() && AllOK(buddy.roots, Pages()) && Apart()
    }

    /** Nobody but the pool has a frame yet. */
    constructor (p: Pool)
      requires p.Valid()
      ensures Valid() && pool == p && buddy == p.buddy && tasks == {} && loose == {}
    {
      buddy, pool, tasks, loose := p.buddy, p, {}, {};
    }

    method NewTask() returns (t: TaskMem)
      requires Valid()
      modifies this`tasks
      ensures Valid() && fresh(t) && tasks == old(tasks) + {t} && t.pageUsage == []
    {
      hide BuddyAllocator.Valid, PoolOK, LooseOK, TaskOK, TaskMem.Valid, TaskMem.Mine, Pool.All;
      t := new TaskMem(buddy);
      tasks := tasks + {t};
      NoneYet(t);
    }

    lemma NoneYet(t: TaskMem)
      requires t.Valid() && t.buddy == buddy && t.pageUsage == []
      ensures TaskOK(t, buddy.roots, Pages()) && t.Mine() == {}
    {
    }

    // ---------- what each client relies on ----------

    /** In particular every task's account and the pool are what they promise on their own. */
    lemma Promises()
      requires Valid()
      ensures pool.Valid() && forall t :: t in tasks ==> t.Valid()
    {
    }

    lemma BuddyIs()
      requires buddy.Valid()
      ensures WellFormed(buddy.roots, |Pages()|) && PagesOK(Pages(), buddy.roots)
    {
    }

    lemma TaskKept(u: TaskMem, f: seq<Root>, pages: seq<Page>, own: set<int>, own': set<int>)
      requires buddy.Valid() && TaskOK(u, f, pages) && own !! u.Mine()
      requires Served(f, pages, buddy.roots, Pages(), own, own')
      ensures TaskOK(u, buddy.roots, Pages()) && own' !! u.Mine()
    {
      BuddyIs();
      hide BuddyAllocator.Valid, Served, Charged, WellFormed, PagesOK;
      KeptCharged(f, buddy.roots, pages, Pages(), own, own', u.pageUsage);
    }

    lemma PoolKept(f: seq<Root>, pages: seq<Page>, own: set<int>, own': set<int>)
      requires buddy.Valid() && PoolOK(f, pages) && own !! pool.All(pool.out)
      requires Served(f, pages, buddy.roots, Pages(), own, own')
      ensures PoolOK(buddy.roots, Pages()) && own' !! pool.All(pool.out)
    {
      BuddyIs();
      hide BuddyAllocator.Valid, Served, Holding, WellFormed, PagesOK, Total, Roomy, AllShared;
      var s := pool.Stack();
      assert forall i :: 0 <= i < |s| ==> s[i] in Elements(s);
      KeptHolding(f, buddy.roots, pages, Pages(), own, own', s, pool.out);
      SharedSame(pages, Pages(), s, pool.out, pool.out);
      StackUnmoved(pages, Pages(), s, pool.out);
      RoomySame(pages, Pages(), s);
    }

    lemma LooseKept(f: seq<Root>, pages: seq<Page>, own: set<int>, own': set<int>, l: set<int>)
      requires LooseOK(f, pages, l) && own !! l && Served(f, pages, buddy.roots, Pages(), own, own')
      ensures LooseOK(buddy.roots, Pages(), l) && own' !! l
    {
      hide IsAllocated;
      forall p | p in l ensures Owned(buddy.roots, Pages(), p) && Pages()[p].shared {
        assert Owned(f, pages, p) && p !in own;
      }
      forall p | p in l ensures p !in own' {
        assert Owned(f, pages, p) && p !in own && Heads(f, p);
      }
    }

    // ---------- the others ----------

    /** The tasks `others`, the pool and the loose frames `l`, when the rest of the frames are `own`. */
    ghost predicate Around(others: set<TaskMem>, f: seq<Root>, pages: seq<Page>, own: set<int>, l: set<int>)
      reads others, pool, pool.cachePool
    {
      && (forall u :: u in others ==>
            TaskOK(u, f, pages) && u.Mine() !! own && u.Mine() !! l && u.Mine() !! pool.All(pool.out))
      && (forall u, v :: u in others && v in others && u != v ==> u.Mine() !! v.Mine())
      && PoolOK(f, pages) && own !! pool.All(pool.out) && l !! pool.All(pool.out)
      && LooseOK(f, pages, l) && own !! l
    }

    /** The others of task `t`, which is about to free or divide the loose frames `extra` or its own. */
    lemma OthersOf(t: TaskMem, extra: set<int>)
      requires Valid() && t in tasks && extra <= loose
      ensures Around(tasks - {t}, buddy.roots, Pages(), t.Mine() + extra, loose - extra)
      ensures Joint() && t.Valid() && t.buddy == buddy && pool.cachePool !in buddy.Repr()
    {
      hide BuddyAllocator.Valid, Charged, Holding, Total, Owned;
    }

    /** A call by someone else leaves them alone. */
    lemma OthersKept(others: set<TaskMem>, f: seq<Root>, pages: seq<Page>, own: set<int>, own': set<int>, l: set<int>)
      requires buddy.Valid() && Served(f, pages, buddy.roots, Pages(), own, own') && Around(others, f, pages, own, l)
      ensures Around(others, buddy.roots, Pages(), own', l)
    {
      hide BuddyAllocator.Valid, Served, TaskOK, PoolOK, LooseOK;
      forall u | u in others ensures TaskOK(u, buddy.roots, Pages()) && own' !! u.Mine() {
        TaskKept(u, f, pages, own, own');
      }
      PoolKept(f, pages, own, own');
      LooseKept(f, pages, own, own', l);
    }

    /** After its call the frames `more` of task `t` are loose. */
    ghost method Return(t: TaskMem, own: set<int>, l: set<int>, more: set<int>)
      requires Joint() && t in tasks && t.Valid() && Around(tasks - {t}, buddy.roots, Pages(), own, l)
      requires t.Mine() <= own && more <= own && more !! t.Mine() && LooseOK(buddy.roots, Pages(), more)
      modifies this`loose
      ensures Valid() && loose == l + more
    {
      hide Charged, PoolOK, BuddyAllocator.Valid, Elements, Owned;
      assert forall u :: u in tasks ==> u == t || u in tasks - {t};
      loose := l + more;
    }

    // ---------- a task's calls ----------

    /** `MM_Buddy_alloc` by a task. */
    method TaskAlloc(t: TaskMem, log2Size: nat, shared: bool) returns (page: int)
      requires Valid() && t in tasks
      modifies this`loose, t`totUsage, t`pageUsage, buddy.Repr()
      ensures -1 <= page && (page == -1 <==> NoneFree(old(buddy.roots), log2Size))
      ensures page != -1 ==> Gained(old(buddy.roots), buddy.roots, log2Size, page)
      ensures t.pageUsage == if page == -1 || shared then old(t.pageUsage) else old(t.pageUsage) + [page]
      ensures page == -1 ==> buddy.roots == old(buddy.roots)
      ensures Valid() && loose == if page != -1 && shared then old(loose) + {page} else old(loose)
    {
      hide Valid, Joint, Around, TaskMem.Valid, BuddyAllocator.Valid, Served, LooseOK, Elements, Gained, IsFree;
      OthersOf(t, {});
      ghost var f, pages, own, l, others := buddy.roots, Pages(), t.Mine(), loose, tasks - {t};
      assert own + {} == own && l - {} == l;
      page := t.Alloc(log2Size, shared);
      if page == -1 {
        NoLoose();
        Return(t, own, l, {});
      } else {
        ValidIs(t);
        GainedIs(f, buddy.roots, log2Size, page);
        OthersKept(others, f, pages, own, t.Mine() + {page}, l);
        LooseNow(t, log2Size, page, shared);
        Return(t, t.Mine() + {page}, l, if shared then {page} else {});
      }
    }

    lemma NoLoose()
      ensures LooseOK(buddy.roots, Pages(), {})
    {
    }

    lemma ValidIs(t: TaskMem)
      requires t.Valid() && t.buddy == buddy
      ensures buddy.Valid() && WellFormed(buddy.roots, |Pages()|) && PagesOK(Pages(), buddy.roots)
    {
    }

    /** A shared frame is on no task's list. */
    lemma LooseNow(t: TaskMem, k: nat, page: int, shared: bool)
      requires t.Valid() && t.buddy == buddy && 0 <= page < buddy.pages.Length && IsAllocated(buddy.roots, k, page)
      requires buddy.pages[page].shared == shared
      ensures shared ==> LooseOK(buddy.roots, Pages(), {page}) && page !in t.Mine()
      ensures LooseOK(buddy.roots, Pages(), {})
    {
      ValidIs(t);
      AllocatedHead(Pages(), buddy.roots, k, page);
      hide IsAllocated, WellFormed, PagesOK, BuddyAllocator.Valid;
    }

    lemma GainedIs(f: seq<Root>, g: seq<Root>, k: nat, p: nat)
      requires Gained(f, g, k, p)
      ensures IsAllocated(g, k, p)
    {
    }

    /** `MM_Buddy_alloc4G` by a task. */
    method TaskAlloc4G(t: TaskMem, log2Size: nat, shared: bool) returns (page: int)
      requires Valid() && t in tasks
      modifies this`loose, t`totUsage, t`pageUsage, buddy.Repr()
      ensures -1 <= page && (page == -1 <==> NoneFreeBelow(old(buddy.roots), log2Size, PAGES_4G))
      ensures page != -1 ==>
                Gained(old(buddy.roots), buddy.roots, log2Size, page) && page + Pow2(log2Size) <= PAGES_4G
      ensures t.pageUsage == if page == -1 || shared then old(t.pageUsage) else old(t.pageUsage) + [page]
      ensures page == -1 ==> buddy.roots == old(buddy.roots)
      ensures Valid() && loose == if page != -1 && shared then old(loose) + {page} else old(loose)
    {
      hide Valid, Joint, Around, TaskMem.Valid, BuddyAllocator.Valid, Served, LooseOK, Elements, Gained, IsFree;
      OthersOf(t, {});
      ghost var f, pages, own, l, others := buddy.roots, Pages(), t.Mine(), loose, tasks - {t};
      assert own + {} == own && l - {} == l;
      page := t.Alloc4G(log2Size, shared);
      if page == -1 {
        NoLoose();
        Return(t, own, l, {});
      } else {
        ValidIs(t);
        GainedIs(f, buddy.roots, log2Size, page);
        OthersKept(others, f, pages, own, t.Mine() + {page}, l);
        LooseNow(t, log2Size, page, shared);
        Return(t, t.Mine() + {page}, l, if shared then {page} else {});
      }
    }

    /** A frame that a task may free or divide: one on its list, or a loose one. */
    lemma InHand(t: TaskMem, page: nat)
      requires Valid() && t in tasks && (page in t.pageUsage || page in loose)
      ensures Owned(buddy.roots, Pages(), page) && (Pages()[page].shared <==> page !in t.pageUsage)
      ensures page in t.pageUsage ==> page !in loose
      ensures t.Pages() == Pages()
    {
      hide BuddyAllocator.Valid, Total, PoolOK;
      var s := t.pageUsage;
      if page in s {
        var i :| 0 <= i < |s| && s[i] == page;
        assert Owned(buddy.roots, Pages(), s[i]);
      }
    }

    lemma MineIs(t: TaskMem)
      ensures forall p :: p in t.Mine() <==> p in t.pageUsage
    {
    }

    /** `MM_Buddy_free` by a task. */
    method TaskFree(t: TaskMem, page: nat)
      requires Valid() && t in tasks && (page in t.pageUsage || page in loose)
      modifies this`loose, t`totUsage, t`pageUsage, buddy.Repr()
      ensures Gained(buddy.roots, old(buddy.roots), old(buddy.pages[page].order), page) && page !in t.pageUsage
      ensures t.pageUsage == if page in old(loose) then old(t.pageUsage) else Unlinked(old(t.pageUsage), page)
      ensures t.totUsage == old(t.totUsage) - if page in old(loose) then 0 else FrameBytes(old(buddy.pages[page].order))
      ensures Valid() && loose == old(loose) - {page}
    {
      ghost var extra: set<int> := if page in loose then {page} else {};
      hide Valid, Joint, Around, TaskMem.Valid, BuddyAllocator.Valid, Served, LooseOK, Elements, Gained, TaskMem.Mine;
      OthersOf(t, extra);
      InHand(t, page);
      MineIs(t);
      ghost var f, pages, own, l, others := buddy.roots, Pages(), t.Mine(), loose - extra, tasks - {t};
      assert own + extra == own + {page} && l == loose - {page};
      t.Free(page);
      ValidIs(t);
      OthersKept(others, f, pages, own + extra, t.Mine(), l);
      NoLoose();
      MineIs(t);
      Return(t, t.Mine(), l, {});
    }

    /** `MM_Buddy_divPageFrame` by a task. */
    method TaskDivide(t: TaskMem, page: nat) returns (rPage: int)
      requires Valid() && t in tasks && (page in t.pageUsage || page in loose)
      modifies this`loose, t`pageUsage, buddy`roots, buddy.pages
      ensures rPage == -1 <==> old(buddy.pages[page].order) == 0
      ensures rPage == -1 ==> buddy.roots == old(buddy.roots)
      ensures rPage != -1 ==> Divided(old(buddy.roots), buddy.roots, old(buddy.pages[page].order), page)
      ensures rPage != -1 ==> rPage == page + Pow2(old(buddy.pages[page].order) - 1)
      ensures t.pageUsage == if rPage != -1 && page !in old(loose) then old(t.pageUsage) + [rPage] else old(t.pageUsage)
      ensures Valid() && loose == if rPage != -1 && page in old(loose) then old(loose) + {rPage} else old(loose)
    {
      ghost var extra: set<int> := if page in loose then {page} else {};
      hide Valid, Joint, Around, TaskMem.Valid, BuddyAllocator.Valid, Served, LooseOK, Elements, Divided, TaskMem.Mine;
      OthersOf(t, extra);
      InHand(t, page);
      MineIs(t);
      ghost var f, pages, own, l, others := buddy.roots, Pages(), t.Mine(), loose - extra, tasks - {t};
      ghost var k := pages[page].order;
      assert own + extra == own + {page};
      rPage := t.DivideFrame(page);
      ValidIs(t);
      if rPage == -1 {
        ServedNot(f, pages, own + extra);
        StillLoose(t, page, extra);
        Return(t, own + extra, l, extra);
        assert l + extra == old(loose);
      } else {
        ghost var own' := t.Mine() + {page, rPage};
        OthersKept(others, f, pages, own + extra, own', l);
        HalvesLoose(t, f, k, page, rPage);
        NoLoose();
        ghost var more: set<int> := if page in loose then {page, rPage} else {};
        Return(t, own', l, more);
        assert l + more == if page in old(loose) then old(loose) + {rPage} else old(loose);
      }
    }

    lemma StillLoose(t: TaskMem, page: int, extra: set<int>)
      requires t.Valid() && t.buddy == buddy && Owned(buddy.roots, Pages(), page)
      requires extra == {page} ==> Pages()[page].shared
      requires extra == {} || extra == {page}
      ensures LooseOK(buddy.roots, Pages(), extra) && extra !! t.Mine()
    {
      hide BuddyAllocator.Valid, IsAllocated, Total;
    }

    lemma HalvesLoose(t: TaskMem, f: seq<Root>, k: nat, page: nat, r: nat)
      requires t.Valid() && t.buddy == buddy && Divided(f, buddy.roots, k, page) && r == page + Pow2(k - 1)
      requires page < |Pages()| && r < |Pages()| && Pages()[page].shared == Pages()[r].shared
      ensures Pages()[page].shared ==> LooseOK(buddy.roots, Pages(), {page, r}) && {page, r} !! t.Mine()
    {
      ValidIs(t);
      hide BuddyAllocator.Valid, IsAllocated, Total, WellFormed, PagesOK;
      assert IsAllocated(buddy.roots, k - 1, page) && IsAllocated(buddy.roots, k - 1, r);
      AllocatedHead(Pages(), buddy.roots, k - 1, page);
      AllocatedHead(Pages(), buddy.roots, k - 1, r);
    }

    /** `_addUsage`: a private block is charged to a task. */
    method TaskAddUsage(t: TaskMem, addr: nat, size: nat)
      requires Valid() && t in tasks
      modifies t`totUsage, t`kmallocUsage
      ensures t.kmallocUsage == old(t.kmallocUsage) + [Block(addr, size)] && t.totUsage == old(t.totUsage) + size
      ensures Valid()
    {
      hide Valid, Joint, Around, TaskMem.Valid, BuddyAllocator.Valid, LooseOK, Elements;
      OthersOf(t, {});
      ghost var own, l := t.Mine(), loose;
      assert own + {} == own && l - {} == l;
      t.AddUsage(addr, size);
      NoLoose();
      Returned(t, own, l);
    }

    /** `_delUsage`: the first record of the address goes. */
    method TaskDelUsage(t: TaskMem, addr: nat) returns (found: bool)
      requires Valid() && t in tasks
      modifies t`totUsage, t`kmallocUsage
      ensures found <==> exists b :: b in old(t.kmallocUsage) && b.addr == addr
      ensures !found ==> t.kmallocUsage == old(t.kmallocUsage) && t.totUsage == old(t.totUsage)
      ensures Valid()
    {
      hide Valid, Joint, Around, TaskMem.Valid, BuddyAllocator.Valid, LooseOK, Elements;
      OthersOf(t, {});
      ghost var own, l := t.Mine(), loose;
      assert own + {} == own && l - {} == l;
      found := t.DelUsage(addr);
      NoLoose();
      Returned(t, own, l);
    }

    lemma Returned(t: TaskMem, own: set<int>, l: set<int>)
      requires Joint() && t in tasks && t.Valid() && Around(tasks - {t}, buddy.roots, Pages(), own, l)
      requires t.Mine() <= own && loose == l
      ensures Valid()
    {
      hide Charged, PoolOK, BuddyAllocator.Valid, Elements, Owned;
      assert forall u :: u in tasks ==> u == t || u in tasks - {t};
    }

    /** `Task_exit`. */
    method TaskExit(t: TaskMem) returns (failed: bool)
      requires Valid() && t in tasks
      modifies this`loose, t, buddy.Repr()
      ensures !failed && loose == old(loose) && t.totUsage == 0 && t.pageUsage == [] && t.kmallocUsage == []
      ensures t.Returned(old(buddy.roots), set p | p in old(t.pageUsage))
      ensures Valid()
    {
      hide Valid, Joint, Around, TaskMem.Valid, BuddyAllocator.Valid, Served, LooseOK, Elements, TaskMem.Returned;
      OthersOf(t, {});
      ghost var f, pages, own, l, others := buddy.roots, Pages(), t.Mine(), loose, tasks - {t};
      assert own + {} == own && l - {} == l;
      failed := t.Exit();
      EmptyIsValid(t);
      OthersKept(others, f, pages, own, {}, l);
      NoLoose();
      Return(t, {}, l, {});
    }

    lemma EmptyIsValid(t: TaskMem)
      requires t.buddy == buddy && buddy.Valid() && t.totUsage == 0 && t.pageUsage == [] && t.kmallocUsage == []
      ensures t.Valid() && t.Mine() == {} && WellFormed(buddy.roots, |Pages()|) && PagesOK(Pages(), buddy.roots)
    {
    }

    // ---------- the pool's calls ----------

    /** The tasks and the loose frames, when the rest of the frames are `own`. */
    ghost predicate AroundPool(f: seq<Root>, pages: seq<Page>, own: set<int>)
      reads this`tasks, this`loose, tasks
    {
      && (forall u :: u in tasks ==> TaskOK(u, f, pages) && own !! u.Mine() && u.Mine() !! loose)
      && (forall u, v :: u in tasks && v in tasks && u != v ==> u.Mine() !! v.Mine())
      && LooseOK(f, pages, loose) && own !! loose
    }

    /** A call by the pool leaves them alone. */
    lemma PoolCalled(f: seq<Root>, pages: seq<Page>, own: set<int>)
      requires Joint() && pool.Valid() && Served(f, pages, pool.buddy.roots, pool.Orders(), own, pool.All(pool.out))
      requires AroundPool(f, pages, own)
      ensures Valid()
    {
      PoolIs();
      hide BuddyAllocator.Valid, Served, TaskOK, PoolOK, LooseOK, Elements;
      forall u | u in tasks ensures TaskOK(u, buddy.roots, Pages()) && pool.All(pool.out) !! u.Mine() {
        TaskKept(u, f, pages, own, pool.All(pool.out));
      }
      LooseKept(f, pages, own, pool.All(pool.out), loose);
    }

    lemma PoolIs()
      requires pool.Valid() && pool.buddy == buddy
      ensures buddy.Valid() && PoolOK(buddy.roots, Pages())
    {
    }

    lemma PoolStarts()
      requires Valid()
      ensures pool.Valid() && Joint() && pool.buddy == buddy
      ensures AroundPool(pool.buddy.roots, pool.Orders(), pool.All(pool.out))
    {
      hide BuddyAllocator.Valid, TaskOK, LooseOK;
    }

    /** `MM_PageTable_alloc`. */
    method PoolAlloc() returns (page: int)
      requires Valid()
      modifies pool, pool.cachePool, buddy.Repr()
      ensures page != -1 ==> Valid() && page !in old(pool.out) && pool.out == old(pool.out) + {page}
      ensures page == -1 <==> old(pool.cacheSize) == MIN_CACHE && !old(pool.Refillable())
    {
      hide Valid, Joint, AroundPool, Pool.Valid, Served, Pool.All, Pool.Refillable, Pool.Orders, Pool.Stack;
      PoolStarts();
      ghost var f, pages, own := pool.buddy.roots, pool.Orders(), pool.All(pool.out);
      page := pool.Alloc();
      if page != -1 {
        PoolCalled(f, pages, own);
      }
    }

    /** `MM_PageTable_free`. */
    method PoolFree(page: nat)
      requires Valid() && page in pool.out
      modifies pool, pool.cachePool, buddy.Repr()
      ensures Valid() && pool.out == old(pool.out) - {page}
    {
      hide Valid, Joint, AroundPool, Pool.Valid, Served, Pool.All, Gained, Pool.Orders, Pool.Stack;
      PoolStarts();
      ghost var f, pages, own := pool.buddy.roots, pool.Orders(), pool.All(pool.out);
      pool.Free(page);
      PoolCalled(f, pages, own);
    }
  }
}
