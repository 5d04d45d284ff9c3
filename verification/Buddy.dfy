/** The buddy allocator of kernel/memory/buddy.c. Pages are numbered by physical address / 4096,
    and pointer steps between descriptors of one zone are steps between page numbers. */
module Buddy {
  import opened Powers
  import opened BuddyTree
  import opened BuddyForest
  import L = FreeLists

  const MAX_ORDER: nat := 15

  /** Pages below the physical address 2^32. */
  const PAGES_4G: nat := 1048576

  /** No frame of the next order would be aligned and end inside the zone. */
  ghost predicate Greedy(r: Root, end: nat)
  {
    r.order == MAX_ORDER || !Multiple(r.base, Pow2(r.order + 1)) || r.base + Pow2(r.order + 1) > end
  }

  ghost predicate AllFree(f: seq<Root>)
  {
    forall r :: r in f ==> r.frame == Free
  }

  /** The root frames from index `from` on start in the range, each as large as it may be. */
  ghost predicate GreedyFrom(f: seq<Root>, from: nat, start: nat, end: nat)
  {
    forall i :: from <= i < |f| ==> start <= f[i].base < end && Greedy(f[i], end)
  }

  ghost predicate GreedyIn(r: Root, zones: seq<(nat, nat)>)
  {
    exists z :: z in zones && z.0 <= r.base < z.1 && Greedy(r, z.1)
  }

  /** The order of the root frame at page `p` of a zone ending at `end`. */
  method RootOrder(p: nat, end: nat) returns (ord: nat)
    requires p < end
    ensures ord <= MAX_ORDER && Multiple(p, Pow2(ord)) && p + Pow2(ord) <= end
    ensures Greedy(Root(p, ord, Free), end)
  {
    if p > 0 {
      TrailingZerosDivide(p);
    }
    ord := if p == 0 || TrailingZeros(p) > MAX_ORDER then MAX_ORDER else TrailingZeros(p);
    ghost var largest := ord;
    if p == 0 { assert Times(0, Pow2(ord)) == 0; } else { MultipleOfSmaller(p, ord, TrailingZeros(p)); }
    while p + Pow2(ord) > end
      invariant ord <= largest && Multiple(p, Pow2(ord))
      invariant ord < largest ==> p + Pow2(ord + 1) > end
    {
      MultipleOfHalf(p, Pow2(ord - 1));
      ord := ord - 1;
    }
  }

  class BuddyAllocator {
    const pages: array<Page>
    /** `bitmap[k, p]`: the bit of the pair of order-`k` buddies whose left one starts at page `p`. */
    const bitmap: array2<bool>
    const free: L.PageLists
    /** The root frames as they are divided now. */
    ghost var roots: seq<Root>

    ghost predicate Shape()
      reads this, bitmap, free, free.next, free.prev, free.first
    {
      && bitmap.Length0 == MAX_ORDER + 1 && bitmap.Length1 == pages.Length
      && free.Valid() && free.next.Length == pages.Length
      && WellFormed(roots, pages.Length)
    }

    /** Every object the allocator changes. */
    ghost function Repr(): set<object>
    {
      {this, pages, bitmap, free, free.next, free.prev, free.first}
    }

    /** The set bits. */
    ghost function Ones(): set<(nat, nat)>
      reads bitmap
    {
      set k: nat, p: nat | k < bitmap.Length0 && p < bitmap.Length1 && bitmap[k, p] :: (k, p)
    }

    ghost predicate Consistent()
      reads this, pages, bitmap, free, free.next, free.prev, free.first
    {
      && Shape()
      && PagesOK(pages[..], roots) && BitsOK(Ones(), roots) && ListsOK(free.lists, roots)
    }

    /** Between calls no two buddies are both whole and free. */
    ghost predicate Valid()
      reads this, pages, bitmap, free, free.next, free.prev, free.first
    {
      Consistent() && AllReduced(roots)
    }

    // ---------- initialisation ----------

    /** The zones, as half-open ranges of page numbers not used by the boot loader. */
    constructor (size: nat, zones: seq<(nat, nat)>)
      requires forall z :: z in zones ==> z.0 <= z.1 <= size
      requires forall i, j :: 0 <= i < j < |zones| ==> zones[i].1 <= zones[j].0 || zones[j].1 <= zones[i].0
      ensures Valid() && pages.Length == size
      ensures AllFree(roots)
      ensures forall p: nat :: Managed(roots, p) <==> exists z :: z in zones && z.0 <= p < z.1
      ensures forall r :: r in roots ==> GreedyIn(r, zones)
    {
      pages := new Page[size](_ => Page(0, 0, false, false));
      bitmap := new bool[MAX_ORDER + 1, size]((_, _) => false);
      free := new L.PageLists(size);
      roots := [];
      new;
      LayZones(zones);
    }

    /** The loop over the zones. */
    method LayZones(zones: seq<(nat, nat)>)
      requires Valid() && roots == []
      requires forall z :: z in zones ==> z.0 <= z.1 <= pages.Length
      requires forall i, j :: 0 <= i < j < |zones| ==> zones[i].1 <= zones[j].0 || zones[j].1 <= zones[i].0
      modifies this`roots, pages, free`lists, free.next, free.prev, free.first
      ensures Valid() && AllFree(roots)
      ensures forall p: nat :: Managed(roots, p) <==> exists z :: z in zones && z.0 <= p < z.1
      ensures forall r :: r in roots ==> GreedyIn(r, zones)
    {
      hide Valid, GreedyIn, GreedyFrom;
      for i := 0 to |zones|
        invariant Valid() && AllFree(roots)
        invariant forall p: nat :: Managed(roots, p) <==> exists j :: 0 <= j < i && zones[j].0 <= p < zones[j].1
        invariant forall r :: r in roots ==> GreedyIn(r, zones)
      {
        ghost var before := roots;
        LayDown(zones[i].0, zones[i].1);
        AllGreedy(before, roots, zones, zones[i]);
      }
    }

    lemma AllGreedy(f: seq<Root>, g: seq<Root>, zones: seq<(nat, nat)>, z: (nat, nat))
      requires f <= g && z in zones && GreedyFrom(g, |f|, z.0, z.1)
      requires forall r :: r in f ==> GreedyIn(r, zones)
      ensures forall r :: r in g ==> GreedyIn(r, zones)
    {
      hide Greedy;
      forall r | r in g ensures GreedyIn(r, zones) {
        var k :| 0 <= k < |g| && g[k] == r;
        if k < |f| { assert f[k] == r; }
      }
    }

    /** Covers the pages from `pgPos` to `end` with root frames, each as large as alignment,
        the maximal order and the end of the zone allow. */
    method LayDown(start: nat, end: nat)
      requires Valid() && start <= end <= pages.Length
      requires forall p: nat :: start <= p < end ==> !Managed(roots, p)
      requires AllFree(roots)
      modifies this`roots, pages, free`lists, free.next, free.prev, free.first
      ensures Valid()
      ensures AllFree(roots)
      ensures forall p: nat :: Managed(roots, p) <==> old(Managed(roots, p)) || start <= p < end
      ensures old(roots) <= roots
      ensures GreedyFrom(roots, |old(roots)|, start, end)
    {
      hide Valid, Managed, Fresh, Greedy, Multiple, Pow2;
      var pgPos := start;
      while pgPos < end
        invariant Valid() && start <= pgPos <= end && old(roots) <= roots
        invariant AllFree(roots)
        invariant forall p: nat :: Managed(roots, p) <==> old(Managed(roots, p)) || start <= p < pgPos
        invariant GreedyFrom(roots, |old(roots)|, start, end)
      {
        var ord := RootOrder(pgPos, end);
        RootFresh(pgPos, ord);
        LayOne(pgPos, ord);
        pgPos := pgPos + Pow2(ord);
      }
    }

    lemma RootFresh(p: nat, ord: nat)
      requires Valid() && ord <= MAX_ORDER && Multiple(p, Pow2(ord)) && p + Pow2(ord) <= pages.Length
      requires forall q: nat :: p <= q < p + Pow2(ord) ==> !Managed(roots, q)
      ensures Fresh(roots, Root(p, ord, Free), pages.Length)
    {
      hide Managed, Multiple;
    }

    method LayOne(pgPos: nat, ord: nat)
      requires Valid() && Fresh(roots, Root(pgPos, ord, Free), pages.Length)
      modifies this`roots, pages, free`lists, free.next, free.prev, free.first
      ensures Valid() && roots == old(roots) + [Root(pgPos, ord, Free)]
      ensures forall p: nat :: Managed(roots, p) <==> old(Managed(roots, p)) || pgPos <= p < pgPos + Pow2(ord)
    {
      var pg := Page(ord, 1, true, false);
      ghost var r := Root(pgPos, ord, Free);
      AppendRoot(pages[..], Ones(), free.lists, roots, r, pg);
      forall p: nat ensures Managed(roots + [r], p) <==> Managed(roots, p) || InRoot(r, p) {
        AppendManaged(roots, r, p);
      }
      AppendWellFormed(roots, r, pages.Length);
      pages[pgPos] := pg;
      free.Insert(ord, pgPos);
      roots := roots + [r];
    }

    // ---------- the bitmap ----------

    function Pos(p: nat): int
      reads pages
      requires p < pages.Length
    {
      if pages[p].buddyId % 2 == 1 then p - Pow2(pages[p].order) else p
    }

    lemma PairPos(i: nat, c: Path, t: Frame)
      requires Shape() && HasWhole(roots, pages.Length, i, c, t) && PagesOK(pages[..], roots)
      ensures var p := Base(roots, i, c);
              && p < pages.Length && pages[p].order == Order(roots, i, c) <= MAX_ORDER
              && (pages[p].buddyId == 1 <==> c.Top?)
              && (!c.Top? ==> Pos(p) == Base(roots, i, c.up) < bitmap.Length1)
    {
      WholeHead(pages[..], roots, i, c, t);
      HoleInRoot(roots, pages.Length, i, c);
      IdParity(c);
      if !c.Top? {
        HoleInRoot(roots, pages.Length, i, c.up);
      }
    }

    method GetBit(p: nat, ghost i: nat, ghost c: Path, ghost t: Frame) returns (bit: bool)
      requires Shape() && HasWhole(roots, pages.Length, i, c, t) && PagesOK(pages[..], roots)
      requires p == Base(roots, i, c)
      ensures bit <==> c.Top? || PairBit(c, roots[i].base, roots[i].order) in Ones()
    {
      PairPos(i, c, t);
      if pages[p].buddyId == 1 { return true; }
      bit := bitmap[pages[p].order, Pos(p)];
    }

    method RevBit(p: nat, ghost i: nat, ghost c: Path, ghost t: Frame)
      requires Shape() && HasWhole(roots, pages.Length, i, c, t) && PagesOK(pages[..], roots)
      requires p == Base(roots, i, c)
      modifies bitmap
      ensures Ones() == Flipped(old(Ones()), roots, i, c)
    {
      PairPos(i, c, t);
      if pages[p].buddyId == 1 { return; }
      var ord, pos := pages[p].order, Pos(p);
      bitmap[ord, pos] := !bitmap[ord, pos];
    }

    // ---------- allocation ----------

    /** Takes the whole free frame at `p` off its list. */
    method Take(k: nat, p: nat, ghost i: nat, ghost c: Path)
      requires Consistent() && HasWhole(roots, pages.Length, i, c, Free)
      requires Base(roots, i, c) == p && Order(roots, i, c) == k
      modifies this`roots, bitmap, free`lists, free.next, free.prev, free.first
      ensures Consistent() && roots == With(old(roots), i, c, Used) && HasWhole(roots, pages.Length, i, c, Used)
    {
      ghost var f := roots;
      HoleInRoot(f, pages.Length, i, c);
      InList(free.lists, f, pages.Length, i, c, Free, k);
      ghost var at :| 0 <= at < |free.lists[k]| && free.lists[k][at] == p;
      free.MembersOnce(k);
      RemoveList(free.lists, f, pages.Length, i, c, at);
      MarkOnes(Ones(), f, pages.Length, i, c, Free, Used);
      MarkPages(pages[..], f, i, c, Free, Used);
      free.Remove(k, p, at);
      RevBit(p, i, c, Free);
      roots := With(f, i, c, Used);
    }

    /** Rewrites the descriptors of both halves; `attr` is what the right one inherits. */
    method HalveDescriptors(page: nat, attr: Page, ghost i: nat, ghost c: Path, ghost right: Frame) returns (rPage: nat)
      requires Shape() && HasWhole(roots, pages.Length, i, c, Used) && PagesOK(pages[..], roots)
      requires Order(roots, i, c) > 0 && page == Base(roots, i, c) && !right.Split?
      modifies pages
      ensures PagesOK(pages[..], With(roots, i, c, Split(Used, right)))
      ensures rPage == page + Pow2(Order(roots, i, c) - 1) < page + Pow2(Order(roots, i, c)) <= pages.Length
      ensures page < pages.Length && pages[rPage].shared == attr.shared && pages[page].shared == old(pages[page].shared)
      ensures forall q: nat :: q < pages.Length && q != page && q != rPage ==> pages[q] == old(pages[q])
    {
      hide PagesOK, Plug, Fits, CoverAt, L.Linked;
      WholeHead(pages[..], roots, i, c, Used);
      HoleInRoot(roots, pages.Length, i, c);
      var ord := pages[page].order;
      assert Pow2(ord) == 2 * Pow2(ord - 1);
      rPage := page + Pow2(ord - 1);
      ghost var before := pages[..];
      var id := pages[page].buddyId;
      pages[rPage] := attr.(order := ord - 1, buddyId := 2 * id + 1, head := true);
      pages[page] := pages[page].(order := ord - 1, buddyId := 2 * id);
      SplitPages(before, pages[..], roots, i, c, right);
    }

    method ListRightHalf(k: nat, rPage: nat, ghost i: nat, ghost c: Path)
      requires Shape() && HasWhole(roots, pages.Length, i, c, Used) && Order(roots, i, c) == k + 1
      requires ListsOK(free.lists, roots) && rPage == Base(roots, i, c) + Pow2(k)
      modifies free`lists, free.next, free.prev, free.first
      ensures Shape() && ListsOK(free.lists, With(roots, i, c, Split(Used, Free)))
    {
      hide ListsOK, L.OneLinked, L.Disjoint, Pow2, Plug, HoleBase, PathFits, Fits;
      HoleInRoot(roots, pages.Length, i, c);
      RightHalfUnlisted(free.lists, roots, pages.Length, i, c);
      ghost var lists := free.lists;
      free.Insert(k, rPage);
      SplitLists(lists, free.lists, roots, pages.Length, i, c, Free);
    }

    /** One round of `_divPageFrame`: the right half of an allocated frame becomes free. */
    method Halve(page: nat, ghost i: nat, ghost c: Path)
      requires Consistent() && HasWhole(roots, pages.Length, i, c, Used) && Order(roots, i, c) > 0
      requires page == Base(roots, i, c)
      modifies this`roots, pages, bitmap, free`lists, free.next, free.prev, free.first
      ensures Consistent() && roots == With(old(roots), i, InL(c, Free), Used)
      ensures HasWhole(roots, pages.Length, i, InL(c, Free), Used)
      ensures forall q: nat :: q < pages.Length && !InRange(q, page, Order(old(roots), i, c)) ==>
                pages[q] == old(pages[q])
    {
      hide PagesOK, ListsOK, Fits, HoleBase, L.OneLinked, L.Disjoint;
      ghost var ones, bit := Ones(), (Order(roots, i, c) - 1, Base(roots, i, c));
      SplitOnes(ones, roots, pages.Length, i, c, Free);
      RightHalf(roots, pages.Length, i, c, Free);
      HoleInRoot(roots, pages.Length, i, c);
      WholeHead(pages[..], roots, i, c, Used);
      var ord := pages[page].order;
      assert Pow2(ord) == 2 * Pow2(ord - 1);
      var rPage := HalveDescriptors(page, pages[page + Pow2(ord - 1)], i, c, Free);
      ListRightHalf(ord - 1, rPage, i, c);
      roots := With(roots, i, InL(c, Free), Used);
      RevBit(rPage, i, InR(c, Used), Free);
      assert Ones() == ones + {bit};
    }

    /** `_divPageFrame`: halves the frame at `page` down to order `to`. */
    method DivPageFrame(page: nat, to: nat, ghost i: nat, ghost c0: Path) returns (ghost c: Path)
      requires Consistent() && HasWhole(roots, pages.Length, i, c0, Used) && to <= Order(roots, i, c0)
      requires page == Base(roots, i, c0) && PathReduced(c0, false)
      modifies this`roots, pages, bitmap, free`lists, free.next, free.prev, free.first
      ensures Consistent() && i < |old(roots)| && roots == With(old(roots), i, c, Used)
      ensures HasWhole(roots, pages.Length, i, c, Used)
      ensures Order(roots, i, c) == to && Base(roots, i, c) == page && PathReduced(c, false)
      ensures PathAllocated(c, roots[i].base, roots[i].order) == PathAllocated(c0, roots[i].base, roots[i].order)
      ensures forall q: nat :: q < pages.Length && !InRange(q, page, Order(old(roots), i, c0)) ==>
                pages[q] == old(pages[q])
    {
      hide Pow2, Fits, CoverAt, BitsOK, ListsOK, PagesOK;
      c := c0;
      ghost var o := Order(roots, i, c0);
      WholeHead(pages[..], roots, i, c, Used);
      while pages[page].order > to
        invariant Consistent() && HasWhole(roots, pages.Length, i, c, Used) && roots == With(old(roots), i, c, Used)
        invariant to <= Order(roots, i, c) <= o && Base(roots, i, c) == page && PathReduced(c, false)
        invariant page < pages.Length && pages[page].order == Order(roots, i, c)
        invariant PathAllocated(c, roots[i].base, roots[i].order) == PathAllocated(c0, roots[i].base, roots[i].order)
        invariant forall q: nat :: q < pages.Length && !InRange(q, page, o) ==> pages[q] == old(pages[q])
        decreases Order(roots, i, c)
      {
        Pow2Mono(Order(roots, i, c), o);
        Halve(page, i, c);
        c := InL(c, Free);
        WholeHead(pages[..], roots, i, c, Used);
      }
    }

    /** Allocates `2^to` pages at the head of the whole free frame at `page`. */
    method Carve(page: nat, k: nat, to: nat, shared: bool)
      requires Valid() && to <= k && IsFree(roots, k, page)
      modifies this`roots, pages, bitmap, free`lists, free.next, free.prev, free.first
      ensures Valid() && Gained(old(roots), roots, to, page)
      ensures page + Pow2(to) <= pages.Length && Multiple(page, Pow2(to)) && pages[page].shared == shared
      ensures Untouched(old(pages[..]), pages[..], old(roots), page)
    {
      ghost var i, c := WholeFree(roots, pages.Length, k, page);
      PlugReduced(c, Free);
      ghost var c' := CarveHole(page, k, to, i, c);
      WholeHead(pages[..], roots, i, c', Used);
      SetShared(page, shared);
    }

    method CarveHole(page: nat, k: nat, to: nat, ghost i: nat, ghost c: Path) returns (ghost c': Path)
      requires Valid() && to <= k && HasWhole(roots, pages.Length, i, c, Free)
      requires Base(roots, i, c) == page && Order(roots, i, c) == k && PathReduced(c, false)
      modifies this`roots, pages, bitmap, free`lists, free.next, free.prev, free.first
      ensures Valid() && Gained(old(roots), roots, to, page)
      ensures HasWhole(roots, pages.Length, i, c', Used) && Base(roots, i, c') == page && Order(roots, i, c') == to
      ensures page + Pow2(to) <= pages.Length && Multiple(page, Pow2(to))
      ensures Untouched(old(pages[..]), pages[..], old(roots), page)
    {
      hide PagesOK, BitsOK, ListsOK, Pow2, Fits, HoleBase, Multiple, AllReduced;
      ghost var f := roots;
      Take(k, page, i, c);
      c' := DivPageFrame(page, to, i, c);
      CarvedValue(f, pages.Length, i, c, c');
      assert roots == With(f, i, c', Used);
      forall k: nat, p: nat | IsAllocated(f, k, p) && p < pages.Length && p != page ensures pages[p] == old(pages[p]) {
        NoneInFree(f, pages.Length, i, c, k, p);
      }
    }

    /** The part of `attr` that does not describe the frame. */
    method SetShared(page: nat, shared: bool)
      requires Valid() && page < pages.Length && pages[page].head
      modifies pages
      ensures Valid() && pages[..] == old(pages[..])[page := old(pages[page]).(shared := shared)]
    {
      pages[page] := pages[page].(shared := shared, head := true);
    }

    /** The descriptors of allocated frames other than the one at `page` stay as they were. */
    ghost predicate Untouched(before: seq<Page>, after: seq<Page>, f: seq<Root>, page: nat)
    {
      |before| == |after| && forall k: nat, p: nat :: IsAllocated(f, k, p) && p < |before| && p != page ==>
          after[p] == before[p]
    }

    lemma CarvedValue(f: seq<Root>, n: nat, i: nat, c: Path, c': Path)
      requires HasWhole(f, n, i, c, Free) && AllReduced(f) && PathFits(c', f[i].order) && PathReduced(c', false)
      requires PathAllocated(c', f[i].base, f[i].order) == PathAllocated(c, f[i].base, f[i].order)
      ensures Gained(f, With(f, i, c', Used), Order(f, i, c'), Base(f, i, c'))
      ensures AllReduced(With(f, i, c', Used))
      ensures Multiple(Base(f, i, c'), Pow2(Order(f, i, c'))) && Base(f, i, c') + Pow2(Order(f, i, c')) <= n
    {
      GainedByTaking(f, n, i, c, c');
      PlugReduced(c', Used);
      assert RootOK(f[i], n);
      HoleAligned(c', f[i].base, f[i].order);
      HoleInside(c', f[i].base, f[i].order);
    }

    /** `MM_Buddy_alloc`, without the usage record; -1 stands for NULL. */
    method Alloc(log2Size: nat, shared: bool) returns (page: int)
      requires Valid()
      modifies this`roots, pages, bitmap, free`lists, free.next, free.prev, free.first
      ensures Valid() && -1 <= page
      ensures page == -1 <==> forall k: nat, p: nat :: log2Size <= k <= MAX_ORDER ==> !IsFree(old(roots), k, p)
      ensures page == -1 ==> roots == old(roots) && pages[..] == old(pages[..])
      ensures page >= 0 ==> Gained(old(roots), roots, log2Size, page) && BestFit(old(roots), log2Size, page)
      ensures page >= 0 ==>
                page + Pow2(log2Size) <= pages.Length && Multiple(page, Pow2(log2Size)) && pages[page].shared == shared
      ensures page >= 0 ==> Untouched(old(pages[..]), pages[..], old(roots), page)
    {
      var ord;
      page, ord := LeastSufficient(log2Size);
      if page != -1 {
        Carve(page, ord, log2Size, shared);
        assert BestFit(old(roots), log2Size, page);
      }
    }

    /** The loop over the free lists from order `log2Size` up. */
    method LeastSufficient(log2Size: nat) returns (page: int, ord: nat)
      requires Valid()
      ensures -1 <= page
      ensures page == -1 ==> forall k: nat, p: nat :: log2Size <= k <= MAX_ORDER ==> !IsFree(roots, k, p)
      ensures page != -1 ==> log2Size <= ord <= MAX_ORDER && IsFree(roots, ord, page)
      ensures page != -1 ==> forall k: nat, p: nat :: log2Size <= k < ord ==> !IsFree(roots, k, p)
    {
      ord := log2Size;
      while ord <= MAX_ORDER
        invariant forall k: nat, p: nat :: log2Size <= k < ord && k <= MAX_ORDER ==> !IsFree(roots, k, p)
      {
        page := free.First(ord);
        if page != -1 {
          FreeInList(free.lists, roots, ord, page);
          return;
        }
        forall p: nat ensures !IsFree(roots, ord, p) { FreeInList(free.lists, roots, ord, p); }
        ord := ord + 1;
      }
      page := -1;
    }

    /** The frame was cut off a free frame of the least sufficient order. */
    ghost predicate BestFit(f: seq<Root>, log2Size: nat, page: nat)
    {
      exists k: nat :: log2Size <= k <= MAX_ORDER && IsFree(f, k, page)
                    && forall j: nat, p: nat :: log2Size <= j < k ==> !IsFree(f, j, p)
    }

    // ---------- freeing ----------

    method GetBuddy(p: nat, ghost i: nat, ghost c: Path) returns (buddy: nat)
      requires Shape() && CanMerge(roots, pages.Length, i, c) && PagesOK(pages[..], roots)
      requires p == Base(roots, i, c)
      ensures buddy == Base(roots, i, BuddyPath(c, Used))
    {
      IdParity(c);
      WholeHead(pages[..], roots, i, c, Used);
      BuddyIsWhole(roots, pages.Length, i, c);
      hide HoleId, PagesOK, WellFormed, Fits, PathFits;
      buddy := if pages[p].buddyId % 2 == 0 then p + Pow2(pages[p].order) else p - Pow2(pages[p].order);
    }

    /** The state inside `MM_Buddy_free`: the frame in the hole is the one being freed. */
    ghost predicate Freeing(page: nat, i: nat, c: Path)
      reads this, pages, bitmap, free, free.next, free.prev, free.first
    {
      && Consistent() && HasWhole(roots, pages.Length, i, c, Used)
      && Base(roots, i, c) == page && PathReduced(c, false) && page < pages.Length
    }

    /** Merges the frame at `page` with its free buddy. */
    method Merge(page: nat, buddy: nat, ghost i: nat, ghost c: Path) returns (lChild: nat)
      requires Shape() && CanMerge(roots, pages.Length, i, c) && Base(roots, i, c) == page
      requires PagesOK(pages[..], roots) && ListsOK(free.lists, roots) && BitsOK(Ones(), With(roots, i, c, Free))
      requires buddy == Base(roots, i, BuddyPath(c, Used))
      modifies this`roots, pages, free`lists, free.next, free.prev, free.first
      ensures Consistent() && i < |old(roots)| && roots == With(old(roots), i, c.up, Used)
      ensures HasWhole(roots, pages.Length, i, c.up, Used) && Base(roots, i, c.up) == lChild < pages.Length
      ensures forall q: nat :: q < pages.Length && !InRange(q, lChild, Order(roots, i, c.up)) ==>
                pages[q] == old(pages[q])
      ensures NoneShared(old(pages[..]))
    {
      MergeSides(pages[..], roots, i, c);
      MergeOnes(Ones(), roots, pages.Length, i, c);
      Unlist(pages[page].order, buddy, i, c);
      lChild := MergeDescriptors(page, buddy, i, c);
      roots := With(roots, i, c.up, Used);
    }

    method Unlist(ord: nat, buddy: nat, ghost i: nat, ghost c: Path)
      requires Shape() && CanMerge(roots, pages.Length, i, c) && Order(roots, i, c) == ord
      requires ListsOK(free.lists, roots) && buddy == Base(roots, i, BuddyPath(c, Used))
      modifies free`lists, free.next, free.prev, free.first
      ensures Shape() && ListsOK(free.lists, With(roots, i, c.up, Used))
    {
      ghost var n, b := pages.Length, BuddyPath(c, Used);
      BuddyIsWhole(roots, n, i, c);
      HoleInRoot(roots, n, i, c);
      InList(free.lists, roots, n, i, b, Free, ord);
      ghost var lists := free.lists;
      ghost var at :| 0 <= at < |lists[ord]| && lists[ord][at] == buddy;
      free.MembersOnce(ord);
      RemoveList(lists, roots, n, i, b, at);
      free.Remove(ord, buddy, at);
      MergeLists(free.lists, roots, n, i, c);
    }

    /** No descriptor has become a shared one's. */
    ghost predicate NoneShared(before: seq<Page>)
      reads pages
    {
      |before| == pages.Length && forall q :: 0 <= q < pages.Length && pages[q].shared ==> before[q].shared
    }

    method MergeDescriptors(page: nat, buddy: nat, ghost i: nat, ghost c: Path) returns (lChild: nat)
      requires Shape() && CanMerge(roots, pages.Length, i, c) && Base(roots, i, c) == page
      requires PagesOK(pages[..], roots) && buddy == Base(roots, i, BuddyPath(c, Used))
      modifies pages
      ensures PagesOK(pages[..], With(roots, i, c.up, Used))
      ensures HasWhole(With(roots, i, c.up, Used), pages.Length, i, c.up, Used) && lChild == Base(roots, i, c.up)
      ensures forall q: nat :: q < pages.Length && !InRange(q, lChild, Order(roots, i, c.up)) ==>
                pages[q] == old(pages[q])
      ensures NoneShared(old(pages[..]))
    {
      MergeSides(pages[..], roots, i, c);
      ghost var before := pages[..];
      var ord := pages[page].order;
      var right := pages[page].buddyId % 2 == 1;
      var rChild := if right then page else buddy;
      lChild := if right then buddy else page;
      var id := pages[lChild].buddyId / 2;
      pages[rChild] := Page(0, 0, false, false);
      pages[lChild] := Page(ord + 1, id, true, false);
      MergePages(before, pages[..], roots, i, c);
    }

    /** Turns the pair's bit and reads it: clear just when there is a whole free buddy. */
    method TurnBit(page: nat, ghost i: nat, ghost c: Path) returns (bit: bool)
      requires Freeing(page, i, c)
      modifies bitmap
      ensures BitsOK(Ones(), With(roots, i, c, Free))
      ensures bit <==> c.Top? || !c.sib.Free?
    {
      MarkOnes(Ones(), roots, pages.Length, i, c, Used, Free);
      RevBit(page, i, c, Used);
      bit := GetBit(page, i, c, Used);
    }

    lemma MergedRange(i: nat, c: Path)
      requires CanMerge(roots, pages.Length, i, c)
      ensures forall q: nat :: InRange(q, Base(roots, i, c), Order(roots, i, c)) ==>
                InRange(q, Base(roots, i, c.up), Order(roots, i, c.up))
    {
      BuddyIsWhole(roots, pages.Length, i, c);
      assert Pow2(Order(roots, i, c.up)) == 2 * Pow2(Order(roots, i, c));
    }

    /** The merging loop: the frame at `page`, as large as it can become. */
    method Coalesce(page: nat, ghost i: nat, ghost c0: Path) returns (head: nat, ghost c: Path)
      requires Freeing(page, i, c0)
      modifies this`roots, pages, bitmap, free`lists, free.next, free.prev, free.first
      ensures Shape() && HasWhole(roots, pages.Length, i, c, Used) && Base(roots, i, c) == head
      ensures PagesOK(pages[..], roots) && ListsOK(free.lists, roots) && BitsOK(Ones(), With(roots, i, c, Free))
      ensures i < |old(roots)| && roots == With(old(roots), i, c, Used) && PathReduced(c, true)
      ensures PathAllocated(c, roots[i].base, roots[i].order) == PathAllocated(c0, roots[i].base, roots[i].order)
      ensures forall q: nat :: q < pages.Length && !InRange(q, head, Order(roots, i, c)) ==> pages[q] == old(pages[q])
      ensures NoneShared(old(pages[..]))
    {
      head, c := page, c0;
      while true
        invariant Freeing(head, i, c)
        invariant i < |old(roots)| && roots == With(old(roots), i, c, Used)
        invariant PathAllocated(c, roots[i].base, roots[i].order) == PathAllocated(c0, roots[i].base, roots[i].order)
        invariant forall q: nat :: q < pages.Length && !InRange(q, head, Order(roots, i, c)) ==>
                  pages[q] == old(pages[q])
        invariant NoneShared(old(pages[..]))
        decreases Depth(c)
      {
        var bit := TurnBit(head, i, c);
        if bit { break; }
        var buddy := GetBuddy(head, i, c);
        MergedRange(i, c);
        head := Merge(head, buddy, i, c);
        c := c.up;
      }
    }

    /** `MM_Buddy_free`, without the usage record; -1 stands for NULL. */
    method FreePages(page: int)
      requires Valid() && -1 <= page < pages.Length
      requires page >= 0 && pages[page].head ==> IsAllocated(roots, pages[page].order, page)
      modifies this`roots, pages, bitmap, free`lists, free.next, free.prev, free.first
      ensures Valid()
      ensures page == -1 || !old(pages[..])[page].head ==> roots == old(roots) && pages[..] == old(pages[..])
      ensures page >= 0 && old(pages[..])[page].head ==>
                && Gained(roots, old(roots), old(pages[..])[page].order, page)
                && Untouched(old(pages[..]), pages[..], roots, page)
                && !pages[page].shared
    {
      if page == -1 || !pages[page].head { return; }
      FreeFrame(page);
    }

    method FreeFrame(page: nat)
      requires Valid() && page < pages.Length && pages[page].head && IsAllocated(roots, pages[page].order, page)
      modifies this`roots, pages, bitmap, free`lists, free.next, free.prev, free.first
      ensures Valid() && Gained(roots, old(roots), old(pages[..])[page].order, page)
      ensures Untouched(old(pages[..]), pages[..], roots, page)
      ensures !pages[page].shared
    {
      hide BitsOK, ListsOK, Pow2, Fits, HoleBase;
      ghost var i, c0 := WholeAllocated(roots, pages.Length, pages[page].order, page);
      PlugReduced(c0, Used);
      SetShared(page, false);
      var head;
      ghost var c;
      head, c := Coalesce(page, i, c0);
      ghost var f := roots;
      ListFreed(head, i, c);
      FreedValue(old(roots), f, i, c0, c);
      forall k: nat, p: nat | IsAllocated(roots, k, p) && p < pages.Length && p != page
        ensures pages[p] == old(pages[p])
      {
        NoneInFree(roots, pages.Length, i, c, k, p);
      }
    }

    /** The merged frame goes on its free list. */
    method ListFreed(head: nat, ghost i: nat, ghost c: Path)
      requires Shape() && HasWhole(roots, pages.Length, i, c, Used) && Base(roots, i, c) == head
      requires PagesOK(pages[..], roots) && ListsOK(free.lists, roots) && BitsOK(Ones(), With(roots, i, c, Free))
      modifies this`roots, free`lists, free.next, free.prev, free.first
      ensures Consistent() && i < |old(roots)| && roots == With(old(roots), i, c, Free)
      ensures HasWhole(roots, pages.Length, i, c, Free) && Base(roots, i, c) == head
    {
      ghost var n := pages.Length;
      WholeHead(pages[..], roots, i, c, Used);
      HoleInRoot(roots, n, i, c);
      forall j: nat | j < L.ORDERS ensures head !in free.lists[j] { InList(free.lists, roots, n, i, c, Used, j); }
      InsertList(free.lists, roots, n, i, c);
      MarkPages(pages[..], roots, i, c, Used, Free);
      free.Insert(pages[head].order, head);
      roots := With(roots, i, c, Free);
    }

    lemma FreedValue(f: seq<Root>, g: seq<Root>, i: nat, c0: Path, c: Path)
      requires HasWhole(f, pages.Length, i, c0, Used) && g == With(f, i, c, Used) && AllReduced(f)
      requires PathFits(c, f[i].order) && PathReduced(c, true)
      requires PathAllocated(c, f[i].base, f[i].order) == PathAllocated(c0, f[i].base, f[i].order)
      ensures Gained(With(g, i, c, Free), f, Order(f, i, c0), Base(f, i, c0)) && AllReduced(With(g, i, c, Free))
    {
      LostByFreeing(f, pages.Length, i, c0, c);
      PlugReduced(c, Free);
      assert With(g, i, c, Free) == With(f, i, c, Free);
    }

    // ---------- dividing an allocated frame ----------

    /** `MM_Buddy_divPageFrame`, without the usage record. */
    method DivideFrame(headPage: nat) returns (rPage: int)
      requires Valid() && headPage < pages.Length && pages[headPage].head
      requires IsAllocated(roots, pages[headPage].order, headPage)
      modifies this`roots, pages
      ensures Valid()
      ensures old(pages[headPage].order) == 0 ==> rPage == -1 && roots == old(roots) && pages[..] == old(pages[..])
      ensures old(pages[headPage].order) > 0 ==>
                && rPage == headPage + Pow2(old(pages[headPage].order) - 1) < pages.Length
                && Divided(old(roots), roots, old(pages[headPage].order), headPage)
                && pages[rPage].order == pages[headPage].order == old(pages[headPage].order) - 1
                && pages[rPage].shared == pages[headPage].shared == old(pages[headPage].shared)
      ensures old(pages[headPage].order) > 0 ==>
                forall q: nat :: q < pages.Length && q != headPage && q != rPage ==> pages[q] == old(pages[q])
    {
      hide PagesOK, BitsOK, ListsOK, Pow2, Fits, CoverAt;
      var ord := pages[headPage].order;
      if ord == 0 { return -1; }
      ghost var i, c := WholeAllocated(roots, pages.Length, ord, headPage);
      PlugReduced(c, Used);
      PlugReduced(c, Split(Used, Used));
      DividedBySplitting(roots, pages.Length, i, c);
      rPage := HalveAllocated(headPage, i, c);
    }

    /** Both halves of the frame at `headPage` stay allocated. */
    method HalveAllocated(headPage: nat, ghost i: nat, ghost c: Path) returns (rPage: nat)
      requires Consistent() && HasWhole(roots, pages.Length, i, c, Used) && Order(roots, i, c) > 0
      requires headPage == Base(roots, i, c)
      modifies this`roots, pages
      ensures Consistent() && roots == With(old(roots), i, c, Split(Used, Used))
      ensures rPage == headPage + Pow2(Order(old(roots), i, c) - 1) < pages.Length
      ensures pages[rPage].order == pages[headPage].order == Order(old(roots), i, c) - 1
      ensures pages[rPage].shared == pages[headPage].shared == old(pages[headPage].shared)
      ensures forall q: nat :: q < pages.Length && q != headPage && q != rPage ==> pages[q] == old(pages[q])
    {
      hide PagesOK, BitsOK, ListsOK, Plug, Fits, Pow2, CoverAt, L.OneLinked, L.Disjoint;
      WholeHead(pages[..], roots, i, c, Used);
      SplitOnes(Ones(), roots, pages.Length, i, c, Used);
      HoleInRoot(roots, pages.Length, i, c);
      SplitLists(free.lists, free.lists, roots, pages.Length, i, c, Used);
      RightHalf(roots, pages.Length, i, c, Used);
      rPage := HalveDescriptors(headPage, pages[headPage], i, c, Used);
      roots := With(roots, i, c, Split(Used, Used));
      WholeHead(pages[..], roots, i, InL(c, Used), Used);
      WholeHead(pages[..], roots, i, InR(c, Used), Used);
    }

    // ---------- allocation below four gigabytes ----------

    /** The walk round one free list for a frame that starts below page 2^20. */
    method FindBelow(ord: nat, headPage: nat) returns (page: nat)
      requires Valid() && ord <= MAX_ORDER && free.lists[ord] != [] && headPage == free.lists[ord][0]
      ensures page in free.lists[ord]
      ensures page >= PAGES_4G ==> forall p :: p in free.lists[ord] ==> p >= PAGES_4G
    {
      page := headPage;
      ghost var at: nat := 0;
      ghost var s := free.lists[ord];
      while page >= PAGES_4G
        invariant at < |s| && page == s[at]
        invariant forall j :: 0 <= j < at ==> s[j] >= PAGES_4G
        decreases |s| - at
      {
        page := free.Next(page, ord, at);
        free.MembersOnce(ord);
        if page == headPage { break; }
        at := at + 1;
      }
    }

    /** `MM_Buddy_alloc4G`, without the usage record. */
    method Alloc4G(log2Size: nat, shared: bool) returns (page: int)
      requires Valid()
      modifies this`roots, pages, bitmap, free`lists, free.next, free.prev, free.first
      ensures Valid() && -1 <= page
      ensures page == -1 <==> forall k: nat, p: nat :: log2Size <= k <= MAX_ORDER && p < PAGES_4G ==>
                !IsFree(old(roots), k, p)
      ensures page == -1 ==> roots == old(roots) && pages[..] == old(pages[..])
      ensures page >= 0 ==> Gained(old(roots), roots, log2Size, page)
      ensures page >= 0 ==> page + Pow2(log2Size) <= pages.Length && pages[page].shared == shared
      ensures page >= 0 ==> page + Pow2(log2Size) <= PAGES_4G
      ensures page >= 0 ==> Untouched(old(pages[..]), pages[..], old(roots), page)
    {
      var ord;
      page, ord := LeastBelow(log2Size);
      if page != -1 {
        Carve(page, ord, log2Size, shared);
        BelowEntirely(page, log2Size);
      }
    }

    method LeastBelow(log2Size: nat) returns (page: int, ord: nat)
      requires Valid()
      ensures -1 <= page
      ensures page == -1 ==>
                forall k: nat, p: nat :: log2Size <= k <= MAX_ORDER && p < PAGES_4G ==> !IsFree(roots, k, p)
      ensures page != -1 ==> log2Size <= ord <= MAX_ORDER && page < PAGES_4G && IsFree(roots, ord, page)
    {
      ord := log2Size;
      while ord <= MAX_ORDER
        invariant forall k: nat, p: nat :: log2Size <= k < ord && k <= MAX_ORDER && p < PAGES_4G ==>
                  !IsFree(roots, k, p)
      {
        forall p: nat ensures p in free.lists[ord] <==> IsFree(roots, ord, p) { FreeInList(free.lists, roots, ord, p); }
        page := free.First(ord);
        if page != -1 {
          page := FindBelow(ord, page);
          if page < PAGES_4G { return; }
        }
        ord := ord + 1;
      }
      page := -1;
    }

    /** A frame that starts below four gigabytes ends there: both are multiples of its size. */
    lemma BelowEntirely(page: nat, k: nat)
      requires page < PAGES_4G && k <= MAX_ORDER && Multiple(page, Pow2(k))
      ensures page + Pow2(k) <= PAGES_4G
    {
      Pow2Add(20 - k, k);
      Pow2Add(10, 10);
      assert Pow2(10) == 1024;
      assert Times(Pow2(20 - k), Pow2(k)) == PAGES_4G;
      RoomBelow(page, PAGES_4G, Pow2(k));
    }
  }
}
