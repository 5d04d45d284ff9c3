/** Several clients over one buddy allocator (kernel/memory/buddy.c): what a call of one of them means
    for the frames of the others. */
module Serving {
  import opened Powers
  import opened BuddyTree
  import opened BuddyForest

  // ---------- allocated frames are apart ----------

  /** No allocated frame starts inside another one. */
  lemma AllocatedApart(f: seq<Root>, n: nat, k: nat, p: nat, j: nat, q: nat)
    requires WellFormed(f, n) && IsAllocated(f, k, p) && IsAllocated(f, j, q) && InRange(q, p, k)
    ensures j == k && q == p
  {
    var i, c := WholeAllocated(f, n, k, p);
    var b :| 0 <= b < |f| && (j, q) in RootAllocated(f[b]);
    AllocatedInRange(f[b].frame, f[b].base, f[b].order, j, q);
    assert InRoot(f[b], q);
    HoleInside(c, f[i].base, f[i].order);
    assert InRoot(f[i], q);
    PlugAllocated(c, Used, f[i].base, f[i].order);
    if (j, q) in PathAllocated(c, f[i].base, f[i].order) {
      PathAllocatedOutside(c, f[i].base, f[i].order, j, q);
    }
  }

  lemma AllocatedHead(pages: seq<Page>, f: seq<Root>, k: nat, p: nat)
    requires WellFormed(f, |pages|) && PagesOK(pages, f) && IsAllocated(f, k, p)
    ensures p < |pages| && pages[p].head && pages[p].order == k
  {
    var i, c := WholeAllocated(f, |pages|, k, p);
    WholeHead(pages, f, i, c, Used);
  }

  // ---------- what a client may do ----------

  ghost predicate Heads(f: seq<Root>, p: int)
  {
    p >= 0 && exists k: nat :: IsAllocated(f, k, p)
  }

  /** A client that had the frames `own` has the frames `own'` now: all other allocated frames are still
      allocated with their descriptors, and what it has got was nobody's. */
  ghost predicate Served(f: seq<Root>, pages: seq<Page>, g: seq<Root>, pages': seq<Page>, own: set<int>, own': set<int>)
  {
    && |pages'| == |pages|
    && (forall k: nat, p: nat :: IsAllocated(f, k, p) && p !in own ==>
          IsAllocated(g, k, p) && p < |pages| && pages'[p] == pages[p])
    && (forall p :: p in own' ==> p in own || !Heads(f, p))
  }

  lemma ServedNot(f: seq<Root>, pages: seq<Page>, own: set<int>)
    requires WellFormed(f, |pages|) && PagesOK(pages, f)
    ensures Served(f, pages, f, pages, own, own)
  {
    forall k: nat, p: nat | IsAllocated(f, k, p) ensures p < |pages| {
      AllocatedHead(pages, f, k, p);
    }
  }

  lemma ServedTwice(f: seq<Root>, pages: seq<Page>, g: seq<Root>, pages': seq<Page>, h: seq<Root>, pages'': seq<Page>,
                    a: set<int>, b: set<int>, c: set<int>)
    requires Served(f, pages, g, pages', a, b) && Served(g, pages', h, pages'', b, c)
    ensures Served(f, pages, h, pages'', a, c)
  {
    hide IsAllocated;
    forall k: nat, p: nat | IsAllocated(f, k, p) && p !in a
      ensures IsAllocated(h, k, p) && p < |pages| && pages''[p] == pages[p]
    {
      assert Heads(f, p);
    }
  }

  /** A client may have more frames than those concerned. */
  lemma ServedWider(f: seq<Root>, pages: seq<Page>, g: seq<Root>, pages': seq<Page>, a: set<int>, b: set<int>,
                    own: set<int>, own': set<int>)
    requires Served(f, pages, g, pages', a, b) && a <= own && own' <= b + own
    ensures Served(f, pages, g, pages', own, own')
  {
  }

  lemma ServedGain(f: seq<Root>, pages: seq<Page>, g: seq<Root>, pages': seq<Page>, k: nat, r: nat)
    requires WellFormed(f, |pages|) && PagesOK(pages, f) && WellFormed(g, |pages'|) && |pages'| == |pages|
    requires Gained(f, g, k, r)
    requires forall j: nat, q: nat :: IsAllocated(f, j, q) && q < |pages| && q != r ==> pages'[q] == pages[q]
    ensures Served(f, pages, g, pages', {}, {r})
  {
    hide WellFormed, PagesOK, IsAllocated, SameRoots;
    forall j: nat, q: nat | IsAllocated(f, j, q) ensures q != r && IsAllocated(g, j, q) && q < |pages| {
      AllocatedHead(pages, f, j, q);
      assert IsAllocated(g, j, q) && IsAllocated(g, k, r);
      if q == r { AllocatedApart(g, |pages|, k, r, j, q); }
    }
  }

  lemma ServedLoss(f: seq<Root>, pages: seq<Page>, g: seq<Root>, pages': seq<Page>, k: nat, r: nat)
    requires WellFormed(f, |pages|) && PagesOK(pages, f) && |pages'| == |pages| && Gained(g, f, k, r)
    requires forall j: nat, q: nat :: IsAllocated(g, j, q) && q < |pages| && q != r ==> pages'[q] == pages[q]
    ensures Served(f, pages, g, pages', {r}, {})
  {
    hide WellFormed, PagesOK, IsAllocated, SameRoots;
    forall j: nat, q: nat | IsAllocated(f, j, q) && q != r ensures IsAllocated(g, j, q) && q < |pages| {
      AllocatedHead(pages, f, j, q);
    }
  }

  lemma ServedDivide(f: seq<Root>, pages: seq<Page>, g: seq<Root>, pages': seq<Page>, k: nat, p: nat)
    requires WellFormed(f, |pages|) && PagesOK(pages, f) && |pages'| == |pages| && Divided(f, g, k, p)
    requires forall q: nat :: q < |pages| && q != p && q != p + Pow2(k - 1) ==> pages'[q] == pages[q]
    ensures Served(f, pages, g, pages', {p}, {p, p + Pow2(k - 1)})
  {
    hide WellFormed, PagesOK, IsAllocated, SameRoots;
    var r := p + Pow2(k - 1);
    Pow2Double(k - 1);
    forall j: nat, q: nat | IsAllocated(f, j, q) && q != p ensures q != r && IsAllocated(g, j, q) && q < |pages| {
      AllocatedHead(pages, f, j, q);
      if q == r { AllocatedApart(f, |pages|, k, p, j, q); }
    }
  }
}
