/** The value the buddy allocator keeps: a binary tree over each root frame that initialisation
    laid down. Descriptors, bitmap and free lists are all read off this tree. */
module BuddyTree {
  import opened Powers

  /** A frame is whole and free, whole and allocated, or split into two buddies. */
  datatype Frame = Free | Used | Split(left: Frame, right: Frame)

  /** A tree with a hole; `sib` is the buddy of the hole. */
  datatype Path = Top | InL(up: Path, sib: Frame) | InR(up: Path, sib: Frame)

  /** The frame of `2^order` pages from page `base` on that initialisation made. */
  datatype Root = Root(base: nat, order: nat, frame: Frame)

  ghost function Plug(c: Path, t: Frame): Frame
  {
    match c
    case Top => t
    case InL(up, sib) => Plug(up, Split(t, sib))
    case InR(up, sib) => Plug(up, Split(sib, t))
  }

  /** No pages are divided below a single page. */
  ghost predicate Fits(t: Frame, order: nat)
  {
    t.Split? ==> order > 0 && Fits(t.left, order - 1) && Fits(t.right, order - 1)
  }

  // ---------- where the hole is ----------

  ghost function Depth(c: Path): nat
  {
    if c.Top? then 0 else 1 + Depth(c.up)
  }

  ghost predicate PathFits(c: Path, ro: nat)
  {
    !c.Top? ==> PathFits(c.up, ro) && Depth(c) <= ro && Fits(c.sib, ro - Depth(c))
  }

  ghost function HoleOrder(c: Path, ro: nat): nat
    requires PathFits(c, ro)
  {
    if c.Top? then ro else ro - Depth(c)
  }

  /** Segment-tree numbering: 1 is the root, the children of `i` are `2i` and `2i + 1`. */
  ghost function HoleId(c: Path): nat
  {
    match c
    case Top => 1
    case InL(up, _) => 2 * HoleId(up)
    case InR(up, _) => 2 * HoleId(up) + 1
  }

  ghost function HoleBase(c: Path, rb: nat, ro: nat): nat
    requires PathFits(c, ro)
  {
    match c
    case Top => rb
    case InL(up, _) => HoleBase(up, rb, ro)
    case InR(up, _) => HoleBase(up, rb, ro) + Pow2(HoleOrder(c, ro))
  }

  lemma {:induction false} PlugFits(c: Path, t: Frame, ro: nat)
    ensures Fits(Plug(c, t), ro) <==> PathFits(c, ro) && Fits(t, HoleOrder(c, ro))
  {
    assert !c.Top? ==> Depth(c) == Depth(c.up) + 1;
    match c
    case Top =>
    case InL(up, sib) => PlugFits(up, Split(t, sib), ro);
    case InR(up, sib) => PlugFits(up, Split(sib, t), ro);
  }

  /** The identifier tells the depth. */
  lemma {:induction false} HoleIdDepth(c: Path)
    ensures Pow2(Depth(c)) <= HoleId(c) < 2 * Pow2(Depth(c))
  {
    if !c.Top? {
      HoleIdDepth(c.up);
    }
  }

  lemma IdParity(c: Path)
    ensures HoleId(c) == 1 <==> c.Top?
    ensures !c.Top? ==> HoleId(c) / 2 == HoleId(c.up) && (HoleId(c) % 2 == 1 <==> c.InR?)
  {
    HoleIdDepth(c);
    if !c.Top? {
      HoleIdDepth(c.up);
    }
  }

  /** Identifier and page number determine each other. */
  lemma {:induction false} HolePosition(c: Path, rb: nat, ro: nat)
    requires PathFits(c, ro)
    ensures HoleId(c) >= Pow2(Depth(c))
    ensures HoleBase(c, rb, ro) == rb + (HoleId(c) - Pow2(Depth(c))) * Pow2(HoleOrder(c, ro))
  {
    HoleIdDepth(c);
    if !c.Top? {
      HolePosition(c.up, rb, ro);
      var h := Pow2(HoleOrder(c, ro));
      assert Pow2(HoleOrder(c.up, ro)) == 2 * h;
      var i := HoleId(c.up) - Pow2(Depth(c.up));
      Doubling(i, h);
      assert HoleId(c) - Pow2(Depth(c)) == if c.InL? then 2 * i else 2 * i + 1;
    }
  }

  lemma {:induction false} HoleInside(c: Path, rb: nat, ro: nat)
    requires PathFits(c, ro)
    ensures rb <= HoleBase(c, rb, ro) && HoleBase(c, rb, ro) + Pow2(HoleOrder(c, ro)) <= rb + Pow2(ro)
  {
    if !c.Top? {
      HoleInside(c.up, rb, ro);
      assert Pow2(HoleOrder(c.up, ro)) == 2 * Pow2(HoleOrder(c, ro));
    }
  }

  /** A frame starts at a multiple of its size if its root does. */
  lemma {:induction false} HoleAligned(c: Path, rb: nat, ro: nat)
    requires PathFits(c, ro) && Multiple(rb, Pow2(ro))
    ensures Multiple(HoleBase(c, rb, ro), Pow2(HoleOrder(c, ro)))
  {
    if !c.Top? {
      HoleAligned(c.up, rb, ro);
      MultipleOfHalf(HoleBase(c.up, rb, ro), Pow2(HoleOrder(c, ro)));
    }
  }

  // ---------- page descriptors ----------

  /** What a page is: the head of a frame, or a page inside one. */
  datatype Cover = Head(order: nat, id: nat, free: bool) | Inner

  ghost function CoverAt(t: Frame, base: nat, order: nat, id: nat, p: nat): Cover
    requires Fits(t, order) && base <= p < base + Pow2(order)
    decreases t
  {
    if t.Split? then
      if p < base + Pow2(order - 1) then CoverAt(t.left, base, order - 1, 2 * id, p)
      else CoverAt(t.right, base + Pow2(order - 1), order - 1, 2 * id + 1, p)
    else if p == base then Head(order, id, t.Free?)
    else Inner
  }

  ghost predicate InRange(p: nat, base: nat, order: nat)
  {
    base <= p < base + Pow2(order)
  }

  /** In the hole the filling decides what a page is. */
  lemma {:induction false} CoverInHole(c: Path, t: Frame, rb: nat, ro: nat, p: nat)
    requires PathFits(c, ro) && Fits(t, HoleOrder(c, ro))
    requires InRange(p, HoleBase(c, rb, ro), HoleOrder(c, ro))
    ensures Fits(Plug(c, t), ro) && InRange(p, rb, ro)
    ensures CoverAt(Plug(c, t), rb, ro, 1, p) == CoverAt(t, HoleBase(c, rb, ro), HoleOrder(c, ro), HoleId(c), p)
  {
    PlugFits(c, t, ro);
    match c
    case Top =>
    case InL(up, sib) => CoverInHole(up, Split(t, sib), rb, ro, p);
    case InR(up, sib) => CoverInHole(up, Split(sib, t), rb, ro, p);
  }

  /** Elsewhere the filling does not matter. */
  lemma {:induction false} CoverOutside(c: Path, t: Frame, t': Frame, rb: nat, ro: nat, p: nat)
    requires PathFits(c, ro) && Fits(t, HoleOrder(c, ro)) && Fits(t', HoleOrder(c, ro))
    requires InRange(p, rb, ro) && !InRange(p, HoleBase(c, rb, ro), HoleOrder(c, ro))
    ensures Fits(Plug(c, t), ro) && Fits(Plug(c, t'), ro)
    ensures CoverAt(Plug(c, t), rb, ro, 1, p) == CoverAt(Plug(c, t'), rb, ro, 1, p)
  {
    PlugFits(c, t, ro);
    PlugFits(c, t', ro);
    if !c.Top? {
      var u := if c.InL? then Split(t, c.sib) else Split(c.sib, t);
      var u' := if c.InL? then Split(t', c.sib) else Split(c.sib, t');
      var b, o := HoleBase(c.up, rb, ro), HoleOrder(c.up, ro);
      if InRange(p, b, o) {
        CoverInHole(c.up, u, rb, ro, p);
        CoverInHole(c.up, u', rb, ro, p);
      } else {
        CoverOutside(c.up, u, u', rb, ro, p);
      }
    }
  }

  // ---------- the bitmap ----------

  /** The bit of a pair of buddies: set when exactly one of them is whole and free. */
  ghost predicate Odd(l: Frame, r: Frame)
  {
    l.Free? != r.Free?
  }

  /** The set bits, as (order, page number of the left buddy). */
  ghost function Bits(t: Frame, base: nat, order: nat): set<(nat, nat)>
    requires Fits(t, order)
    decreases t
  {
    if t.Split? then
      (if Odd(t.left, t.right) then {(order - 1, base)} else {})
      + Bits(t.left, base, order - 1) + Bits(t.right, base + Pow2(order - 1), order - 1)
    else {}
  }

  lemma {:induction false} BitsInRange(t: Frame, base: nat, order: nat, k: nat, p: nat)
    requires Fits(t, order) && (k, p) in Bits(t, base, order)
    ensures k < order && InRange(p, base, order)
    decreases t
  {
    if (k, p) in Bits(t.left, base, order - 1) {
      BitsInRange(t.left, base, order - 1, k, p);
    } else if (k, p) in Bits(t.right, base + Pow2(order - 1), order - 1) {
      BitsInRange(t.right, base + Pow2(order - 1), order - 1, k, p);
    }
  }

  /** The bit of the hole's pair. */
  ghost function PairBit(c: Path, rb: nat, ro: nat): (nat, nat)
    requires PathFits(c, ro) && !c.Top?
  {
    (HoleOrder(c, ro), HoleBase(c.up, rb, ro))
  }

  /** The set bits outside the hole, its own pair's bit included. */
  ghost function PathBits(c: Path, free: bool, rb: nat, ro: nat): set<(nat, nat)>
    requires PathFits(c, ro)
  {
    if c.Top? then {}
    else
      (if free != c.sib.Free? then {PairBit(c, rb, ro)} else {})
      + Bits(c.sib, if c.InL? then HoleBase(c.up, rb, ro) + Pow2(HoleOrder(c, ro)) else HoleBase(c.up, rb, ro),
             HoleOrder(c, ro))
      + PathBits(c.up, false, rb, ro)
  }

  /** The bits of a frame are those of its parent without the buddy's and the pair's. */
  lemma ParentBits(c: Path, t: Frame, rb: nat, ro: nat)
    requires PathFits(c, ro) && Fits(t, HoleOrder(c, ro)) && !c.Top?
    ensures var u := if c.InL? then Split(t, c.sib) else Split(c.sib, t);
            && Fits(u, HoleOrder(c.up, ro)) && !u.Free?
            && Bits(u, HoleBase(c.up, rb, ro), HoleOrder(c.up, ro)) + PathBits(c.up, false, rb, ro)
            == Bits(t, HoleBase(c, rb, ro), HoleOrder(c, ro)) + PathBits(c, t.Free?, rb, ro)
  {
    assert HoleOrder(c.up, ro) == HoleOrder(c, ro) + 1;
  }

  lemma {:induction false} PlugBits(c: Path, t: Frame, rb: nat, ro: nat)
    requires PathFits(c, ro) && Fits(t, HoleOrder(c, ro))
    ensures Fits(Plug(c, t), ro)
    ensures Bits(Plug(c, t), rb, ro)
         == Bits(t, HoleBase(c, rb, ro), HoleOrder(c, ro)) + PathBits(c, t.Free?, rb, ro)
  {
    PlugFits(c, t, ro);
    if !c.Top? {
      ParentBits(c, t, rb, ro);
      PlugBits(c.up, if c.InL? then Split(t, c.sib) else Split(c.sib, t), rb, ro);
    }
  }

  /** Inside the hole the path sets no bit of an order below the hole's. */
  lemma {:induction false} PathBitsOutside(c: Path, free: bool, rb: nat, ro: nat, k: nat, p: nat)
    requires PathFits(c, ro) && (k, p) in PathBits(c, free, rb, ro)
    ensures InRange(p, HoleBase(c, rb, ro), HoleOrder(c, ro)) ==> k >= HoleOrder(c, ro)
  {
    if !c.Top? {
      var b := if c.InL? then HoleBase(c.up, rb, ro) + Pow2(HoleOrder(c, ro)) else HoleBase(c.up, rb, ro);
      if (k, p) in Bits(c.sib, b, HoleOrder(c, ro)) {
        BitsInRange(c.sib, b, HoleOrder(c, ro), k, p);
      } else if (k, p) in PathBits(c.up, false, rb, ro) {
        PathBitsOutside(c.up, false, rb, ro, k, p);
        assert Pow2(HoleOrder(c.up, ro)) == 2 * Pow2(HoleOrder(c, ro));
      }
    }
  }

  // ---------- one change at a time ----------

  ghost function Toggle<T>(s: set<T>, x: T): set<T>
  {
    if x in s then s - {x} else s + {x}
  }

  /** Freeing or taking a whole frame flips its pair's bit and no other; a root frame has none. */
  lemma MarkBits(c: Path, rb: nat, ro: nat)
    requires PathFits(c, ro)
    ensures Fits(Plug(c, Free), ro) && Fits(Plug(c, Used), ro)
    ensures c.Top? ==> Bits(Plug(c, Free), rb, ro) == Bits(Plug(c, Used), rb, ro)
    ensures !c.Top? ==>
              && Bits(Plug(c, Free), rb, ro) == Toggle(Bits(Plug(c, Used), rb, ro), PairBit(c, rb, ro))
              && Bits(Plug(c, Used), rb, ro) == Toggle(Bits(Plug(c, Free), rb, ro), PairBit(c, rb, ro))
              && (PairBit(c, rb, ro) in Bits(Plug(c, Free), rb, ro) <==> !c.sib.Free?)
  {
    PlugBits(c, Free, rb, ro);
    PlugBits(c, Used, rb, ro);
    if !c.Top? {
      var (k, p) := PairBit(c, rb, ro);
      if (k, p) in PathBits(c.up, false, rb, ro) {
        PathBitsOutside(c.up, false, rb, ro, k, p);
      }
      var b := if c.InL? then HoleBase(c.up, rb, ro) + Pow2(HoleOrder(c, ro)) else HoleBase(c.up, rb, ro);
      if (k, p) in Bits(c.sib, b, HoleOrder(c, ro)) {
        BitsInRange(c.sib, b, HoleOrder(c, ro), k, p);
      }
    }
  }

  /** Halving an allocated frame sets the new pair's bit if just the right half becomes free. */
  lemma SplitBits(c: Path, right: Frame, rb: nat, ro: nat)
    requires PathFits(c, ro) && HoleOrder(c, ro) > 0 && (right == Free || right == Used)
    ensures Fits(Plug(c, Used), ro) && Fits(Plug(c, Split(Used, right)), ro)
    ensures var b := (HoleOrder(c, ro) - 1, HoleBase(c, rb, ro));
            && b !in Bits(Plug(c, Used), rb, ro)
            && Bits(Plug(c, Split(Used, right)), rb, ro)
               == Bits(Plug(c, Used), rb, ro) + (if right == Free then {b} else {})
  {
    hide PathBits, Plug, HoleBase;
    PlugBits(c, Used, rb, ro);
    PlugBits(c, Split(Used, right), rb, ro);
    var k, p := HoleOrder(c, ro) - 1, HoleBase(c, rb, ro);
    if (k, p) in PathBits(c, false, rb, ro) {
      PathBitsOutside(c, false, rb, ro, k, p);
    }
  }

  /** Merging two free buddies leaves their pair's bit clear. */
  lemma MergeBits(c: Path, rb: nat, ro: nat)
    requires PathFits(c, ro) && !c.Top? && c.sib.Free?
    ensures Fits(Plug(c, Free), ro) && Fits(Plug(c.up, Used), ro)
    ensures Bits(Plug(c.up, Used), rb, ro) == Bits(Plug(c, Free), rb, ro)
  {
    PlugBits(c, Free, rb, ro);
    PlugBits(c.up, Used, rb, ro);
  }

  /** Descriptors before and after a change of the filling. */
  lemma MarkCover(c: Path, t: Frame, t': Frame, rb: nat, ro: nat, p: nat)
    requires PathFits(c, ro) && !t.Split? && Fits(t', HoleOrder(c, ro)) && InRange(p, rb, ro)
    ensures Fits(Plug(c, t), ro) && Fits(Plug(c, t'), ro)
    ensures var b, o := HoleBase(c, rb, ro), HoleOrder(c, ro);
            CoverAt(Plug(c, t), rb, ro, 1, p)
            == if p == b then Head(o, HoleId(c), t.Free?)
               else if InRange(p, b, o) then Inner
               else CoverAt(Plug(c, t'), rb, ro, 1, p)
  {
    PlugFits(c, t, ro);
    PlugFits(c, t', ro);
    if InRange(p, HoleBase(c, rb, ro), HoleOrder(c, ro)) {
      CoverInHole(c, t, rb, ro, p);
    } else {
      CoverOutside(c, t, t', rb, ro, p);
    }
  }

  lemma SplitCover(c: Path, l: Frame, r: Frame, t': Frame, rb: nat, ro: nat, p: nat)
    requires PathFits(c, ro) && HoleOrder(c, ro) > 0 && !l.Split? && !r.Split? && Fits(t', HoleOrder(c, ro))
    requires InRange(p, rb, ro)
    ensures Fits(Plug(c, Split(l, r)), ro) && Fits(Plug(c, t'), ro)
    ensures var b, o := HoleBase(c, rb, ro), HoleOrder(c, ro) - 1;
            CoverAt(Plug(c, Split(l, r)), rb, ro, 1, p)
            == if p == b then Head(o, 2 * HoleId(c), l.Free?)
               else if p == b + Pow2(o) then Head(o, 2 * HoleId(c) + 1, r.Free?)
               else if InRange(p, b, o + 1) then Inner
               else CoverAt(Plug(c, t'), rb, ro, 1, p)
  {
    PlugFits(c, Split(l, r), ro);
    PlugFits(c, t', ro);
    if InRange(p, HoleBase(c, rb, ro), HoleOrder(c, ro)) {
      CoverInHole(c, Split(l, r), rb, ro, p);
    } else {
      CoverOutside(c, Split(l, r), t', rb, ro, p);
    }
  }

  /** The place of a head in its tree. */
  lemma {:induction false} Locate(c: Path, t: Frame, rb: nat, ro: nat, p: nat) returns (c': Path, t': Frame)
    requires PathFits(c, ro) && Fits(t, HoleOrder(c, ro)) && InRange(p, HoleBase(c, rb, ro), HoleOrder(c, ro))
    requires CoverAt(t, HoleBase(c, rb, ro), HoleOrder(c, ro), HoleId(c), p).Head?
    ensures Plug(c', t') == Plug(c, t) && !t'.Split? && PathFits(c', ro)
    ensures HoleBase(c', rb, ro) == p
    ensures CoverAt(t, HoleBase(c, rb, ro), HoleOrder(c, ro), HoleId(c), p)
         == Head(HoleOrder(c', ro), HoleId(c'), t'.Free?)
    decreases t
  {
    hide Pow2;
    if !t.Split? {
      c', t' := c, t;
    } else {
      var o := HoleOrder(c, ro) - 1;
      Pow2Double(o);
      assert o == ro - Depth(c) - 1 && Fits(t.left, o) && Fits(t.right, o);
      if p < HoleBase(c, rb, ro) + Pow2(o) {
        c', t' := Locate(InL(c, t.right), t.left, rb, ro, p);
      } else {
        c', t' := Locate(InR(c, t.left), t.right, rb, ro, p);
      }
    }
  }

  lemma LocateInRoot(t: Frame, rb: nat, ro: nat, p: nat) returns (c: Path)
    requires Fits(t, ro) && InRange(p, rb, ro) && CoverAt(t, rb, ro, 1, p).Head?
    ensures PathFits(c, ro) && HoleBase(c, rb, ro) == p
    ensures CoverAt(t, rb, ro, 1, p).order == HoleOrder(c, ro) && CoverAt(t, rb, ro, 1, p).id == HoleId(c)
  {
    var t';
    c, t' := Locate(Top, t, rb, ro, p);
  }

  // ---------- no two buddies both free ----------

  ghost predicate Reduced(t: Frame)
  {
    t.Split? ==> !(t.left.Free? && t.right.Free?) && Reduced(t.left) && Reduced(t.right)
  }

  ghost predicate PathReduced(c: Path, free: bool)
  {
    !c.Top? ==> !(free && c.sib.Free?) && Reduced(c.sib) && PathReduced(c.up, false)
  }

  lemma {:induction false} PlugReduced(c: Path, t: Frame)
    ensures Reduced(Plug(c, t)) <==> PathReduced(c, t.Free?) && Reduced(t)
  {
    match c
    case Top =>
    case InL(up, sib) => PlugReduced(up, Split(t, sib));
    case InR(up, sib) => PlugReduced(up, Split(sib, t));
  }

  /** Why a frame must not be freed twice: the bit of a free frame is set, as its buddy is not a whole free
      frame; one more toggle clears it, and the test then takes that buddy for a free one. */
  lemma FreedTwice(c: Path, rb: nat, ro: nat)
    requires PathFits(c, ro) && !c.Top? && PathReduced(c, true)
    ensures Fits(Plug(c, Free), ro) && Fits(Plug(c, Used), ro)
    ensures PairBit(c, rb, ro) in Bits(Plug(c, Free), rb, ro) && !c.sib.Free?
    ensures PairBit(c, rb, ro) !in Toggle(Bits(Plug(c, Free), rb, ro), PairBit(c, rb, ro))
    ensures Toggle(Bits(Plug(c, Free), rb, ro), PairBit(c, rb, ro)) == Bits(Plug(c, Used), rb, ro)
  {
    MarkBits(c, rb, ro);
  }

  // ---------- the allocated frames ----------

  /** The allocated frames, as (order, page number). */
  ghost function Allocated(t: Frame, base: nat, order: nat): set<(nat, nat)>
    requires Fits(t, order)
    decreases t
  {
    match t
    case Free => {}
    case Used => {(order, base)}
    case Split(l, r) => Allocated(l, base, order - 1) + Allocated(r, base + Pow2(order - 1), order - 1)
  }

  lemma {:induction false} AllocatedInRange(t: Frame, base: nat, order: nat, k: nat, p: nat)
    requires Fits(t, order) && (k, p) in Allocated(t, base, order)
    ensures k <= order && InRange(p, base, order) && (k == order ==> t.Used?)
    decreases t
  {
    if t.Split? {
      if (k, p) in Allocated(t.left, base, order - 1) {
        AllocatedInRange(t.left, base, order - 1, k, p);
      } else {
        AllocatedInRange(t.right, base + Pow2(order - 1), order - 1, k, p);
      }
    }
  }

  /** The allocated frames of the path around the hole. */
  ghost function PathAllocated(c: Path, rb: nat, ro: nat): set<(nat, nat)>
    requires PathFits(c, ro)
  {
    if c.Top? then {}
    else
      Allocated(c.sib, if c.InL? then HoleBase(c.up, rb, ro) + Pow2(HoleOrder(c, ro)) else HoleBase(c.up, rb, ro),
                HoleOrder(c, ro))
      + PathAllocated(c.up, rb, ro)
  }

  lemma {:induction false} PlugAllocated(c: Path, t: Frame, rb: nat, ro: nat)
    requires PathFits(c, ro) && Fits(t, HoleOrder(c, ro))
    ensures Fits(Plug(c, t), ro)
    ensures Allocated(Plug(c, t), rb, ro)
         == Allocated(t, HoleBase(c, rb, ro), HoleOrder(c, ro)) + PathAllocated(c, rb, ro)
  {
    PlugFits(c, t, ro);
    if !c.Top? {
      assert HoleOrder(c.up, ro) == HoleOrder(c, ro) + 1;
      PlugAllocated(c.up, if c.InL? then Split(t, c.sib) else Split(c.sib, t), rb, ro);
    }
  }

  /** No frame of the path starts in the hole. */
  lemma {:induction false} PathAllocatedOutside(c: Path, rb: nat, ro: nat, k: nat, p: nat)
    requires PathFits(c, ro) && (k, p) in PathAllocated(c, rb, ro)
    ensures !InRange(p, HoleBase(c, rb, ro), HoleOrder(c, ro))
  {
    var b := if c.InL? then HoleBase(c.up, rb, ro) + Pow2(HoleOrder(c, ro)) else HoleBase(c.up, rb, ro);
    if (k, p) in Allocated(c.sib, b, HoleOrder(c, ro)) {
      AllocatedInRange(c.sib, b, HoleOrder(c, ro), k, p);
    } else {
      PathAllocatedOutside(c.up, rb, ro, k, p);
      assert Pow2(HoleOrder(c.up, ro)) == 2 * Pow2(HoleOrder(c, ro));
    }
  }

  lemma {:induction false} NothingAllocated(t: Frame, base: nat, order: nat)
    requires Fits(t, order) && Reduced(t) && Allocated(t, base, order) == {}
    ensures t == Free
    decreases t
  {
    if t.Split? {
      NothingAllocated(t.left, base, order - 1);
      NothingAllocated(t.right, base + Pow2(order - 1), order - 1);
    }
  }

  /** The allocated frames determine the whole state: a reduced tree is the only one with
      its allocated frames. In particular the order of the calls that led to it is forgotten. */
  lemma {:induction false} Canonical(t: Frame, t': Frame, base: nat, order: nat)
    requires Fits(t, order) && Fits(t', order) && Reduced(t) && Reduced(t')
    requires Allocated(t, base, order) == Allocated(t', base, order)
    ensures t == t'
    decreases t
  {
    if Allocated(t, base, order) == {} {
      NothingAllocated(t, base, order);
      NothingAllocated(t', base, order);
    } else if t.Used? || t'.Used? {
      assert (order, base) in Allocated(t, base, order);
      AllocatedInRange(t, base, order, order, base);
      AllocatedInRange(t', base, order, order, base);
    } else {
      var h := base + Pow2(order - 1);
      HalfAllocated(t, t', base, order);
      Canonical(t.left, t'.left, base, order - 1);
      Canonical(t.right, t'.right, h, order - 1);
    }
  }

  lemma HalfAllocated(t: Frame, t': Frame, base: nat, order: nat)
    requires Fits(t, order) && Fits(t', order) && t.Split? && t'.Split?
    requires Allocated(t, base, order) == Allocated(t', base, order)
    ensures Allocated(t.left, base, order - 1) == Allocated(t'.left, base, order - 1)
    ensures Allocated(t.right, base + Pow2(order - 1), order - 1)
          == Allocated(t'.right, base + Pow2(order - 1), order - 1)
  {
    HalfIncluded(t, t', base, order);
    HalfIncluded(t', t, base, order);
  }

  lemma HalfIncluded(t: Frame, t': Frame, base: nat, order: nat)
    requires Fits(t, order) && Fits(t', order) && t.Split? && t'.Split?
    requires Allocated(t, base, order) <= Allocated(t', base, order)
    ensures Allocated(t.left, base, order - 1) <= Allocated(t'.left, base, order - 1)
    ensures Allocated(t.right, base + Pow2(order - 1), order - 1)
          <= Allocated(t'.right, base + Pow2(order - 1), order - 1)
  {
    var h := base + Pow2(order - 1);
    var l, r := Allocated(t.left, base, order - 1), Allocated(t.right, h, order - 1);
    var l', r' := Allocated(t'.left, base, order - 1), Allocated(t'.right, h, order - 1);
    forall x | x in l ensures x in l' {
      AllocatedInRange(t.left, base, order - 1, x.0, x.1);
      assert x in Allocated(t', base, order);
      if x in r' { AllocatedInRange(t'.right, h, order - 1, x.0, x.1); }
    }
    forall x | x in r ensures x in r' {
      AllocatedInRange(t.right, h, order - 1, x.0, x.1);
      assert x in Allocated(t', base, order);
      if x in l' { AllocatedInRange(t'.left, base, order - 1, x.0, x.1); }
    }
  }

  // ---------- tiling ----------

  /** Every page belongs to exactly one frame. */
  lemma {:induction false} Tiles(t: Frame, base: nat, order: nat, id: nat, p: nat) returns (h: nat)
    requires Fits(t, order) && InRange(p, base, order)
    ensures InRange(h, base, order) && CoverAt(t, base, order, id, h).Head?
    ensures InRange(p, h, CoverAt(t, base, order, id, h).order)
    ensures forall g :: (InRange(g, base, order) && CoverAt(t, base, order, id, g).Head?
                         && InRange(p, g, CoverAt(t, base, order, id, g).order)) ==> g == h
    decreases t
  {
    if !t.Split? {
      h := base;
    } else if p < base + Pow2(order - 1) {
      h := Tiles(t.left, base, order - 1, 2 * id, p);
    } else {
      h := Tiles(t.right, base + Pow2(order - 1), order - 1, 2 * id + 1, p);
      LeftHeads(t, base, order, id, p);
    }
  }

  /** A frame of the left half does not reach into the right half. */
  lemma {:induction false} LeftHeads(t: Frame, base: nat, order: nat, id: nat, p: nat)
    requires Fits(t, order) && t.Split? && base + Pow2(order - 1) <= p
    ensures forall g :: InRange(g, base, order - 1) && CoverAt(t, base, order, id, g).Head? ==>
              !InRange(p, g, CoverAt(t, base, order, id, g).order)
  {
    forall g | InRange(g, base, order - 1) && CoverAt(t, base, order, id, g).Head?
      ensures !InRange(p, g, CoverAt(t, base, order, id, g).order)
    {
      HeadFits(t.left, base, order - 1, 2 * id, g);
    }
  }

  lemma {:induction false} HeadFits(t: Frame, base: nat, order: nat, id: nat, g: nat)
    requires Fits(t, order) && InRange(g, base, order) && CoverAt(t, base, order, id, g).Head?
    ensures g + Pow2(CoverAt(t, base, order, id, g).order) <= base + Pow2(order)
    decreases t
  {
    if t.Split? {
      if g < base + Pow2(order - 1) {
        HeadFits(t.left, base, order - 1, 2 * id, g);
      } else {
        HeadFits(t.right, base + Pow2(order - 1), order - 1, 2 * id + 1, g);
      }
    }
  }
}
