/** The command and transfer rings of kernel/hardware/USB/XHCI/api.c as a protocol between the
    driver, which stores a request word by word, and the controller, which may read in between.
    Both cursors are images of growing indices; slot `size - 1` is the link back to slot 0. */
module RingProtocol {
  import opened Basics
  import opened Cycles

  /** Status and control words but for the cycle bit: one aligned quad together with it. */
  datatype Rest = Rest(status: nat, kind: nat, toggle: bool, other: nat)

  /** A transfer request block. For a link, `data` is the slot it points to. */
  datatype TRB = TRB(data: nat, rest: Rest, cycle: bool)

  /** What a block asks for. */
  datatype Work = Work(data: nat, rest: Rest)

  const TYPE_LINK: nat := 6
  const LINK_REST := Rest(0, TYPE_LINK, true, 0)
  const BLANK := TRB(0, Rest(0, 0, false, 0), false)

  predicate IsLink(t: TRB)
  {
    t.rest.kind == TYPE_LINK
  }

  function WorkOf(t: TRB): Work
  {
    Work(t.data, t.rest)
  }

  predicate AtLink(n: nat, size: nat)
    requires size > 0
  {
    Slot(n, size) == size - 1
  }

  /** The memory, who occupies each slot, the blocks of all indices so far, how many of them are
      stored, how many quads of the next one are, and the controller's side. */
  datatype Sys<R> = Sys(
    size: nat, mem: seq<TRB>, owner: seq<Option<R>>,
    hist: seq<TRB>, holder: Option<R>, stored: nat, phase: nat,
    cpos: nat, ccyc: bool, log: seq<Work>, read: nat)

  // ---------- the driver ----------

  /** One more block, and the link before it if the link's turn has come. */
  ghost function Put(h: seq<TRB>, size: nat, t: TRB): seq<TRB>
    requires size > 0
  {
    var g := if AtLink(|h|, size) then h + [TRB(0, LINK_REST, Bit(|h|, size))] else h;
    g + [t.(cycle := Bit(|g|, size))]
  }

  ghost function Extend(h: seq<TRB>, size: nat, trbs: seq<TRB>): seq<TRB>
    requires size > 0
  {
    if trbs == [] then h else Put(Extend(h, size, trbs[..|trbs| - 1]), size, trbs[|trbs| - 1])
  }

  /** No needed slot belongs to a request still in the ring. */
  ghost predicate Fits<R>(s: Sys<R>, trbs: seq<TRB>)
    requires s.size > 0 && |s.owner| == s.size
  {
    forall n: nat :: |s.hist| <= n < |Extend(s.hist, s.size, trbs)| && !AtLink(n, s.size) ==>
        s.owner[Slot(n, s.size)].None?
  }

  ghost predicate Insertable(size: nat, trbs: seq<TRB>)
  {
    |trbs| < size && forall t :: t in trbs ==> !IsLink(t)
  }

  datatype Action<R> = Begin(r: R, trbs: seq<TRB>) | Store(bit: bool) | Read | Release(r: R)

  /** The next store: the two quads of the copy, whose cycle bit is `bit`, then the cycle bit;
      for the link only its cycle bit. */
  ghost function Stored<R>(s: Sys<R>, bit: bool): Sys<R>
    requires Shape(s) && s.stored < |s.hist|
  {
    var k, t := Slot(s.stored, s.size), s.hist[s.stored];
    if AtLink(s.stored, s.size) then
      s.(mem := s.mem[k := s.mem[k].(cycle := t.cycle)], stored := s.stored + 1)
    else if s.phase == 0 then
      s.(mem := s.mem[k := s.mem[k].(data := t.data)], phase := 1)
    else if s.phase == 1 then
      s.(mem := s.mem[k := s.mem[k].(rest := t.rest, cycle := bit)], phase := 2)
    else
      s.(mem := s.mem[k := s.mem[k].(cycle := t.cycle)], owner := s.owner[k := s.holder], stored := s.stored + 1,
         phase := 0)
  }

  ghost function Cleared<R>(owner: seq<Option<R>>, r: R): seq<Option<R>>
  {
    seq(|owner|, i requires 0 <= i < |owner| => if owner[i] == Some(r) then None else owner[i])
  }

  // ---------- the controller ----------

  /** Stops at a block whose cycle bit is not its own; otherwise takes the block, or follows the
      link and toggles its bit. */
  ghost function Polled<R>(s: Sys<R>): Sys<R>
    requires s.cpos < |s.mem|
  {
    var t := s.mem[s.cpos];
    if t.cycle != s.ccyc then s
    else if IsLink(t) then s.(cpos := t.data, ccyc := if t.rest.toggle then !s.ccyc else s.ccyc, read := s.read + 1)
    else s.(cpos := s.cpos + 1, log := s.log + [WorkOf(t)], read := s.read + 1)
  }

  ghost predicate Waiting<R>(s: Sys<R>)
  {
    s.cpos < |s.mem| && s.mem[s.cpos].cycle != s.ccyc
  }

  // ---------- runs ----------

  ghost predicate Shape<R>(s: Sys<R>)
  {
    && s.size >= 2 && |s.mem| == |s.owner| == s.size
    && s.stored <= |s.hist|
    && s.phase <= 2 && (s.phase > 0 ==> s.stored < |s.hist| && !AtLink(s.stored, s.size))
    && s.cpos == Slot(s.read, s.size) && s.ccyc == Bit(s.read, s.size)
  }

  /** What the driver's lock and its callers guarantee: one insertion at a time, of a request that
      is in no slot. */
  ghost predicate Enabled<R>(s: Sys<R>, a: Action<R>)
    requires Shape(s)
  {
    match a
    case Begin(r, trbs) =>
      s.stored == |s.hist| && Insertable(s.size, trbs) && Fits(s, trbs) && Some(r) !in s.owner
    case Store(_) => s.stored < |s.hist|
    case Read => true
    case Release(r) => s.stored == |s.hist|
  }

  /** The controller has still to pass a block of request `r`. */
  ghost predicate Unread<R>(s: Sys<R>, r: R, n: nat)
    requires Shape(s)
  {
    s.read <= n < |s.hist| && !AtLink(n, s.size) && s.owner[Slot(n, s.size)] == Some(r)
  }

  /** Requests are given up only when all their blocks have been read. */
  ghost predicate Safe<R>(s: Sys<R>, a: Action<R>)
    requires Shape(s)
  {
    a.Release? ==> forall n: nat :: !Unread(s, a.r, n)
  }

  ghost function Apply<R>(s: Sys<R>, a: Action<R>): Sys<R>
    requires Shape(s) && Enabled(s, a)
  {
    match a
    case Begin(r, trbs) => s.(hist := Extend(s.hist, s.size, trbs), holder := Some(r))
    case Store(bit) => Stored(s, bit)
    case Read => Polled(s)
    case Release(r) => s.(owner := Cleared(s.owner, r))
  }

  ghost function Init<R>(size: nat): Sys<R>
    requires size >= 2
  {
    Sys(size, seq(size, i => if i == size - 1 then TRB(0, LINK_REST, false) else BLANK), seq(size, _ => None),
        [], None, 0, 0, 0, true, [], 0)
  }

  // ---------- the invariant ----------

  /** The indices below this one have their cycle bit in place. */
  ghost function Marked<R>(s: Sys<R>): nat
  {
    if s.phase == 2 then s.stored + 1 else s.stored
  }

  ghost predicate HistOK(hist: seq<TRB>, size: nat)
    requires size >= 2
  {
    forall n: nat :: n < |hist| ==>
      && hist[n].cycle == Bit(n, size)
      && (if AtLink(n, size) then hist[n].data == 0 && hist[n].rest == LINK_REST else !IsLink(hist[n]))
  }

  /** The link stays a link and nothing else becomes one. */
  ghost predicate LinksOK(mem: seq<TRB>)
    requires |mem| >= 2
  {
    && mem[|mem| - 1].data == 0 && mem[|mem| - 1].rest == LINK_REST
    && (forall i :: 0 <= i < |mem| - 1 ==> !IsLink(mem[i]))
  }

  /** Stored and unread blocks are in memory. */
  ghost predicate UnreadOK(mem: seq<TRB>, hist: seq<TRB>, read: nat, stored: nat)
    requires |mem| >= 2 && stored <= |hist|
  {
    forall n: nat :: read <= n < stored ==> mem[Slot(n, |mem|)] == hist[n]
  }

  /** What is not there yet does not look as if it were. */
  ghost predicate AheadOK(mem: seq<TRB>, from: nat, to: nat)
    requires |mem| >= 2
  {
    forall n: nat :: from <= n < to ==> mem[Slot(n, |mem|)].cycle != Bit(n, |mem|)
  }

  /** The block being stored. */
  ghost predicate PartOK(mem: seq<TRB>, hist: seq<TRB>, stored: nat, phase: nat)
    requires |mem| >= 2 && (phase > 0 ==> stored < |hist|)
  {
    phase > 0 ==>
      var t := mem[Slot(stored, |mem|)];
      && t.data == hist[stored].data
      && (phase == 2 ==> t.rest == hist[stored].rest)
  }

  /** Stored and unread blocks have their slots occupied. */
  ghost predicate OwnersOK<R>(owner: seq<Option<R>>, read: nat, stored: nat)
    requires |owner| >= 2
  {
    forall n: nat :: read <= n < stored && !AtLink(n, |owner|) ==> owner[Slot(n, |owner|)].Some?
  }

  ghost function Payload(h: seq<TRB>): seq<Work>
  {
    if h == [] then []
    else Payload(h[..|h| - 1]) + (if IsLink(h[|h| - 1]) then [] else [WorkOf(h[|h| - 1])])
  }

  /** What holds however requests are given up. */
  ghost predicate Sturdy<R>(s: Sys<R>)
  {
    Shape(s) && HistOK(s.hist, s.size) && LinksOK(s.mem)
  }

  ghost predicate Inv<R>(s: Sys<R>)
  {
    && Shape(s) && s.read <= |s.hist| <= s.read + s.size && s.read <= Marked(s)
    && HistOK(s.hist, s.size) && LinksOK(s.mem)
    && UnreadOK(s.mem, s.hist, s.read, s.stored) && AheadOK(s.mem, Marked(s), s.read + s.size)
    && PartOK(s.mem, s.hist, s.stored, s.phase)
    && OwnersOK(s.owner, s.read, s.stored) && (s.stored < |s.hist| ==> s.holder.Some?)
    && s.log == Payload(s.hist[..s.read])
  }

  // ---------- each action keeps it ----------

  lemma Ahead(n: nat, size: nat)
    requires size >= 2
    ensures Slot(n + 1, size) == if AtLink(n, size) then 0 else Slot(n, size) + 1
    ensures Bit(n + 1, size) == if AtLink(n, size) then !Bit(n, size) else Bit(n, size)
    ensures AtLink(n, size) ==> !AtLink(n + 1, size)
  {
  }

  /** A block the controller takes is complete, and the next one in order. */
  lemma NeverTorn<R>(s: Sys<R>)
    requires Inv(s) && !Waiting(s)
    ensures s.read < |s.hist| && s.mem[s.cpos] == s.hist[s.read] && s.read < Marked(s)
  {
    assert s.mem[Slot(s.read, s.size)].cycle == Bit(s.read, s.size);
    assert s.read < Marked(s);
  }

  lemma PayloadPrefix(h: seq<TRB>, n: nat)
    requires n < |h|
    ensures Payload(h[..n + 1]) == Payload(h[..n]) + (if IsLink(h[n]) then [] else [WorkOf(h[n])])
  {
    assert h[..n + 1][..n] == h[..n];
  }

  lemma PollShape<R>(s: Sys<R>)
    requires Inv(s) && !Waiting(s)
    ensures Shape(Polled(s)) && Polled(s).log == Payload(s.hist[..s.read + 1])
    ensures Polled(s).read == s.read + 1 <= Marked(s)
  {
    hide UnreadOK, AheadOK, PartOK, OwnersOK, Payload;
    NeverTorn(s);
    Ahead(s.read, s.size);
    PayloadPrefix(s.hist, s.read);
    hide Slot, Bit;
    var t := s.mem[s.cpos];
    assert t == s.hist[s.read] && (IsLink(t) <==> AtLink(s.read, s.size));
  }

  lemma AheadMore(mem: seq<TRB>, from: nat, to: nat)
    requires |mem| >= 2 && AheadOK(mem, from, to) && mem[Slot(to, |mem|)].cycle != Bit(to, |mem|)
    ensures AheadOK(mem, from, to + 1)
  {
  }

  lemma ReadMore<R>(mem: seq<TRB>, hist: seq<TRB>, owner: seq<Option<R>>, read: nat, stored: nat)
    requires |mem| == |owner| >= 2 && stored <= |hist| && UnreadOK(mem, hist, read, stored)
    requires OwnersOK(owner, read, stored)
    ensures UnreadOK(mem, hist, read + 1, stored) && OwnersOK(owner, read + 1, stored)
  {
  }

  lemma PollKeeps<R>(s: Sys<R>)
    requires Inv(s)
    ensures Shape(Polled(s)) && Inv(Polled(s))
  {
    hide HistOK, LinksOK, AheadOK, UnreadOK, OwnersOK, PartOK, Payload, Bit, Slot;
    if !Waiting(s) {
      PollShape(s);
      NeverTorn(s);
      OneRound(s.read, s.size);
      AheadMore(s.mem, Marked(s), s.read + s.size);
      ReadMore(s.mem, s.hist, s.owner, s.read, s.stored);
    }
  }

  // Writing to the slot of index `stored` ...

  lemma UnreadSame(mem: seq<TRB>, hist: seq<TRB>, read: nat, stored: nat, t: TRB)
    requires |mem| >= 2 && stored <= |hist| && UnreadOK(mem, hist, read, stored) && stored < read + |mem|
    ensures UnreadOK(mem[Slot(stored, |mem|) := t], hist, read, stored)
    ensures stored < |hist| && t == hist[stored] ==> UnreadOK(mem[Slot(stored, |mem|) := t], hist, read, stored + 1)
  {
    forall n: nat | read <= n < stored ensures Slot(n, |mem|) != Slot(stored, |mem|) {
      SlotsDiffer(n, stored, |mem|);
    }
  }

  lemma AheadSame(mem: seq<TRB>, stored: nat, to: nat, t: TRB)
    requires |mem| >= 2 && AheadOK(mem, stored + 1, to) && to <= stored + |mem|
    ensures AheadOK(mem[Slot(stored, |mem|) := t], stored + 1, to)
    ensures t.cycle != Bit(stored, |mem|) ==> AheadOK(mem[Slot(stored, |mem|) := t], stored, to)
  {
    forall n: nat | stored < n < to ensures Slot(n, |mem|) != Slot(stored, |mem|) {
      SlotsDiffer(stored, n, |mem|);
    }
  }

  lemma LinksSame(mem: seq<TRB>, k: nat, t: TRB)
    requires |mem| >= 2 && LinksOK(mem) && k < |mem|
    requires if k == |mem| - 1 then t.data == 0 && t.rest == LINK_REST else !IsLink(t)
    ensures LinksOK(mem[k := t])
  {
  }

  lemma OwnerSame<R>(owner: seq<Option<R>>, read: nat, stored: nat, o: Option<R>)
    requires |owner| >= 2 && OwnersOK(owner, read, stored) && stored < read + |owner|
    ensures AtLink(stored, |owner|) ==> OwnersOK(owner, read, stored + 1)
    ensures o.Some? ==> OwnersOK(owner[Slot(stored, |owner|) := o], read, stored + 1)
  {
  }

  /** What the slot being stored to holds so far. */
  lemma PartState<R>(s: Sys<R>)
    requires Inv(s) && s.stored < |s.hist|
    ensures var t, h, k := s.mem[Slot(s.stored, s.size)], s.hist[s.stored], Slot(s.stored, s.size);
            && h.cycle == Bit(s.stored, s.size)
            && (AtLink(s.stored, s.size) ==> t.data == 0 && t.rest == LINK_REST && h.data == 0 && h.rest == LINK_REST)
            && (!AtLink(s.stored, s.size) ==> k < s.size - 1 && !IsLink(t) && !IsLink(h))
            && (s.phase < 2 ==> s.read <= s.stored && t.cycle != Bit(s.stored, s.size))
            && (s.phase > 0 ==> t.data == h.data)
            && (s.phase == 2 ==> t.rest == h.rest)
  {
    hide Payload, UnreadOK, OwnersOK;
    assert s.phase < 2 ==> s.mem[Slot(s.stored, s.size)].cycle != Bit(s.stored, s.size) by {
      assert s.stored < s.read + s.size;
    }
  }

  lemma AheadLess(mem: seq<TRB>, from: nat, to: nat)
    requires |mem| >= 2 && AheadOK(mem, from, to)
    ensures AheadOK(mem, from + 1, to)
  {
  }

  lemma StoreData<R>(s: Sys<R>, bit: bool)
    requires Inv(s) && s.stored < |s.hist| && !AtLink(s.stored, s.size) && s.phase < 2
    ensures Shape(Stored(s, bit)) && Inv(Stored(s, bit))
  {
    hide HistOK, LinksOK, AheadOK, UnreadOK, OwnersOK, Payload;
    var k, u := Slot(s.stored, s.size), Stored(s, bit);
    PartState(s);
    AheadLess(s.mem, s.stored, s.read + s.size);
    AheadSame(s.mem, s.stored, s.read + s.size, u.mem[k]);
    UnreadSame(s.mem, s.hist, s.read, s.stored, u.mem[k]);
    LinksSame(s.mem, k, u.mem[k]);
  }

  lemma StoreBit<R>(s: Sys<R>, bit: bool)
    requires Inv(s) && s.stored < |s.hist| && (AtLink(s.stored, s.size) || s.phase == 2)
    ensures Shape(Stored(s, bit)) && Inv(Stored(s, bit))
  {
    hide HistOK, LinksOK, AheadOK, UnreadOK, OwnersOK, Payload;
    var k, u := Slot(s.stored, s.size), Stored(s, bit);
    PartState(s);
    OneRound(s.stored, s.size);
    LinksSame(s.mem, k, u.mem[k]);
    if s.read <= s.stored {
      if s.phase < 2 { AheadLess(s.mem, s.stored, s.read + s.size); }
      AheadSame(s.mem, s.stored, s.read + s.size, u.mem[k]);
      UnreadSame(s.mem, s.hist, s.read, s.stored, u.mem[k]);
      OwnerSame(s.owner, s.read, s.stored, s.holder);
    } else {
      TakenEarly(s);
      assert u.mem == s.mem;
    }
  }

  /** The controller may take a block before the driver sets a cycle bit that is already right. */
  lemma TakenEarly<R>(s: Sys<R>)
    requires Inv(s) && s.phase == 2 && s.read == s.stored + 1
    ensures s.mem[Slot(s.stored, s.size)].cycle == Bit(s.stored, s.size)
    ensures UnreadOK(s.mem, s.hist, s.read, s.read)
    ensures OwnersOK(s.owner[Slot(s.stored, s.size) := s.holder], s.read, s.read)
  {
    hide Payload;
    OneRound(s.stored, s.size);
    assert s.mem[Slot(s.stored + s.size, s.size)].cycle != Bit(s.stored + s.size, s.size);
  }

  lemma {:induction false} ExtendShape(h: seq<TRB>, size: nat, trbs: seq<TRB>)
    requires size >= 2
    ensures h <= Extend(h, size, trbs)
    ensures trbs != [] ==> |Extend(h, size, trbs)| > |h| && !AtLink(|Extend(h, size, trbs)| - 1, size)
  {
    if trbs != [] {
      var g := Extend(h, size, trbs[..|trbs| - 1]);
      ExtendShape(h, size, trbs[..|trbs| - 1]);
      Ahead(|g|, size);
    }
  }

  /** At most one link is passed by fewer blocks than the ring has slots. */
  lemma {:induction false} ExtendLength(h: seq<TRB>, size: nat, trbs: seq<TRB>)
    requires size >= 2 && |trbs| < size
    ensures |Extend(h, size, trbs)| == |h| + |trbs| + (if Slot(|h|, size) + |trbs| >= size then 1 else 0)
    ensures Slot(|Extend(h, size, trbs)|, size)
         == if Slot(|h|, size) + |trbs| >= size then Slot(|h|, size) + |trbs| + 1 - size else Slot(|h|, size) + |trbs|
  {
    if trbs != [] {
      var g := Extend(h, size, trbs[..|trbs| - 1]);
      ExtendLength(h, size, trbs[..|trbs| - 1]);
      Ahead(|g|, size);
      Ahead(|g| + 1, size);
    }
  }

  lemma PutHist(h: seq<TRB>, size: nat, t: TRB)
    requires size >= 2 && HistOK(h, size) && !IsLink(t)
    ensures HistOK(Put(h, size, t), size)
  {
    Ahead(|h|, size);
    var g := if AtLink(|h|, size) then h + [TRB(0, LINK_REST, Bit(|h|, size))] else h;
    assert HistOK(g, size);
  }

  lemma {:induction false} ExtendHist(h: seq<TRB>, size: nat, trbs: seq<TRB>)
    requires size >= 2 && HistOK(h, size) && forall t :: t in trbs ==> !IsLink(t)
    ensures HistOK(Extend(h, size, trbs), size)
  {
    if trbs != [] {
      ExtendHist(h, size, trbs[..|trbs| - 1]);
      PutHist(Extend(h, size, trbs[..|trbs| - 1]), size, trbs[|trbs| - 1]);
    }
  }

  /** Free slots are slots the controller has passed. */
  lemma FreeIsPassed<R>(s: Sys<R>, n: nat)
    requires Inv(s) && s.stored == |s.hist| <= n < |s.hist| + s.size && !AtLink(n, s.size)
    requires s.owner[Slot(n, s.size)].None?
    ensures n < s.read + s.size
  {
    hide HistOK, LinksOK, AheadOK, UnreadOK, Payload;
    if n >= s.size {
      OneRound(n - s.size, s.size);
      assert s.owner[Slot(n - s.size, s.size)].None?;
    }
  }

  /** Giving up a request keeps the invariant exactly when all its blocks have been read. */
  lemma ReleaseExact<R>(s: Sys<R>, r: R)
    requires Inv(s) && s.stored == |s.hist|
    ensures Inv(Apply(s, Action<R>.Release(r))) <==> Safe(s, Action<R>.Release(r))
  {
    hide HistOK, LinksOK, UnreadOK, AheadOK, PartOK, Payload;
    var a := Action<R>.Release(r);
    if Safe(s, a) {
      forall n: nat | s.read <= n < s.stored && !AtLink(n, s.size) ensures Apply(s, a).owner[Slot(n, s.size)].Some? {
        assert !Unread(s, r, n);
      }
    } else {
      var n: nat :| Unread(s, r, n);
      assert Apply(s, a).owner[Slot(n, s.size)].None?;
    }
  }

  /** Otherwise slots are free for blocks to come that the controller has still to pass. */
  lemma EarlyFrees<R>(s: Sys<R>, r: R, n: nat)
    requires Inv(s) && s.stored == |s.hist| && Unread(s, r, n)
    ensures var u := Apply(s, Action<R>.Release(r));
            && |u.hist| <= n + u.size < |u.hist| + u.size && !AtLink(n + u.size, u.size)
            && u.owner[Slot(n + u.size, u.size)].None? && n + u.size >= u.read + u.size
  {
    hide HistOK, LinksOK, UnreadOK, AheadOK, PartOK, Payload;
    OneRound(n, s.size);
  }

  lemma BeginKeeps<R>(s: Sys<R>, r: R, trbs: seq<TRB>)
    requires Inv(s) && Enabled(s, Begin(r, trbs))
    ensures Inv(Apply(s, Begin(r, trbs)))
  {
    var h := Extend(s.hist, s.size, trbs);
    ExtendShape(s.hist, s.size, trbs);
    ExtendLength(s.hist, s.size, trbs);
    ExtendHist(s.hist, s.size, trbs);
    if trbs != [] {
      FreeIsPassed(s, |h| - 1);
    }
    assert h[..s.read] == s.hist[..s.read];
  }

  lemma ActionKeeps<R>(s: Sys<R>, a: Action<R>)
    requires Inv(s) && Enabled(s, a) && Safe(s, a)
    ensures Inv(Apply(s, a))
  {
    match a
    case Begin(r, trbs) => BeginKeeps(s, r, trbs);
    case Store(bit) =>
      if AtLink(s.stored, s.size) || s.phase == 2 { StoreBit(s, bit); } else { StoreData(s, bit); }
    case Read => PollKeeps(s);
    case Release(r) => ReleaseExact(s, r);
  }

  lemma PollSturdy<R>(s: Sys<R>)
    requires Sturdy(s)
    ensures Sturdy(Polled(s))
  {
    hide HistOK;
    Ahead(s.read, s.size);
  }

  lemma StoreSturdy<R>(s: Sys<R>, bit: bool)
    requires Sturdy(s) && s.stored < |s.hist|
    ensures Sturdy(Stored(s, bit))
  {
    var k, u := Slot(s.stored, s.size), Stored(s, bit);
    assert HistOK(s.hist, s.size);
    LinksSame(s.mem, k, u.mem[k]);
  }

  /** Whenever requests are given up, the shape of the ring stays. */
  lemma ActionSturdy<R>(s: Sys<R>, a: Action<R>)
    requires Sturdy(s) && Enabled(s, a)
    ensures Sturdy(Apply(s, a))
  {
    match a
    case Begin(r, trbs) =>
      ExtendShape(s.hist, s.size, trbs);
      ExtendHist(s.hist, s.size, trbs);
    case Store(bit) => StoreSturdy(s, bit);
    case Read => PollSturdy(s);
    case Release(r) =>
  }

  // ---------- every run ----------

  ghost predicate Legal<R>(s: Sys<R>, run: seq<Action<R>>)
    decreases |run|
  {
    run == [] || (Shape(s) && Enabled(s, run[0]) && Legal(Apply(s, run[0]), run[1..]))
  }

  ghost function After<R>(s: Sys<R>, run: seq<Action<R>>): Sys<R>
    requires Legal(s, run)
    decreases |run|
  {
    if run == [] then s else After(Apply(s, run[0]), run[1..])
  }

  /** A legal run in which no request is given up early. */
  ghost predicate Prompt<R>(s: Sys<R>, run: seq<Action<R>>)
    decreases |run|
  {
    run == [] || (Shape(s) && Enabled(s, run[0]) && Safe(s, run[0]) && Prompt(Apply(s, run[0]), run[1..]))
  }

  /** The blocks of all requests inserted by a run, in order. */
  ghost function Requested<R>(run: seq<Action<R>>): seq<Work>
  {
    if run == [] then [] else Asked(run[0]) + Requested(run[1..])
  }

  ghost function Asked<R>(a: Action<R>): seq<Work>
  {
    if a.Begin? then Works(a.trbs) else []
  }

  ghost function Works(trbs: seq<TRB>): seq<Work>
  {
    seq(|trbs|, i requires 0 <= i < |trbs| => WorkOf(trbs[i]))
  }

  lemma InitInv<R>(size: nat)
    requires size >= 2
    ensures Inv(Init<R>(size))
  {
    var s := Init<R>(size);
    forall n: nat | n < size ensures s.mem[Slot(n, size)].cycle != Bit(n, size) {
      FirstRound(n, size);
    }
  }

  lemma WorksMore(trbs: seq<TRB>)
    requires trbs != []
    ensures Works(trbs) == Works(trbs[..|trbs| - 1]) + [WorkOf(trbs[|trbs| - 1])]
  {
  }

  /** An insertion adds the request's blocks, in order and none other. */
  lemma {:induction false} ExtendPayload(h: seq<TRB>, size: nat, trbs: seq<TRB>)
    requires size >= 2 && forall t :: t in trbs ==> !IsLink(t)
    ensures Payload(Extend(h, size, trbs)) == Payload(h) + Works(trbs)
  {
    if trbs == [] {
      assert Works(trbs) == [];
    } else {
      hide Works, Payload, Put;
      var most, t := trbs[..|trbs| - 1], trbs[|trbs| - 1];
      ExtendPayload(h, size, most);
      PutPayload(Extend(h, size, most), size, t);
      WorksMore(trbs);
      Joined(Payload(h), Works(most), [WorkOf(t)]);
    }
  }

  lemma PutPayload(h: seq<TRB>, size: nat, t: TRB)
    requires size >= 2 && !IsLink(t)
    ensures Payload(Put(h, size, t)) == Payload(h) + [WorkOf(t)]
  {
    var l := TRB(0, LINK_REST, Bit(|h|, size));
    var g := if AtLink(|h|, size) then h + [l] else h;
    assert (h + [l])[..|h|] == h;
    assert Payload(g) == Payload(h);
    assert Put(h, size, t)[..|g|] == g;
  }

  lemma {:induction false} PayloadSplit(h: seq<TRB>, n: nat)
    requires n <= |h|
    ensures Payload(h[..n]) <= Payload(h)
    decreases |h|
  {
    if n < |h| {
      PayloadSplit(h[..|h| - 1], n);
      assert h[..|h| - 1][..n] == h[..n];
    } else {
      assert h[..n] == h;
    }
  }

  lemma ActionPayload<R>(s: Sys<R>, a: Action<R>)
    requires Shape(s) && Enabled(s, a)
    ensures Payload(Apply(s, a).hist) == Payload(s.hist) + Asked(a)
  {
    if a.Begin? {
      ExtendPayload(s.hist, s.size, a.trbs);
    }
  }

  lemma {:induction false} RunKeeps<R>(s: Sys<R>, run: seq<Action<R>>)
    requires Inv(s) && Prompt(s, run)
    ensures Legal(s, run) && Inv(After(s, run))
    decreases |run|
  {
    if run != [] {
      ActionKeeps(s, run[0]);
      RunKeeps(Apply(s, run[0]), run[1..]);
    }
  }

  lemma {:induction false} RunPayload<R>(s: Sys<R>, run: seq<Action<R>>)
    requires Legal(s, run)
    ensures Payload(After(s, run).hist) == Payload(s.hist) + Requested(run)
    decreases |run|
  {
    if run != [] {
      ActionPayload(s, run[0]);
      RunPayload(Apply(s, run[0]), run[1..]);
      Joined(Payload(s.hist), Asked(run[0]), Requested(run[1..]));
    }
  }

  lemma {:induction false} RunSturdy<R>(s: Sys<R>, run: seq<Action<R>>)
    requires Sturdy(s) && Legal(s, run)
    ensures Sturdy(After(s, run))
    decreases |run|
  {
    if run != [] {
      ActionSturdy(s, run[0]);
      RunSturdy(Apply(s, run[0]), run[1..]);
    }
  }

  /** Whatever the interleaving of stores, polls and releases, the controller has taken a prefix
      of what was requested, in order; and when it waits with no store pending, all of it. */
  lemma Delivery<R>(size: nat, run: seq<Action<R>>)
    requires size >= 2 && Prompt(Init<R>(size), run)
    ensures Legal(Init<R>(size), run)
    ensures var s := After(Init<R>(size), run);
            && s.log <= Requested(run)
            && (s.stored == |s.hist| && Waiting(s) ==> s.log == Requested(run))
  {
    InitInv<R>(size);
    RunKeeps(Init<R>(size), run);
    var s := After(Init<R>(size), run);
    RunPayload(Init<R>(size), run);
    PayloadSplit(s.hist, s.read);
    if s.stored == |s.hist| && Waiting(s) {
      CaughtUp(s);
      assert s.hist[..s.read] == s.hist;
    }
  }

  /** The controller does not stop before a stored block. */
  lemma CaughtUp<R>(s: Sys<R>)
    requires Inv(s) && Waiting(s)
    ensures s.read >= s.stored
  {
    assert s.mem[Slot(s.read, s.size)] == s.mem[s.cpos];
  }

  /** A run can be continued by any action that is enabled after it. */
  lemma {:induction false} Continue<R>(s: Sys<R>, run: seq<Action<R>>, a: Action<R>)
    requires Legal(s, run) && Shape(After(s, run)) && Enabled(After(s, run), a)
    ensures Legal(s, run + [a]) && After(s, run + [a]) == Apply(After(s, run), a)
    ensures Requested(run + [a]) == Requested(run) + Asked(a)
    ensures Prompt(s, run + [a]) <==> Prompt(s, run) && Safe(After(s, run), a)
    decreases |run|
  {
    if run == [] {
      assert run + [a] == [a];
    } else {
      Continue(Apply(s, run[0]), run[1..], a);
      assert (run + [a])[1..] == run[1..] + [a];
      Joined(Asked(run[0]), Requested(run[1..]), Asked(a));
    }
  }

  /** How the first `i + 1` blocks extend the first `i`, and where block `i` is. */
  lemma {:induction false} ExtendStep(h: seq<TRB>, size: nat, trbs: seq<TRB>, i: nat)
    requires size >= 2 && i < |trbs|
    ensures Extend(h, size, trbs[..i + 1]) == Put(Extend(h, size, trbs[..i]), size, trbs[i])
    ensures Extend(h, size, trbs[..i + 1]) <= Extend(h, size, trbs)
    decreases |trbs|
  {
    assert trbs[..i + 1][..i] == trbs[..i];
    if i + 1 < |trbs| {
      var most := trbs[..|trbs| - 1];
      ExtendStep(h, size, most, i);
      assert most[..i] == trbs[..i] && most[..i + 1] == trbs[..i + 1] && most[i] == trbs[i];
    } else {
      assert trbs[..i + 1] == trbs;
    }
  }

  // ---------- a request given up early ----------

  /** Every slot but the link belongs to a request, and every slot still has a block to be read, but
      the controller does not see the one it has come to. */
  ghost predicate Stuck<R>(s: Sys<R>)
  {
    && Shape(s) && s.stored == |s.hist| && Waiting(s)
    && (forall i :: 0 <= i < s.size - 1 ==> s.owner[i].Some? && StillDue(s.read, |s.hist|, s.size, i))
  }

  ghost predicate StillDue(read: nat, stored: nat, size: nat, i: nat)
    requires size > 0
  {
    exists n: nat :: read <= n < stored && Slot(n, size) == i
  }

  lemma NeedsSlot<R>(s: Sys<R>, trbs: seq<TRB>)
    requires Shape(s) && trbs != []
    ensures Fits(s, trbs) ==> exists i :: 0 <= i < s.size - 1 && s.owner[i].None?
  {
    ExtendShape(s.hist, s.size, trbs);
    var m := |Extend(s.hist, s.size, trbs)| - 1;
    assert Slot(m, s.size) < s.size - 1;
    assert Fits(s, trbs) ==> s.owner[Slot(m, s.size)].None?;
  }

  lemma StuckStep<R>(s: Sys<R>, a: Action<R>)
    requires Stuck(s) && Enabled(s, a) && Safe(s, a)
    ensures Stuck(Apply(s, a)) && Apply(s, a).log == s.log && Apply(s, a).mem == s.mem
  {
    match a
    case Begin(r, trbs) =>
      if trbs != [] { NeedsSlot(s, trbs); }
    case Release(r) => StuckRelease(s, r);
    case _ =>
  }

  lemma StuckRelease<R>(s: Sys<R>, r: R)
    requires Stuck(s) && Safe(s, Action<R>.Release(r))
    ensures forall i :: 0 <= i < s.size - 1 ==> Cleared(s.owner, r)[i] == s.owner[i]
  {
    forall i | 0 <= i < s.size - 1 ensures s.owner[i] != Some(r) {
      assert StillDue(s.read, |s.hist|, s.size, i);
      var n: nat :| s.read <= n < |s.hist| && Slot(n, s.size) == i;
      assert !Unread(s, r, n);
    }
  }

  /** Nothing gets a stuck ring going again: the controller never takes another block. */
  lemma {:induction false} StuckForever<R>(s: Sys<R>, run: seq<Action<R>>)
    requires Stuck(s) && Prompt(s, run)
    ensures Legal(s, run) && Stuck(After(s, run)) && After(s, run).log == s.log
    decreases |run|
  {
    if run != [] {
      hide Stuck, Safe;
      StuckStep(s, run[0]);
      StuckForever(Apply(s, run[0]), run[1..]);
    }
  }

  /** One run after the other. */
  lemma {:induction false} Chain<R>(s: Sys<R>, run: seq<Action<R>>, more: seq<Action<R>>)
    requires Legal(s, run) && Legal(After(s, run), more)
    ensures Legal(s, run + more) && After(s, run + more) == After(After(s, run), more)
    decreases |run|
  {
    hide Shape, Enabled, Apply;
    if run == [] {
      assert run + more == more;
    } else {
      Chain(Apply(s, run[0]), run[1..], more);
      assert (run + more)[1..] == run[1..] + more;
    }
  }

  lemma OneStep<R>(s: Sys<R>, a: Action<R>)
    requires Shape(s) && Enabled(s, a)
    ensures Legal(s, [a]) && After(s, [a]) == Apply(s, a)
  {
    assert [a][1..] == [];
  }

  /** The three stores of a block, with no poll in between. */
  lemma StoreBlock<R>(s: Sys<R>) returns (run: seq<Action<R>>)
    requires Shape(s) && s.stored < |s.hist| && s.phase == 0 && !AtLink(s.stored, s.size)
    ensures run == [Store(false), Store(false), Store(false)] && Legal(s, run)
    ensures var k := Slot(s.stored, s.size);
            After(s, run)
            == s.(mem := s.mem[k := s.hist[s.stored]], owner := s.owner[k := s.holder], stored := s.stored + 1)
  {
    var a := Action<R>.Store(false);
    var s1 := Apply(s, a);
    var s2 := Apply(s1, a);
    OneStep(s, a);
    OneStep(s1, a);
    OneStep(s2, a);
    Chain(s, [a], [a]);
    Chain(s, [a] + [a], [a]);
    run := [a] + [a] + [a];
  }

  /** And those of the next one. */
  lemma StoreTwo<R>(s: Sys<R>) returns (run: seq<Action<R>>)
    requires Shape(s) && s.stored + 1 < |s.hist| && s.phase == 0
    requires !AtLink(s.stored, s.size) && !AtLink(s.stored + 1, s.size)
    ensures run == [Store(false), Store(false), Store(false)] + [Store(false), Store(false), Store(false)]
    ensures Legal(s, run)
    ensures var k, l := Slot(s.stored, s.size), Slot(s.stored + 1, s.size);
            After(s, run)
            == s.(mem := s.mem[k := s.hist[s.stored]][l := s.hist[s.stored + 1]],
                  owner := s.owner[k := s.holder][l := s.holder], stored := s.stored + 2)
  {
    var a := StoreBlock(s);
    var b := StoreBlock(After(s, a));
    Chain(s, a, b);
    run := a + b;
  }

  /** A block for `data`. */
  function Plain(data: nat): TRB { TRB(data, Rest(0, 1, false, 0), false) }

  lemma ThreeSlots()
    ensures Slot(0, 3) == Slot(3, 3) == 0 && Slot(1, 3) == Slot(4, 3) == 1 && Slot(2, 3) == 2 && Slot(5, 3) == 2
    ensures Bit(0, 3) && Bit(1, 3) && Bit(2, 3) && !Bit(3, 3) && !Bit(4, 3)
  {
    assert Slot(1, 3) == 1 && Slot(2, 3) == 2 && Slot(3, 3) == 0 && Slot(4, 3) == 1;
    assert Bit(1, 3) && Bit(2, 3) && !Bit(3, 3) && !Bit(4, 3);
  }

  const WRITE: seq<Action<nat>> := [Store(false), Store(false), Store(false)]

  /** The first request is stored and given up after its first block was read. */
  const FIRST: seq<Action<nat>> := [Begin(1, [Plain(1), Plain(2)])] + WRITE + WRITE + [Read, Release(1)]

  /** The second one is stored over it, with the link in between. */
  const SECOND: seq<Action<nat>> := [Begin(2, [Plain(3), Plain(4)]), Store(false)] + WRITE + WRITE

  function Bitten(data: nat, bit: bool): TRB { Plain(data).(cycle := bit) }

  ghost function AfterFirst(): Sys<nat>
  {
    Sys(3, [Bitten(1, true), Bitten(2, true), TRB(0, LINK_REST, false)], [None, None, None],
        [Bitten(1, true), Bitten(2, true)], Some(1), 2, 0, 1, true, [WorkOf(Plain(1))], 1)
  }

  ghost function AfterSecond(): Sys<nat>
  {
    Sys(3, [Bitten(3, false), Bitten(4, false), TRB(0, LINK_REST, true)], [Some(2), Some(2), None],
        [Bitten(1, true), Bitten(2, true), TRB(0, LINK_REST, true), Bitten(3, false), Bitten(4, false)],
        Some(2), 5, 0, 1, true, [WorkOf(Plain(1))], 1)
  }

  lemma TwoPut(h: seq<TRB>, size: nat, a: TRB, b: TRB)
    requires size > 0
    ensures Extend(h, size, [a, b]) == Put(Put(h, size, a), size, b)
  {
    assert [a, b][..|[a, b]| - 1] == [a] && [a][..|[a]| - 1] == [];
    assert Extend(h, size, [a]) == Put(h, size, a);
  }

  lemma RunFirst()
    ensures Legal(Init<nat>(3), FIRST) && After(Init<nat>(3), FIRST) == AfterFirst()
  {
    hide Legal, After, Slot, Bit;
    ThreeSlots();
    TwoPut([], 3, Plain(1), Plain(2));
    var s0 := Init<nat>(3);
    var a := Begin(1, [Plain(1), Plain(2)]);
    OneStep(s0, a);
    var s1 := Apply(s0, a);
    var stores := StoreTwo(s1);
    var s2 := After(s1, stores);
    OneStep(s2, Read);
    var s3 := Apply(s2, Read);
    OneStep(s3, Release(1));
    assert Apply(s3, Release(1)) == AfterFirst();
    hide *;
    Chain(s0, [a], stores);
    Chain(s2, [Read], [Release(1)]);
    Chain(s0, [a] + stores, [Read] + [Release(1)]);
    FirstIs(stores);
  }

  lemma FirstIs(stores: seq<Action<nat>>)
    requires stores == WRITE + WRITE
    ensures [Action<nat>.Begin(1, [Plain(1), Plain(2)])] + stores + ([Read] + [Release(1)]) == FIRST
  {
  }

  lemma RunSecond()
    ensures Legal(AfterFirst(), SECOND) && After(AfterFirst(), SECOND) == AfterSecond()
  {
    hide Legal, After, Slot, Bit;
    ThreeSlots();
    var s0 := AfterFirst();
    TwoPut(s0.hist, 3, Plain(3), Plain(4));
    var a := Begin(2, [Plain(3), Plain(4)]);
    OneStep(s0, a);
    var s1 := Apply(s0, a);
    OneStep(s1, Store(false));
    var s2 := Apply(s1, Store(false));
    var stores := StoreTwo(s2);
    assert After(s2, stores) == AfterSecond();
    hide *;
    Chain(s0, [a], [Store(false)]);
    Chain(s0, [a] + [Store(false)], stores);
    SecondIs(stores);
  }

  lemma SecondIs(stores: seq<Action<nat>>)
    requires stores == WRITE + WRITE
    ensures [Action<nat>.Begin(2, [Plain(3), Plain(4)])] + [Store(false)] + stores == SECOND
  {
  }

  /** A request given up early is lost for good: an insertion that fits overwrites its second block, which
      the controller never takes, nor any block after it. */
  lemma Lost()
    ensures Legal(Init<nat>(3), FIRST + SECOND)
    ensures var s := After(Init<nat>(3), FIRST + SECOND);
            && Stuck(s) && s.size == 3 && s.log == [WorkOf(Plain(1))]
            && (forall i :: 0 <= i < 3 ==> WorkOf(s.mem[i]) != WorkOf(Plain(2)))
    ensures Requested(FIRST + SECOND)
         == [WorkOf(Plain(1)), WorkOf(Plain(2)), WorkOf(Plain(3)), WorkOf(Plain(4))]
  {
    hide FIRST, SECOND, WRITE;
    RunFirst();
    RunSecond();
    Chain(Init<nat>(3), FIRST, SECOND);
    RunPayload(Init<nat>(3), FIRST + SECOND);
    IsStuck();
    FivePayload();
  }

  lemma IsStuck()
    ensures Stuck(AfterSecond())
  {
    ThreeSlots();
    var s := AfterSecond();
    assert s.read <= 3 < |s.hist| && Slot(3, s.size) == 0;
    assert s.read <= 4 < |s.hist| && Slot(4, s.size) == 1;
  }

  lemma FivePayload()
    ensures Payload(AfterSecond().hist)
         == [WorkOf(Plain(1)), WorkOf(Plain(2)), WorkOf(Plain(3)), WorkOf(Plain(4))]
  {
    var h := AfterSecond().hist;
    PayloadPrefix(h, 0);
    PayloadPrefix(h, 1);
    PayloadPrefix(h, 2);
    PayloadPrefix(h, 3);
    PayloadPrefix(h, 4);
    assert h[..5] == h && h[..0] == [];
  }
}
