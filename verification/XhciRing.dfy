/** The ring structure of kernel/hardware/USB/XHCI/api.c, stored to one quad at a time while the
    controller may poll. Addresses of ring entries are slot numbers. */
module XhciRing {
  import opened Basics
  import opened Cycles
  import opened RingProtocol

  class Request {
    var trb: seq<TRB>
    /** The slots the request occupies, as `target` points to their `reqSrc` entries. */
    var target: seq<nat>
    var res: TRB
    var finished: bool

    constructor (trbs: seq<TRB>)
      ensures trb == trbs && |target| == |trbs| && !finished
    {
      trb, target, res, finished := trbs, seq(|trbs|, _ => 0), BLANK, false;
    }
  }

  const POS_MAX: nat := 16

  class Ring {
    const size: nat
    const ring: array<TRB>
    const reqSrc: array<Request?>
    var cur: nat
    var curPos: nat
    var cycBit: bool
    /** Everything the driver and the controller have done, and the state it led to. */
    ghost var past: seq<Action<Request>>
    ghost var sys: Sys<Request>
    ghost var inRing: set<Request>

    ghost predicate Follows()
      reads this`past, this`sys
    {
      && size >= 2 && Legal(Init<Request>(size), past) && sys == After(Init<Request>(size), past) && Sturdy(sys)
      && sys.size == size
    }

    /** So far no request was given up before all its blocks were read. */
    ghost predicate InTime(p: seq<Action<Request>>)
    {
      size >= 2 && Prompt(Init<Request>(size), p)
    }

    /** Run `q` asks for the same blocks as `p`, and neither gives up a request early that the other does not. */
    ghost predicate SameAsk(p: seq<Action<Request>>, q: seq<Action<Request>>)
    {
      Requested(q) == Requested(p) && (InTime(q) <==> InTime(p))
    }

    ghost function Owner(r: Request?): Option<Request>
    {
      if r == null then None else var q: Request := r; Some(q)
    }

    /** The memory is what the protocol says it is. */
    ghost predicate Coupled()
      reads this`past, this`sys, ring, reqSrc
    {
      && Follows() && ring.Length == reqSrc.Length == size && ring[..] == sys.mem
      && (forall i :: 0 <= i < size ==> sys.owner[i] == Owner(reqSrc[i]))
    }

    ghost predicate Cursor(n: nat)
      reads this`cur, this`curPos, this`cycBit
      requires size > 0
    {
      cur == curPos == Slot(n, size) && cycBit == Bit(n, size)
    }

    /** Each request in the ring knows exactly the slots it occupies. */
    ghost predicate Targets()
      reads this`inRing, reqSrc, inRing`target
    {
      && (forall r, j :: r in inRing && 0 <= j < |r.target| ==> r.target[j] < reqSrc.Length && reqSrc[r.target[j]] == r)
      && (forall i :: 0 <= i < reqSrc.Length && reqSrc[i] != null ==> reqSrc[i] in inRing && i in reqSrc[i].target)
    }

    /** Between calls, with the lock free. */
    ghost predicate Valid()
      reads this, ring, reqSrc, inRing
    {
      Coupled() && sys.stored == |sys.hist| && Cursor(|sys.hist|) && Targets()
    }

    constructor (n: nat)
      requires n >= 2
      ensures Valid() && size == n && past == [] && inRing == {}
    {
      size := n;
      ring := new TRB[n](i => if i == n - 1 then TRB(0, LINK_REST, false) else BLANK);
      reqSrc := new Request?[n](_ => null);
      cur, curPos, cycBit := 0, 0, true;
      past, inRing, sys := [], {}, Init<Request>(n);
      new;
      InitInv<Request>(n);
    }

    /** As long as no request was given up early, what the controller has taken is a prefix of what was
        requested; when it waits, everything was taken. */
    lemma Delivered()
      requires Valid() && InTime(past)
      ensures sys.log <= Requested(past)
      ensures Waiting(sys) ==> sys.log == Requested(past)
    {
      Delivery<Request>(size, past);
    }

    // ---------- the actions ----------

    ghost method Did(a: Action<Request>)
      requires Follows() && Enabled(sys, a)
      modifies this`past, this`sys
      ensures Follows() && past == old(past) + [a] && sys == Apply(old(sys), a)
      ensures Requested(past) == Requested(old(past)) + Asked(a)
      ensures InTime(past) <==> InTime(old(past)) && Safe(old(sys), a)
    {
      Continue(Init<Request>(size), past, a);
      ActionSturdy(sys, a);
      past, sys := past + [a], Apply(sys, a);
    }

    /** What polls leave alone. */
    ghost predicate OnlyPolled(s: Sys<Request>, t: Sys<Request>)
    {
      && t.mem == s.mem && t.owner == s.owner && t.hist == s.hist && t.holder == s.holder
      && t.stored == s.stored && t.phase == s.phase && t.size == s.size
    }

    /** Any number of polls. */
    ghost method Controller()
      requires Follows()
      modifies this`past, this`sys
      ensures Follows() && OnlyPolled(old(sys), sys) && SameAsk(old(past), past)
    {
      var polls: nat :| polls >= 0;
      while polls > 0
        invariant Follows() && OnlyPolled(old(sys), sys) && SameAsk(old(past), past)
      {
        Did(Read);
        polls := polls - 1;
      }
    }

    /** One store by the driver, then any number of polls. */
    ghost method DidStore(bit: bool)
      requires Follows() && sys.stored < |sys.hist|
      modifies this`past, this`sys
      ensures Follows() && OnlyPolled(Stored(old(sys), bit), sys) && SameAsk(old(past), past)
    {
      Did(Store(bit));
      Controller();
    }

    // ---------- the first pass of an insertion ----------

    /** How many slots the cursor would pass. */
    ghost function SlotsNeeded(trbs: seq<TRB>): nat
      reads this
      requires size > 0
    {
      |trbs| + (if curPos + |trbs| >= size then 1 else 0)
    }

    /** Where the cursor stands after `i` blocks of the request: with `passed`, beyond the link too. */
    ghost predicate At(h: seq<TRB>, trbs: seq<TRB>, i: nat, n: nat, passed: bool)
      requires size > 0 && i <= |trbs|
    {
      var g := Extend(h, size, trbs[..i]);
      && (if passed then i < |trbs| && AtLink(|g|, size) && n == |g| + 1 else n == |g|)
      && n <= |Extend(h, size, trbs)|
    }

    /** One slot more. */
    lemma Advance(h: seq<TRB>, trbs: seq<TRB>, i: nat, n: nat, passed: bool)
      requires size >= 2 && i < |trbs| && At(h, trbs, i, n, passed)
      ensures h <= Extend(h, size, trbs) && n < |Extend(h, size, trbs)|
      ensures AtLink(n, size) ==> !passed && At(h, trbs, i, n + 1, true)
      ensures !AtLink(n, size) ==> At(h, trbs, i + 1, n + 1, false)
      ensures !AtLink(n, size) ==> Extend(h, size, trbs)[n] == trbs[i].(cycle := Bit(n, size))
    {
      ExtendShape(h, size, trbs);
      ExtendStep(h, size, trbs, i);
      Ahead(|Extend(h, size, trbs[..i])|, size);
    }

    /** The last block is at the end of the extension. */
    lemma Arrived(h: seq<TRB>, trbs: seq<TRB>, n: nat, passed: bool)
      requires size >= 2 && At(h, trbs, |trbs|, n, passed)
      ensures !passed && n == |Extend(h, size, trbs)|
    {
      assert trbs[..|trbs|] == trbs;
    }

    ghost predicate Arrays()
      reads ring, reqSrc
    {
      size >= 2 && ring.Length == reqSrc.Length == size && LinksOK(ring[..])
    }

    ghost predicate FreeBetween(from: nat, to: nat)
      reads reqSrc
      requires size >= 2 && reqSrc.Length == size
    {
      forall m: nat :: from <= m < to && !AtLink(m, size) ==> reqSrc[Slot(m, size)] == null
    }

    lemma FitsIsFree(trbs: seq<TRB>)
      requires Coupled()
      ensures Arrays()
      ensures Fits(sys, trbs) <==> FreeBetween(|sys.hist|, |Extend(sys.hist, size, trbs)|)
    {
      forall m: nat ensures sys.owner[Slot(m, size)].None? <==> reqSrc[Slot(m, size)] == null {
      }
    }

    /** Moves the cursor past the link, if that is where it is. */
    method PassLink(ghost n: nat) returns (link: bool)
      requires Arrays() && Cursor(n)
      modifies this`cur, this`curPos, this`cycBit
      ensures link <==> AtLink(n, size)
      ensures Cursor(if link then n + 1 else n)
    {
      Ahead(n, size);
      link := ring[cur].rest.kind == TYPE_LINK;
      if link {
        if ring[cur].rest.toggle { cycBit := !cycBit; }
        cur := ring[cur].data;
        curPos := cur;
      }
    }

    method PassSlot(ghost n: nat)
      requires size >= 2 && Cursor(n) && !AtLink(n, size)
      modifies this`cur, this`curPos, this`cycBit
      ensures Cursor(n + 1)
    {
      Ahead(n, size);
      cur, curPos := cur + 1, curPos + 1;
    }

    /** The slots and cycle bits of the indices from `from` on. */
    ghost predicate Noted(pos: array<nat>, cyc: array<bool>, from: nat, k: nat)
      requires size > 0 && k <= pos.Length == cyc.Length
      reads pos, cyc
    {
      forall j :: 0 <= j < k ==> pos[j] == Slot(from + j, size) && cyc[j] == Bit(from + j, size)
    }

    method Note(pos: array<nat>, cyc: array<bool>, ghost from: nat, k: nat)
      requires size > 0 && k < pos.Length == cyc.Length && Noted(pos, cyc, from, k) && Cursor(from + k)
      modifies pos, cyc
      ensures Noted(pos, cyc, from, k + 1)
    {
      pos[k], cyc[k] := curPos, cycBit;
    }

    lemma FreeMore(from: nat, n: nat)
      requires size >= 2 && reqSrc.Length == size && FreeBetween(from, n)
      requires AtLink(n, size) || reqSrc[Slot(n, size)] == null
      ensures FreeBetween(from, n + 1)
    {
    }

    ghost predicate Scanning(trbs: seq<TRB>, h: seq<TRB>, i: nat, k: nat, passed: bool, pos: array<nat>,
                             cyc: array<bool>)
      requires Arrays() && i <= |trbs| && k <= pos.Length == cyc.Length
      reads ring, reqSrc, this`cur, this`curPos, this`cycBit, pos, cyc
    {
      && At(h, trbs, i, |h| + k, passed) && Cursor(|h| + k)
      && Noted(pos, cyc, |h|, k) && FreeBetween(|h|, |h| + k)
    }

    /** One round of the first pass: past the link, past a free slot, or stopped at a busy one. */
    method ScanOne(trbs: seq<TRB>, ghost h: seq<TRB>, ghost i: nat, k: nat, ghost passed: bool, pos: array<nat>,
                   cyc: array<bool>)
      returns (link: bool, busy: bool)
      requires Arrays() && i < |trbs| && k <= pos.Length == cyc.Length && Scanning(trbs, h, i, k, passed, pos, cyc)
      requires |Extend(h, size, trbs)| <= |h| + pos.Length
      modifies this`cur, this`curPos, this`cycBit, pos, cyc
      ensures k < pos.Length
      ensures busy ==> !link && !FreeBetween(|h|, |Extend(h, size, trbs)|)
      ensures link ==> !passed && Scanning(trbs, h, i, k + 1, true, pos, cyc)
      ensures !link && !busy ==> Scanning(trbs, h, i + 1, k + 1, false, pos, cyc)
    {
      ghost var n := |h| + k;
      Advance(h, trbs, i, n, passed);
      Note(pos, cyc, |h|, k);
      link := PassLink(n);
      busy := !link && reqSrc[curPos] != null;
      if !busy {
        FreeMore(|h|, n);
      }
      if !link && !busy {
        PassSlot(n);
      }
    }

    lemma ScanStart(trbs: seq<TRB>, h: seq<TRB>)
      requires Arrays()
      ensures At(h, trbs, 0, |h|, false) && FreeBetween(|h|, |h|)
    {
      ExtendShape(h, size, trbs);
    }

    lemma ScanDone(trbs: seq<TRB>, h: seq<TRB>, k: nat, passed: bool, pos: array<nat>, cyc: array<bool>)
      requires Arrays() && k <= pos.Length == cyc.Length && Scanning(trbs, h, |trbs|, k, passed, pos, cyc)
      ensures Noted(pos, cyc, |h|, k) && |h| + k == |Extend(h, size, trbs)| && Cursor(|h| + k)
      ensures FreeBetween(|h|, |Extend(h, size, trbs)|)
    {
      Arrived(h, trbs, |h| + k, passed);
    }

    /** Records the slots and cycle bits for the request, moving the cursor on. */
    method Scan(trbs: seq<TRB>, ghost h: seq<TRB>) returns (full: bool, pos: array<nat>, cyc: array<bool>, trbC: nat)
      requires Arrays() && Cursor(|h|) && |trbs| < size && SlotsNeeded(trbs) <= POS_MAX
      modifies this`cur, this`curPos, this`cycBit
      ensures fresh(pos) && fresh(cyc) && pos.Length == cyc.Length == POS_MAX
      ensures full <==> !FreeBetween(|h|, |Extend(h, size, trbs)|)
      ensures !full ==> trbC <= POS_MAX && Noted(pos, cyc, |h|, trbC)
      ensures !full ==> |h| + trbC == |Extend(h, size, trbs)| && Cursor(|h| + trbC)
    {
      hide At, FreeBetween, Extend, Slot, Bit;
      ScanStart(trbs, h);
      pos, cyc, trbC, full := new nat[POS_MAX], new bool[POS_MAX], 0, false;
      var i := 0;
      ghost var passed := false;
      ExtendLength(h, size, trbs);
      while i < |trbs| && !full
        invariant i <= |trbs| && trbC <= POS_MAX
        invariant full ==> !FreeBetween(|h|, |Extend(h, size, trbs)|)
        invariant !full ==> Scanning(trbs, h, i, trbC, passed, pos, cyc)
        decreases !full, |trbs| - i, !passed
      {
        var link;
        link, full := ScanOne(trbs, h, i, trbC, passed, pos, cyc);
        trbC := trbC + 1;
        passed := link;
        if !link && !full { i := i + 1; }
      }
      if !full {
        ScanDone(trbs, h, trbC, passed, pos, cyc);
      }
    }

    // ---------- the second pass: stores ----------

    /** Store number `phase` of the block of index `n` is next. */
    ghost predicate Due(n: nat, phase: nat)
      reads this`past, this`sys, ring, reqSrc
    {
      && Coupled() && sys.stored == n < |sys.hist| && sys.phase == phase
      && (phase > 0 ==> !AtLink(n, size))
    }

    ghost predicate SameJob(s: Sys<Request>, t: Sys<Request>)
    {
      t.hist == s.hist && t.holder == s.holder
    }

    /** First quad of a copy. */
    method WriteData(k: nat, data: nat, ghost n: nat)
      requires Due(n, 0) && !AtLink(n, size) && k == Slot(n, size) && data == sys.hist[n].data
      modifies ring, this`past, this`sys
      ensures Due(n, 1) && SameJob(old(sys), sys) && SameAsk(old(past), past)
    {
      ring[k] := ring[k].(data := data);
      DidStore(false);
    }

    /** Second quad of a copy, with the cycle bit of the request's own block. */
    method WriteRest(k: nat, rest: Rest, bit: bool, ghost n: nat)
      requires Due(n, 1) && k == Slot(n, size) && rest == sys.hist[n].rest
      modifies ring, this`past, this`sys
      ensures Due(n, 2) && SameJob(old(sys), sys) && SameAsk(old(past), past)
    {
      ring[k] := ring[k].(rest := rest, cycle := bit);
      DidStore(bit);
    }

    /** The cycle bit of a copied block, whose slot is now the request's. */
    method Publish(k: nat, c: bool, req: Request, ghost n: nat)
      requires Due(n, 2) && k == Slot(n, size) && c == Bit(n, size) && sys.holder == Some(req)
      modifies ring, reqSrc, this`past, this`sys
      ensures Coupled() && sys.stored == n + 1 && sys.phase == 0 && SameJob(old(sys), sys)
      ensures SameAsk(old(past), past) && reqSrc[..] == old(reqSrc[..])[k := req]
    {
      reqSrc[k] := req;
      ring[k] := ring[k].(cycle := c);
      DidStore(false);
    }

    /** The cycle bit of the link. */
    method PublishLink(k: nat, c: bool, ghost n: nat)
      requires Due(n, 0) && AtLink(n, size) && k == Slot(n, size) && c == Bit(n, size)
      modifies ring, this`past, this`sys
      ensures Coupled() && sys.stored == n + 1 && sys.phase == 0 && SameJob(old(sys), sys)
      ensures SameAsk(old(past), past)
    {
      ring[k] := ring[k].(cycle := c);
      DidStore(false);
    }

    /** `now` is `src` with free slots given to `req`. */
    ghost predicate Taken(src: seq<Request?>, now: seq<Request?>, req: Request)
    {
      && |src| == |now|
      && (forall i :: 0 <= i < |src| ==> now[i] == src[i] || (now[i] == req && src[i] == null))
    }

    /** The first `k` blocks of `req` have their slots, and it has no others. */
    ghost predicate Placed(now: seq<Request?>, target: seq<nat>, req: Request, k: nat)
    {
      && k <= |target|
      && (forall j :: 0 <= j < k ==> target[j] < |now| && now[target[j]] == req)
      && (forall i :: 0 <= i < |now| && now[i] == req ==> i in target[..k])
    }

    lemma PlaceOne(src: seq<Request?>, now: seq<Request?>, target: seq<nat>, req: Request, k: nat, slot: nat)
      requires Taken(src, now, req) && Placed(now, target, req, k) && k < |target| && slot < |now| && src[slot] == null
      ensures Taken(src, now[slot := req], req) && Placed(now[slot := req], target[k := slot], req, k + 1)
    {
      var t := target[k := slot];
      assert t[..k + 1] == target[..k] + [slot];
    }

    /** What an insertion in progress has stored: everything below index `n`. */
    ghost predicate Storing(req: Request, h: seq<TRB>, n: nat)
      reads this`past, this`sys, ring, reqSrc
    {
      && Coupled() && sys.stored == n <= |sys.hist| && sys.phase == 0 && sys.holder == Some(req) && sys.hist == h
    }

    /** The slots its first `i` blocks took. */
    ghost predicate Booked(req: Request, src: seq<Request?>, i: nat)
      reads reqSrc, req`trb, req`target
    {
      && |req.target| == |req.trb| && i <= |req.trb|
      && Taken(src, reqSrc[..], req) && Placed(reqSrc[..], req.target, req, i)
    }

    ghost predicate SrcFree(src: seq<Request?>, from: nat, to: nat)
      requires size > 0 && |src| == size
    {
      forall m: nat :: from <= m < to && !AtLink(m, size) ==> src[Slot(m, size)] == null
    }

    /** Copies a block and sets its cycle bit. */
    method Copy(k: nat, trb: TRB, c: bool, req: Request, ghost h: seq<TRB>, ghost n: nat)
      requires Storing(req, h, n) && n < |h| && !AtLink(n, size) && k == Slot(n, size)
      requires c == Bit(n, size) && h[n] == trb.(cycle := c)
      modifies ring, reqSrc, this`past, this`sys
      ensures Storing(req, h, n + 1) && SameAsk(old(past), past)
      ensures reqSrc[..] == old(reqSrc[..])[k := req]
    {
      WriteData(k, trb.data, n);
      WriteRest(k, trb.rest, trb.cycle, n);
      Publish(k, c, req, n);
    }

    method CopyLink(k: nat, c: bool, req: Request, ghost h: seq<TRB>, ghost n: nat) returns (link: bool)
      requires Storing(req, h, n) && n < |h| && k == Slot(n, size) && c == Bit(n, size)
      modifies ring, this`past, this`sys
      ensures link <==> AtLink(n, size)
      ensures Storing(req, h, if link then n + 1 else n) && SameAsk(old(past), past)
    {
      link := ring[k].rest.kind == TYPE_LINK;
      if link {
        PublishLink(k, c, n);
      }
    }

    /** Copies block `reqP` of the request and notes the slot it took. */
    method CopyBlock(req: Request, ghost g: seq<TRB>, ghost src: seq<Request?>, reqP: nat, ghost n: nat, k: nat,
                     c: bool)
      requires Storing(req, g, n) && n < |g| && !AtLink(n, size) && k == Slot(n, size) && c == Bit(n, size)
      requires Booked(req, src, reqP) && reqP < |req.trb| && g[n] == req.trb[reqP].(cycle := c)
      requires |src| == size && src[k] == null
      modifies ring, reqSrc, req`target, this`past, this`sys
      ensures Storing(req, g, n + 1) && SameAsk(old(past), past) && Booked(req, src, reqP + 1)
    {
      hide Coupled, Taken, Placed;
      StoringSize(req, g, n);
      PlaceOne(src, reqSrc[..], req.target, req, reqP, k);
      Copy(k, req.trb[reqP], c, req, g, n);
      req.target := req.target[reqP := k];
    }

    lemma StoringSize(req: Request, g: seq<TRB>, n: nat)
      requires Storing(req, g, n)
      ensures reqSrc.Length == size
    {
    }

    /** One round of the second pass. */
    method FillOne(req: Request, ghost h: seq<TRB>, ghost src: seq<Request?>, reqP: nat, ghost n: nat,
                   ghost passed: bool, k: nat, c: bool)
      returns (link: bool)
      requires size >= 2 && Storing(req, Extend(h, size, req.trb), n) && Booked(req, src, reqP)
      requires At(h, req.trb, reqP, n, passed)
      requires reqP < |req.trb| && k == Slot(n, size) && c == Bit(n, size)
      requires |src| == size && SrcFree(src, |h|, |Extend(h, size, req.trb)|) && |h| <= n
      modifies ring, reqSrc, req`target, this`past, this`sys
      ensures SameAsk(old(past), past) && Storing(req, Extend(h, size, req.trb), n + 1)
      ensures link ==> !passed && Booked(req, src, reqP) && At(h, req.trb, reqP, n + 1, true)
      ensures !link ==> Booked(req, src, reqP + 1) && At(h, req.trb, reqP + 1, n + 1, false)
    {
      hide Coupled, At, Taken, Placed;
      ghost var g := Extend(h, size, req.trb);
      Advance(h, req.trb, reqP, n, passed);
      link := CopyLink(k, c, req, g, n);
      if !link {
        CopyBlock(req, g, src, reqP, n, k, c);
      }
    }

    /** The second pass. */
    method Fill(req: Request, pos: array<nat>, cyc: array<bool>, trbC: nat, ghost h: seq<TRB>, ghost src: seq<Request?>)
      requires size >= 2 && Storing(req, Extend(h, size, req.trb), |h|) && Booked(req, src, 0)
      requires At(h, req.trb, 0, |h|, false)
      requires |src| == size && SrcFree(src, |h|, |Extend(h, size, req.trb)|)
      requires trbC <= pos.Length == cyc.Length && Noted(pos, cyc, |h|, trbC)
      requires |h| + trbC == |Extend(h, size, req.trb)|
      modifies ring, reqSrc, req`target, this`past, this`sys
      ensures Storing(req, Extend(h, size, req.trb), |h| + trbC) && Booked(req, src, |req.trb|)
      ensures SameAsk(old(past), past)
    {
      hide Coupled, At, SrcFree, Taken, Placed, Booked, Storing, Extend;
      var reqP := 0;
      ghost var passed := false;
      for i := 0 to trbC
        invariant reqP <= |req.trb|
        invariant Storing(req, Extend(h, size, req.trb), |h| + i) && Booked(req, src, reqP)
        invariant At(h, req.trb, reqP, |h| + i, passed)
        invariant SameAsk(old(past), past)
      {
        StillSome(h, req.trb, reqP, |h| + i, passed);
        var link := FillOne(req, h, src, reqP, |h| + i, passed, pos[i], cyc[i]);
        passed := link;
        if !link { reqP := reqP + 1; }
      }
      AllDone(h, req.trb, reqP, |h| + trbC, passed);
    }

    lemma StillSome(h: seq<TRB>, trbs: seq<TRB>, i: nat, n: nat, passed: bool)
      requires size >= 2 && i <= |trbs| && At(h, trbs, i, n, passed) && n < |Extend(h, size, trbs)|
      ensures i < |trbs|
    {
      if i == |trbs| {
        Arrived(h, trbs, n, passed);
      }
    }

    lemma AllDone(h: seq<TRB>, trbs: seq<TRB>, i: nat, n: nat, passed: bool)
      requires size >= 2 && i <= |trbs| && At(h, trbs, i, n, passed) && n == |Extend(h, size, trbs)|
      ensures i == |trbs| && !passed
    {
      if i < |trbs| {
        Advance(h, trbs, i, n, passed);
      } else {
        Arrived(h, trbs, n, passed);
      }
    }

    // ---------- insertion and release ----------

    /** The slots of the requests in the ring, as `src` had them before `req` came. */
    ghost predicate Before(req: Request, src: seq<Request?>)
      reads this`inRing, inRing`target
    {
      && (forall r, j :: r in inRing && 0 <= j < |r.target| ==>
            r != req && r.target[j] < |src| && src[r.target[j]] == r)
      && (forall i :: 0 <= i < |src| && src[i] != null ==> src[i] in inRing && i in src[i].target)
    }

    lemma TargetsAfter(src: seq<Request?>, req: Request)
      requires |src| == reqSrc.Length && Booked(req, src, |req.trb|) && Before(req, src)
      ensures forall r, j :: r in inRing + {req} && 0 <= j < |r.target| ==>
                r.target[j] < reqSrc.Length && reqSrc[r.target[j]] == r
      ensures forall i :: 0 <= i < reqSrc.Length && reqSrc[i] != null ==>
                reqSrc[i] in inRing + {req} && i in reqSrc[i].target
    {
      assert req.target[..|req.trb|] == req.target;
      assert forall i :: 0 <= i < reqSrc.Length ==> reqSrc[..][i] == reqSrc[i];
    }

    /** Between calls, but for the cursor. */
    ghost predicate Quiet()
      reads this`past, this`sys, this`inRing, ring, reqSrc, inRing`target
    {
      Coupled() && sys.stored == |sys.hist| && Targets()
    }

    ghost predicate CanInsert(req: Request)
      reads this`past, this`sys, this`inRing, ring, reqSrc, inRing`target, req`trb, req`target
    {
      && Quiet() && req !in inRing
      && Insertable(size, req.trb) && |req.target| == |req.trb| && Fits(sys, req.trb)
    }

    lemma Announceable(req: Request)
      requires CanInsert(req)
      ensures Follows() && Enabled(sys, Begin(req, req.trb)) && size >= 2 && |reqSrc[..]| == size
      ensures sys.hist <= Extend(sys.hist, size, req.trb) && At(sys.hist, req.trb, 0, |sys.hist|, false)
      ensures SrcFree(reqSrc[..], |sys.hist|, |Extend(sys.hist, size, req.trb)|)
      ensures Booked(req, reqSrc[..], 0) && Before(req, reqSrc[..]) && req !in inRing
    {
      assert Some(req) !in sys.owner;
      FitsIsFree(req.trb);
      ScanStart(req.trb, sys.hist);
      ExtendShape(sys.hist, size, req.trb);
    }

    /** The request's blocks are due to be stored. */
    ghost method Announce(req: Request)
      requires CanInsert(req)
      modifies this`past, this`sys
      ensures size >= 2 && Storing(req, Extend(old(sys.hist), size, req.trb), |old(sys.hist)|)
      ensures Requested(past) == Requested(old(past)) + Works(req.trb) && (InTime(past) <==> InTime(old(past)))
    {
      Announceable(req);
      assert Quiet() && sys.phase == 0;
      hide CanInsert, Enabled, Inv, Legal, At, SrcFree, Booked, Targets;
      Did(Begin(req, req.trb));
    }

    /** Every block is stored. */
    ghost method Conclude(req: Request, g: seq<TRB>, src: seq<Request?>)
      requires Storing(req, g, |g|) && Booked(req, src, |req.trb|) && |src| == size && Before(req, src)
      modifies this`inRing
      ensures Quiet() && sys.hist == g && inRing == old(inRing) + {req}
    {
      assert reqSrc.Length == size;
      TargetsAfter(src, req);
      hide Inv, Legal, Taken, Placed;
      inRing := inRing + {req};
    }

    lemma Alike(p: seq<Action<Request>>, q: seq<Action<Request>>)
      requires SameAsk(p, q)
      ensures Requested(q) == Requested(p) && (InTime(q) <==> InTime(p))
    {
    }

    /** Stores a request that fits: every poll in between sees whole blocks only. */
    method Insert(req: Request, pos: array<nat>, cyc: array<bool>, trbC: nat)
      requires CanInsert(req) && size >= 2
      requires trbC <= pos.Length == cyc.Length && Noted(pos, cyc, |sys.hist|, trbC)
      requires |sys.hist| + trbC == |Extend(sys.hist, size, req.trb)|
      modifies ring, reqSrc, req`target, this`past, this`sys, this`inRing
      ensures Quiet() && |sys.hist| == old(|sys.hist|) + trbC
      ensures inRing == old(inRing) + {req} && Requested(past) == Requested(old(past)) + Works(req.trb)
      ensures InTime(past) <==> InTime(old(past))
    {
      hide *;
      ghost var h, src, g := sys.hist, reqSrc[..], Extend(sys.hist, size, req.trb);
      Announceable(req);
      Announce(req);
      ghost var p := past;
      Fill(req, pos, cyc, trbC, h, src);
      Alike(p, past);
      Conclude(req, g, src);
    }

    /** `HW_USB_XHCI_Ring_tryInsReq`: all blocks or none. */
    method TryInsReq(req: Request) returns (ok: bool)
      requires Valid() && req !in inRing && |req.target| == |req.trb|
      requires Insertable(size, req.trb) && SlotsNeeded(req.trb) <= POS_MAX
      modifies this`cur, this`curPos, this`cycBit, ring, reqSrc, req`target, req`finished, this`past, this`sys
      modifies this`inRing
      ensures Valid() && !req.finished
      ensures ok <==> Fits(old(sys), req.trb)
      ensures InTime(past) <==> InTime(old(past))
      ensures ok ==> inRing == old(inRing) + {req} && Requested(past) == Requested(old(past)) + Works(req.trb)
      ensures !ok ==>
                past == old(past) && inRing == old(inRing) && ring[..] == old(ring[..]) && reqSrc[..] == old(reqSrc[..])
      ensures !ok ==> cur == old(cur) && curPos == old(curPos) && cycBit == old(cycBit) && req.target == old(req.target)
    {
      hide Coupled, Targets, Fits, FreeBetween, Noted, Extend, Payload;
      req.finished := false;
      var lstCur, lstPos, lstCyc := cur, curPos, cycBit;
      FitsIsFree(req.trb);
      var full, pos, cyc, trbC := Scan(req.trb, sys.hist);
      if full {
        cur, curPos, cycBit := lstCur, lstPos, lstCyc;
        return false;
      }
      Insert(req, pos, cyc, trbC);
      return true;
    }

    method ClearTargets(req: Request)
      requires forall j :: 0 <= j < |req.target| ==> req.target[j] < reqSrc.Length
      modifies reqSrc
      ensures forall k :: 0 <= k < reqSrc.Length ==> reqSrc[k] == if k in req.target then null else old(reqSrc[k])
    {
      for i := 0 to |req.target|
        invariant forall k :: 0 <= k < reqSrc.Length ==>
                  reqSrc[k] == if k in req.target[..i] then null else old(reqSrc[k])
      {
        assert req.target[..i + 1] == req.target[..i] + [req.target[i]];
        reqSrc[req.target[i]] := null;
      }
      assert req.target[..|req.target|] == req.target;
    }

    /** `HW_USB_XHCI_Ring_release` for the request at `pos`. The slots it gives up have all been passed by the
        controller exactly when it has read all blocks of the request. */
    method Release(pos: nat) returns (req: Request)
      requires Valid() && pos < size && reqSrc[pos] != null
      modifies reqSrc, this`past, this`sys, this`inRing
      ensures Valid() && req == old(reqSrc[pos]) && inRing == old(inRing) - {req}
      ensures forall i :: 0 <= i < size ==> reqSrc[i] == if old(reqSrc[i]) == req then null else old(reqSrc[i])
      ensures past == old(past) + [Action<Request>.Release(req)] && sys == old(sys).(owner := sys.owner)
      ensures InTime(past) <==> InTime(old(past)) && forall n: nat :: !Unread(old(sys), req, n)
    {
      hide Legal, After, Requested, Init, HistOK, LinksOK, Bit, Unread, Prompt;
      req := reqSrc[pos];
      assert forall k :: 0 <= k < size ==> (k in req.target <==> reqSrc[k] == req);
      ClearTargets(req);
      Did(Action<Request>.Release(req));
      inRing := inRing - {req};
    }

    /** The completion cases of `HW_USB_XHCI_eveHandleTask`, for an event about slot `pos`. */
    method Complete(pos: nat, event: TRB) returns (req: Request)
      requires Valid() && pos < size && reqSrc[pos] != null
      modifies reqSrc, this`past, this`sys, this`inRing, inRing`res, inRing`finished
      ensures Valid() && req == old(reqSrc[pos]) && inRing == old(inRing) - {req}
      ensures forall r :: r in inRing ==> r.res == old(r.res) && r.finished == old(r.finished)
      ensures req.finished && req.res == event && past == old(past) + [Action<Request>.Release(req)]
      ensures InTime(past) <==> InTime(old(past)) && forall n: nat :: !Unread(old(sys), req, n)
    {
      assert reqSrc[pos] in inRing;
      hide *;
      req := Release(pos);
      req.res := event;
      req.finished := true;
    }
  }
}
