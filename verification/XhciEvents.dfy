/** The way of an event from the controller through the event ring and the software queue of
    kernel/hardware/USB/XHCI/process.c to the event handler task. */
module XhciEvents {
  import opened Basics
  import opened Cycles
  import opened EventProtocol

  const QUE_SIZE: nat := 1024

  /** The entries of the circular queue `que` from `hdr` on are `q`. */
  ghost predicate InQueue<E>(que: seq<E>, hdr: nat, q: seq<E>)
  {
    && |que| == QUE_SIZE && |q| <= QUE_SIZE && hdr < QUE_SIZE
    && (forall i :: 0 <= i < |q| ==> que[(hdr + i) % QUE_SIZE] == q[i])
  }

  /** The slot before `hdr`, which was given out last. */
  function Before(hdr: nat): nat
  {
    (hdr + QUE_SIZE - 1) % QUE_SIZE
  }

  /** It holds the event handled last as long as the queue of `len` entries is not full, and the newest event
      once it is. */
  ghost predicate Lent<E>(que: seq<E>, hdr: nat, len: nat, handled: seq<E>)
  {
    handled != [] && len < QUE_SIZE == |que| ==> que[Before(hdr)] == handled[|handled| - 1]
  }

  lemma QueueAdd<E>(que: seq<E>, hdr: nat, q: seq<E>, e: E, handled: seq<E>)
    requires InQueue(que, hdr, q) && |q| < QUE_SIZE && Lent(que, hdr, |q|, handled)
    ensures InQueue(que[(hdr + |q|) % QUE_SIZE := e], hdr, q + [e])
    ensures Lent(que[(hdr + |q|) % QUE_SIZE := e], hdr, |q| + 1, handled)
  {
  }

  lemma NewestBefore<E>(que: seq<E>, hdr: nat, q: seq<E>)
    requires InQueue(que, hdr, q) && |q| == QUE_SIZE
    ensures que[Before(hdr)] == q[QUE_SIZE - 1]
  {
    assert q[QUE_SIZE - 1] == que[(hdr + (QUE_SIZE - 1)) % QUE_SIZE];
  }

  lemma QueueRemove<E>(que: seq<E>, hdr: nat, q: seq<E>)
    requires InQueue(que, hdr, q) && q != []
    ensures que[hdr] == q[0] && InQueue(que, (hdr + 1) % QUE_SIZE, q[1..])
  {
    assert q[0] == que[(hdr + 0) % QUE_SIZE];
    forall i | 0 <= i < |q| - 1 ensures que[((hdr + 1) % QUE_SIZE + i) % QUE_SIZE] == q[1..][i] {
      assert ((hdr + 1) % QUE_SIZE + i) % QUE_SIZE == (hdr + (i + 1)) % QUE_SIZE;
    }
  }

  lemma NextHead(hdr: nat, len: nat)
    requires len > 0
    ensures (hdr + len) % QUE_SIZE == ((hdr + 1) % QUE_SIZE + (len - 1)) % QUE_SIZE
  {
  }

  class EventPath<E(!new)> {
    const ringNum: nat
    const ringSize: nat
    const blank: E
    const rings: array2<Entry<E>>
    var curRingId: nat
    var curPos: nat
    var cycBit: bool
    /** The dequeue pointer register: segment and position. */
    var deqPtr: (nat, nat)
    const eveQue: array<E>
    var eveQueHdr: nat
    var eveQueTil: nat
    var eveQueLen: nat
    /** The event handler busy bit. */
    var busy: bool
    /** The controller's enqueue pointer and producer cycle state. */
    var enqPtr: (nat, nat)
    var enqCyc: bool
    ghost var past: seq<Action<E>>
    ghost var sys: Sys<E>

    function Place(n: nat): (nat, nat)
      requires ringNum > 0 && ringSize > 0
    {
      (Segment(n, ringNum, ringSize), Slot(n, ringSize))
    }

    ghost predicate Follows()
      reads this`past, this`sys
    {
      && ringNum > 0 && ringSize > 0 && Legal(Init(ringNum, ringSize, blank), past)
      && sys == After(Init(ringNum, ringSize, blank), past) && Inv(sys) && sys.num == ringNum && sys.size == ringSize
    }

    ghost predicate Memory()
      reads this`past, this`sys, rings
    {
      && Follows() && rings.Length0 == ringNum && rings.Length1 == ringSize
      && (forall r, p :: 0 <= r < ringNum && 0 <= p < ringSize ==> rings[r, p] == sys.mem[r][p])
    }

    /** The controller is to post index `n` next and was told `d`. */
    ghost predicate Device(n: nat, d: nat)
      reads this`enqPtr, this`enqCyc, this`deqPtr
    {
      && ringNum > 0 && ringSize > 0 && enqPtr == Place(n) && enqCyc == Phase(n, ringNum, ringSize)
      && deqPtr == Place(d) && n < d + ringNum * ringSize
    }

    /** The driver is to take index `n` next. */
    ghost predicate Driver(n: nat)
      reads this`curRingId, this`curPos, this`cycBit
    {
      ringNum > 0 && ringSize > 0 && (curRingId, curPos) == Place(n) && cycBit == Phase(n, ringNum, ringSize)
    }

    ghost predicate Holds(q: seq<E>, handled: seq<E>)
      reads this`eveQueHdr, eveQue
    {
      InQueue(eveQue[..], eveQueHdr, q) && Lent(eveQue[..], eveQueHdr, |q|, handled)
    }

    ghost predicate Counts(len: nat)
      reads this`eveQueHdr, this`eveQueTil, this`eveQueLen
    {
      eveQueLen == len <= QUE_SIZE && eveQueTil == (eveQueHdr + len) % QUE_SIZE
    }

    ghost predicate Valid()
      reads this, rings, eveQue
    {
      && Memory() && Device(|sys.posted|, sys.deq) && Driver(sys.taken) && sys.copied == sys.taken
      && Holds(sys.queue, sys.handled) && Counts(|sys.queue|)
    }

    constructor (num: nat, size: nat, b: E)
      requires num > 0 && size > 0
      ensures Valid() && ringNum == num && ringSize == size && past == []
    {
      ringNum, ringSize, blank := num, size, b;
      rings := new Entry<E>[num, size]((_, _) => Entry(b, false));
      curRingId, curPos, cycBit, deqPtr := 0, 0, true, (0, 0);
      eveQue := new E[QUE_SIZE](_ => b);
      eveQueHdr, eveQueTil, eveQueLen, busy := 0, 0, 0, false;
      enqPtr, enqCyc := (0, 0), true;
      past, sys := [], Init(num, size, b);
      new;
      InitInv(num, size, b);
      assert num * size >= 1;
    }

    ghost method Did(a: Action<E>)
      requires Follows() && Enabled(sys, a)
      modifies this`past, this`sys
      ensures Follows() && past == old(past) + [a] && sys == Apply(old(sys), a)
    {
      Continue(Init(ringNum, ringSize, blank), past, a);
      ActionKeeps(sys, a);
      past, sys := past + [a], Apply(sys, a);
    }

    /** The events handled so far are a prefix of those posted. */
    lemma Delivered()
      requires Valid()
      ensures sys.handled <= Posts(past)
      ensures sys.queue == [] && sys.taken == |sys.posted| ==> sys.handled == Posts(past)
    {
      Delivery(ringNum, ringSize, blank, past);
      CycleTells(sys);
    }

    // ---------- the controller ----------

    function Next(at: (nat, nat)): (nat, nat)
    {
      if at.1 + 1 < ringSize then (at.0, at.1 + 1) else if at.0 + 1 < ringNum then (at.0 + 1, 0) else (0, 0)
    }

    lemma NextIs(n: nat)
      requires ringNum > 0 && ringSize > 0
      ensures Next(Place(n)) == Place(n + 1)
    {
      NextPlace(n, ringNum, ringSize);
    }

    /** Where the next place is not the dequeue pointer's, one more entry fits. */
    lemma Room(n: nat, d: nat)
      requires ringNum > 0 && ringSize > 0 && n < d + ringNum * ringSize && Next(Place(n)) == Place(n + 1)
      ensures Next(Place(n)) != Place(d) ==> n + 1 < d + ringNum * ringSize
      ensures Next(Place(n)) == Place(d) && d <= n ==> n + 1 == d + ringNum * ringSize
    {
      FullTurn(d, ringNum, ringSize);
      if d <= n && n + 1 < d + ringNum * ringSize { PlacesDiffer(d, n + 1, ringNum, ringSize); }
    }

    /** The events posted so far, `p`, with as many of `es` as fit while the dequeue index is `d`. */
    ghost function Arrived(p: seq<E>, d: nat, es: seq<E>): seq<E>
      decreases |es|
    {
      if es == [] then p
      else
        var q, last := Arrived(p, d, es[..|es| - 1]), es[|es| - 1];
        if |q| + 1 < d + ringNum * ringSize then q + [last] else q
    }

    /** The same with the first `k` of all `arrivals`. */
    ghost function Heard(p: seq<E>, d: nat, arrivals: nat -> seq<E>, k: nat): seq<E>
    {
      if k == 0 then p else Arrived(Heard(p, d, arrivals, k - 1), d, arrivals(k - 1))
    }

    lemma NoneMore(p: seq<E>, d: nat, es: seq<E>)
      ensures Arrived(p, d, es[..0]) == p && es[..|es|] == es
    {
    }

    lemma OneMore(p: seq<E>, d: nat, es: seq<E>, i: nat)
      requires i < |es|
      ensures var q := Arrived(p, d, es[..i]);
              Arrived(p, d, es[..i + 1]) == if |q| + 1 < d + ringNum * ringSize then q + [es[i]] else q
    {
      assert es[..i + 1][..i] == es[..i];
    }

    /** Posts the event unless that would close up to the dequeue pointer. */
    method Post(e: E)
      requires Memory() && Device(|sys.posted|, sys.deq)
      modifies rings, this`enqPtr, this`enqCyc, this`past, this`sys
      ensures Memory() && Device(|sys.posted|, sys.deq) && Kept(old(sys), sys)
      ensures old(Next(enqPtr)) != deqPtr ==> past == old(past) + [Action<E>.Post(e)]
      ensures old(Next(enqPtr)) == deqPtr ==> past == old(past) && sys == old(sys)
      ensures sys.posted
           == if |old(sys.posted)| + 1 < sys.deq + ringNum * ringSize then old(sys.posted) + [e] else old(sys.posted)
    {
      hide Slot, Segment, Phase, Init, EntryAt;
      ghost var n := |sys.posted|;
      NextIs(n);
      NextPlace(n, ringNum, ringSize);
      Room(n, sys.deq);
      hide Inv, Legal, After, Lap, Bit;
      if Next(enqPtr) != deqPtr {
        rings[enqPtr.0, enqPtr.1] := Entry(e, enqCyc);
        Did(Action<E>.Post(e));
        if enqPtr == (ringNum - 1, ringSize - 1) { enqCyc := !enqCyc; }
        enqPtr := Next(enqPtr);
      }
    }

    /** What posts leave alone. */
    ghost predicate Kept(s: Sys<E>, t: Sys<E>)
    {
      && t.num == s.num && t.size == s.size && s.posted <= t.posted && t.deq == s.deq
      && t.taken == s.taken && t.copied == s.copied && t.queue == s.queue && t.handled == s.handled
    }

    method PostAll(es: seq<E>)
      requires Memory() && Device(|sys.posted|, sys.deq)
      modifies rings, this`enqPtr, this`enqCyc, this`past, this`sys
      ensures Memory() && Device(|sys.posted|, sys.deq) && Kept(old(sys), sys)
      ensures sys.posted == Arrived(old(sys.posted), sys.deq, es)
    {
      hide Memory, Device, Arrived;
      NoneMore(sys.posted, sys.deq, es);
      for i := 0 to |es|
        invariant sys.posted == Arrived(old(sys.posted), sys.deq, es[..i])
        invariant Memory() && Device(|sys.posted|, sys.deq) && Kept(old(sys), sys)
      {
        OneMore(old(sys.posted), sys.deq, es, i);
        Post(es[i]);
      }
    }

    // ---------- the interrupt handler ----------

    /** `HW_USB_XHCI_EveRing_getNxt`. */
    method GetNxt() returns (ok: bool, trb: (nat, nat))
      requires Memory() && Driver(sys.taken) && sys.copied == sys.taken
      modifies this`curRingId, this`curPos, this`cycBit, this`past, this`sys
      ensures Memory() && Driver(sys.taken) && trb == Place(old(sys).taken)
      ensures ok <==> old(sys).taken < |old(sys).posted|
      ensures !ok ==> sys == old(sys) && past == old(past) && sys.taken == |sys.posted|
      ensures ok ==> sys == old(sys).(taken := old(sys).taken + 1)
    {
      CycleTells(sys);
      NextPlace(sys.taken, ringNum, ringSize);
      trb := (curRingId, curPos);
      if rings[curRingId, curPos].cycle != cycBit { return false, trb; }
      curPos := curPos + 1;
      if curPos == ringSize {
        curRingId := curRingId + 1;
        if curRingId == ringNum {
          curRingId := 0;
          cycBit := !cycBit;
        }
        curPos := 0;
      }
      Did(Take);
      ok := true;
    }

    /** `_getEmptyEvePtr`: the entry at the tail, if there is one. */
    method GetEmpty() returns (entry: Option<nat>)
      requires Holds(sys.queue, sys.handled) && Counts(|sys.queue|)
      modifies this`eveQueTil, this`eveQueLen
      ensures entry == if |sys.queue| < QUE_SIZE then Some((eveQueHdr + |sys.queue|) % QUE_SIZE) else None
      ensures Counts(if entry.Some? then |sys.queue| + 1 else |sys.queue|)
    {
      if eveQueLen >= QUE_SIZE { return None; }
      entry := Some(eveQueTil);
      eveQueTil := (eveQueTil + 1) % QUE_SIZE;
      eveQueLen := eveQueLen + 1;
    }

    /** `HW_USB_XHCI_TRB_copy` from the ring to the queue. */
    method CopyEvent(trb: (nat, nat), target: nat)
      requires Memory() && sys.copied < sys.taken && trb == Place(sys.copied)
      requires Holds(sys.queue, sys.handled) && |sys.queue| < QUE_SIZE == eveQue.Length
      requires target == (eveQueHdr + |sys.queue|) % QUE_SIZE
      modifies eveQue, this`past, this`sys
      ensures Memory() && sys == Apply(old(sys), Copy) && Holds(sys.queue, sys.handled)
      ensures |sys.queue| == |old(sys.queue)| + 1 && sys.copied == old(sys.copied) + 1 && sys.taken == old(sys.taken)
      ensures sys.posted == old(sys.posted) && sys.deq == old(sys.deq) && sys.handled == old(sys.handled)
    {
      hide InQueue, Lent;
      ghost var e := rings[trb.0, trb.1].event;
      QueueAdd(eveQue[..], eveQueHdr, sys.queue, e, sys.handled);
      eveQue[target] := rings[trb.0, trb.1].event;
      Did(Copy);
    }

    /** Moves the event just taken to the queue, with posts in between. */
    method Fetch(trb: (nat, nat), during: seq<E>)
      requires Memory() && Device(|sys.posted|, sys.deq) && sys.copied + 1 == sys.taken && trb == Place(sys.copied)
      requires Holds(sys.queue, sys.handled) && Counts(|sys.queue|) && |sys.queue| < QUE_SIZE
      modifies rings, this`enqPtr, this`enqCyc, eveQue, this`eveQueTil, this`eveQueLen, this`past, this`sys
      ensures Memory() && Device(|sys.posted|, sys.deq) && Holds(sys.queue, sys.handled) && Counts(|sys.queue|)
      ensures sys.copied == sys.taken == old(sys.taken) && |sys.queue| == |old(sys.queue)| + 1
      ensures sys.deq == old(sys.deq) && sys.handled == old(sys.handled)
      ensures sys.posted == Arrived(old(sys.posted), sys.deq, during)
    {
      hide *;
      QueLength();
      var target := GetEmpty();
      PostAll(during);
      KeptSo(old(sys));
      CopyEvent(trb, target.value);
    }

    lemma QueLength()
      requires Holds(sys.queue, sys.handled)
      ensures eveQue.Length == QUE_SIZE
    {
    }

    lemma KeptSo(s: Sys<E>)
      requires Kept(s, sys)
      ensures sys.deq == s.deq && sys.taken == s.taken && sys.copied == s.copied && sys.queue == s.queue
      ensures sys.handled == s.handled
    {
    }

    /** One round of the drain loop, with posts before, between and after its accesses. */
    method DrainOne(arrivals: seq<E>, during: seq<E>) returns (more: bool, trb: (nat, nat))
      requires Valid() && eveQueLen < QUE_SIZE
      modifies this, rings, eveQue
      ensures Valid() && sys.deq == old(sys.deq) && sys.handled == old(sys.handled) && busy == old(busy)
      ensures !more ==>
                sys.taken == old(sys.taken) == |sys.posted| && eveQueLen == old(eveQueLen) && trb == Place(sys.taken)
      ensures more ==> sys.taken == old(sys.taken) + 1 && eveQueLen == old(eveQueLen) + 1 && trb == Place(sys.taken - 1)
      ensures var p := Arrived(old(sys.posted), sys.deq, arrivals);
              sys.posted == if more then Arrived(p, sys.deq, during) else p
    {
      hide Memory, Device, Driver, InQueue, Lent, Segment, Arrived;
      PostAll(arrivals);
      more, trb := GetNxt();
      if more {
        Fetch(trb, during);
      }
    }

    /** The controller raises the interrupt. */
    method Interrupt()
      requires Valid()
      modifies this`busy
      ensures Valid() && busy
    {
      hide Memory, Device, Driver, Holds;
      busy := true;
    }

    /** `HW_USB_XHCI_msiHandler`. `arrivals` are the events posted before each access of the ring,
        `enabled` is the interrupt's enable bit. With a full queue the busy bit stays set. */
    method MsiHandler(enabled: bool, arrivals: nat -> seq<E>)
      requires Valid()
      modifies this, rings, eveQue
      ensures Valid() && sys.handled == old(sys.handled)
      ensures busy == (old(busy) && !(enabled && old(eveQueLen) < QUE_SIZE))
      ensures !enabled || !old(busy) || old(eveQueLen) == QUE_SIZE ==> sys == old(sys)
      ensures enabled && old(busy) ==> eveQueLen == QUE_SIZE || (sys.taken == |sys.posted| && sys.deq == sys.taken)
      ensures enabled && old(busy) && old(eveQueLen) < QUE_SIZE ==> sys.taken - 1 <= sys.deq <= sys.taken
      ensures sys.taken >= old(sys.taken)
      ensures enabled && old(busy) ==>
                var n := 2 * (sys.taken - old(sys.taken));
                || sys.posted == Heard(old(sys.posted), old(sys.deq), arrivals, n)
                || sys.posted == Heard(old(sys.posted), old(sys.deq), arrivals, n + 1)
    {
      hide Memory, Device, Driver, InQueue, Lent, Arrived;
      if !enabled || !busy { return; }
      DequeuedBelow();
      var trb: Option<(nat, nat)> := None;
      var more, i := true, 0;
      while more && eveQueLen != QUE_SIZE
        invariant Valid() && sys.handled == old(sys.handled) && sys.deq == old(sys.deq) && busy
        invariant more || i > 0
        invariant sys.taken == old(sys.taken) + if more then i else i - 1
        invariant sys.posted == Heard(old(sys.posted), old(sys.deq), arrivals, if more then 2 * i else 2 * i - 1)
        invariant trb.None? ==> more && sys == old(sys) && eveQueLen == old(eveQueLen)
        invariant trb.Some? ==> old(eveQueLen) < QUE_SIZE
        invariant trb.Some? ==> sys.deq < sys.taken || !more
        invariant trb.Some? && more ==> trb.value == Place(sys.taken - 1)
        invariant !more ==> trb.Some? && trb.value == Place(sys.taken) && sys.taken == |sys.posted|
        decreases more, QUE_SIZE - eveQueLen
      {
        DequeuedBelow();
        var at;
        more, at := DrainOne(arrivals(2 * i), arrivals(2 * i + 1));
        trb := Some(at);
        i := i + 1;
      }
      if trb.Some? {
        DequeuedBelow();
        WriteDeqPtr(trb.value, if more then sys.taken - 1 else sys.taken);
      }
    }

    lemma DequeuedBelow()
      requires Valid()
      ensures sys.deq <= sys.taken && ringNum > 0 && ringSize > 0
    {
    }

    /** Tells the controller what has been read. */
    method WriteDeqPtr(trb: (nat, nat), ghost n: nat)
      requires Valid() && sys.deq <= n <= sys.taken && trb == Place(n)
      modifies this`deqPtr, this`busy, this`past, this`sys
      ensures Valid() && sys == old(sys).(deq := n) && !busy
    {
      hide InQueue, Lent;
      Did(Report(n));
      deqPtr := trb;
      busy := false;
    }

    // ---------- the handler task ----------

    /** The first queued event is being handled. */
    ghost method Forget()
      requires Memory() && sys.queue != []
      modifies this`past, this`sys
      ensures Memory() && sys == Apply(old(sys), Handle)
    {
      Did(Handle);
    }

    /** `_getEvePtr`: the slot of the oldest queued event, which counts as free from now on. */
    method GetEve() returns (eve: Option<nat>)
      requires Valid()
      modifies this`eveQueHdr, this`eveQueLen, this`past, this`sys
      ensures Valid() && (eve.None? <==> old(sys).queue == [])
      ensures eve.None? ==> sys == old(sys)
      ensures eve.Some? ==> eve.value == Before(eveQueHdr) && sys.handled != []
      ensures eve.Some? ==> exists e :: old(sys).queue == [e] + sys.queue && sys.handled == old(sys).handled + [e]
    {
      hide Memory, Device, Driver, Holds;
      if Empty() { return None; }
      ghost var q := sys.queue;
      var slot := PopHead(q, sys.handled);
      Forget();
      assert q == [q[0]] + sys.queue;
      eve := Some(slot);
    }

    /** The handler task reads the slot it was given some time later: it finds the event handled last as
        long as the queue is not full; in a full queue the newest event has taken the slot. */
    method ReadEve(slot: nat) returns (e: E)
      requires Valid() && slot == Before(eveQueHdr) && sys.handled != []
      ensures |sys.queue| < QUE_SIZE ==> e == sys.handled[|sys.handled| - 1]
      ensures |sys.queue| == QUE_SIZE ==> e == sys.queue[QUE_SIZE - 1]
    {
      hide Memory, Device, Driver;
      if |sys.queue| == QUE_SIZE { NewestBefore(eveQue[..], eveQueHdr, sys.queue); }
      e := eveQue[slot];
    }

    predicate Empty()
      reads this`eveQueLen
    {
      eveQueLen == 0
    }

    /** Takes the entry at the head off the circular queue. */
    method PopHead(ghost q: seq<E>, ghost handled: seq<E>) returns (slot: nat)
      requires Holds(q, handled) && Counts(|q|) && !Empty()
      modifies this`eveQueHdr, this`eveQueLen
      ensures q != [] && Holds(q[1..], handled + [q[0]]) && Counts(|q| - 1) && slot == Before(eveQueHdr)
    {
      QueueRemove(eveQue[..], eveQueHdr, q);
      BeforeNext(eveQueHdr);
      slot := eveQueHdr;
      hide InQueue;
      NextHead(eveQueHdr, |q|);
      eveQueHdr := (eveQueHdr + 1) % QUE_SIZE;
      eveQueLen := eveQueLen - 1;
    }

    lemma BeforeNext(hdr: nat)
      requires hdr < QUE_SIZE
      ensures Before((hdr + 1) % QUE_SIZE) == hdr
    {
    }
  }
}
