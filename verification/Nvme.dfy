/** The queues of kernel/hardware/NVMe: `queues` submission queues that share one completion queue. */
module Nvme {
  import opened Basics
  import opened Cycles
  import opened NvmeProtocol

  /** A submission entry: the command word and the rest. */
  datatype SubmEntry = SubmEntry(cmd: nat, rest: nat)
  datatype CmplEntry = CmplEntry(sq: nat, cid: nat, phase: bool, status: nat)

  const CID_UNIT: nat := 65536

  /** Bitwise or. */
  function Or(a: nat, b: nat): nat
  {
    if a == 0 || b == 0 then a + b
    else 2 * Or(a / 2, b / 2) + if a % 2 == 1 || b % 2 == 1 then 1 else 0
  }

  ghost predicate HasBit(a: nat, k: nat)
  {
    if k == 0 then a % 2 == 1 else HasBit(a / 2, k - 1)
  }

  /** A bit of it is set exactly if it is set in one of the two. */
  lemma {:induction false} OrBits(a: nat, b: nat, k: nat)
    ensures HasBit(Or(a, b), k) <==> HasBit(a, k) || HasBit(b, k)
  {
    if k > 0 { OrBits(a / 2, b / 2, k - 1); }
    if a == 0 || b == 0 { NoBit(k); }
  }

  lemma {:induction false} NoBit(k: nat)
    ensures !HasBit(0, k)
  {
    if k > 0 { NoBit(k - 1); }
  }

  /** The command word with a slot's number or'ed into its upper half. */
  function Stamped(cmd: nat, slot: nat): (w: nat)
    ensures w / CID_UNIT == Or(cmd / CID_UNIT, slot) && w % CID_UNIT == cmd % CID_UNIT
  {
    cmd % CID_UNIT + Or(cmd / CID_UNIT, slot) * CID_UNIT
  }

  /** The identifier is the slot's number for a clean command word, and for one that was in this slot
      before; a request that was in slot 1 and is submitted again as it is gets identifier 3 in slot 2. */
  lemma {:induction false} Identifier(cmd: nat, slot: nat)
    ensures cmd < CID_UNIT ==> Stamped(cmd, slot) / CID_UNIT == slot && Stamped(cmd, slot) == cmd + slot * CID_UNIT
    ensures Stamped(Stamped(cmd, slot), slot) / CID_UNIT == Stamped(cmd, slot) / CID_UNIT
    ensures Stamped(Stamped(cmd, 1), 2) / CID_UNIT == Or(Or(cmd / CID_UNIT, 1), 2)
    ensures Or(Or(0, 1), 2) == 3
  {
    Absorbed(cmd / CID_UNIT, slot);
    assert Or(1, 2) == 3 by { assert Or(0, 1) == 1; }
  }

  lemma {:induction false} Absorbed(a: nat, b: nat)
    ensures Or(Or(a, b), b) == Or(a, b)
  {
    if a == 0 && b > 0 { Itself(b); } else if a > 0 && b > 0 { Absorbed(a / 2, b / 2); }
  }

  lemma {:induction false} Itself(b: nat)
    ensures Or(b, b) == b
  {
    if b > 0 { Itself(b / 2); }
  }

  class Request {
    var entry: SubmEntry
    var res: CmplEntry
    var finished: bool

    constructor (cmd: nat, rest: nat)
      ensures entry == SubmEntry(cmd, rest) && !finished
    {
      entry, res, finished := SubmEntry(cmd, rest), CmplEntry(0, 0, false, 0), false;
    }
  }

  class Host {
    const queues: nat
    const submSize: nat
    const cmplSize: nat
    const submQue: array2<SubmEntry>
    const reqSrc: array2<Request?>
    const til: array<nat>
    /** The submission tail doorbells. */
    const submDb: array<nat>
    const cmplQue: array<CmplEntry>
    var hdr: nat
    var phaseBit: bool
    var cmplDb: nat
    /** The controller's place in the completion queue. */
    var cmplTil: nat
    var cmplPhase: bool
    /** The commands it has fetched and not completed. */
    var held: set<(nat, nat)>
    ghost var past: seq<Action>
    ghost var sys: Sys
    /** The submissions that outstanding requests stand for. */
    ghost var ticket: map<Request, nat>
    /** Every completion posted so far. */
    ghost var log: seq<CmplEntry>

    ghost predicate Follows()
      reads this`past, this`sys
    {
      && SizesOK(queues, submSize, cmplSize) && Legal(Init(queues, submSize, cmplSize), past)
      && sys == After(Init(queues, submSize, cmplSize), past) && Shape(sys) && Inv(sys)
      && |sys.sqs| == queues && sys.size == submSize && sys.csize == cmplSize
    }

    ghost predicate Dims()
    {
      && submQue.Length0 == reqSrc.Length0 == til.Length == submDb.Length == queues
      && submQue.Length1 == reqSrc.Length1 == submSize && cmplQue.Length == cmplSize && til != submDb
    }

    /** The requests kept in the slots stand for the submissions of `sqs`. */
    ghost predicate Slots(sqs: seq<Queue>)
      reads this`ticket, reqSrc
    {
      && Dims() && |sqs| == queues && (forall i :: 0 <= i < queues ==> |sqs[i].reqs| == submSize)
      && (forall i, c :: 0 <= i < queues && 0 <= c < submSize ==>
            if reqSrc[i, c] == null then sqs[i].reqs[c].None?
            else reqSrc[i, c] in ticket && sqs[i].reqs[c] == Some(ticket[reqSrc[i, c]]))
    }

    ghost predicate Entries(sqs: seq<Queue>)
      reads submQue, til, submDb
    {
      && Dims() && submSize > 0 && |sqs| == queues && (forall i :: 0 <= i < queues ==> |sqs[i].mem| == submSize)
      && (forall i :: 0 <= i < queues ==> til[i] == submDb[i] == Slot(sqs[i].tail, submSize))
      && (forall i, c :: 0 <= i < queues && 0 <= c < submSize ==> submQue[i, c].cmd / CID_UNIT == sqs[i].mem[c].cid)
    }

    ghost predicate Completions(cq: seq<Completion>, read: nat, posted: nat)
      reads cmplQue, this`hdr, this`phaseBit, this`cmplTil, this`cmplPhase
    {
      && Dims() && |cq| == cmplSize > 0
      && (forall n :: 0 <= n < cmplSize ==>
            cmplQue[n].sq == cq[n].sq && cmplQue[n].cid == cq[n].cid && cmplQue[n].phase == cq[n].phase)
      && hdr == Slot(read, cmplSize) && phaseBit == Bit(read, cmplSize)
      && cmplTil == Slot(posted, cmplSize) && cmplPhase == Bit(posted, cmplSize)
    }

    /** A slot that keeps a request holds exactly that request's entry. */
    ghost predicate Copies()
      reads this`ticket, reqSrc, submQue, ticket.Keys`entry
    {
      && Dims()
      && (forall i, c :: 0 <= i < queues && 0 <= c < submSize && reqSrc[i, c] != null && reqSrc[i, c] in ticket ==>
            submQue[i, c] == reqSrc[i, c].entry)
    }

    /** Unread completions are in the queue as they were posted. */
    ghost predicate Written(read: nat, posted: nat)
      reads this`log, cmplQue
    {
      && Dims() && cmplSize > 0 && |log| == posted
      && (forall n: nat :: read <= n < posted ==> cmplQue[Slot(n, cmplSize)] == log[n])
    }

    ghost predicate Valid()
      reads this, reqSrc, submQue, til, submDb, cmplQue, ticket.Keys`entry
    {
      && Copies() && Written(sys.read, sys.posted) && |sys.finished| == sys.read
      && Follows() && Slots(sys.sqs) && Entries(sys.sqs) && Completions(sys.cq, sys.read, sys.posted)
      && held == sys.running.Keys
    }

    /** `HW_NVMe_initQue` for all the queues. */
    constructor (k: nat, size: nat, csize: nat)
      requires SizesOK(k, size, csize)
      ensures queues == k && submSize == size && cmplSize == csize && past == [] && ticket == map[] && log == []
      ensures Valid()
    {
      hide Inv, Bit, SizesOK, Slots, Entries, Completions, Copies, Written, Shape;
      queues, submSize, cmplSize := k, size, csize;
      submQue := new SubmEntry[k, size]((_, _) => SubmEntry(0, 0));
      reqSrc := new Request?[k, size]((_, _) => null);
      til := new nat[k](_ => 0);
      submDb := new nat[k](_ => 0);
      cmplQue := new CmplEntry[csize](_ => CmplEntry(0, 0, false, 0));
      hdr, phaseBit, cmplDb, cmplTil, cmplPhase, held := 0, true, 0, 0, true, {};
      past, sys, ticket, log := [], Init(k, size, csize), map[], [];
      new;
      InitInv(k, size, csize);
      StartsSo();
    }

    /** The queues as they are laid down. */
    lemma StartsSo()
      requires Dims() && SizesOK(queues, submSize, cmplSize) && sys == Init(queues, submSize, cmplSize)
      requires forall i, c :: 0 <= i < queues && 0 <= c < submSize ==> reqSrc[i, c] == null && submQue[i, c].cmd == 0
      requires forall i :: 0 <= i < queues ==> til[i] == submDb[i] == 0
      requires forall n :: 0 <= n < cmplSize ==> cmplQue[n] == CmplEntry(0, 0, false, 0)
      requires held == {} && hdr == cmplTil == 0 && phaseBit && cmplPhase && log == []
      ensures Copies() && Written(sys.read, sys.posted) && |sys.finished| == sys.read && held == sys.running.Keys
      ensures Slots(sys.sqs) && Entries(sys.sqs) && Completions(sys.cq, sys.read, sys.posted)
    {
    }

    ghost method Did(a: Action)
      requires Follows() && Enabled(sys, a)
      modifies this`past, this`sys
      ensures Follows() && past == old(past) + [a] && sys == Apply(old(sys), a)
    {
      Continue(Init(queues, submSize, cmplSize), past, a);
      ActionKeeps(sys, a);
      hide Enabled, Inv, Legal;
      past, sys := past + [a], Apply(sys, a);
    }

    // ---------- the driver ----------

    /** One round of `HW_NVMe_insReq`: the request takes the slot at the tail if that is free. The slot's
        number becomes its command identifier if the word has no other bits left there; otherwise the
        queues no longer are what the protocol says. */
    method TryInsReq(i: nat, req: Request) returns (ok: bool)
      requires Valid() && i < queues && req !in ticket
      modifies req, reqSrc, submQue, til, submDb, this`past, this`sys, this`ticket
      ensures Valid() <==> !ok || Or(old(req.entry.cmd) / CID_UNIT, old(til[i])) == old(til[i])
      ensures ok <==> old(reqSrc[i, til[i]]) == null
      ensures !req.finished && (!ok ==> sys == old(sys) && ticket == old(ticket) && req.entry == old(req.entry))
      ensures ok ==> past == old(past) + [Submit(i)] && ticket == old(ticket)[req := old(sys.submitted)]
      ensures ok ==> req.entry == SubmEntry(Stamped(old(req.entry.cmd), old(til[i])), old(req.entry.rest))
      ensures ok ==> reqSrc[i, old(til[i])] == req && submQue[i, old(til[i])] == req.entry
      ensures OnlyChanged(i, old(til[i]), ok)
    {
      hide Inv, Legal, After, Init, Slot, Bit, Completions;
      req.finished := false;
      if reqSrc[i, til[i]] != null { return false; }
      Ring(i, til[i]);
      hide Slots, Entries;
      PutEntry(i, req, sys.sqs, sys.submitted);
      Did(Submit(i));
      ok := true;
    }

    /** No slot but, after a success, the one at `i`, `c` has changed. */
    twostate predicate OnlyChanged(i: nat, c: nat, ok: bool)
      reads reqSrc, submQue
    {
      Dims() && forall j, d :: 0 <= j < queues && 0 <= d < submSize && !(ok && j == i && d == c) ==>
        submQue[j, d] == old(submQue[j, d]) && reqSrc[j, d] == old(reqSrc[j, d])
    }

    /** Writes the request's entry, moves the tail and rings the doorbell. */
    method PutEntry(i: nat, req: Request, ghost sqs: seq<Queue>, ghost n: nat)
      requires Slots(sqs) && Entries(sqs) && Copies() && i < queues && req !in ticket
      requires til[i] < submSize && reqSrc[i, til[i]] == null && til[i] == Slot(sqs[i].tail, submSize)
      requires Slot(sqs[i].tail + 1, submSize) == if til[i] + 1 == submSize then 0 else til[i] + 1
      modifies req`entry, reqSrc, submQue, til, submDb, this`ticket
      ensures var c, q := old(til[i]), sqs[i];
              var q' := Queue(q.mem[c := Command(c, n)], q.reqs[c := Some(n)], q.tail + 1, q.head);
              Slots(sqs[i := q']) && (Entries(sqs[i := q']) <==> Or(old(req.entry.cmd) / CID_UNIT, c) == c)
      ensures ticket == old(ticket)[req := n] && reqSrc[i, old(til[i])] == req && submQue[i, old(til[i])] == req.entry
      ensures req.entry == SubmEntry(Stamped(old(req.entry.cmd), old(til[i])), old(req.entry.rest))
      ensures Copies() && OnlyChanged(i, old(til[i]), true)
    {
      hide Slot;
      hide Copies;
      Stamp(i, til[i], req, n);
      til[i] := til[i] + 1;
      if til[i] == submSize { til[i] := 0; }
      submDb[i] := til[i];
    }

    /** The slot gets the request and a copy of its entry. */
    method Stamp(i: nat, c: nat, req: Request, ghost n: nat)
      requires Dims() && Copies() && i < queues && c < submSize && req !in ticket
      requires forall j, d :: 0 <= j < queues && 0 <= d < submSize ==> reqSrc[j, d] != req
      modifies req`entry, reqSrc, submQue, this`ticket
      ensures req.entry == SubmEntry(Stamped(old(req.entry.cmd), c), old(req.entry.rest))
      ensures ticket == old(ticket)[req := n] && reqSrc[i, c] == req && submQue[i, c] == req.entry
      ensures Copies() && OnlyChanged(i, c, true)
    {
      reqSrc[i, c] := req;
      req.entry := req.entry.(cmd := Stamped(req.entry.cmd, c));
      submQue[i, c] := req.entry;
      ticket := ticket[req := n];
    }

    lemma Ring(i: nat, c: nat)
      requires Valid() && i < queues && c == til[i]
      ensures c < submSize && c == Slot(sys.sqs[i].tail, submSize)
      ensures reqSrc[i, c] == null ==> Enabled(sys, Submit(i))
      ensures Slot(sys.sqs[i].tail + 1, submSize) == if c + 1 == submSize then 0 else c + 1
    {
    }

    // ---------- the controller ----------

    /** Fetches the next entry of queue `i` if the doorbell shows one: exactly the entry of the request that
        took the slot, with the slot's number as identifier. */
    method FetchNext(i: nat, head: nat) returns (entry: SubmEntry)
      requires Valid() && i < queues && head == Slot(sys.sqs[i].head, submSize) && head != submDb[i]
      modifies this`held, this`past, this`sys
      ensures entry.cmd / CID_UNIT == head && reqSrc[i, head] != null && entry == reqSrc[i, head].entry
      ensures reqSrc[i, head] in ticket && (i, head) in sys.running && sys.running[(i, head)] == ticket[reqSrc[i, head]]
      ensures Valid() && past == old(past) + [Fetch(i)]
    {
      hide WaitingOK, RunningOK, UnreadOK, AheadOK, RoomOK, TicketsOK;
      hide Legal, After, Init, Slot, Bit, Completions, Written;
      FetchSees(i);
      entry := submQue[i, head];
      hide Inv;
      Did(Fetch(i));
      held := held + {(i, head)};
    }

    lemma FetchSees(i: nat)
      requires Valid() && i < queues && Slot(sys.sqs[i].head, submSize) != submDb[i]
      ensures Enabled(sys, Fetch(i))
      ensures var c := Slot(sys.sqs[i].head, submSize);
              && sys.sqs[i].mem[c].cid == c && reqSrc[i, c] != null && reqSrc[i, c] in ticket
              && sys.sqs[i].mem[c].ticket == ticket[reqSrc[i, c]]
    {
      ControllerSees(sys, i);
      var q := sys.sqs[i];
      assert q.head <= q.head < q.tail ==>
          q.mem[Slot(q.head, submSize)] == Command(Slot(q.head, submSize), q.reqs[Slot(q.head, submSize)].value);
    }

    /** Posts the completion of a fetched command. */
    method PostCompletion(sq: nat, cid: nat, status: nat)
      requires Valid() && (sq, cid) in held
      modifies cmplQue, this`cmplTil, this`cmplPhase, this`held, this`past, this`sys, this`log
      ensures Valid() && past == old(past) + [Complete((sq, cid))] && held == old(held) - {(sq, cid)}
      ensures sys.read == old(sys.read) && sys.posted == old(sys.posted) + 1 && sys.finished == old(sys.finished)
      ensures cmplQue[..] == old(cmplQue[..])[old(cmplTil) := CmplEntry(sq, cid, old(cmplPhase), status)]
      ensures log == old(log) + [CmplEntry(sq, cid, old(cmplPhase), status)]
    {
      hide Inv, Legal, After, Init, Slot, Bit, Slots, Entries, Completions, Shape;
      ghost var e := Completion(sq, cid, cmplPhase, sys.running[(sq, cid)]);
      RoomLeft(sq, cid);
      PutCompletion(CmplEntry(sq, cid, cmplPhase, status), sys, e);
      StillWritten(sys.read, sys.posted, old(cmplQue[..]), CmplEntry(sq, cid, old(cmplPhase), status));
      log := log + [CmplEntry(sq, cid, old(cmplPhase), status)];
      Did(Complete((sq, cid)));
      held := held - {(sq, cid)};
    }

    /** While a command runs the next entry is not an unread one. */
    lemma RoomLeft(sq: nat, cid: nat)
      requires Valid() && (sq, cid) in held
      ensures sys.read <= sys.posted < sys.read + cmplSize
    {
      NeverOverflows(sys, (sq, cid));
    }

    lemma StillWritten(read: nat, posted: nat, was: seq<CmplEntry>, entry: CmplEntry)
      requires Dims() && cmplSize > 0 && |log| == posted && |was| == cmplSize && read <= posted < read + cmplSize
      requires forall n: nat :: read <= n < posted ==> was[Slot(n, cmplSize)] == log[n]
      requires cmplQue[..] == was[Slot(posted, cmplSize) := entry]
      ensures forall n: nat :: read <= n < posted + 1 ==> cmplQue[Slot(n, cmplSize)] == (log + [entry])[n]
    {
      forall n: nat | read <= n < posted ensures Slot(n, cmplSize) != Slot(posted, cmplSize) {
        SlotsDiffer(n, posted, cmplSize);
      }
      assert forall k :: 0 <= k < cmplSize ==> cmplQue[k] == cmplQue[..][k];
    }

    /** The commands that some completions are for. */
    ghost function Named(es: seq<(nat, nat, nat)>): set<(nat, nat)>
    {
      set n | 0 <= n < |es| :: (es[n].0, es[n].1)
    }

    lemma NamedNone(es: seq<(nat, nat, nat)>)
      ensures Named(es[..0]) == {} && es[..|es|] == es
    {
    }

    lemma NamedMore(es: seq<(nat, nat, nat)>, n: nat)
      requires n < |es|
      ensures Named(es[..n + 1]) == Named(es[..n]) + {(es[n].0, es[n].1)}
    {
      forall k | k in Named(es[..n + 1]) ensures k in Named(es[..n]) + {(es[n].0, es[n].1)} {
        var j :| 0 <= j < n + 1 && k == (es[..n + 1][j].0, es[..n + 1][j].1);
        assert j < n ==> es[..n][j] == es[j];
      }
      forall k | k in Named(es[..n]) + {(es[n].0, es[n].1)} ensures k in Named(es[..n + 1]) {
        if k in Named(es[..n]) {
          var j :| 0 <= j < n && k == (es[..n][j].0, es[..n][j].1);
          assert es[..n + 1][j] == es[j];
        } else {
          assert es[..n + 1][n] == es[n];
        }
      }
    }

    /** Posts some completions, each a queue, an identifier and a status; only commands that were fetched
        can be completed. */
    method PostSome(es: seq<(nat, nat, nat)>)
      requires Valid()
      modifies cmplQue, this`cmplTil, this`cmplPhase, this`held, this`past, this`sys, this`log
      ensures Valid() && sys.read == old(sys.read) && sys.finished == old(sys.finished) && old(log) <= log
      ensures sys.posted + |held| == old(sys.posted) + |old(held)| && sys.posted >= old(sys.posted)
      ensures held == old(held) - Named(es)
    {
      hide *;
      NamedNone(es);
      for n := 0 to |es|
        invariant held == old(held) - Named(es[..n])
        invariant Valid() && sys.read == old(sys.read) && sys.finished == old(sys.finished) && old(log) <= log
        invariant sys.posted + |held| == old(sys.posted) + |old(held)| && sys.posted >= old(sys.posted)
      {
        NamedMore(es, n);
        if (es[n].0, es[n].1) in held {
          PostCompletion(es[n].0, es[n].1, es[n].2);
        }
      }
    }

    method PutCompletion(entry: CmplEntry, ghost s: Sys, ghost e: Completion)
      requires Completions(s.cq, s.read, s.posted) && entry.phase == cmplPhase
      requires entry.sq == e.sq && entry.cid == e.cid && entry.phase == e.phase
      modifies cmplQue, this`cmplTil, this`cmplPhase
      ensures old(cmplTil) == Slot(s.posted, cmplSize) && old(cmplPhase) == Bit(s.posted, cmplSize)
      ensures Completions(s.cq[Slot(s.posted, cmplSize) := e], s.read, s.posted + 1)
      ensures cmplQue[..] == old(cmplQue[..])[old(cmplTil) := entry]
    {
      NextCompletion(s.posted);
      hide Slot, Bit;
      cmplQue[cmplTil] := entry;
      cmplTil := cmplTil + 1;
      if cmplTil == cmplSize { cmplTil, cmplPhase := 0, !cmplPhase; }
    }

    lemma NextCompletion(n: nat)
      requires cmplSize > 0
      ensures Slot(n + 1, cmplSize) == if Slot(n, cmplSize) + 1 == cmplSize then 0 else Slot(n, cmplSize) + 1
      ensures Bit(n + 1, cmplSize) == if Slot(n, cmplSize) + 1 == cmplSize then !Bit(n, cmplSize) else Bit(n, cmplSize)
    {
    }

    // ---------- the interrupt handler ----------

    /** One round of the loop of `HW_NVMe_intrHandler`. */
    method DrainOne() returns (found: bool)
      requires Valid()
      modifies reqSrc, ticket.Keys`res, ticket.Keys`finished, this`hdr, this`phaseBit, this`past, this`sys, this`ticket
      ensures Valid() && sys.read <= sys.posted && (found <==> old(sys).read < old(sys).posted)
      ensures !found ==> past == old(past) && sys == old(sys) && ticket == old(ticket)
      ensures found ==>
                sys.read == old(sys.read) + 1 && sys.posted == old(sys.posted) && old(sys.finished) <= sys.finished
      ensures ticket.Keys <= old(ticket.Keys) && forall r :: r in old(ticket) && r !in ticket ==> r.finished
      ensures found ==>
                && past == old(past) + [Drain]
                && Finished(old(cmplQue[hdr]), old(sys), old(ticket), old(reqSrc[cmplQue[hdr].sq, cmplQue[hdr].cid]))
      ensures forall r :: r in ticket ==> r.res == old(r.res) && r.finished == old(r.finished)
      ensures forall r :: r in ticket ==> ticket[r] == old(ticket[r])
      ensures forall r :: r in old(ticket) && r !in ticket ==> Answered(r, old(ticket[r]), old(sys.read))
    {
      hide SizesOK, Follows, Key, IsKey, Holder, Copies, Written, Answered;
      hide Legal, After, Init, Slot, Bit, Inv, Shape, Completions, Entries;
      EntryTells();
      var entry := cmplQue[hdr];
      if entry.phase != phaseBit { return false; }
      var req := Finish(entry);
      LessWritten(sys.read, sys.posted);
      NextHdr(sys.cq, sys.read, sys.posted);
      Drained(entry.sq, entry.cid);
      AnsweredNow(req, old(ticket[req]), old(sys.read));
      found := true;
    }

    /** A request's slot has been freed and the head moved on, as the protocol's step has it. */
    ghost method Drained(i: nat, c: nat)
      requires Follows() && Enabled(sys, Drain) && Key(Entry(sys, sys.read)) == (i, c) && i < queues && c < submSize
      requires sys.sqs[i].reqs[c].Some? && |sys.finished| == sys.read
      requires var q := sys.sqs[i];
               var sqs := sys.sqs[i := q.(reqs := q.reqs[c := None])];
               Slots(sqs) && Entries(sqs)
      requires Completions(sys.cq, sys.read + 1, sys.posted) && held == sys.running.Keys
      requires Copies() && Written(sys.read + 1, sys.posted)
      modifies this`past, this`sys
      ensures sys.read == old(sys.read) + 1 && sys.posted == old(sys.posted) && past == old(past) + [Drain]
      ensures sys.finished == old(sys.finished) + [old(sys.sqs[i].reqs[c].value)]
      ensures Valid()
    {
      hide Follows, Slots, Entries, Completions, Copies, Written, Inv, Legal, Slot, Bit;
      Did(Drain);
    }

    /** The request that a completion names gets the result and leaves its slot. */
    method Finish(entry: CmplEntry) returns (req: Request)
      requires Follows() && Slots(sys.sqs) && Entries(sys.sqs) && Copies()
      requires entry.sq < queues && entry.cid < submSize && reqSrc[entry.sq, entry.cid] != null
      modifies reqSrc, this`ticket, ticket.Keys`res, ticket.Keys`finished
      ensures req == old(reqSrc[entry.sq, entry.cid]) && req in old(ticket) && ticket == old(ticket) - {req}
      ensures req.finished && req.res == entry
      ensures forall r :: r in ticket ==> r.res == old(r.res) && r.finished == old(r.finished)
      ensures var q := sys.sqs[entry.sq];
              && q.reqs[entry.cid] == Some(old(ticket)[req])
              && Slots(sys.sqs[entry.sq := q.(reqs := q.reqs[entry.cid := None])])
              && Entries(sys.sqs[entry.sq := q.(reqs := q.reqs[entry.cid := None])])
      ensures Copies()
    {
      hide Follows, Copies, Entries;
      EntriesStay(sys.sqs, entry.sq, sys.sqs[entry.sq].reqs[entry.cid := None]);
      OnlySlot(entry.sq, entry.cid);
      req := FreeSlot(entry.sq, entry.cid, sys.sqs);
      Answer(req, entry);
    }

    method Answer(req: Request, entry: CmplEntry)
      requires Copies() && req !in ticket
      modifies req`res, req`finished
      ensures Copies() && req.finished && req.res == entry
    {
      req.res := entry;
      req.finished := true;
    }

    lemma LessWritten(read: nat, posted: nat)
      requires Written(read, posted)
      ensures Written(read + 1, posted)
    {
    }

    /** Freeing a slot leaves the queue entries alone. */
    lemma EntriesStay(sqs: seq<Queue>, i: nat, reqs: seq<Option<nat>>)
      requires Entries(sqs) && i < queues
      ensures Entries(sqs[i := sqs[i].(reqs := reqs)])
    {
    }

    method NextHdr(ghost cq: seq<Completion>, ghost read: nat, ghost posted: nat)
      requires Completions(cq, read, posted)
      modifies this`hdr, this`phaseBit
      ensures Completions(cq, read + 1, posted)
    {
      NextCompletion(read);
      hide Slot, Bit;
      if hdr + 1 == cmplSize { hdr, phaseBit := 0, !phaseBit; } else { hdr := hdr + 1; }
    }

    /** The entry at the head is unread if its phase bit says so, and then names a request. */
    lemma EntryTells()
      requires Valid()
      ensures sys.read <= sys.posted && hdr < cmplSize && (cmplQue[hdr].phase == phaseBit <==> sys.read < sys.posted)
      ensures sys.read < sys.posted ==> Enabled(sys, Drain)
      ensures sys.read < sys.posted ==>
                && cmplQue[hdr].sq < queues && cmplQue[hdr].cid < submSize
                && Key(Entry(sys, sys.read)) == (cmplQue[hdr].sq, cmplQue[hdr].cid)
      ensures sys.read < sys.posted ==> reqSrc[cmplQue[hdr].sq, cmplQue[hdr].cid] != null
      ensures |log| == sys.posted && |sys.finished| == sys.read
      ensures sys.read < sys.posted ==> cmplQue[hdr] == log[sys.read]
    {
      hide WaitingOK, RunningOK, UnreadOK, AheadOK, RoomOK, TicketsOK, Legal, After;
      PhaseTells(sys);
    }

    /** Takes the request out of its slot. */
    method FreeSlot(i: nat, c: nat, ghost sqs: seq<Queue>) returns (req: Request)
      requires Slots(sqs) && Copies() && i < queues && c < submSize && reqSrc[i, c] != null
      requires forall j, d :: 0 <= j < queues && 0 <= d < submSize && reqSrc[j, d] == reqSrc[i, c] ==> j == i && d == c
      modifies reqSrc, this`ticket
      ensures req == old(reqSrc[i, c]) && req in old(ticket) && ticket == old(ticket) - {req}
      ensures Copies()
      ensures sqs[i].reqs[c] == Some(old(ticket)[req]) && Slots(sqs[i := sqs[i].(reqs := sqs[i].reqs[c := None])])
    {
      req := reqSrc[i, c];
      reqSrc[i, c] := null;
      ticket := ticket - {req};
    }

    /** A request is kept in one slot only. */
    lemma OnlySlot(i: nat, c: nat)
      requires Follows() && Slots(sys.sqs) && i < queues && c < submSize && reqSrc[i, c] != null
      ensures forall j, d :: 0 <= j < queues && 0 <= d < submSize && reqSrc[j, d] == reqSrc[i, c] ==> j == i && d == c
    {
      forall j: nat, d: nat | j < queues && d < submSize && reqSrc[j, d] == reqSrc[i, c] ensures j == i && d == c {
        assert IsKey(sys, (i, c)) && IsKey(sys, (j, d)) && Holder(sys, (i, c)) == Holder(sys, (j, d));
      }
    }

    /** The request `req` was the one whose command completed, and it is finished now. */
    ghost predicate Finished(entry: CmplEntry, was: Sys, t: map<Request, nat>, req: Request?)
      reads this`sys, this`ticket, req
    {
      && req != null && req in t && was.finished + [t[req]] == sys.finished && ticket == t - {req}
      && req.finished && req.res == entry
    }

    /** The result of `r` is the completion at the place at which its submission `t` was finished. */
    ghost predicate Answered(r: Request, t: nat, from: nat)
      reads this`log, this`sys, r`res
    {
      ResultAt(r.res, t, from, log, sys.finished)
    }

    ghost predicate ResultAt(res: CmplEntry, t: nat, from: nat, l: seq<CmplEntry>, fin: seq<nat>)
    {
      exists n: nat :: from <= n < |l| && n < |fin| && fin[n] == t && res == l[n]
    }

    /** `HW_NVMe_intrHandler`. `arrivals` are the completions the controller posts before each look at the
        queue; there is an end to them, as every one uses up a command. */
    method IntrHandler(arrivals: nat -> seq<(nat, nat, nat)>) returns (found: nat)
      requires Valid()
      modifies cmplQue, this`cmplTil, this`cmplPhase, this`held, this`log
      modifies reqSrc, ticket.Keys`res, ticket.Keys`finished, this`hdr, this`phaseBit, this`cmplDb, this`past, this`sys
      modifies this`ticket
      ensures Valid() && sys.read == sys.posted >= old(sys.posted) && found == sys.read - old(sys.read)
      ensures old(sys.finished) <= sys.finished && ticket.Keys <= old(ticket.Keys)
      ensures |log| == sys.posted && old(log) <= log
      ensures forall r :: r in old(ticket) && r !in ticket ==> r.finished && Answered(r, old(ticket[r]), old(sys.read))
      ensures forall r :: r in ticket ==> r.finished == old(r.finished) && r.res == old(r.res)
      ensures held <= old(held) && forall n: nat :: n <= found ==> Named(arrivals(n)) !! held
      ensures cmplDb == if found > 0 then hdr else old(cmplDb)
    {
      hide *;
      found := 0;
      var more := true;
      ReadFirst();
      ghost var t0, from := ticket, sys.read;
      NoneYet(t0, from);
      while more
        invariant Valid() && sys.posted >= old(sys.posted) && sys.read == old(sys.read) + found
        invariant sys.read <= sys.posted && (!more ==> sys.read == sys.posted) && cmplDb == old(cmplDb)
        invariant old(sys.finished) <= sys.finished && ticket.Keys <= old(ticket.Keys) && old(log) <= log
        invariant held <= old(held)
        invariant forall n: nat :: n < found || (n == found && !more) ==> Named(arrivals(n)) !! held
        invariant Part(ticket, t0)
        invariant AllAnswered(t0, from, ticket, log, sys.finished)
        invariant forall r :: r in ticket ==> r.finished == old(r.finished) && r.res == old(r.res)
        decreases more, sys.posted + |held| - sys.read
      {
        more := Round(arrivals(found), t0, from);
        if more { found := found + 1; }
      }
      LogLength();
      EachAnswered(t0, from);
      if found > 0 { RingCmplDb(); }
    }

    /** What is left of the outstanding requests `t0`. */
    ghost predicate Part(t: map<Request, nat>, t0: map<Request, nat>)
    {
      forall r :: r in t ==> r in t0 && t[r] == t0[r]
    }

    /** The requests of `t0` that are not in `t` any more have their results. */
    ghost predicate AllAnswered(t0: map<Request, nat>, from: nat, t: map<Request, nat>, l: seq<CmplEntry>,
                                fin: seq<nat>)
      reads t0.Keys`res, t0.Keys`finished
    {
      forall r :: r in t0 && r !in t ==> r.finished && ResultAt(r.res, t0[r], from, l, fin)
    }

    lemma NoneYet(t0: map<Request, nat>, from: nat)
      ensures AllAnswered(t0, from, t0, log, sys.finished) && Part(t0, t0)
    {
    }

    lemma EachAnswered(t0: map<Request, nat>, from: nat)
      requires AllAnswered(t0, from, ticket, log, sys.finished) && Part(ticket, t0)
      ensures forall r :: r in t0 && r !in ticket ==> r.finished && Answered(r, t0[r], from)
      ensures ticket.Keys <= t0.Keys
    {
    }

    /** Some completions arrive, and the next one is read if there is one. */
    method Round(es: seq<(nat, nat, nat)>, ghost t0: map<Request, nat>, ghost from: nat) returns (more: bool)
      requires Valid() && AllAnswered(t0, from, ticket, log, sys.finished) && Part(ticket, t0) && from <= sys.read
      modifies cmplQue, this`cmplTil, this`cmplPhase, this`held, this`log
      modifies reqSrc, ticket.Keys`res, ticket.Keys`finished, this`hdr, this`phaseBit, this`past, this`sys, this`ticket
      ensures AllAnswered(t0, from, ticket, log, sys.finished) && Part(ticket, t0)
      ensures held == old(held) - Named(es)
      ensures sys.posted + |held| == old(sys.posted) + |old(held)| && sys.posted >= old(sys.posted)
      ensures sys.read == old(sys.read) + (if more then 1 else 0) && (!more ==> sys.read == sys.posted)
      ensures old(sys.finished) <= sys.finished && ticket.Keys <= old(ticket.Keys) && old(log) <= log
      ensures forall r :: r in ticket ==> r.finished == old(r.finished) && r.res == old(r.res)
      ensures Valid() && sys.read <= sys.posted
    {
      hide *;
      PostSome(es);
      LongerLog(t0, from, ticket, old(log), log, sys.finished, sys.finished);
      more := ReadOne(t0, from);
    }

    method ReadOne(ghost t0: map<Request, nat>, ghost from: nat) returns (more: bool)
      requires Valid() && AllAnswered(t0, from, ticket, log, sys.finished) && Part(ticket, t0) && from <= sys.read
      modifies reqSrc, ticket.Keys`res, ticket.Keys`finished, this`hdr, this`phaseBit, this`past, this`sys, this`ticket
      ensures AllAnswered(t0, from, ticket, log, sys.finished) && Part(ticket, t0)
      ensures sys.posted == old(sys.posted) && old(sys.finished) <= sys.finished && ticket.Keys <= old(ticket.Keys)
      ensures sys.read == old(sys.read) + (if more then 1 else 0) && (!more ==> sys.read == sys.posted)
      ensures forall r :: r in ticket ==> r.finished == old(r.finished) && r.res == old(r.res)
      ensures Valid() && sys.read <= sys.posted
    {
      hide Valid, ResultAt, Finished;
      ghost var t, fin := ticket, sys.finished;
      more := DrainOne();
      LongerLog(t0, from, t, log, log, fin, sys.finished);
      forall r | r in t && r !in ticket ensures ResultAt(r.res, t0[r], from, log, sys.finished) {
        Earlier(r.res, t0[r], old(sys.read), from, log, sys.finished);
      }
    }

    lemma LongerLog(t0: map<Request, nat>, from: nat, t: map<Request, nat>, l: seq<CmplEntry>, l': seq<CmplEntry>,
                    fin: seq<nat>, fin': seq<nat>)
      requires AllAnswered(t0, from, t, l, fin) && l <= l' && fin <= fin'
      ensures AllAnswered(t0, from, t, l', fin')
    {
      forall r | r in t0 && r !in t ensures ResultAt(r.res, t0[r], from, l', fin') {
        var n: nat :| from <= n < |l| && n < |fin| && fin[n] == t0[r] && r.res == l[n];
        assert l'[n] == l[n] && fin'[n] == fin[n];
      }
    }

    lemma AnsweredNow(r: Request, t: nat, n: nat)
      requires n < |log| && n < |sys.finished| && sys.finished[n] == t && r.res == log[n]
      ensures Answered(r, t, n)
    {
    }

    lemma Earlier(res: CmplEntry, t: nat, from: nat, start: nat, l: seq<CmplEntry>, fin: seq<nat>)
      requires ResultAt(res, t, from, l, fin) && start <= from
      ensures ResultAt(res, t, start, l, fin)
    {
    }

    lemma LogLength()
      requires Valid()
      ensures |log| == sys.posted
    {
      hide Follows, Slots, Entries, Completions, Copies;
    }

    method RingCmplDb()
      requires Valid()
      modifies this`cmplDb
      ensures Valid() && cmplDb == hdr
    {
      hide Slots, Entries, Completions, Follows, Copies, Written;
      cmplDb := hdr;
    }

    lemma ReadFirst()
      requires Valid()
      ensures sys.read <= sys.posted
    {
      hide Slots, Entries, Completions, Inv, Legal, After, Init;
    }
  }
}
