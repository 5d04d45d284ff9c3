/** The transfer ring and the event ring of kernel/hardware/USB/XHCI together: a request is stored, the
    controller takes its blocks and posts an event for the last one, the event goes through interrupt
    handler and queue to the handler task, which gives the request's slots up and finishes it. */
module XhciLoop {
  import opened Basics
  import opened Cycles
  import R = RingProtocol
  import E = EventProtocol

  /** Only the last block of a request asks for an event; its pointer names the slot. Other events share
      the event ring. */
  datatype Event = Done(pos: nat) | Other(x: nat)

  /** Requests are numbered as they are submitted; `last` has the index of each one's last block, and the
      first `ended` of them have been taken by the controller. `owes` are the events it has still to post,
      `done` the requests finished, and `fault` tells that a handled event named a slot without request. */
  datatype Loop = Loop(ring: R.Sys<nat>, ev: E.Sys<Event>, last: seq<nat>, ended: nat, owes: seq<nat>,
                       done: seq<nat>, fault: bool)

  datatype Action = Submit(trbs: seq<R.TRB>) | Store(bit: bool) | Poll
    | Post | Noise(x: nat) | Take | Copy | Report(n: nat) | Handle

  ghost predicate Shape(s: Loop)
  {
    R.Shape(s.ring) && E.Shape(s.ev)
  }

  /** Submitting needs the ring's lock, and so does the handler for giving slots up. */
  ghost predicate Enabled(s: Loop, a: Action)
    requires Shape(s)
  {
    match a
    case Submit(trbs) => trbs != [] && R.Enabled(s.ring, R.Begin(|s.last|, trbs))
    case Store(bit) => R.Enabled(s.ring, R.Action<nat>.Store(bit))
    case Poll => true
    case Post => s.owes != [] && E.Enabled(s.ev, E.Post(Done(s.owes[0])))
    case Noise(x) => E.Enabled(s.ev, E.Post(Other(x)))
    case Take => E.Enabled(s.ev, E.Take)
    case Copy => E.Enabled(s.ev, E.Copy)
    case Report(n) => E.Enabled(s.ev, E.Report(n))
    case Handle => s.ev.queue != [] && s.ring.stored == |s.ring.hist|
  }

  ghost function Polled(s: Loop): Loop
    requires Shape(s)
  {
    var t := s.(ring := R.Polled(s.ring));
    if R.Waiting(s.ring) || s.ended >= |s.last| || s.ring.read != s.last[s.ended] then t
    else t.(ended := s.ended + 1, owes := s.owes + [s.ring.cpos])
  }

  /** The request at the slot is given up and finished. */
  ghost function Completed(s: Loop, pos: nat): Loop
    requires Shape(s) && s.ring.stored == |s.ring.hist|
  {
    if pos >= s.ring.size || s.ring.owner[pos].None? then s.(fault := true)
    else
      var r := s.ring.owner[pos].value;
      s.(ring := R.Apply(s.ring, R.Release(r)), done := s.done + [r])
  }

  ghost function Handled(s: Loop): Loop
    requires Shape(s) && Enabled(s, Handle)
  {
    var t := s.(ev := E.Apply(s.ev, E.Handle));
    match s.ev.queue[0]
    case Done(pos) => Completed(t, pos)
    case Other(_) => t
  }

  ghost function Apply(s: Loop, a: Action): Loop
    requires Shape(s) && Enabled(s, a)
  {
    match a
    case Submit(trbs) =>
      var ring := R.Apply(s.ring, R.Begin(|s.last|, trbs));
      s.(ring := ring, last := s.last + [if ring.hist == [] then 0 else |ring.hist| - 1])
    case Store(bit) => s.(ring := R.Apply(s.ring, R.Action<nat>.Store(bit)))
    case Poll => Polled(s)
    case Post => s.(ev := E.Apply(s.ev, E.Post(Done(s.owes[0]))), owes := s.owes[1..])
    case Noise(x) => s.(ev := E.Apply(s.ev, E.Post(Other(x))))
    case Take => s.(ev := E.Apply(s.ev, E.Take))
    case Copy => s.(ev := E.Apply(s.ev, E.Copy))
    case Report(n) => s.(ev := E.Apply(s.ev, E.Report(n)))
    case Handle => Handled(s)
  }

  // ---------- the invariant ----------

  /** Index `n` is one of request `i`. */
  predicate Of(last: seq<nat>, i: nat, n: nat)
  {
    i < |last| && n <= last[i] && (i == 0 || last[i - 1] < n)
  }

  ghost predicate LastOK(last: seq<nat>, len: nat, size: nat)
    requires size > 0
  {
    && (forall i, j :: 0 <= i < j < |last| ==> last[i] < last[j])
    && (forall i :: 0 <= i < |last| ==> last[i] < len && !R.AtLink(last[i], size))
    && len == if last == [] then 0 else last[|last| - 1] + 1
  }

  /** The request being stored is the last one, and less than a turn of it is left. */
  ghost predicate HolderOK(s: R.Sys<nat>, last: seq<nat>, done: nat)
  {
    s.stored < |s.hist| ==>
      && done < |last| && s.holder == Some(|last| - 1) && (|last| == 1 || last[|last| - 2] < s.stored)
      && |s.hist| <= s.stored + s.size
  }

  /** The stored blocks of unfinished requests have their slots. */
  ghost predicate Kept(owner: seq<Option<nat>>, last: seq<nat>, done: nat, stored: nat)
    requires |owner| > 0
  {
    forall i: nat, n: nat :: done <= i && Of(last, i, n) && n < stored && !R.AtLink(n, |owner|) ==>
      owner[Slot(n, |owner|)] == Some(i)
  }

  /** Other slots are free. */
  ghost predicate NoneElse(owner: seq<Option<nat>>, done: nat, count: nat)
  {
    forall c :: 0 <= c < |owner| && owner[c].Some? ==> done <= owner[c].value < count
  }

  ghost predicate FreeAhead(owner: seq<Option<nat>>, stored: nat, len: nat)
    requires |owner| > 0
  {
    forall n: nat :: stored <= n < len && !R.AtLink(n, |owner|) ==> owner[Slot(n, |owner|)].None?
  }

  ghost function Dones(es: seq<Event>): seq<nat>
  {
    if es == [] then []
    else Dones(es[..|es| - 1]) + if es[|es| - 1].Done? then [es[|es| - 1].pos] else []
  }

  ghost predicate EndedOK(last: seq<nat>, ended: nat, read: nat)
  {
    && ended <= |last|
    && (forall i :: 0 <= i < ended ==> last[i] < read)
    && (forall i :: ended <= i < |last| ==> read <= last[i])
  }

  /** The events posted and owed are those of the requests that have ended, in order. */
  ghost predicate EventsOK(posted: seq<Event>, owes: seq<nat>, last: seq<nat>, ended: nat, size: nat)
    requires size > 0 && ended <= |last|
  {
    var all := Dones(posted) + owes;
    |all| == ended && forall i :: 0 <= i < ended ==> all[i] == Slot(last[i], size)
  }

  ghost predicate DoneOK(done: seq<nat>, handled: seq<Event>)
  {
    |Dones(handled)| == |done| && forall i :: 0 <= i < |done| ==> done[i] == i
  }

  ghost predicate RingOK(s: R.Sys<nat>, last: seq<nat>, done: nat)
  {
    && R.Inv(s) && LastOK(last, |s.hist|, s.size) && HolderOK(s, last, done)
    && Kept(s.owner, last, done, s.stored) && NoneElse(s.owner, done, |last|)
    && FreeAhead(s.owner, s.stored, |s.hist|)
  }

  ghost predicate Inv(s: Loop)
  {
    && RingOK(s.ring, s.last, |s.done|) && E.Inv(s.ev)
    && EndedOK(s.last, s.ended, s.ring.read) && EventsOK(s.ev.posted, s.owes, s.last, s.ended, s.ring.size)
    && DoneOK(s.done, s.ev.handled) && !s.fault
  }

  // ---------- submitting and storing ----------

  lemma MoreLast(last: seq<nat>, len: nat, size: nat, x: nat)
    requires size > 0 && LastOK(last, len, size) && len <= x && !R.AtLink(x, size)
    ensures LastOK(last + [x], x + 1, size)
  {
  }

  lemma MoreKept(owner: seq<Option<nat>>, last: seq<nat>, done: nat, stored: nat, size: nat, x: nat)
    requires |owner| > 0 && size > 0 && Kept(owner, last, done, stored) && LastOK(last, stored, size) && stored <= x
    ensures Kept(owner, last + [x], done, stored)
  {
    forall i: nat, n: nat | Of(last + [x], i, n) && n < stored ensures Of(last, i, n) {
    }
  }

  lemma FitsFree(s: R.Sys<nat>, trbs: seq<R.TRB>)
    requires R.Shape(s) && |s.owner| == s.size && R.Fits(s, trbs) && R.Insertable(s.size, trbs)
    ensures FreeAhead(s.owner, |s.hist|, |R.Extend(s.hist, s.size, trbs)|) && |trbs| < s.size
  {
  }

  lemma SubmitKeeps(s: R.Sys<nat>, last: seq<nat>, done: nat, trbs: seq<R.TRB>)
    requires RingOK(s, last, done) && done <= |last| && trbs != [] && R.Enabled(s, R.Begin(|last|, trbs))
    ensures var u := R.Apply(s, R.Begin(|last|, trbs));
            |u.hist| > |s.hist| && RingOK(u, last + [|u.hist| - 1], done)
  {
    hide R.Inv, R.Fits, R.Insertable, R.Extend, Kept, LastOK, FreeAhead;
    SameSize(s);
    R.BeginKeeps(s, |last|, trbs);
    FitsFree(s, trbs);
    R.ExtendShape(s.hist, s.size, trbs);
    R.ExtendLength(s.hist, s.size, trbs);
    var x := |R.Extend(s.hist, s.size, trbs)| - 1;
    MoreLast(last, |s.hist|, s.size, x);
    MoreKept(s.owner, last, done, s.stored, s.size, x);
    StartsAfter(last, |s.hist|, s.size, x);
  }

  lemma StartsAfter(last: seq<nat>, len: nat, size: nat, x: nat)
    requires size > 0 && LastOK(last, len, size)
    ensures last != [] ==> (last + [x])[|last| - 1] < len
  {
  }

  /** The slot of the block of index `n` now belongs to the request being stored. */
  lemma KeptMore(owner: seq<Option<nat>>, last: seq<nat>, done: nat, n: nat, len: nat)
    requires |owner| > 0 && n < len && last != [] && (|last| == 1 || last[|last| - 2] < n) && !R.AtLink(n, |owner|)
    requires LastOK(last, len, |owner|) && Kept(owner, last, done, n) && FreeAhead(owner, n, len)
    ensures Kept(owner[Slot(n, |owner|) := Some(|last| - 1)], last, done, n + 1)
  {
    var k := Slot(n, |owner|);
    assert owner[k].None?;
    forall i: nat, m: nat | done <= i && Of(last, i, m) && m < n + 1 && !R.AtLink(m, |owner|)
      ensures owner[k := Some(|last| - 1)][Slot(m, |owner|)] == Some(i)
    {
      if m < n { assert owner[Slot(m, |owner|)] == Some(i); } else { assert i == |last| - 1; }
    }
  }

  lemma FreeLess(owner: seq<Option<nat>>, n: nat, len: nat, o: Option<nat>)
    requires |owner| > 0 && n < len <= n + |owner| && FreeAhead(owner, n, len)
    ensures FreeAhead(owner[Slot(n, |owner|) := o], n + 1, len) && FreeAhead(owner, n + 1, len)
  {
    forall m: nat | n + 1 <= m < len ensures Slot(m, |owner|) != Slot(n, |owner|) {
      SlotsDiffer(n, m, |owner|);
    }
  }

  lemma KeptLink(owner: seq<Option<nat>>, last: seq<nat>, done: nat, n: nat)
    requires |owner| > 0 && Kept(owner, last, done, n) && R.AtLink(n, |owner|)
    ensures Kept(owner, last, done, n + 1)
  {
  }

  lemma StoreKeeps(s: R.Sys<nat>, last: seq<nat>, done: nat, bit: bool)
    requires RingOK(s, last, done) && s.stored < |s.hist|
    ensures RingOK(R.Stored(s, bit), last, done)
  {
    hide R.UnreadOK, R.AheadOK, R.PartOK, R.OwnersOK, R.HistOK, R.LinksOK, R.Payload, Kept, LastOK, FreeAhead;
    R.ActionKeeps(s, R.Action<nat>.Store(bit));
    if R.AtLink(s.stored, s.size) {
      KeptLink(s.owner, last, done, s.stored);
      FreeLess(s.owner, s.stored, |s.hist|, None);
    } else if s.phase == 2 {
      KeptMore(s.owner, last, done, s.stored, |s.hist|);
      FreeLess(s.owner, s.stored, |s.hist|, s.holder);
    }
  }

  // ---------- polling ----------

  lemma PollRing(s: R.Sys<nat>, last: seq<nat>, done: nat)
    requires RingOK(s, last, done)
    ensures RingOK(R.Polled(s), last, done)
    ensures R.Polled(s).read == (if R.Waiting(s) then s.read else s.read + 1) && R.Polled(s).size == s.size
  {
    hide R.Inv, Kept, LastOK, FreeAhead, NoneElse;
    R.PollKeeps(s);
  }

  /** One block more has been read: at most one request more has ended. */
  lemma EndedMore(last: seq<nat>, ended: nat, read: nat, len: nat, size: nat)
    requires EndedOK(last, ended, read) && size > 0 && LastOK(last, len, size)
    ensures if ended < |last| && last[ended] == read then EndedOK(last, ended + 1, read + 1)
            else EndedOK(last, ended, read + 1)
  {
  }

  lemma EventMore(posted: seq<Event>, owes: seq<nat>, last: seq<nat>, ended: nat, size: nat)
    requires size > 0 && ended < |last| && EventsOK(posted, owes, last, ended, size)
    ensures EventsOK(posted, owes + [Slot(last[ended], size)], last, ended + 1, size)
  {
    Joined(Dones(posted), owes, [Slot(last[ended], size)]);
  }

  lemma PollKeeps(s: Loop)
    requires Inv(s)
    ensures Inv(Polled(s))
  {
    hide R.Inv, E.Inv, Kept, FreeAhead, NoneElse, Dones, EndedOK, EventsOK, DoneOK, LastOK, HolderOK;
    PollRing(s.ring, s.last, |s.done|);
    Cursor(s.ring);
    if !R.Waiting(s.ring) {
      EndedMore(s.last, s.ended, s.ring.read, |s.ring.hist|, s.ring.size);
      if s.ended < |s.last| && s.last[s.ended] == s.ring.read {
        EventMore(s.ev.posted, s.owes, s.last, s.ended, s.ring.size);
      }
    }
  }

  lemma Cursor(s: R.Sys<nat>)
    requires R.Inv(s)
    ensures s.size > 0 && s.cpos == Slot(s.read, s.size)
  {
  }

  // ---------- events on their way ----------

  lemma {:induction false} DonesJoin(a: seq<Event>, b: seq<Event>)
    ensures Dones(a + b) == Dones(a) + Dones(b)
    decreases |b|
  {
    if b == [] {
      assert a + b == a;
    } else {
      var c, e := b[..|b| - 1], b[|b| - 1];
      assert (a + b)[..|a + b| - 1] == a + c;
      DonesJoin(a, c);
      Joined(Dones(a), Dones(c), if e.Done? then [e.pos] else []);
    }
  }

  lemma DonesOne(e: Event)
    ensures Dones([e]) == if e.Done? then [e.pos] else []
  {
    assert [e][..0] == [];
  }

  /** No more requests are finished than have ended. */
  lemma Numbers(s: Loop)
    requires Inv(s)
    ensures Shape(s) && s.ring.size > 0 && |s.done| <= s.ended <= |s.last|
  {
    hide RingOK, E.UnreadOK, E.AheadOK, Dones;
    Parts(s.ring, s.last, |s.done|);
    SameSize(s.ring);
    var h, q, rest := s.ev.handled, s.ev.queue, s.ev.posted[s.ev.copied..];
    assert s.ev.posted == s.ev.posted[..s.ev.copied] + rest;
    assert s.ev.posted == h + (q + rest);
    DonesJoin(h, q + rest);
  }

  lemma Parts(s: R.Sys<nat>, last: seq<nat>, done: nat)
    requires RingOK(s, last, done)
    ensures R.Inv(s)
  {
  }

  lemma PostKeeps(posted: seq<Event>, owes: seq<nat>, last: seq<nat>, ended: nat, size: nat, x: nat)
    requires size > 0 && ended <= |last| && EventsOK(posted, owes, last, ended, size)
    ensures owes != [] ==> EventsOK(posted + [Done(owes[0])], owes[1..], last, ended, size)
    ensures EventsOK(posted + [Other(x)], owes, last, ended, size)
  {
    DonesJoin(posted, [Other(x)]);
    DonesOne(Other(x));
    if owes != [] {
      DonesJoin(posted, [Done(owes[0])]);
      DonesOne(Done(owes[0]));
      Joined(Dones(posted), [owes[0]], owes[1..]);
      assert [owes[0]] + owes[1..] == owes;
    }
  }

  /** The steps of the event path but the last. */
  lemma PathKeeps(s: Loop, a: Action)
    requires Inv(s) && Enabled(s, a) && (a.Post? || a.Noise? || a.Take? || a.Copy? || a.Report?)
    ensures Inv(Apply(s, a))
  {
    hide RingOK, EndedOK, EventsOK, DoneOK, R.Enabled, R.Apply, E.UnreadOK, E.AheadOK, E.OrderOK;
    Numbers(s);
    match a
    case Post =>
      E.ActionKeeps(s.ev, E.Post(Done(s.owes[0])));
      PostKeeps(s.ev.posted, s.owes, s.last, s.ended, s.ring.size, 0);
    case Noise(x) =>
      E.ActionKeeps(s.ev, E.Post(Other(x)));
      PostKeeps(s.ev.posted, s.owes, s.last, s.ended, s.ring.size, x);
    case Take => E.ActionKeeps(s.ev, E.Take);
    case Copy => E.ActionKeeps(s.ev, E.Copy);
    case Report(n) => E.ActionKeeps(s.ev, E.Report(n));
  }

  // ---------- handling an event ----------

  /** Every index below the last one is one of some request. */
  lemma {:induction false} SomeRequest(last: seq<nat>, len: nat, size: nat, n: nat) returns (i: nat)
    requires size > 0 && LastOK(last, len, size) && n < len
    ensures Of(last, i, n)
  {
    i := 0;
    while last[i] < n
      invariant i < |last| && (i == 0 || last[i - 1] < n)
      decreases |last| - i
    {
      i := i + 1;
    }
  }

  /** The slot of the last block of the first unfinished request is still that request's. */
  lemma SlotIsHis(s: R.Sys<nat>, last: seq<nat>, done: nat)
    requires RingOK(s, last, done) && done < |last| && last[done] < s.stored
    ensures Slot(last[done], s.size) < |s.owner| && s.owner[Slot(last[done], s.size)] == Some(done)
  {
    hide R.Inv, FreeAhead, NoneElse, HolderOK;
    Cursor(s);
    SameSize(s);
    assert Of(last, done, last[done]);
  }

  lemma SameSize(s: R.Sys<nat>)
    requires R.Inv(s)
    ensures |s.owner| == s.size == |s.mem| && s.size >= 2 && R.Shape(s)
  {
  }

  /** A request whose last block has been read has no block that has not. */
  lemma AllRead(s: R.Sys<nat>, last: seq<nat>, done: nat)
    requires RingOK(s, last, done) && done < |last| && last[done] < s.read && s.stored == |s.hist|
    ensures R.Shape(s) && R.Safe(s, R.Action<nat>.Release(done))
  {
    SameSize(s);
    forall n: nat ensures !R.Unread(s, done, n) {
      if s.read <= n < |s.hist| && !R.AtLink(n, s.size) {
        var i := SomeRequest(last, |s.hist|, s.size, n);
        Later(last, |s.hist|, s.size, done, i, n);
        assert s.owner[Slot(n, s.size)] == Some(i);
      }
    }
  }

  lemma Later(last: seq<nat>, len: nat, size: nat, i: nat, j: nat, n: nat)
    requires size > 0 && LastOK(last, len, size) && i < |last| && last[i] < n && Of(last, j, n)
    ensures i < j
  {
  }

  lemma ReleasedOwners(owner: seq<Option<nat>>, last: seq<nat>, done: nat, stored: nat)
    requires |owner| > 0 && Kept(owner, last, done, stored) && NoneElse(owner, done, |last|)
    ensures Kept(R.Cleared(owner, done), last, done + 1, stored) && NoneElse(R.Cleared(owner, done), done + 1, |last|)
  {
    hide Slot;
  }

  lemma ReleaseKeeps(s: R.Sys<nat>, last: seq<nat>, done: nat)
    requires RingOK(s, last, done) && done < |last| && last[done] < s.read && s.stored == |s.hist|
    ensures R.Shape(s) && RingOK(R.Apply(s, R.Action<nat>.Release(done)), last, done + 1)
  {
    hide R.Inv, R.Safe, R.Shape, Kept, NoneElse, LastOK;
    SameSize(s);
    AllRead(s, last, done);
    R.ActionKeeps(s, R.Action<nat>.Release(done));
    ReleasedOwners(s.owner, last, done, s.stored);
  }

  /** The event at the head of the queue is that of the first unfinished request. */
  lemma HeadEvent(s: Loop)
    requires Inv(s) && s.ev.queue != []
    ensures s.ev.queue[0].Done? ==>
              |s.done| < s.ended <= |s.last| && s.ev.queue[0].pos == Slot(s.last[|s.done|], s.ring.size)
              && s.last[|s.done|] < s.ring.read
    ensures |Dones(s.ev.handled + [s.ev.queue[0]])| == |s.done| + (if s.ev.queue[0].Done? then 1 else 0)
  {
    hide RingOK, E.UnreadOK, E.AheadOK;
    var h, e, q := s.ev.handled, s.ev.queue[0], s.ev.queue[1..];
    var rest := s.ev.posted[s.ev.copied..];
    assert s.ev.posted == h + ([e] + (q + rest)) by {
      assert s.ev.posted == s.ev.posted[..s.ev.copied] + rest;
      assert h + s.ev.queue == h + ([e] + q);
    }
    DonesJoin(h, [e] + (q + rest));
    DonesJoin([e], q + rest);
    DonesJoin(h, [e]);
    DonesOne(e);
    hide Dones;
    if e.Done? {
      assert (Dones(s.ev.posted) + s.owes)[|s.done|] == e.pos;
    }
  }

  lemma HandleKeeps(s: Loop)
    requires Shape(s) && Enabled(s, Handle) && Inv(s)
    ensures Inv(Handled(s))
    ensures s.ev.queue[0].Done? ==> Handled(s).done == s.done + [|s.done|]
  {
    hide RingOK, EndedOK, EventsOK, Dones, E.UnreadOK, E.AheadOK, E.OrderOK;
    HeadEvent(s);
    E.ActionKeeps(s.ev, E.Handle);
    if s.ev.queue[0].Done? {
      Ahead(s.ring, s.last, |s.done|);
      SlotIsHis(s.ring, s.last, |s.done|);
      ReleaseKeeps(s.ring, s.last, |s.done|);
    }
  }

  lemma ActionKeeps(s: Loop, a: Action)
    requires Inv(s) && Enabled(s, a)
    ensures Inv(Apply(s, a))
  {
    match a
    case Submit(trbs) => SubmittedKeeps(s, trbs);
    case Store(bit) => StoredKeeps(s, bit);
    case Poll => PollKeeps(s);
    case Handle => HandleKeeps(s);
    case _ => PathKeeps(s, a);
  }

  lemma SubmittedKeeps(s: Loop, trbs: seq<R.TRB>)
    requires Shape(s) && Enabled(s, Submit(trbs)) && Inv(s)
    ensures Inv(Apply(s, Submit(trbs)))
  {
    hide RingOK, E.Inv, Dones;
    Numbers(s);
    SubmitKeeps(s.ring, s.last, |s.done|, trbs);
    Ahead(s.ring, s.last, |s.done|);
  }

  /** The controller is not beyond what was submitted. */
  lemma Ahead(s: R.Sys<nat>, last: seq<nat>, done: nat)
    requires RingOK(s, last, done)
    ensures s.read <= |s.hist|
  {
  }

  lemma StoredKeeps(s: Loop, bit: bool)
    requires Shape(s) && Enabled(s, Store(bit)) && Inv(s)
    ensures Inv(Apply(s, Store(bit)))
  {
    hide RingOK, E.Inv, EndedOK, EventsOK, DoneOK;
    StoreKeeps(s.ring, s.last, |s.done|, bit);
  }

  // ---------- every run ----------

  ghost predicate Legal(s: Loop, run: seq<Action>)
    decreases |run|
  {
    run == [] || (Shape(s) && Enabled(s, run[0]) && Legal(Apply(s, run[0]), run[1..]))
  }

  ghost function After(s: Loop, run: seq<Action>): Loop
    requires Legal(s, run)
    decreases |run|
  {
    if run == [] then s else After(Apply(s, run[0]), run[1..])
  }

  /** A ring of `size` slots, and an event ring of `num` segments of `places` entries. */
  ghost function Start(size: nat, num: nat, places: nat): Loop
    requires size >= 2
  {
    Loop(R.Init<nat>(size), E.Init(num, places, Other(0)), [], 0, [], [], false)
  }

  lemma StartInv(size: nat, num: nat, places: nat)
    requires size >= 2 && num > 0 && places > 0
    ensures Inv(Start(size, num, places))
  {
    R.InitInv<nat>(size);
    E.InitInv(num, places, Other(0));
    hide R.Inv, E.Inv;
  }

  lemma {:induction false} RunKeeps(s: Loop, run: seq<Action>)
    requires Inv(s) && Legal(s, run)
    ensures Inv(After(s, run))
    decreases |run|
  {
    hide Inv, Enabled, Apply;
    if run != [] {
      ActionKeeps(s, run[0]);
      RunKeeps(Apply(s, run[0]), run[1..]);
    }
  }

  /** Nothing is on its way any more: the ring is stored and read as far as the controller sees, every event
      is posted, and the driver finds none and has none queued. */
  ghost predicate AtRest(s: Loop)
    requires Shape(s)
  {
    && s.ring.stored == |s.ring.hist| && R.Waiting(s.ring) && s.owes == [] && s.ev.queue == []
    && s.ev.copied == s.ev.taken && E.EntryAt(s.ev, s.ev.taken).cycle != E.Phase(s.ev.taken, s.ev.num, s.ev.size)
  }

  /** At rest every request is finished. */
  lemma RestIsDone(s: Loop)
    requires Shape(s) && AtRest(s) && Inv(s)
    ensures |s.done| == |s.last|
  {
    hide E.UnreadOK, E.AheadOK, Dones, Kept, FreeAhead, NoneElse, HolderOK;
    Numbers(s);
    E.CycleTells(s.ev);
    assert s.ev.handled + [] == s.ev.handled && s.ev.posted[..s.ev.copied] == s.ev.posted;
    R.CaughtUp(s.ring);
  }

  /** In every run, however stores, polls, posts, interrupts and handling interleave, each handled event
      names the slot of a request in the ring, requests finish in the order of submission, none twice and
      none before the controller has read all of it; and at rest all of them have finished. */
  lemma ExactlyOnce(size: nat, num: nat, places: nat, run: seq<Action>)
    requires size >= 2 && num > 0 && places > 0 && Legal(Start(size, num, places), run)
    ensures var s := After(Start(size, num, places), run);
            && !s.fault && |s.done| <= s.ended <= |s.last|
            && (forall i :: 0 <= i < |s.done| ==> s.done[i] == i && s.last[i] < s.ring.read)
            && Shape(s) && (AtRest(s) ==> |s.done| == |s.last|)
  {
    StartInv(size, num, places);
    RunKeeps(Start(size, num, places), run);
    var s := After(Start(size, num, places), run);
    hide RingOK, E.Inv, EventsOK, Dones;
    Numbers(s);
    if AtRest(s) { RestIsDone(s); }
  }

  /** In particular a request is only ever given up when all its blocks have been read. */
  lemma GivenUpInTime(size: nat, num: nat, places: nat, run: seq<Action>)
    requires size >= 2 && num > 0 && places > 0 && Legal(Start(size, num, places), run)
    requires var s := After(Start(size, num, places), run); Shape(s) && Enabled(s, Handle) && s.ev.queue[0].Done?
    ensures var s := After(Start(size, num, places), run);
            var pos := s.ev.queue[0].pos;
            && pos < s.ring.size && s.ring.owner[pos] == Some(|s.done|)
            && |s.done| < |s.last| && pos == Slot(s.last[|s.done|], s.ring.size)
            && R.Safe(s.ring, R.Action<nat>.Release(|s.done|))
  {
    StartInv(size, num, places);
    RunKeeps(Start(size, num, places), run);
    var s := After(Start(size, num, places), run);
    hide RingOK, E.Inv, EventsOK, Dones, R.Safe;
    HeadEvent(s);
    Ahead(s.ring, s.last, |s.done|);
    SlotIsHis(s.ring, s.last, |s.done|);
    AllRead(s.ring, s.last, |s.done|);
  }
}
