/** Submission and completion queues (sections 4.1 and 4.6 of NVM Express 1.4) between the driver of
    kernel/hardware/NVMe and a controller that fetches in order and completes in any order.
    A submission is known by its ticket, its number in the order of all submissions. */
module NvmeProtocol {
  import opened Basics
  import opened Cycles

  /** What the controller sees of a submission entry. */
  datatype Command = Command(cid: nat, ticket: nat)

  /** `reqs[c]` is the submission that slot `c` is kept for; `tail` entries were written and `head` fetched. */
  datatype Queue = Queue(mem: seq<Command>, reqs: seq<Option<nat>>, tail: nat, head: nat)

  /** A completion entry; `ticket` is the command that was executed. */
  datatype Completion = Completion(sq: nat, cid: nat, phase: bool, ticket: nat)

  datatype Sys = Sys(
    size: nat, csize: nat, sqs: seq<Queue>, running: map<(nat, nat), nat>,
    cq: seq<Completion>, posted: nat, read: nat,
    submitted: nat, finished: seq<nat>)

  ghost predicate Shape(s: Sys)
  {
    && s.size > 0 && |s.cq| == s.csize > 0
    && (forall i :: 0 <= i < |s.sqs| ==> |s.sqs[i].mem| == |s.sqs[i].reqs| == s.size && s.sqs[i].head <= s.sqs[i].tail)
    && s.read <= s.posted <= s.read + s.csize
  }

  /** A slot of one of the submission queues. */
  ghost predicate IsKey(s: Sys, k: (nat, nat))
  {
    k.0 < |s.sqs| && k.1 < s.size
  }

  ghost function Holder(s: Sys, k: (nat, nat)): Option<nat>
    requires Shape(s) && IsKey(s, k)
  {
    s.sqs[k.0].reqs[k.1]
  }

  ghost function Entry(s: Sys, n: nat): Completion
    requires Shape(s)
  {
    s.cq[Slot(n, s.csize)]
  }

  function Key(e: Completion): (nat, nat)
  {
    (e.sq, e.cid)
  }

  // ---------- the actions ----------

  datatype Action = Submit(i: nat) | Fetch(i: nat) | Complete(k: (nat, nat)) | Drain

  /** The driver submits only into a free slot; the controller sees entries where the tail doorbell
      differs from its head; the driver reads an entry whose phase bit is the one it waits for. */
  ghost predicate Enabled(s: Sys, a: Action)
    requires Shape(s)
  {
    match a
    case Submit(i) => i < |s.sqs| && s.sqs[i].reqs[Slot(s.sqs[i].tail, s.size)].None?
    case Fetch(i) =>
      i < |s.sqs| && s.sqs[i].head < s.sqs[i].tail && Slot(s.sqs[i].head, s.size) != Slot(s.sqs[i].tail, s.size)
    case Complete(k) => k in s.running
    case Drain =>
      && Entry(s, s.read).phase == Bit(s.read, s.csize) && IsKey(s, Key(Entry(s, s.read)))
      && Holder(s, Key(Entry(s, s.read))).Some?
  }

  ghost function Apply(s: Sys, a: Action): Sys
    requires Shape(s) && Enabled(s, a)
  {
    match a
    case Submit(i) =>
      var q := s.sqs[i];
      var c := Slot(q.tail, s.size);
      var q' := Queue(q.mem[c := Command(c, s.submitted)], q.reqs[c := Some(s.submitted)], q.tail + 1, q.head);
      s.(sqs := s.sqs[i := q'], submitted := s.submitted + 1)
    case Fetch(i) =>
      var q := s.sqs[i];
      var e := q.mem[Slot(q.head, s.size)];
      s.(sqs := s.sqs[i := q.(head := q.head + 1)], running := s.running[(i, e.cid) := e.ticket])
    case Complete(k) =>
      var e := Completion(k.0, k.1, Bit(s.posted, s.csize), s.running[k]);
      s.(cq := s.cq[Slot(s.posted, s.csize) := e], posted := s.posted + 1, running := s.running - {k})
    case Drain =>
      var k := Key(Entry(s, s.read));
      var q := s.sqs[k.0];
      s.(sqs := s.sqs[k.0 := q.(reqs := q.reqs[k.1 := None])], read := s.read + 1,
         finished := s.finished + [q.reqs[k.1].value])
  }

  ghost function Init(queues: nat, size: nat, csize: nat): Sys
  {
    Sys(size, csize, seq(queues, _ => Queue(seq(size, _ => Command(0, 0)), seq(size, _ => None), 0, 0)), map[],
        seq(csize, _ => Completion(0, 0, false, 0)), 0, 0, 0, [])
  }

  // ---------- the invariant ----------

  /** Waiting entries carry their slot number and are those of the requests kept there. */
  ghost predicate WaitingOK(s: Sys)
    requires Shape(s)
  {
    forall i: nat, n: nat :: i < |s.sqs| && s.sqs[i].head <= n < s.sqs[i].tail ==>
      var c := Slot(n, s.size);
      && s.sqs[i].reqs[c].Some? && s.sqs[i].mem[c] == Command(c, s.sqs[i].reqs[c].value)
      && (i, c) !in s.running
  }

  ghost predicate RunningOK(s: Sys)
    requires Shape(s)
  {
    forall k :: k in s.running ==> IsKey(s, k) && Holder(s, k) == Some(s.running[k])
  }

  /** Unread completions are of requests still kept, no two of the same, none running or waiting. */
  ghost predicate UnreadOK(s: Sys)
    requires Shape(s)
  {
    && (forall n: nat :: s.read <= n < s.posted ==>
          var e := Entry(s, n);
          && e.phase == Bit(n, s.csize) && IsKey(s, Key(e)) && Holder(s, Key(e)) == Some(e.ticket)
          && Key(e) !in s.running && !Waits(s, Key(e)))
    && (forall n: nat, m: nat :: s.read <= n < m < s.posted ==> Key(Entry(s, n)) != Key(Entry(s, m)))
  }

  ghost predicate Waits(s: Sys, k: (nat, nat))
    requires Shape(s)
  {
    k.0 < |s.sqs| && exists n: nat :: s.sqs[k.0].head <= n < s.sqs[k.0].tail && Slot(n, s.size) == k.1
  }

  /** Entries not posted yet do not carry the phase bit of their index. */
  ghost predicate AheadOK(s: Sys)
    requires Shape(s)
  {
    forall n: nat :: s.posted <= n < s.read + s.csize ==> Entry(s, n).phase != Bit(n, s.csize)
  }

  /** The submission slots are no more than the completion entries; or they are one to a queue, and then
      the controller never sees a submission. */
  predicate SizesOK(queues: nat, size: nat, csize: nat)
  {
    size > 0 && csize > 0 && (queues * size <= csize || size == 1)
  }

  ghost predicate RoomOK(s: Sys)
    requires Shape(s)
  {
    && (forall i :: 0 <= i < |s.sqs| ==> s.sqs[i].tail <= s.sqs[i].head + s.size)
    && SizesOK(|s.sqs|, s.size, s.csize) && (s.size == 1 ==> s.running == map[])
  }

  /** Every submission is either kept in exactly one slot or was finished exactly once. */
  ghost predicate TicketsOK(s: Sys)
    requires Shape(s)
  {
    && (forall k :: IsKey(s, k) && Holder(s, k).Some? ==>
          Holder(s, k).value < s.submitted && Holder(s, k).value !in s.finished)
    && (forall k, l :: IsKey(s, k) && IsKey(s, l) && Holder(s, k).Some? && Holder(s, k) == Holder(s, l) ==> k == l)
    && (forall t :: t in s.finished ==> t < s.submitted)
    && (forall i, j :: 0 <= i < j < |s.finished| ==> s.finished[i] != s.finished[j])
    && (forall t: nat :: t < s.submitted && t !in s.finished ==> Kept(s, t))
  }

  ghost predicate Kept(s: Sys, t: nat)
    requires Shape(s)
  {
    exists k :: IsKey(s, k) && Holder(s, k) == Some(t)
  }

  ghost predicate Inv(s: Sys)
  {
    Shape(s) && WaitingOK(s) && RunningOK(s) && UnreadOK(s) && AheadOK(s) && RoomOK(s) && TicketsOK(s)
  }

  // ---------- submission ----------

  /** A free slot at the tail means the ring of slots is not full. */
  lemma FreeTail(s: Sys, i: nat)
    requires Inv(s) && Enabled(s, Submit(i))
    ensures s.sqs[i].tail < s.sqs[i].head + s.size
  {
    hide UnreadOK, RunningOK, TicketsOK, AheadOK;
    var q := s.sqs[i];
    if q.tail >= s.size {
      OneRound(q.tail - s.size, s.size);
      assert q.reqs[Slot(q.tail - s.size, s.size)].None?;
    }
  }

  lemma SubmitTickets(s: Sys, i: nat)
    requires Inv(s) && Enabled(s, Submit(i))
    ensures Shape(Apply(s, Submit(i))) && TicketsOK(Apply(s, Submit(i)))
  {
    hide UnreadOK, RunningOK, WaitingOK, AheadOK;
    var t, q := Apply(s, Submit(i)), s.sqs[i];
    var tail := (i, Slot(q.tail, s.size));
    forall k | IsKey(s, k) ensures Holder(t, k) == if k == tail then Some(s.submitted) else Holder(s, k) {
    }
    forall x: nat | x < t.submitted && x !in t.finished ensures Kept(t, x) {
      if x == s.submitted {
        assert IsKey(t, tail) && Holder(t, tail) == Some(x);
      } else {
        assert Kept(s, x);
        var k :| IsKey(s, k) && Holder(s, k) == Some(x);
        assert IsKey(t, k) && Holder(t, k) == Some(x);
      }
    }
  }

  lemma SubmitWaiting(s: Sys, i: nat)
    requires Inv(s) && Enabled(s, Submit(i))
    ensures Shape(Apply(s, Submit(i))) && WaitingOK(Apply(s, Submit(i))) && RunningOK(Apply(s, Submit(i)))
  {
    var q := s.sqs[i];
    FreeTail(s, i);
    hide UnreadOK, TicketsOK, AheadOK;
    forall n: nat | q.head <= n < q.tail ensures Slot(n, s.size) != Slot(q.tail, s.size) {
      SlotsDiffer(n, q.tail, s.size);
    }
  }

  lemma SubmitUnread(s: Sys, i: nat)
    requires Inv(s) && Enabled(s, Submit(i)) && Shape(Apply(s, Submit(i)))
    ensures UnreadOK(Apply(s, Submit(i))) && AheadOK(Apply(s, Submit(i)))
  {
    hide WaitingOK, RunningOK, TicketsOK, RoomOK;
    var t := Apply(s, Submit(i));
    assert forall n: nat :: Entry(t, n) == Entry(s, n);
    forall n: nat | s.read <= n < s.posted ensures !Waits(t, Key(Entry(t, n))) {
      assert !Waits(s, Key(Entry(s, n))) && Holder(s, Key(Entry(s, n))).Some?;
    }
  }

  lemma SubmitKeeps(s: Sys, i: nat)
    requires Inv(s) && Enabled(s, Submit(i))
    ensures Inv(Apply(s, Submit(i)))
  {
    FreeTail(s, i);
    hide UnreadOK, AheadOK, TicketsOK, WaitingOK, RunningOK;
    SubmitWaiting(s, i);
    SubmitUnread(s, i);
    SubmitTickets(s, i);
  }

  // ---------- fetching ----------

  lemma FetchRunning(s: Sys, i: nat)
    requires Inv(s) && Enabled(s, Fetch(i))
    ensures Shape(Apply(s, Fetch(i))) && WaitingOK(Apply(s, Fetch(i))) && RunningOK(Apply(s, Fetch(i)))
    ensures RoomOK(Apply(s, Fetch(i)))
  {
    hide UnreadOK, AheadOK, TicketsOK;
    var q := s.sqs[i];
    var c := Slot(q.head, s.size);
    assert q.mem[c] == Command(c, q.reqs[c].value);
    forall n: nat | q.head < n < q.tail ensures Slot(n, s.size) != c {
      SlotsDiffer(q.head, n, s.size);
    }
  }

  lemma FetchUnread(s: Sys, i: nat)
    requires Inv(s) && Enabled(s, Fetch(i)) && Shape(Apply(s, Fetch(i)))
    ensures UnreadOK(Apply(s, Fetch(i))) && AheadOK(Apply(s, Fetch(i)))
  {
    var t, q := Apply(s, Fetch(i)), s.sqs[i];
    var c := Slot(q.head, s.size);
    assert q.mem[c].cid == c && Waits(s, (i, c));
    hide WaitingOK, RunningOK, TicketsOK, RoomOK;
    assert forall n: nat :: Entry(t, n) == Entry(s, n);
    forall n: nat | s.read <= n < s.posted ensures !Waits(t, Key(Entry(t, n))) && Key(Entry(t, n)) !in t.running {
      assert !Waits(s, Key(Entry(s, n))) && Key(Entry(s, n)) !in s.running;
    }
  }

  lemma FetchKeeps(s: Sys, i: nat)
    requires Inv(s) && Enabled(s, Fetch(i))
    ensures Inv(Apply(s, Fetch(i)))
  {
    hide WaitingOK, RunningOK, UnreadOK, AheadOK, RoomOK, TicketsOK;
    FetchRunning(s, i);
    FetchUnread(s, i);
    FetchTickets(s, i);
  }

  lemma FetchTickets(s: Sys, i: nat)
    requires Inv(s) && Enabled(s, Fetch(i)) && Shape(Apply(s, Fetch(i)))
    ensures TicketsOK(Apply(s, Fetch(i)))
  {
    hide WaitingOK, RunningOK, UnreadOK, AheadOK;
    var t := Apply(s, Fetch(i));
    assert forall k :: IsKey(s, k) ==> IsKey(t, k) && Holder(t, k) == Holder(s, k);
    forall x: nat | x < t.submitted && x !in t.finished ensures Kept(t, x) {
      assert Kept(s, x);
      var k :| IsKey(s, k) && Holder(s, k) == Some(x);
      assert IsKey(t, k) && Holder(t, k) == Some(x);
    }
  }

  /** The controller sees no entry just when there is none, or when every slot is waiting. */
  lemma ControllerSees(s: Sys, i: nat)
    requires Inv(s) && i < |s.sqs|
    ensures Enabled(s, Fetch(i)) <==> 0 < s.sqs[i].tail - s.sqs[i].head < s.size
  {
    hide WaitingOK, RunningOK, UnreadOK, AheadOK, TicketsOK;
    var q := s.sqs[i];
    if q.tail == q.head + s.size {
      OneRound(q.head, s.size);
    } else if q.head < q.tail {
      SlotsDiffer(q.head, q.tail, s.size);
    }
  }

  // ---------- completion ----------

  ghost function Row(i: nat, size: nat): set<(nat, nat)>
  {
    set c: nat | c < size :: (i, c)
  }

  ghost function AllKeys(queues: nat, size: nat): set<(nat, nat)>
  {
    set i: nat, c: nat | i < queues && c < size :: (i, c)
  }

  lemma {:induction false} RowCount(i: nat, size: nat)
    ensures |Row(i, size)| == size
  {
    if size > 0 {
      RowCount(i, size - 1);
      assert Row(i, size) == Row(i, size - 1) + {(i, size - 1)};
    }
  }

  lemma LastRow(queues: nat, size: nat)
    requires queues > 0
    ensures |AllKeys(queues, size)| == |AllKeys(queues - 1, size)| + |Row(queues - 1, size)|
  {
    assert AllKeys(queues, size) == AllKeys(queues - 1, size) + Row(queues - 1, size);
  }

  lemma {:induction false} KeyCount(queues: nat, size: nat)
    ensures |AllKeys(queues, size)| == queues * size
  {
    if queues > 0 {
      KeyCount(queues - 1, size);
      RowCount(queues - 1, size);
      NextRound(queues - 1, size);
      LastRow(queues, size);
    }
  }

  ghost function UnreadKeys(s: Sys, to: nat): set<(nat, nat)>
    requires Shape(s)
  {
    if to <= s.read then {} else UnreadKeys(s, to - 1) + {Key(Entry(s, to - 1))}
  }

  lemma {:induction false} UnreadMember(s: Sys, to: nat, k: (nat, nat)) returns (n: nat)
    requires Shape(s) && k in UnreadKeys(s, to)
    ensures s.read <= n < to && Key(Entry(s, n)) == k
  {
    if k == Key(Entry(s, to - 1)) {
      n := to - 1;
    } else {
      n := UnreadMember(s, to - 1, k);
    }
  }

  lemma {:induction false} UnreadCount(s: Sys, to: nat)
    requires Shape(s) && UnreadOK(s) && s.read <= to <= s.posted
    ensures |UnreadKeys(s, to)| == to - s.read
  {
    hide IsKey, Waits, Holder, Slot, Bit;
    if s.read < to {
      UnreadCount(s, to - 1);
      var last := Key(Entry(s, to - 1));
      if last in UnreadKeys(s, to - 1) {
        var n := UnreadMember(s, to - 1, last);
      }
    }
  }

  lemma SubsetCount<T>(a: set<T>, b: set<T>)
    requires a <= b
    ensures |a| <= |b|
  {
    assert b == a + (b - a);
  }

  /** While a command is running, an entry of the completion queue is free: it never overflows. */
  lemma NeverOverflows(s: Sys, k: (nat, nat))
    requires Inv(s) && k in s.running
    ensures s.posted - s.read < |s.sqs| * s.size
    ensures s.posted < s.read + s.csize
  {
    hide WaitingOK, AheadOK, TicketsOK;
    assert s.size != 1;
    var keys := UnreadKeys(s, s.posted);
    UnreadCount(s, s.posted);
    KeyCount(|s.sqs|, s.size);
    forall l | l in keys ensures IsKey(s, l) && l != k {
      var n := UnreadMember(s, s.posted, l);
    }
    assert keys + {k} <= AllKeys(|s.sqs|, s.size);
    SubsetCount(keys + {k}, AllKeys(|s.sqs|, s.size));
  }

  lemma CompleteUnread(s: Sys, k: (nat, nat))
    requires Inv(s) && k in s.running && Shape(Apply(s, Complete(k)))
    ensures UnreadOK(Apply(s, Complete(k))) && AheadOK(Apply(s, Complete(k)))
  {
    hide TicketsOK, RoomOK;
    var t, p := Apply(s, Complete(k)), s.posted;
    NeverOverflows(s, k);
    forall n: nat | s.read <= n < s.read + s.csize && n != p ensures Entry(t, n) == Entry(s, n) {
      if n < p { SlotsDiffer(n, p, s.csize); } else { SlotsDiffer(p, n, s.csize); }
    }
    assert Entry(t, p) == Completion(k.0, k.1, Bit(p, s.csize), s.running[k]) && Key(Entry(t, p)) == k;
    assert !Waits(s, k);
    assert forall l :: Waits(t, l) <==> Waits(s, l);
  }

  lemma CompleteKeeps(s: Sys, k: (nat, nat))
    requires Inv(s) && k in s.running
    ensures Inv(Apply(s, Complete(k)))
  {
    hide TicketsOK;
    NeverOverflows(s, k);
    CompleteUnread(s, k);
    hide UnreadOK, AheadOK;
    var t := Apply(s, Complete(k));
    assert forall l :: IsKey(s, l) ==> IsKey(t, l) && Holder(t, l) == Holder(s, l);
    SameHolders(s, t);
  }

  lemma SameHolders(s: Sys, t: Sys)
    requires Shape(s) && Shape(t) && TicketsOK(s) && t.submitted == s.submitted && t.finished == s.finished
    requires |t.sqs| == |s.sqs| && t.size == s.size && forall l :: IsKey(s, l) ==> Holder(t, l) == Holder(s, l)
    ensures TicketsOK(t)
  {
    forall x: nat | x < t.submitted && x !in t.finished ensures Kept(t, x) {
      assert Kept(s, x);
      var k :| IsKey(s, k) && Holder(s, k) == Some(x);
      assert IsKey(t, k) && Holder(t, k) == Some(x);
    }
  }

  // ---------- the interrupt handler ----------

  /** The phase bit is right just for unread entries, and such an entry names the slot of the
      request that submitted the completed command. */
  lemma PhaseTells(s: Sys)
    requires Inv(s)
    ensures Entry(s, s.read).phase == Bit(s.read, s.csize) <==> s.read < s.posted
    ensures s.read < s.posted ==> Enabled(s, Drain) && Holder(s, Key(Entry(s, s.read))) == Some(Entry(s, s.read).ticket)
  {
    hide WaitingOK, RunningOK, TicketsOK;
  }

  lemma DrainTickets(s: Sys)
    requires Inv(s) && Enabled(s, Drain) && Shape(Apply(s, Drain))
    ensures TicketsOK(Apply(s, Drain))
  {
    hide WaitingOK, RunningOK, UnreadOK, AheadOK;
    var t, k := Apply(s, Drain), Key(Entry(s, s.read));
    forall l | IsKey(s, l) ensures IsKey(t, l) && Holder(t, l) == if l == k then None else Holder(s, l) {
    }
    forall x: nat | x < t.submitted && x !in t.finished ensures Kept(t, x) {
      assert t.finished == s.finished + [Holder(s, k).value];
      assert Kept(s, x);
      var l :| IsKey(s, l) && Holder(s, l) == Some(x);
      assert IsKey(t, l) && Holder(t, l) == Some(x);
    }
  }

  lemma DrainUnread(s: Sys)
    requires Inv(s) && Enabled(s, Drain) && Shape(Apply(s, Drain))
    ensures UnreadOK(Apply(s, Drain)) && AheadOK(Apply(s, Drain))
  {
    hide WaitingOK, RunningOK, TicketsOK, RoomOK;
    var t, k := Apply(s, Drain), Key(Entry(s, s.read));
    PhaseTells(s);
    OneRound(s.read, s.csize);
    assert forall n: nat :: Entry(t, n) == Entry(s, n);
    forall n: nat | t.read <= n < t.posted ensures Key(Entry(t, n)) != k && !Waits(t, Key(Entry(t, n))) {
      assert !Waits(s, Key(Entry(s, n)));
    }
  }

  lemma DrainKeeps(s: Sys)
    requires Inv(s) && Enabled(s, Drain)
    ensures Inv(Apply(s, Drain))
  {
    PhaseTells(s);
    var t, k := Apply(s, Drain), Key(Entry(s, s.read));
    assert Shape(t);
    DrainUnread(s);
    DrainTickets(s);
    assert !Waits(s, k);
    hide UnreadOK, AheadOK, TicketsOK;
  }

  lemma ActionKeeps(s: Sys, a: Action)
    requires Inv(s) && Enabled(s, a)
    ensures Inv(Apply(s, a))
  {
    hide Inv, Apply;
    match a
    case Submit(i) => SubmitKeeps(s, i);
    case Fetch(i) => FetchKeeps(s, i);
    case Complete(k) => CompleteKeeps(s, k);
    case Drain => DrainKeeps(s);
  }

  // ---------- every run ----------

  ghost predicate Legal(s: Sys, run: seq<Action>)
    decreases |run|
  {
    run == [] || (Shape(s) && Enabled(s, run[0]) && Legal(Apply(s, run[0]), run[1..]))
  }

  ghost function After(s: Sys, run: seq<Action>): Sys
    requires Legal(s, run)
    decreases |run|
  {
    if run == [] then s else After(Apply(s, run[0]), run[1..])
  }

  lemma InitInv(queues: nat, size: nat, csize: nat)
    requires SizesOK(queues, size, csize)
    ensures Inv(Init(queues, size, csize))
  {
    forall n: nat | n < csize ensures Bit(n, csize) {
      FirstRound(n, csize);
    }
  }

  lemma {:induction false} RunKeeps(s: Sys, run: seq<Action>)
    requires Inv(s) && Legal(s, run)
    ensures Inv(After(s, run))
    decreases |run|
  {
    hide Inv, Enabled, Apply;
    if run != [] {
      ActionKeeps(s, run[0]);
      RunKeeps(Apply(s, run[0]), run[1..]);
    }
  }

  /** In every run, in which the controller completes commands in any order it likes: no submission
      finishes twice, each is finished or still kept in a slot, and once all slots are free
      every submission has finished. */
  lemma ExactlyOnce(queues: nat, size: nat, csize: nat, run: seq<Action>)
    requires SizesOK(queues, size, csize) && Legal(Init(queues, size, csize), run)
    ensures var s := After(Init(queues, size, csize), run);
            && Shape(s)
            && (forall i, j :: 0 <= i < j < |s.finished| ==> s.finished[i] != s.finished[j])
            && (forall t: nat :: t < s.submitted ==> (t in s.finished <==> !Kept(s, t)))
            && ((forall k :: IsKey(s, k) ==> Holder(s, k).None?) ==>
                  forall t: nat :: t < s.submitted ==> t in s.finished)
  {
    InitInv(queues, size, csize);
    RunKeeps(Init(queues, size, csize), run);
  }

  lemma {:induction false} Continue(s: Sys, run: seq<Action>, a: Action)
    requires Legal(s, run) && Shape(After(s, run)) && Enabled(After(s, run), a)
    ensures Legal(s, run + [a]) && After(s, run + [a]) == Apply(After(s, run), a)
    decreases |run|
  {
    hide Enabled, Shape, Apply;
    if run == [] {
      assert run + [a] == [a];
    } else {
      Continue(Apply(s, run[0]), run[1..], a);
      assert (run + [a])[1..] == run[1..] + [a];
    }
  }

  // ---------- a queue that is full of waiting entries ----------

  ghost predicate Full(s: Sys, i: nat)
  {
    i < |s.sqs| && s.sqs[i].tail == s.sqs[i].head + s.size
  }

  lemma AllWait(s: Sys, i: nat, c: nat)
    requires Inv(s) && Full(s, i) && c < s.size
    ensures Waits(s, (i, c)) && Holder(s, (i, c)).Some?
  {
    hide UnreadOK, RunningOK, TicketsOK, AheadOK;
    var q := s.sqs[i];
    var n := InRound(q.head, c, s.size);
    assert q.reqs[Slot(n, s.size)].Some?;
  }

  /** Nothing more happens to a queue all of whose slots wait: the driver finds no free slot, and the
      controller, to whom tail and head look alike, no entry. */
  lemma DeadStep(s: Sys, i: nat, a: Action)
    requires Inv(s) && Full(s, i) && Enabled(s, a)
    ensures a != Submit(i) && a != Fetch(i) && Apply(s, a).size == s.size
    ensures i < |Apply(s, a).sqs| && Apply(s, a).sqs[i] == s.sqs[i]
  {
    ControllerSees(s, i);
    AllWait(s, i, Slot(s.sqs[i].tail, s.size));
    if a == Drain {
      var k := Key(Entry(s, s.read));
      PhaseTells(s);
      if k.0 == i { AllWait(s, i, k.1); }
    }
    hide WaitingOK, RunningOK, AheadOK, TicketsOK;
  }

  lemma {:induction false} DeadQueue(s: Sys, i: nat, run: seq<Action>)
    requires Inv(s) && Full(s, i) && Legal(s, run)
    ensures i < |After(s, run).sqs| && After(s, run).sqs[i] == s.sqs[i]
    ensures Submit(i) !in run && Fetch(i) !in run
    decreases |run|
  {
    hide Inv, Enabled, Apply;
    if run != [] {
      DeadStep(s, i, run[0]);
      ActionKeeps(s, run[0]);
      DeadQueue(Apply(s, run[0]), i, run[1..]);
    }
  }

  /** Filling the slots of a queue before the controller fetches any leads there. */
  lemma {:induction false} DeadReached(s: Sys, i: nat, k: nat) returns (run: seq<Action>)
    requires Shape(s) && i < |s.sqs| && s.sqs[i].head == 0 && s.sqs[i].tail + k == s.size
    requires forall c :: s.sqs[i].tail <= c < s.size ==> s.sqs[i].reqs[c].None?
    ensures |run| == k && (forall j :: 0 <= j < k ==> run[j] == Submit(i)) && Legal(s, run) && Full(After(s, run), i)
    decreases k
  {
    if k == 0 {
      run := [];
    } else {
      var t := s.sqs[i].tail;
      FirstRound(t, s.size);
      hide Slot, Bit;
      var u := Apply(s, Submit(i));
      var rest := DeadReached(u, i, k - 1);
      run := [Submit(i)] + rest;
      assert run[1..] == rest;
    }
  }

  // ---------- when the completion queue is large enough ----------

  /** In the first round: the queues before `i` and `c` slots of queue `i` were fetched, nothing else
      happened. */
  ghost predicate Filled(s: Sys, i: nat, c: nat)
  {
    && Shape(s) && s.posted == s.read == 0 && c <= s.size
    && (forall j :: 0 <= j < |s.sqs| ==> FilledTo(s.sqs[j], s.size, if j < i then s.size else if j == i then c else 0))
    && (forall k :: k in s.running ==> k.0 < i || (k.0 == i && k.1 < c))
  }

  ghost predicate FilledTo(q: Queue, size: nat, c: nat)
    requires |q.reqs| == size
  {
    q.tail == q.head == c && forall x :: c <= x < size ==> q.reqs[x].None?
  }

  lemma NextDiffers(c: nat, size: nat)
    requires c < size && size >= 2
    ensures Slot(c, size) == c && Slot(c + 1, size) != c
  {
    FirstRound(c, size);
    if c + 1 < size {
      FirstRound(c + 1, size);
    } else {
      OneRound(0, size);
    }
  }

  /** A submission that is fetched at once. */
  lemma FetchedState(s: Sys, i: nat, c: nat)
    requires Shape(s) && i < |s.sqs| && c < s.size && s.size >= 2 && FilledTo(s.sqs[i], s.size, c)
    ensures Enabled(s, Submit(i)) && Shape(Apply(s, Submit(i))) && Enabled(Apply(s, Submit(i)), Fetch(i))
    ensures var u, q := Apply(Apply(s, Submit(i)), Fetch(i)), s.sqs[i];
            && Shape(u) && u.running == s.running[(i, c) := s.submitted]
            && u.sqs == s.sqs[i := Queue(q.mem[c := Command(c, s.submitted)], q.reqs[c := Some(s.submitted)],
                                         c + 1, c + 1)]
            && u.size == s.size && u.csize == s.csize && u.posted == s.posted && u.read == s.read
  {
    hide Slot, Bit;
    NextDiffers(c, s.size);
  }

  lemma FetchedOne(s: Sys, i: nat, c: nat)
    requires Filled(s, i, c) && i < |s.sqs| && c < s.size && s.size >= 2
    ensures Enabled(s, Submit(i)) && Shape(Apply(s, Submit(i))) && Enabled(Apply(s, Submit(i)), Fetch(i))
    ensures var u := Apply(Apply(s, Submit(i)), Fetch(i));
            && Filled(u, i, c + 1) && |u.running| == |s.running| + 1
            && |u.sqs| == |s.sqs| && u.size == s.size && u.csize == s.csize
  {
    hide Apply, Enabled, Slot, Bit;
    assert FilledTo(s.sqs[i], s.size, c);
    FetchedState(s, i, c);
    var u := Apply(Apply(s, Submit(i)), Fetch(i));
    assert (i, c) !in s.running && u.running.Keys == s.running.Keys + {(i, c)};
    forall j | 0 <= j < |u.sqs|
      ensures FilledTo(u.sqs[j], u.size, if j < i then u.size else if j == i then c + 1 else 0)
    {
      assert FilledTo(s.sqs[j], s.size, if j < i then s.size else if j == i then c else 0);
    }
  }

  /** A state that has not drained anything, with `unread` completions and `busy` running commands. */
  ghost predicate Backlog(s: Sys, unread: nat, busy: nat)
  {
    s.read == 0 && s.posted == unread && |s.running| == busy
  }

  lemma {:induction false} CompleteMany(s: Sys, n: nat) returns (run: seq<Action>)
    requires Shape(s) && s.read == 0 && s.posted + n <= s.csize && n <= |s.running|
    ensures Legal(s, run) && Backlog(After(s, run), s.posted + n, |s.running| - n) && After(s, run).csize == s.csize
    decreases n
  {
    if n == 0 {
      run := [];
    } else {
      assert s.running != map[];
      var k :| k in s.running;
      var t := Apply(s, Complete(k));
      assert t.running.Keys == s.running.Keys - {k};
      var rest := CompleteMany(t, n - 1);
      run := [Complete(k)] + rest;
      assert run[1..] == rest;
    }
  }

  /** Submitting and fetching alternately `m` times more, and completing `n` commands after that. */
  lemma {:induction false} FillUp(s: Sys, i: nat, c: nat, m: nat, n: nat) returns (run: seq<Action>)
    requires Filled(s, i, c) && s.size >= 2 && i <= |s.sqs| && (i == |s.sqs| ==> c == 0)
    requires i * s.size + c + m <= |s.sqs| * s.size && n <= s.csize && n <= |s.running| + m
    ensures Legal(s, run) && Backlog(After(s, run), n, |s.running| + m - n) && After(s, run).csize == s.csize
    decreases m, if c == s.size then 1 else 0
  {
    if m == 0 {
      run := CompleteMany(s, n);
    } else if c == s.size {
      NextRound(i, s.size);
      assert Filled(s, i + 1, 0) by { NextQueue(s, i); }
      WholeRounds(i + 1, |s.sqs|, s.size);
      run := FillUp(s, i + 1, 0, m, n);
    } else {
      WholeRounds(|s.sqs|, i, s.size);
      FetchedOne(s, i, c);
      hide Filled, Apply, Enabled, Backlog;
      var t := Apply(s, Submit(i));
      var u := Apply(t, Fetch(i));
      var rest := FillUp(u, i, c + 1, m - 1, n);
      run := [Submit(i), Fetch(i)] + rest;
      assert run[1..] == [Fetch(i)] + rest && ([Fetch(i)] + rest)[1..] == rest;
    }
  }

  lemma NextQueue(s: Sys, i: nat)
    requires Filled(s, i, s.size)
    ensures Filled(s, i + 1, 0)
  {
    forall j | 0 <= j < |s.sqs| ensures FilledTo(s.sqs[j], s.size, if j < i + 1 then s.size else 0) {
      assert FilledTo(s.sqs[j], s.size, if j < i then s.size else if j == i then s.size else 0);
    }
  }

  /** Some run leaves `unread` completions undrained with one more command running. */
  lemma BacklogReached(queues: nat, size: nat, csize: nat, unread: nat) returns (run: seq<Action>, k: (nat, nat))
    requires size >= 2 && csize > 0 && unread <= csize && unread < queues * size
    ensures Legal(Init(queues, size, csize), run)
    ensures var s := After(Init(queues, size, csize), run);
            k in s.running && s.posted - s.read == unread && s.csize == csize
  {
    var s := Init(queues, size, csize);
    assert Filled(s, 0, 0);
    run := FillUp(s, 0, 0, unread + 1, unread);
    var t := After(s, run);
    assert t.running != map[];
    k :| k in t.running;
  }

  /** In no run does a completion find fewer than `spare` entries free. */
  ghost predicate AlwaysSpare(queues: nat, size: nat, csize: nat, spare: nat)
  {
    forall run, k :: Legal(Init(queues, size, csize), run) && k in After(Init(queues, size, csize), run).running ==>
      var s := After(Init(queues, size, csize), run);
      s.posted + spare <= s.read + s.csize
  }

  /** No run overwrites an unread completion exactly when the submission slots are no more than the
      completion entries, or one to a queue. */
  lemma NoOverwrite(queues: nat, size: nat, csize: nat)
    requires size > 0 && csize > 0
    ensures AlwaysSpare(queues, size, csize, 1) <==> queues * size <= csize || size == 1
  {
    if queues * size <= csize || size == 1 {
      SpareKept(queues, size, csize, 1);
    } else {
      var run, k := BacklogReached(queues, size, csize, csize);
    }
  }

  /** A controller that keeps one entry empty, as the specification has it, never has to hold a
      completion back exactly when the slots are fewer than the entries, or one to a queue. */
  lemma NoBlocking(queues: nat, size: nat, csize: nat)
    requires size > 0 && csize > 0
    ensures AlwaysSpare(queues, size, csize, 2) <==> queues * size < csize || size == 1
  {
    if queues * size < csize || size == 1 {
      SpareKept(queues, size, csize, 2);
    } else {
      var run, k := BacklogReached(queues, size, csize, csize - 1);
    }
  }

  lemma SpareKept(queues: nat, size: nat, csize: nat, spare: nat)
    requires SizesOK(queues, size, csize) && (queues * size + spare <= csize + 1 || size == 1)
    ensures AlwaysSpare(queues, size, csize, spare)
  {
    forall run, k | Legal(Init(queues, size, csize), run) && k in After(Init(queues, size, csize), run).running
      ensures var s := After(Init(queues, size, csize), run); s.posted + spare <= s.read + s.csize
    {
      var s := After(Init(queues, size, csize), run);
      InitInv(queues, size, csize);
      RunKeeps(Init(queues, size, csize), run);
      SameSizes(Init(queues, size, csize), run);
      NeverOverflows(s, k);
      assert s.size != 1;
    }
  }

  lemma {:induction false} SameSizes(s: Sys, run: seq<Action>)
    requires Legal(s, run)
    ensures var t := After(s, run); |t.sqs| == |s.sqs| && t.size == s.size && t.csize == s.csize
    decreases |run|
  {
    if run != [] {
      SameSizes(Apply(s, run[0]), run[1..]);
    }
  }

  // ---------- the sizes the driver chooses ----------

  const SUBM_ENTRY: nat := 64
  const CMPL_ENTRY: nat := 16

  function Min(a: nat, b: nat): nat
  {
    if a < b then a else b
  }

  /** Two submission queues to a completion queue never overwrite a completion exactly when the controller
      supports queues of twice the submission entries of a page; with one entry to spare when it supports
      more than that. */
  lemma SizesFit(pageSize: nat, mqes: nat)
    requires pageSize % SUBM_ENTRY == 0 && pageSize > 0 && mqes > 0
    ensures var size, csize := Min(pageSize / SUBM_ENTRY, mqes), Min(pageSize / CMPL_ENTRY, mqes);
            && (AlwaysSpare(2, size, csize, 1) <==> 2 * (pageSize / SUBM_ENTRY) <= mqes || size == 1)
            && (AlwaysSpare(2, size, csize, 2) <==> 2 * (pageSize / SUBM_ENTRY) < mqes || size == 1)
  {
    var size, csize := Min(pageSize / SUBM_ENTRY, mqes), Min(pageSize / CMPL_ENTRY, mqes);
    assert pageSize / CMPL_ENTRY == 4 * (pageSize / SUBM_ENTRY);
    NoOverwrite(2, size, csize);
    NoBlocking(2, size, csize);
  }
}
