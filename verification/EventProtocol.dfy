/** The event ring of the xHCI controller (section 4.9.4 of the xHCI specification) from the
    controller's posts to the event handler task. Places in the segments are images of one
    growing index: the position within a segment turns fastest, then the segment, then the cycle bit. */
module EventProtocol {
  import opened Basics
  import opened Cycles

  datatype Entry<E> = Entry(event: E, cycle: bool)

  /** `num` segments of `size` entries. The controller has posted `posted` and believes everything
      below index `deq` read; the driver has dequeued `taken` entries and copied `copied` of them. */
  datatype Sys<E> = Sys(
    num: nat, size: nat, mem: seq<seq<Entry<E>>>,
    posted: seq<E>, deq: nat,
    taken: nat, copied: nat,
    queue: seq<E>, handled: seq<E>)

  function Segment(n: nat, num: nat, size: nat): (r: nat)
    requires num > 0 && size > 0
    ensures r < num
  {
    Slot(Lap(n, size), num)
  }

  /** The cycle bit of index `n`. */
  function Phase(n: nat, num: nat, size: nat): bool
    requires num > 0 && size > 0
  {
    Bit(Lap(n, size), num)
  }

  ghost predicate Shape<E>(s: Sys<E>)
  {
    && s.num > 0 && s.size > 0 && |s.mem| == s.num && (forall r :: 0 <= r < s.num ==> |s.mem[r]| == s.size)
    && s.deq <= s.copied <= s.taken <= s.copied + 1
    && s.taken <= |s.posted| <= s.deq + s.num * s.size
  }

  ghost function EntryAt<E>(s: Sys<E>, n: nat): Entry<E>
    requires Shape(s)
  {
    s.mem[Segment(n, s.num, s.size)][Slot(n, s.size)]
  }

  // ---------- the actions ----------

  datatype Action<E> = Post(e: E) | Take | Copy | Report(n: nat) | Handle

  /** The controller posts where it may; the driver takes an entry whose cycle bit is its own, copies
      it before taking another, and reports as read no more than it has copied. */
  ghost predicate Enabled<E>(s: Sys<E>, a: Action<E>)
    requires Shape(s)
  {
    match a
    case Post(_) => |s.posted| < s.deq + s.num * s.size
    case Take => s.taken == s.copied && EntryAt(s, s.taken).cycle == Phase(s.taken, s.num, s.size)
    case Copy => s.copied < s.taken
    case Report(n) => s.deq <= n <= s.copied
    case Handle => s.queue != []
  }

  ghost function Apply<E>(s: Sys<E>, a: Action<E>): Sys<E>
    requires Shape(s) && Enabled(s, a)
  {
    match a
    case Post(e) =>
      var n := |s.posted|;
      var r, p := Segment(n, s.num, s.size), Slot(n, s.size);
      s.(mem := s.mem[r := s.mem[r][p := Entry(e, Phase(n, s.num, s.size))]], posted := s.posted + [e])
    case Take => s.(taken := s.taken + 1)
    case Copy => s.(copied := s.copied + 1, queue := s.queue + [EntryAt(s, s.copied).event])
    case Report(n) => s.(deq := n)
    case Handle => s.(queue := s.queue[1..], handled := s.handled + [s.queue[0]])
  }

  ghost function Init<E>(num: nat, size: nat, blank: E): Sys<E>
  {
    Sys(num, size, seq(num, _ => seq(size, _ => Entry(blank, false))), [], 0, 0, 0, [], [])
  }

  ghost predicate Legal<E>(s: Sys<E>, run: seq<Action<E>>)
    decreases |run|
  {
    run == [] || (Shape(s) && Enabled(s, run[0]) && Legal(Apply(s, run[0]), run[1..]))
  }

  ghost function After<E>(s: Sys<E>, run: seq<Action<E>>): Sys<E>
    requires Legal(s, run)
    decreases |run|
  {
    if run == [] then s else After(Apply(s, run[0]), run[1..])
  }

  ghost function Posts<E>(run: seq<Action<E>>): seq<E>
  {
    if run == [] then [] else Posted(run[0]) + Posts(run[1..])
  }

  ghost function Posted<E>(a: Action<E>): seq<E>
  {
    if a.Post? then [a.e] else []
  }

  // ---------- the invariant ----------

  ghost predicate UnreadOK<E>(s: Sys<E>)
    requires Shape(s)
  {
    forall n: nat :: s.deq <= n < |s.posted| ==> EntryAt(s, n) == Entry(s.posted[n], Phase(n, s.num, s.size))
  }

  ghost predicate AheadOK<E>(s: Sys<E>)
    requires Shape(s)
  {
    forall n: nat :: |s.posted| <= n < s.deq + s.num * s.size ==> EntryAt(s, n).cycle != Phase(n, s.num, s.size)
  }

  /** Every event taken is handled or queued, in the order of posting. */
  ghost predicate OrderOK<E>(s: Sys<E>)
    requires Shape(s)
  {
    s.handled + s.queue == s.posted[..s.copied]
  }

  ghost predicate Inv<E>(s: Sys<E>)
  {
    Shape(s) && UnreadOK(s) && AheadOK(s) && OrderOK(s)
  }

  // ---------- where indices are ----------

  lemma NextPlace(n: nat, num: nat, size: nat)
    requires num > 0 && size > 0
    ensures var p, r := Slot(n, size), Segment(n, num, size);
            && Slot(n + 1, size) == (if p == size - 1 then 0 else p + 1)
            && Segment(n + 1, num, size) == (if p < size - 1 then r else if r == num - 1 then 0 else r + 1)
            && Phase(n + 1, num, size)
               == (if p == size - 1 && r == num - 1 then !Phase(n, num, size) else Phase(n, num, size))
  {
  }

  lemma PlacesDiffer(m: nat, n: nat, num: nat, size: nat)
    requires num > 0 && size > 0 && m < n < m + num * size
    ensures Segment(m, num, size) != Segment(n, num, size) || Slot(m, size) != Slot(n, size)
  {
    if Slot(m, size) == Slot(n, size) {
      Decompose(m, size);
      Decompose(n, size);
      RoundsBetween(m, n, Lap(m, size), Lap(n, size), Slot(m, size), num, size);
      SlotsDiffer(Lap(m, size), Lap(n, size), num);
    }
  }

  lemma RoundsBetween(m: nat, n: nat, q: nat, q': nat, r: nat, num: nat, size: nat)
    requires m == q * size + r && n == q' * size + r && m < n < m + num * size
    ensures q < q' < q + num
  {
    AddedRounds(q, num, size);
    Ordered(q, q', size);
    Ordered(q', q + num, size);
  }

  lemma Ordered(q: nat, q': nat, size: nat)
    requires q * size < q' * size
    ensures q < q'
  {
    WholeRounds(q', q, size);
  }

  lemma AddedRounds(q: nat, num: nat, size: nat)
    ensures (q + num) * size == q * size + num * size
  {
  }

  lemma FullTurn(n: nat, num: nat, size: nat)
    requires num > 0 && size > 0
    ensures Slot(n + num * size, size) == Slot(n, size)
    ensures Segment(n + num * size, num, size) == Segment(n, num, size)
    ensures Phase(n + num * size, num, size) == !Phase(n, num, size)
  {
    Decompose(n, size);
    AddedRounds(Lap(n, size), num, size);
    Located(n + num * size, Lap(n, size) + num, Slot(n, size), size);
    OneRound(Lap(n, size), num);
  }

  // ---------- every action keeps the invariant ----------

  /** The driver's test is exact: the cycle bits agree just when there is an unread event. */
  lemma CycleTells<E>(s: Sys<E>)
    requires Inv(s)
    ensures EntryAt(s, s.taken).cycle == Phase(s.taken, s.num, s.size) <==> s.taken < |s.posted|
    ensures s.taken < |s.posted| ==> EntryAt(s, s.taken).event == s.posted[s.taken]
  {
    hide OrderOK;
    if s.taken == s.deq + s.num * s.size {
      FullTurn(s.deq, s.num, s.size);
      assert EntryAt(s, s.deq).cycle == Phase(s.deq, s.num, s.size) || s.deq == |s.posted|;
    }
  }

  lemma PostKeeps<E>(s: Sys<E>, e: E)
    requires Inv(s) && Enabled(s, Post(e))
    ensures Inv(Apply(s, Post(e)))
  {
    var t, k := Apply(s, Post(e)), |s.posted|;
    forall n: nat | s.deq <= n < s.deq + s.num * s.size && n != k ensures EntryAt(t, n) == EntryAt(s, n) {
      if n < k { PlacesDiffer(n, k, s.num, s.size); } else { PlacesDiffer(k, n, s.num, s.size); }
    }
  }

  lemma ReportKeeps<E>(s: Sys<E>, k: nat)
    requires Inv(s) && Enabled(s, Report(k))
    ensures Inv(Apply(s, Report(k)))
  {
    var t, N := Apply(s, Report(k)), s.num * s.size;
    forall n: nat | |s.posted| <= n < k + N ensures EntryAt(t, n).cycle != Phase(n, s.num, s.size) {
      if n >= s.deq + N {
        FullTurn(n - N, s.num, s.size);
        assert EntryAt(s, n - N).cycle == Phase(n - N, s.num, s.size);
      }
    }
  }

  lemma ActionKeeps<E>(s: Sys<E>, a: Action<E>)
    requires Inv(s) && Enabled(s, a)
    ensures Inv(Apply(s, a))
  {
    match a
    case Post(e) => PostKeeps(s, e);
    case Take => CycleTells(s);
    case Copy =>
    case Report(n) => ReportKeeps(s, n);
    case Handle =>
  }

  // ---------- every run ----------

  lemma InitInv<E>(num: nat, size: nat, blank: E)
    requires num > 0 && size > 0
    ensures Inv(Init(num, size, blank))
  {
    var s := Init(num, size, blank);
    forall n: nat | n < num * size ensures Phase(n, num, size) {
      Decompose(n, size);
      WholeRounds(num, Lap(n, size), size);
      FirstRound(Lap(n, size), num);
    }
  }

  lemma {:induction false} RunKeeps<E>(s: Sys<E>, run: seq<Action<E>>)
    requires Inv(s) && Legal(s, run)
    ensures Inv(After(s, run))
    decreases |run|
  {
    if run != [] {
      ActionKeeps(s, run[0]);
      RunKeeps(Apply(s, run[0]), run[1..]);
    }
  }

  lemma {:induction false} RunPosts<E>(s: Sys<E>, run: seq<Action<E>>)
    requires Legal(s, run)
    ensures After(s, run).posted == s.posted + Posts(run)
    decreases |run|
  {
    hide Enabled, Shape;
    if run != [] {
      RunPosts(Apply(s, run[0]), run[1..]);
      assert Apply(s, run[0]).posted == s.posted + Posted(run[0]);
      Joined(s.posted, Posted(run[0]), Posts(run[1..]));
    }
  }

  /** In every run the events handled are a prefix of those posted: none is lost, repeated or
      overtaken. They are all of them once the queue is empty and the driver finds no more. */
  lemma Delivery<E>(num: nat, size: nat, blank: E, run: seq<Action<E>>)
    requires num > 0 && size > 0 && Legal(Init(num, size, blank), run)
    ensures var s := After(Init(num, size, blank), run);
            && s.handled <= Posts(run)
            && Shape(s) && s.deq <= s.taken
            && (s.queue == [] && s.copied == s.taken && EntryAt(s, s.taken).cycle != Phase(s.taken, num, size)
                ==> s.handled == Posts(run))
  {
    var s := After(Init(num, size, blank), run);
    InitInv(num, size, blank);
    RunKeeps(Init(num, size, blank), run);
    RunPosts(Init(num, size, blank), run);
    SameSize(Init(num, size, blank), run);
    CycleTells(s);
    assert s.handled <= s.handled + s.queue;
  }

  lemma {:induction false} SameSize<E>(s: Sys<E>, run: seq<Action<E>>)
    requires Legal(s, run)
    ensures After(s, run).num == s.num && After(s, run).size == s.size
    decreases |run|
  {
    if run != [] {
      SameSize(Apply(s, run[0]), run[1..]);
    }
  }

  lemma {:induction false} Continue<E>(s: Sys<E>, run: seq<Action<E>>, a: Action<E>)
    requires Legal(s, run) && Shape(After(s, run)) && Enabled(After(s, run), a)
    ensures Legal(s, run + [a]) && After(s, run + [a]) == Apply(After(s, run), a)
    decreases |run|
  {
    if run == [] {
      assert run + [a] == [a];
    } else {
      Continue(Apply(s, run[0]), run[1..], a);
      assert (run + [a])[1..] == run[1..] + [a];
    }
  }
}
