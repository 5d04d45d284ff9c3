/** One processor's scheduler (kernel/task/mgr.c) as a state machine: ticks charge the running task,
    and the task of least virtual run time runs next. A new task takes the idle task's virtual run
    time in one step and joins the queue in another, with any number of ticks in between. */
module Fairness {

  /** `v` and `res` are vRunTime and resRunTime; `late` is how many ticks passed between the reading of
      the task's first virtual run time and its joining the queue. */
  datatype Task = Task(v: int, res: int, prio: nat, late: nat)

  /** A task not in the queue yet: the time it was given, and at which tick. */
  datatype Draft = Draft(v: int, at: nat)

  /** The live tasks by pid, the running one, the idle task, whether a switch is due, the virtual run time
      the running task was dispatched with, the tasks that are to join, and the number of ticks so far. */
  datatype Cpu = Cpu(tasks: map<nat, Task>, cur: nat, idle: nat, need: bool, start: int, drafts: map<nat, Draft>,
                     now: nat)

  const KILLED: nat := 5
  /** The longest slice of a killed task and of another one. */
  const SLICE: int := 120
  const LIFE_SLICE: int := 100
  const SPREAD: int := 120
  const MAX_WEIGHT: int := 6
  /** The most a tick adds to the idle task. */
  const LAG: int := 5

  /** `_weight`, for the priorities that tasks have. */
  function Weight(prio: nat): int
  {
    prio + 1
  }

  function Max(a: int, b: int): int
  {
    if a > b then a else b
  }

  /** The slice of a task when taskNum is `n`, which may be negative for a while. */
  function Slice(prio: nat, n: int): int
    requires n != 0
  {
    Weight(prio) * Max(1, 20 / n)
  }

  lemma SliceBounds(prio: nat, n: int)
    requires n != 0 && prio <= KILLED
    ensures 1 <= Slice(prio, n) <= SLICE
    ensures prio < KILLED ==> Slice(prio, n) <= LIFE_SLICE
    ensures prio == KILLED ==> Slice(prio, n) % MAX_WEIGHT == 0
  {
    assert 20 / n <= 20;
    var m := Max(1, 20 / n);
    assert 1 <= m <= 20 && 1 <= Weight(prio) <= MAX_WEIGHT;
    assert Weight(prio) * m <= MAX_WEIGHT * m;
    if prio < KILLED { assert Weight(prio) * m <= LAG * m; }
  }

  // ---------- steps ----------

  /** The charge ends the slice. */
  predicate Over(t: Task)
  {
    t.res <= Weight(t.prio)
  }

  /** `Task_updateCurState`. */
  function Charged(t: Task, n: int): Task
    requires Over(t) ==> n != 0
  {
    var t' := t.(v := t.v + Weight(t.prio), res := t.res - Weight(t.prio));
    if Over(t) then t'.(res := Slice(t.prio, n)) else t'
  }

  /** The ticks since task `pid` was given its time. */
  function Age(s: Cpu, pid: nat): nat
    requires pid in s.drafts
  {
    if s.now >= s.drafts[pid].at then s.now - s.drafts[pid].at else 0
  }

  function Updated(s: Cpu, n: int): Cpu
    requires s.cur in s.tasks && (Over(s.tasks[s.cur]) ==> n != 0)
  {
    var t := s.tasks[s.cur];
    s.(tasks := s.tasks[s.cur := Charged(t, n)], need := Over(t), now := s.now + 1)
  }

  /** `Task_releaseProcessor`, up to the interrupt it sends. */
  function Released(s: Cpu): Cpu
    requires s.cur in s.tasks
  {
    s.(tasks := s.tasks[s.cur := s.tasks[s.cur].(res := 0)], need := true)
  }

  /** Comes before in the order of the run queue. */
  predicate Ahead(tasks: map<nat, Task>, p: nat, q: nat)
    requires p in tasks && q in tasks
  {
    tasks[p].v < tasks[q].v || (tasks[p].v == tasks[q].v && p < q)
  }

  predicate IsLeast(tasks: map<nat, Task>, p: nat)
  {
    p in tasks && forall q :: q in tasks && q != p ==> Ahead(tasks, p, q)
  }

  /** The tasks that go on living: a killed one is dropped unless the recycler is at work. */
  function Queued(s: Cpu, recycling: bool): map<nat, Task>
    requires s.cur in s.tasks
  {
    if s.tasks[s.cur].prio == KILLED && !recycling then s.tasks - {s.cur} else s.tasks
  }

  /** `Task_schedule` with `next` taken from the queue. */
  function Switched(s: Cpu, recycling: bool, next: nat): Cpu
    requires s.cur in s.tasks && next in Queued(s, recycling)
  {
    s.(tasks := Queued(s, recycling), cur := next, need := false, start := Queued(s, recycling)[next].v)
  }

  datatype Action =
    | Tick(n: int, recycling: bool, next: nat)
    | Interrupt(recycling: bool, next: nat)
    | Release
    | SetPriority(prio: nat)
    | Place(pid: nat)
    | Join(pid: nat)

  /** Returning from an interrupt switches if a switch is due, to the least task. */
  ghost predicate Returns(s: Cpu, recycling: bool, next: nat)
  {
    s.cur in s.tasks && (s.need ==> IsLeast(Queued(s, recycling), next))
  }

  function Returned(s: Cpu, recycling: bool, next: nat): Cpu
    requires s.cur in s.tasks && (s.need ==> next in Queued(s, recycling))
  {
    if s.need then Switched(s, recycling, next) else s
  }

  /** `n` is what taskNum holds: at 0 the end of a slice is a division by zero, and no step. A task's
      priority only rises, when it traps or is killed, and the idle task is never killed. */
  ghost predicate Enabled(s: Cpu, a: Action)
  {
    && s.cur in s.tasks
    && match a
       case Tick(n, recycling, next) => (Over(s.tasks[s.cur]) ==> n != 0) && Returns(Updated(s, n), recycling, next)
       case Interrupt(recycling, next) => Returns(s, recycling, next)
       case Release => true
       case SetPriority(prio) => s.tasks[s.cur].prio <= prio <= KILLED && (prio == KILLED ==> s.cur != s.idle)
       case Place(pid) => pid !in s.tasks && pid !in s.drafts && s.idle in s.tasks
       case Join(pid) => pid in s.drafts
  }

  function Apply(s: Cpu, a: Action): Cpu
    requires Enabled(s, a)
  {
    match a
    case Tick(n, recycling, next) => Returned(Updated(s, n), recycling, next)
    case Interrupt(recycling, next) => Returned(s, recycling, next)
    case Release => Released(s)
    case SetPriority(prio) => s.(tasks := s.tasks[s.cur := s.tasks[s.cur].(prio := prio)])
    case Place(pid) => s.(drafts := s.drafts[pid := Draft(s.tasks[s.idle].v, s.now)])
    case Join(pid) =>
      s.(tasks := s.tasks[pid := Task(s.drafts[pid].v, 20, 0, Age(s, pid))], drafts := s.drafts - {pid})
  }

  // ---------- the invariant ----------

  ghost predicate Within(tasks: map<nat, Task>, d: int)
  {
    forall p, q :: p in tasks && q in tasks ==> tasks[p].v - tasks[q].v <= d
  }

  /** No two live tasks are further apart than a slice and its overshoot. */
  ghost predicate Fair(tasks: map<nat, Task>)
  {
    Within(tasks, SPREAD)
  }

  /** How far others may be ahead of a task that joined `ticks` after its time was read. */
  function Bound(ticks: nat): int
  {
    SPREAD + LAG * ticks
  }

  /** Nobody is further ahead of a task than its own delay explains. */
  ghost predicate Close(tasks: map<nat, Task>)
  {
    forall p, q :: p in tasks && q in tasks ==> tasks[p].v - tasks[q].v <= Bound(tasks[q].late)
  }

  ghost predicate InBounds(s: Cpu, p: nat)
    requires p in s.tasks
  {
    var t := s.tasks[p];
    s.start <= t.v + LAG * t.late && SliceOK(t)
  }

  /** The time a task is to join with is the idle task's of `Age` ticks ago. */
  ghost predicate DraftOK(s: Cpu, d: nat)
    requires d in s.drafts && s.idle in s.tasks
  {
    var x, lag := s.drafts[d], LAG * Age(s, d);
    && d !in s.tasks && x.at <= s.now && x.v <= s.tasks[s.idle].v <= x.v + lag && s.start <= x.v + lag
    && (forall p :: p in s.tasks ==> s.tasks[p].v <= x.v + Bound(Age(s, d)))
  }

  ghost predicate Settled(s: Cpu)
  {
    && s.cur in s.tasks && s.idle in s.tasks && s.tasks[s.idle].prio != KILLED && s.tasks[s.idle].late == 0
    && Close(s.tasks)
    && (forall p :: p in s.tasks ==> InBounds(s, p))
    && (forall d :: d in s.drafts ==> DraftOK(s, d))
  }

  ghost predicate Inv(s: Cpu)
  {
    Settled(s) && Budget(s.tasks[s.cur], s.start)
  }

  /** What the running task may still be charged before its slice ends. */
  ghost predicate Budget(t: Task, start: int)
  {
    if t.v + t.res <= start + LIFE_SLICE then true
    else
      && t.prio == KILLED && t.res % MAX_WEIGHT == 0
      && t.v <= start + SLICE - MAX_WEIGHT && t.v + t.res <= start + SLICE
  }

  ghost function Init(idle: nat): Cpu
  {
    Cpu(map[idle := Task(0, 20, 0, 0)], idle, idle, false, 0, map[], 0)
  }

  /** What a task may hold of a slice. */
  ghost predicate SliceOK(t: Task)
  {
    0 <= t.res <= SLICE && t.prio <= KILLED && (t.res <= LIFE_SLICE || (t.prio == KILLED && t.res % MAX_WEIGHT == 0))
  }

  lemma ChargedTask(t: Task, n: int, start: int)
    requires SliceOK(t) && Budget(t, start) && (Over(t) ==> n != 0)
    ensures var u := Charged(t, n);
            && u.v <= start + SPREAD && SliceOK(u) && u.late == t.late && u.prio == t.prio
            && t.v < u.v <= t.v + MAX_WEIGHT && (t.prio < KILLED ==> u.v <= t.v + LAG)
            && (!Over(t) ==> Budget(u, start))
  {
    if Over(t) { SliceBounds(t.prio, n); }
    hide Slice;
    assert 1 <= Weight(t.prio) <= MAX_WEIGHT && (t.prio < KILLED ==> Weight(t.prio) <= LAG);
    if t.res % MAX_WEIGHT == 0 && t.res > 0 { SixLess(t.res); }
  }

  lemma SixLess(r: int)
    requires r % 6 == 0 && r > 0
    ensures r >= 6 && (r - 6) % 6 == 0
  {
  }

  /** A charge leaves the running task within the bounds of the dispatch. */
  lemma ChargedSpread(s: Cpu, n: int)
    requires Inv(s) && (Over(s.tasks[s.cur]) ==> n != 0)
    ensures Settled(Updated(s, n))
    ensures !Updated(s, n).need ==> Inv(Updated(s, n))
  {
    var t := s.tasks[s.cur];
    assert InBounds(s, s.cur);
    ChargedTask(t, n, s.start);
    hide Slice, Budget, Charged, SliceOK, Over;
    var u := Updated(s, n);
    forall p | p in u.tasks ensures InBounds(u, p) {
      assert InBounds(s, p);
    }
    forall d | d in u.drafts ensures DraftOK(u, d) {
      assert DraftOK(s, d);
    }
  }

  /** The task switched to is the least, and starts with its whole budget. */
  lemma SwitchKeeps(s: Cpu, recycling: bool, next: nat)
    requires Settled(s) && IsLeast(Queued(s, recycling), next)
    ensures Inv(Switched(s, recycling, next))
  {
    var t, u := Queued(s, recycling), Switched(s, recycling, next);
    assert forall p :: p in t ==> p in s.tasks && t[p] == s.tasks[p] && t[next].v <= t[p].v;
    assert InBounds(s, next);
    forall p | p in u.tasks ensures InBounds(u, p) {
      assert InBounds(s, p);
    }
    forall d | d in u.drafts ensures DraftOK(u, d) {
      assert DraftOK(s, d);
    }
  }

  lemma PlaceKeeps(s: Cpu, pid: nat)
    requires Inv(s) && Enabled(s, Place(pid))
    ensures Inv(Apply(s, Place(pid)))
  {
    var u := Apply(s, Place(pid));
    assert InBounds(s, s.idle);
    forall p | p in u.tasks ensures InBounds(u, p) {
      assert InBounds(s, p);
    }
    forall d | d in u.drafts ensures DraftOK(u, d) {
      assert d != pid ==> DraftOK(s, d);
    }
  }

  /** However late a task joins, nobody is further ahead of it than that explains. */
  lemma JoinKeeps(s: Cpu, pid: nat)
    requires Inv(s) && Enabled(s, Join(pid))
    ensures Inv(Apply(s, Join(pid)))
  {
    var u := Apply(s, Join(pid));
    assert DraftOK(s, pid);
    forall p | p in u.tasks ensures InBounds(u, p) {
      assert p != pid ==> InBounds(s, p);
    }
    forall d | d in u.drafts ensures DraftOK(u, d) {
      assert DraftOK(s, d);
    }
  }

  lemma OtherKeeps(s: Cpu, a: Action)
    requires Inv(s) && Enabled(s, a) && (a.Release? || a.SetPriority?)
    ensures Inv(Apply(s, a))
  {
    var u := Apply(s, a);
    forall p | p in u.tasks ensures InBounds(u, p) {
      assert InBounds(s, p);
    }
    forall d | d in u.drafts ensures DraftOK(u, d) {
      assert DraftOK(s, d);
    }
  }

  lemma ActionKeeps(s: Cpu, a: Action)
    requires Inv(s) && Enabled(s, a)
    ensures Inv(Apply(s, a))
  {
    hide Settled, Budget, Charged, IsLeast, Queued, Switched;
    match a
    case Tick(n, recycling, next) =>
      CurLives(s);
      ChargedSpread(s, n);
      if Updated(s, n).need { SwitchKeeps(Updated(s, n), recycling, next); }
    case Interrupt(recycling, next) =>
      if s.need { SwitchKeeps(s, recycling, next); }
    case Place(pid) => PlaceKeeps(s, pid);
    case Join(pid) => JoinKeeps(s, pid);
    case _ => OtherKeeps(s, a);
  }

  lemma CurLives(s: Cpu)
    requires Settled(s)
    ensures s.cur in s.tasks
  {
  }

  // ---------- the next task ----------

  /** There is always a task to switch to: the idle task is never dropped. */
  lemma SomeoneRuns(s: Cpu, recycling: bool) returns (next: nat)
    requires s.cur in s.tasks && s.idle in s.tasks && s.tasks[s.idle].prio != KILLED
    ensures IsLeast(Queued(s, recycling), next)
  {
    var t := Queued(s, recycling);
    assert s.idle in t;
    next := Least(t, t.Keys);
  }

  lemma {:induction false} Least(tasks: map<nat, Task>, among: set<nat>) returns (p: nat)
    requires among != {} && among <= tasks.Keys
    ensures p in among && forall q :: q in among && q != p ==> Ahead(tasks, p, q)
    decreases |among|
  {
    var x :| x in among;
    if among == {x} {
      p := x;
    } else {
      var y := Least(tasks, among - {x});
      p := if Ahead(tasks, x, y) then x else y;
      assert forall q :: q in among ==> q == x || q in among - {x};
      assert Ahead(tasks, x, y) || Ahead(tasks, y, x);
    }
  }

  // ---------- every run ----------

  ghost predicate Legal(s: Cpu, run: seq<Action>)
    decreases |run|
  {
    run == [] || (Enabled(s, run[0]) && Legal(Apply(s, run[0]), run[1..]))
  }

  ghost function After(s: Cpu, run: seq<Action>): Cpu
    requires Legal(s, run)
    decreases |run|
  {
    if run == [] then s else After(Apply(s, run[0]), run[1..])
  }

  lemma {:induction false} RunKeeps(s: Cpu, run: seq<Action>)
    requires Inv(s) && Legal(s, run)
    ensures Inv(After(s, run))
    decreases |run|
  {
    hide Inv, Enabled, Apply;
    if run != [] {
      ActionKeeps(s, run[0]);
      RunKeeps(Apply(s, run[0]), run[1..]);
    }
  }

  /** In every run, whatever tasks are created, killed and released, nobody is further ahead of a live
      task than 120, and 5 more for each tick that task was late. */
  lemma AlwaysClose(idle: nat, run: seq<Action>)
    requires Legal(Init(idle), run)
    ensures Close(After(Init(idle), run).tasks)
  {
    RunKeeps(Init(idle), run);
  }

  /** Every task joins at most `k` ticks after its time was read. */
  ghost predicate Prompt(s: Cpu, run: seq<Action>, k: nat)
    requires Legal(s, run)
    decreases |run|
  {
    run != [] ==>
      (run[0].Join? ==> Age(s, run[0].pid) <= k) && Prompt(Apply(s, run[0]), run[1..], k)
  }

  ghost predicate Lates(tasks: map<nat, Task>, k: nat)
  {
    forall p :: p in tasks ==> tasks[p].late <= k
  }

  lemma LatesKept(s: Cpu, a: Action, k: nat)
    requires Enabled(s, a) && Lates(s.tasks, k) && (a.Join? ==> Age(s, a.pid) <= k)
    ensures Lates(Apply(s, a).tasks, k)
  {
    hide IsLeast, Slice;
  }

  lemma {:induction false} PromptLates(s: Cpu, run: seq<Action>, k: nat)
    requires Legal(s, run) && Prompt(s, run, k) && Lates(s.tasks, k)
    ensures Lates(After(s, run).tasks, k)
    decreases |run|
  {
    hide Enabled, Apply, Lates;
    if run != [] {
      LatesKept(s, run[0], k);
      PromptLates(Apply(s, run[0]), run[1..], k);
    }
  }

  /** In every run in which tasks join at most `k` ticks late, the virtual run times of any two live
      tasks are within 120 + 5 k; with the reading and the joining in one masked section of the
      task's own processor, `k` is 0. */
  lemma AlwaysFair(idle: nat, run: seq<Action>, k: nat)
    requires Legal(Init(idle), run) && Prompt(Init(idle), run, k)
    ensures Within(After(Init(idle), run).tasks, Bound(k))
    ensures k == 0 ==> Fair(After(Init(idle), run).tasks)
  {
    AlwaysClose(idle, run);
    PromptLates(Init(idle), run, k);
  }

  /** A task that joins leaves fair tasks fair exactly when no live task is more than 120 ahead of the time
      it was given. */
  lemma JoinedFair(idle: nat, run: seq<Action>, pid: nat)
    requires Legal(Init(idle), run)
    requires var s := After(Init(idle), run); Enabled(s, Join(pid)) && Fair(s.tasks)
    ensures var s := After(Init(idle), run);
            Fair(Apply(s, Join(pid)).tasks) <==> forall p :: p in s.tasks ==> s.tasks[p].v <= s.drafts[pid].v + SPREAD
  {
    RunKeeps(Init(idle), run);
    var s := After(Init(idle), run);
    var u := Apply(s, Join(pid));
    assert DraftOK(s, pid);
    if Fair(u.tasks) {
      forall p | p in s.tasks ensures s.tasks[p].v <= s.drafts[pid].v + SPREAD {
        assert p in u.tasks && pid in u.tasks;
      }
    }
  }

  // ---------- a task that joins too late ----------

  /** The run leads from `s` to `t`, and nobody in it joins more than `k` ticks late. */
  ghost predicate Leads(s: Cpu, run: seq<Action>, k: nat, t: Cpu)
  {
    Legal(s, run) && Prompt(s, run, k) && After(s, run) == t
  }

  lemma OneStep(s: Cpu, a: Action, k: nat)
    requires Enabled(s, a) && (a.Join? ==> Age(s, a.pid) <= k)
    ensures Leads(s, [a], k, Apply(s, a))
  {
    assert [a][1..] == [];
  }

  lemma {:induction false} Chain(s: Cpu, run: seq<Action>, k: nat, t: Cpu, more: seq<Action>, u: Cpu)
    requires Leads(s, run, k, t) && Leads(t, more, k, u)
    ensures Leads(s, run + more, k, u)
    decreases |run|
  {
    hide Enabled, Apply;
    if run == [] {
      assert run + more == more;
    } else {
      Chain(Apply(s, run[0]), run[1..], k, t, more, u);
      assert (run + more)[1..] == run[1..] + more;
    }
  }

  /** One step more. */
  lemma Then(s: Cpu, run: seq<Action>, k: nat, t: Cpu, a: Action)
    requires Leads(s, run, k, t) && Enabled(t, a) && (a.Join? ==> Age(t, a.pid) <= k)
    ensures Leads(s, run + [a], k, Apply(t, a))
  {
    OneStep(t, a, k);
    Chain(s, run, k, t, [a], Apply(t, a));
  }

  /** The idle task 1, and task 0, which is killed but still queued. */
  function Two(idle: Task, cur: nat, start: int, drafts: map<nat, Draft>, now: nat): Cpu
  {
    Cpu(map[0 := Task(6, 120, KILLED, 0), 1 := idle], cur, 1, false, start, drafts, now)
  }

  /** Task 0 is killed at once and gives its slice up; at the next tick it has the longest slice. */
  lemma Killed(k: nat) returns (run: seq<Action>)
    ensures Leads(Init(1), run, k, Two(Task(0, 0, 0, 0), 1, 0, map[], 1))
  {
    hide Legal, Prompt, After;
    var s0 := Init(1);
    OneStep(s0, Place(0), k);
    var s1 := Apply(s0, Place(0));
    Then(s0, [Place(0)], k, s1, Join(0));
    var s2 := Apply(s1, Join(0));
    run := [Place(0)] + [Join(0)];
    Then(s0, run, k, s2, Release);
    var s3 := Apply(s2, Release);
    run := run + [Release];
    Then(s0, run, k, s3, Interrupt(false, 0));
    var s4 := Apply(s3, Interrupt(false, 0));
    run := run + [Interrupt(false, 0)];
    Then(s0, run, k, s4, SetPriority(KILLED));
    var s5 := Apply(s4, SetPriority(KILLED));
    run := run + [SetPriority(KILLED)];
    Then(s0, run, k, s5, Release);
    var s6 := Apply(s5, Release);
    run := run + [Release];
    Then(s0, run, k, s6, Tick(1, true, 1));
    run := run + [Tick(1, true, 1)];
    assert Apply(s6, Tick(1, true, 1)) == Two(Task(0, 0, 0, 0), 1, 0, map[], 1);
  }

  /** The idle task goes on for `n` ticks of its slice. */
  lemma {:induction false} Idles(n: nat, k: nat) returns (run: seq<Action>)
    requires n < 20
    ensures Leads(Two(Task(1, 20, 0, 0), 1, 1, map[], 2), run, k, Two(Task(1 + n, 20 - n, 0, 0), 1, 1, map[], 2 + n))
    decreases n
  {
    var s0 := Two(Task(1, 20, 0, 0), 1, 1, map[], 2);
    if n == 0 {
      run := [];
    } else {
      var before := Idles(n - 1, k);
      var s, a := Two(Task(n, 21 - n, 0, 0), 1, 1, map[], 1 + n), Tick(1, false, 1);
      hide Legal, Prompt, After;
      Then(s0, before, k, s, a);
      assert Apply(s, a) == Two(Task(1 + n, 20 - n, 0, 0), 1, 1, map[], 2 + n);
      run := before + [a];
    }
  }

  /** Task 2 has joined with time 5. */
  function Three(n: nat): Cpu
  {
    Cpu(map[0 := Task(6 + 6 * n, 120 - 6 * n, KILLED, 0), 1 := Task(6, 20, 0, 0), 2 := Task(5, 20, 0, 1)],
        0, 1, false, 6, map[], 7 + n)
  }

  /** From the idle task's time 5, which task 2 is given, to its joining one tick later. */
  lemma JoinsLate(k: nat) returns (run: seq<Action>)
    requires k >= 1
    ensures Leads(Two(Task(5, 16, 0, 0), 1, 1, map[], 6), run, k, Three(0))
  {
    hide Legal, Prompt, After;
    var s0 := Two(Task(5, 16, 0, 0), 1, 1, map[], 6);
    OneStep(s0, Place(2), k);
    var s1 := Apply(s0, Place(2));
    Then(s0, [Place(2)], k, s1, Release);
    var s2 := Apply(s1, Release);
    run := [Place(2)] + [Release];
    Then(s0, run, k, s2, Tick(1, false, 0));
    var s3 := Apply(s2, Tick(1, false, 0));
    assert s3 == Two(Task(6, 20, 0, 0), 0, 6, map[2 := Draft(5, 6)], 7);
    run := run + [Tick(1, false, 0)];
    Then(s0, run, k, s3, Join(2));
    run := run + [Join(2)];
    assert Apply(s3, Join(2)) == Three(0);
  }

  /** The killed task uses up its slice. */
  lemma {:induction false} UsesUp(n: nat, k: nat) returns (run: seq<Action>)
    requires n < 20
    ensures Leads(Three(0), run, k, Three(n))
    decreases n
  {
    if n == 0 {
      run := [];
    } else {
      var before := UsesUp(n - 1, k);
      var s, a := Three(n - 1), Tick(1, true, 2);
      hide Legal, Prompt, After;
      Then(Three(0), before, k, s, a);
      assert Apply(s, a) == Three(n);
      run := before + [a];
    }
  }

  /** A task that joins a single tick late can fall more than 120 behind. */
  lemma TooLate(k: nat) returns (run: seq<Action>)
    requires k >= 1
    ensures Legal(Init(1), run) && Prompt(Init(1), run, k) && !Fair(After(Init(1), run).tasks)
  {
    hide Legal, Prompt, After;
    var a := Killed(k);
    var s0, s1 := Two(Task(0, 0, 0, 0), 1, 0, map[], 1), Two(Task(1, 20, 0, 0), 1, 1, map[], 2);
    Then(Init(1), a, k, s0, Tick(1, false, 1));
    assert Apply(s0, Tick(1, false, 1)) == s1;
    var b := Idles(4, k);
    Chain(Init(1), a + [Tick(1, false, 1)], k, s1, b, Two(Task(5, 16, 0, 0), 1, 1, map[], 6));
    var c := JoinsLate(k);
    run := a + [Tick(1, false, 1)] + b;
    Chain(Init(1), run, k, Two(Task(5, 16, 0, 0), 1, 1, map[], 6), c, Three(0));
    var d := UsesUp(19, k);
    run := run + c;
    Chain(Init(1), run, k, Three(0), d, Three(19));
    run := run + d;
    Then(Init(1), run, k, Three(19), Tick(1, true, 2));
    run := run + [Tick(1, true, 2)];
    var t := Apply(Three(19), Tick(1, true, 2)).tasks;
    assert t[0].v - t[2].v == 121;
  }

  /** In every run with tasks joining at most `k` ticks late all tasks stay within 120 of each other ... */
  ghost predicate StaysFair(k: nat)
  {
    forall idle: nat, run: seq<Action> :: Legal(Init(idle), run) && Prompt(Init(idle), run, k) ==>
      Fair(After(Init(idle), run).tasks)
  }

  /** ... exactly when none joins late at all. */
  lemma FairExactly(k: nat)
    ensures StaysFair(k) <==> k == 0
  {
    if k == 0 {
      forall idle: nat, run: seq<Action> | Legal(Init(idle), run) && Prompt(Init(idle), run, k)
        ensures Fair(After(Init(idle), run).tasks)
      {
        AlwaysFair(idle, run, 0);
      }
    } else {
      var run := TooLate(k);
    }
  }

  // ---------- no starvation ----------

  /** All through `run` the task `p` waits; others may come and go. */
  ghost predicate Waits(s: Cpu, run: seq<Action>, p: nat)
    requires Legal(s, run)
    decreases |run|
  {
    p in s.tasks && p != s.cur && (run != [] ==> Waits(Apply(s, run[0]), run[1..], p))
  }

  ghost function Ticks(run: seq<Action>): nat
  {
    if run == [] then 0 else Ticks(run[1..]) + (if run[0].Tick? then 1 else 0)
  }

  ghost function Joins(run: seq<Action>): nat
  {
    if run == [] then 0 else Joins(run[1..]) + (if run[0].Join? then 1 else 0)
  }

  /** What all the live tasks may still be charged below `top`. */
  ghost function Room(tasks: map<nat, Task>, top: int): int
    decreases |tasks|
  {
    if tasks == map[] then 0
    else
      var q :| q in tasks;
      Shrinks(tasks, q);
      top - tasks[q].v + Room(tasks - {q}, top)
  }

  lemma Shrinks(tasks: map<nat, Task>, q: nat)
    requires q in tasks
    ensures |tasks - {q}| == |tasks| - 1
  {
    assert (tasks - {q}).Keys == tasks.Keys - {q};
  }

  lemma {:induction false} RoomSplit(tasks: map<nat, Task>, top: int, x: nat)
    requires x in tasks
    ensures Room(tasks, top) == top - tasks[x].v + Room(tasks - {x}, top)
    decreases |tasks|
  {
    var q :| q in tasks && Room(tasks, top) == top - tasks[q].v + Room(tasks - {q}, top);
    if q != x {
      Shrinks(tasks, q);
      Shrinks(tasks, x);
      RoomSplit(tasks - {q}, top, x);
      RoomSplit(tasks - {x}, top, q);
      assert tasks - {q} - {x} == tasks - {x} - {q};
    }
  }

  lemma {:induction false} RoomBounds(tasks: map<nat, Task>, top: int, c: int)
    requires c >= 0 && forall q :: q in tasks ==> 0 <= top - tasks[q].v <= c
    ensures 0 <= Room(tasks, top) <= c * |tasks|
    decreases |tasks|
  {
    if tasks != map[] {
      var q :| q in tasks;
      Shrinks(tasks, q);
      RoomSplit(tasks, top, q);
      RoomBounds(tasks - {q}, top, c);
      OneMore(c, |tasks| - 1);
    }
  }

  /** One task changes from `t` to `t'`. */
  lemma RoomChanged(tasks: map<nat, Task>, top: int, x: nat, t: Task)
    requires x in tasks
    ensures Room(tasks[x := t], top) == Room(tasks, top) + tasks[x].v - t.v
  {
    RoomSplit(tasks, top, x);
    RoomSplit(tasks[x := t], top, x);
    assert tasks[x := t] - {x} == tasks - {x};
  }

  lemma RoomAdded(tasks: map<nat, Task>, top: int, x: nat, t: Task)
    requires x !in tasks
    ensures Room(tasks[x := t], top) == Room(tasks, top) + top - t.v
  {
    RoomSplit(tasks[x := t], top, x);
    assert tasks[x := t] - {x} == tasks;
  }

  /** What a task that waits may be overtaken by. */
  function Top(t: Task): int
  {
    t.v + Bound(t.late)
  }

  /** A switch takes no task's room but that of a task it drops. */
  lemma RoomQueued(s: Cpu, recycling: bool, top: int)
    requires s.cur in s.tasks && s.tasks[s.cur].v <= top
    ensures Room(Queued(s, recycling), top) <= Room(s.tasks, top)
  {
    RoomSplit(s.tasks, top, s.cur);
  }

  lemma RoomTicked(s: Cpu, a: Action, p: nat)
    requires Inv(s) && Enabled(s, a) && a.Tick? && p in s.tasks
    ensures Room(Apply(s, a).tasks, Top(s.tasks[p])) <= Room(s.tasks, Top(s.tasks[p])) - 1
  {
    var top, t := Top(s.tasks[p]), s.tasks[s.cur];
    assert InBounds(s, p) && InBounds(s, s.cur);
    RoomChanged(s.tasks, top, s.cur, Charged(t, a.n));
    RoomQueued(Updated(s, a.n), a.recycling, top);
    hide Room, Slice, Queued, IsLeast;
  }

  lemma RoomJoined(s: Cpu, pid: nat, p: nat, k: nat)
    requires Inv(s) && Enabled(s, Join(pid)) && p in s.tasks && s.tasks[p].late <= k && Age(s, pid) <= k
    ensures Room(Apply(s, Join(pid)).tasks, Top(s.tasks[p])) <= Room(s.tasks, Top(s.tasks[p])) + 2 * Bound(k)
  {
    assert DraftOK(s, pid);
    RoomAdded(s.tasks, Top(s.tasks[p]), pid, Task(s.drafts[pid].v, 20, 0, Age(s, pid)));
  }

  lemma RoomKept(s: Cpu, a: Action, p: nat)
    requires Inv(s) && Enabled(s, a) && p in s.tasks && !a.Tick? && !a.Join?
    ensures Room(Apply(s, a).tasks, Top(s.tasks[p])) <= Room(s.tasks, Top(s.tasks[p]))
  {
    var top := Top(s.tasks[p]);
    match a
    case Interrupt(recycling, next) =>
      if s.need { RoomQueued(s, recycling, top); }
    case Release => RoomChanged(s.tasks, top, s.cur, s.tasks[s.cur].(res := 0));
    case SetPriority(prio) => RoomChanged(s.tasks, top, s.cur, s.tasks[s.cur].(prio := prio));
    case Place(pid) =>
  }

  /** A task that waits is not changed. */
  lemma Waiting(s: Cpu, a: Action, p: nat)
    requires Inv(s) && Enabled(s, a) && p in s.tasks && p != s.cur
    ensures p in Apply(s, a).tasks && Apply(s, a).tasks[p] == s.tasks[p]
  {
    if a.Join? { assert DraftOK(s, a.pid); }
    hide Slice, IsLeast;
  }

  lemma {:induction false} TicksCounted(s: Cpu, run: seq<Action>, p: nat, k: nat)
    requires Inv(s) && Legal(s, run) && Waits(s, run, p) && Prompt(s, run, k) && s.tasks[p].late <= k
    ensures Ticks(run) <= Room(s.tasks, Top(s.tasks[p])) + 2 * Bound(k) * Joins(run)
    decreases |run|
  {
    hide Enabled, Apply, Settled, Budget, Room, Top;
    if run == [] {
      RoomLeft(s, p);
    } else {
      var a, t := run[0], Apply(s, run[0]);
      ActionKeeps(s, a);
      Waiting(s, a, p);
      if a.Tick? { RoomTicked(s, a, p); } else if a.Join? { RoomJoined(s, a.pid, p, k); } else { RoomKept(s, a, p); }
      TicksCounted(t, run[1..], p, k);
      OneMore(2 * Bound(k), Joins(run[1..]));
    }
  }

  lemma OneMore(c: int, n: nat)
    ensures c * (n + 1) == c * n + c
  {
  }

  lemma RoomLeft(s: Cpu, p: nat)
    requires Inv(s) && p in s.tasks
    ensures 0 <= Room(s.tasks, Top(s.tasks[p]))
  {
    var top := Top(s.tasks[p]);
    var low := Lowest(s.tasks);
    RoomBounds(s.tasks, top, top - low);
  }

  lemma RoomAtMost(s: Cpu, p: nat, k: nat)
    requires Inv(s) && p in s.tasks && Lates(s.tasks, k)
    ensures Room(s.tasks, Top(s.tasks[p])) <= 2 * Bound(k) * |s.tasks|
  {
    var top := Top(s.tasks[p]);
    hide Room;
    forall q | q in s.tasks ensures 0 <= top - s.tasks[q].v <= 2 * Bound(k) {
    }
    RoomBounds(s.tasks, top, 2 * Bound(k));
  }

  lemma Lowest(tasks: map<nat, Task>) returns (low: int)
    ensures forall q :: q in tasks ==> low <= tasks[q].v
  {
    if tasks == map[] {
      low := 0;
    } else {
      var p := Least(tasks, tasks.Keys);
      low := tasks[p].v;
    }
  }

  /** In every run in which tasks join at most `k` ticks late, a task that waits has seen at most
      240 + 10 k ticks for each task that lived at its beginning or joined since. */
  lemma NoStarvation(s: Cpu, run: seq<Action>, p: nat, k: nat)
    requires Inv(s) && Legal(s, run) && Waits(s, run, p) && Lates(s.tasks, k) && Prompt(s, run, k)
    ensures Ticks(run) <= 2 * Bound(k) * (|s.tasks| + Joins(run))
  {
    hide Settled, Budget, Room, Top, Bound, Prompt;
    TicksCounted(s, run, p, k);
    RoomAtMost(s, p, k);
    Distributes(2 * Bound(k), |s.tasks|, Joins(run));
  }

  lemma Distributes(c: int, m: nat, n: nat)
    ensures c * (m + n) == c * m + c * n
  {
  }
}
