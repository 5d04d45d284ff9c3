/** How a dead task goes from its processor to the recycler (kernel/task/mgr.c), step by step and with
    all processors running at once. Operations on one tree are atomic here. */
module Recycle {
  import opened Basics

  /** Where a processor is in Task_schedule. */
  datatype Phase =
    | Running
    | ToKill      // the running task is dead, and the recycler was seen idle
    | Inserted    // it is in the killed tree
    | Counted     // killedTaskNum was raised
    | Flagged     // Task_Flag_InKillTree was set
    | Left        // taskNum was lowered
    | Requeued    // the running task is in the run queue

  /** `pend` is how many tasks were put into the queue without being counted in `taskNum` yet; `placing` is
      the processor on whose queue the running task has put a new one without having counted it. Meanwhile
      its interrupts are masked. */
  datatype Cpu = Cpu(cur: nat, idle: nat, phase: Phase, queue: set<nat>, taskNum: int, pend: int,
                     placing: Option<nat>)

  /** Where the recycler is in Task_recycleThread. */
  datatype Stage =
    | Waiting
    | Entered           // recycTskState was raised
    | Got(t: nat)       // the rightmost task of the killed tree
    | Sure(t: nat)      // its flag was found set
    | Deleted(t: nat)   // it was taken out of the killed tree
    | Lowered(t: nat)   // killedTaskNum was lowered
    | Leaving           // nothing to recycle this time
    | Freeing(t: nat)   // recycTskState was lowered

  datatype Home = OnCpu(c: nat) | InQueue(c: nat) | Dead | InHand | Gone

  /** `at` is where each task is, `counted` the dead ones that killedTaskNum stands for. */
  datatype Sys = Sys(cpus: seq<Cpu>, killed: set<nat>, killedNum: int, flagged: set<nat>, dying: set<nat>,
                     stage: Stage, recycling: nat, recycled: seq<nat>, at: map<nat, Home>, counted: set<nat>)

  datatype Action =
    | Create(maker: nat, c: nat, t: nat) | CountNew(maker: nat) | Exit(c: nat)
    | Choose(c: nat) | Insert(c: nat) | Count(c: nat) | Flag(c: nat) | Leave(c: nat) | Switch(c: nat, next: nat)
    | Enter | Look(t: nat) | LookEmpty | Check | Delete | Lower | Release | Free

  /** The processor may take a step other than the count it owes. */
  ghost predicate Acts(s: Sys, c: nat)
  {
    c < |s.cpus| && s.cpus[c].placing.None?
  }

  /** The running task of processor `maker` puts a new task on the queue of processor `c` and then counts it;
      in between `maker` does nothing else, but `c` may. */
  ghost predicate Enabled(s: Sys, a: Action)
  {
    match a
    case Create(maker, c, t) => Acts(s, maker) && s.cpus[maker].phase.Running? && c < |s.cpus| && t !in s.at
    case CountNew(maker) => maker < |s.cpus| && s.cpus[maker].placing.Some? && s.cpus[maker].placing.value < |s.cpus|
    case Exit(c) => Acts(s, c) && s.cpus[c].phase.Running? && s.cpus[c].cur != s.cpus[c].idle
    case Choose(c) => Acts(s, c) && s.cpus[c].phase.Running?
    case Insert(c) => Acts(s, c) && s.cpus[c].phase.ToKill?
    case Count(c) => Acts(s, c) && s.cpus[c].phase.Inserted?
    case Flag(c) => Acts(s, c) && s.cpus[c].phase.Counted?
    case Leave(c) => Acts(s, c) && s.cpus[c].phase.Flagged?
    case Switch(c, next) =>
      Acts(s, c) && (s.cpus[c].phase.Left? || s.cpus[c].phase.Requeued?) && next in s.cpus[c].queue
    case Enter => s.stage.Waiting? && s.killedNum != 0
    case Look(t) => s.stage.Entered? && t in s.killed
    case LookEmpty => s.stage.Entered? && s.killed == {}
    case Check => s.stage.Got?
    case Delete => s.stage.Sure?
    case Lower => s.stage.Deleted?
    case Release => s.stage.Lowered? || s.stage.Leaving?
    case Free => s.stage.Freeing?
  }

  ghost function Put(s: Sys, c: nat, k: Cpu): Sys
    requires c < |s.cpus|
  {
    s.(cpus := s.cpus[c := k])
  }

  ghost function OneCounted(s: Sys, c: nat): Sys
    requires c < |s.cpus|
  {
    Put(s, c, s.cpus[c].(taskNum := s.cpus[c].taskNum + 1, pend := s.cpus[c].pend - 1))
  }

  ghost function Created(s: Sys, c: nat, t: nat): Sys
    requires c < |s.cpus|
  {
    Put(s, c, s.cpus[c].(queue := s.cpus[c].queue + {t}, pend := s.cpus[c].pend + 1)).(at := s.at[t := InQueue(c)])
  }

  ghost function Masked(s: Sys, maker: nat, p: Option<nat>): Sys
    requires maker < |s.cpus|
  {
    Put(s, maker, s.cpus[maker].(placing := p))
  }

  ghost function Apply(s: Sys, a: Action): Sys
    requires Enabled(s, a)
  {
    match a
    case Create(maker, c, t) => Masked(Created(s, c, t), maker, Some(c))
    case CountNew(maker) => Masked(OneCounted(s, s.cpus[maker].placing.value), maker, None)
    case Exit(c) => s.(dying := s.dying + {s.cpus[c].cur})
    case Choose(c) =>
      var k := s.cpus[c];
      if k.cur in s.dying && s.recycling == 0 then Put(s, c, k.(phase := ToKill))
      else Requeue(s, c)
    case Insert(c) =>
      var k := s.cpus[c];
      Put(s, c, k.(phase := Inserted)).(killed := s.killed + {k.cur}, at := s.at[k.cur := Dead])
    case Count(c) =>
      Put(s, c, s.cpus[c].(phase := Counted)).(killedNum := s.killedNum + 1, counted := s.counted + {s.cpus[c].cur})
    case Flag(c) => Put(s, c, s.cpus[c].(phase := Flagged)).(flagged := s.flagged + {s.cpus[c].cur})
    case Leave(c) => Put(s, c, s.cpus[c].(phase := Left, taskNum := s.cpus[c].taskNum - 1))
    case Switch(c, next) =>
      var k := s.cpus[c];
      Put(s, c, k.(phase := Running, cur := next, queue := k.queue - {next})).(at := s.at[next := OnCpu(c)])
    case Enter => s.(stage := Entered, recycling := s.recycling + 1)
    case Look(t) => s.(stage := Got(t))
    case LookEmpty => s.(stage := Leaving)
    case Check => s.(stage := if s.stage.t in s.flagged then Sure(s.stage.t) else Leaving)
    case Delete =>
      var t := s.stage.t;
      s.(stage := Deleted(t), killed := s.killed - {t}, counted := s.counted - {t}, at := s.at[t := InHand])
    case Lower => s.(stage := Lowered(s.stage.t), killedNum := s.killedNum - 1)
    case Release =>
      s.(stage := if s.stage.Lowered? then Freeing(s.stage.t) else Waiting,
         recycling := if s.recycling > 0 then s.recycling - 1 else 0)
    case Free => s.(stage := Waiting, recycled := s.recycled + [s.stage.t], at := s.at[s.stage.t := Gone])
  }

  // ---------- the invariant ----------

  /** The phases in which the running task is in no tree and not counted out. */
  predicate Holds(p: Phase)
  {
    p.Running? || p.ToKill?
  }

  /** The phases in which taskNum still counts the running task on top of the queue. */
  predicate OneMore(p: Phase)
  {
    !p.Left? && !p.Requeued?
  }

  ghost predicate CpuOK(s: Sys, c: nat)
    requires c < |s.cpus|
  {
    var k := s.cpus[c];
    && k.cur in s.at && k.idle in s.at
    && (Holds(k.phase) ==> s.at[k.cur] == OnCpu(c))
    && (k.phase.ToKill? ==> k.cur in s.dying)
    && (k.phase.Requeued? ==> s.at[k.cur] == InQueue(c))
    && (k.phase.Inserted? ==> s.at[k.cur] == Dead && k.cur !in s.flagged && k.cur !in s.counted)
    && (k.phase.Counted? ==> s.at[k.cur] == Dead && k.cur !in s.flagged && k.cur in s.counted)
    && (k.phase.Flagged? || k.phase.Left? ==> k.cur in s.flagged)
    && k.idle !in s.dying && (s.at[k.idle] == OnCpu(c) || s.at[k.idle] == InQueue(c))
    && k.taskNum + k.pend == |k.queue| + (if OneMore(k.phase) then 1 else 0)
    && (forall t :: t in k.queue <==> t in s.at && s.at[t] == InQueue(c))
  }

  ghost predicate TaskOK(s: Sys, t: nat)
    requires t in s.at
  {
    match s.at[t]
    case OnCpu(c) => c < |s.cpus| && s.cpus[c].cur == t && Holds(s.cpus[c].phase) && t !in s.flagged
    case InQueue(c) => c < |s.cpus| && t !in s.flagged
    case Dead => t !in s.counted ==> exists c :: 0 <= c < |s.cpus| && s.cpus[c].cur == t && s.cpus[c].phase.Inserted?
    case InHand => s.stage == Deleted(t) || s.stage == Lowered(t) || s.stage == Freeing(t)
    case Gone => t in s.recycled
  }

  ghost predicate RecyclerOK(s: Sys)
  {
    && (s.stage.Got? ==> s.stage.t in s.killed)
    && (s.stage.Sure? ==> s.stage.t in s.killed && s.stage.t in s.flagged)
    && (s.stage.Deleted? || s.stage.Lowered? || s.stage.Freeing? ==> s.stage.t in s.at && s.at[s.stage.t] == InHand)
    && s.recycling == (if s.stage.Waiting? || s.stage.Freeing? then 0 else 1)
    && (forall t :: t in s.recycled ==> t in s.at && s.at[t] == Gone)
    && (forall i, j :: 0 <= i < j < |s.recycled| ==> s.recycled[i] != s.recycled[j])
  }

  ghost predicate DeadOK(s: Sys)
  {
    && (forall t :: t in s.killed <==> t in s.at && s.at[t] == Dead)
    && s.counted <= s.killed
    && (forall t :: t in s.killed && t in s.flagged ==> t in s.counted)
    && (forall t :: t in s.flagged ==> t in s.at)
    && s.killedNum == |s.counted| + (if s.stage.Deleted? then 1 else 0)
  }

  /** The phases of handing a dead task over. */
  predicate Killing(p: Phase)
  {
    p.Inserted? || p.Counted? || p.Flagged? || p.Left?
  }

  /** No two processors hand over the same task. */
  ghost predicate Apart(s: Sys)
  {
    forall c, d :: 0 <= c < d < |s.cpus| && Killing(s.cpus[c].phase) && Killing(s.cpus[d].phase) ==>
        s.cpus[c].cur != s.cpus[d].cur
  }

  ghost predicate CpusOK(s: Sys)
  {
    forall c: nat :: c < |s.cpus| ==> CpuOK(s, c)
  }

  ghost predicate TasksOK(s: Sys)
  {
    forall t :: t in s.at ==> TaskOK(s, t)
  }

  ghost predicate Inv(s: Sys)
  {
    CpusOK(s) && TasksOK(s) && Apart(s) && RecyclerOK(s) && DeadOK(s)
  }

  // ---------- every step keeps it ----------

  lemma SetAdd(q: set<nat>, t: nat)
    ensures t !in q ==> |q + {t}| == |q| + 1
    ensures t in q ==> |q - {t}| == |q| - 1
  {
    if t in q { assert (q - {t}) + {t} == q; }
  }

  /** A task that a processor has inserted but not counted stays so while that processor waits. */
  lemma StillInserted(s: Sys, u: Sys, t: nat)
    requires |u.cpus| == |s.cpus|
    ensures (exists c :: 0 <= c < |s.cpus| && s.cpus[c].cur == t && s.cpus[c].phase.Inserted?
                        && u.cpus[c].cur == t && u.cpus[c].phase.Inserted?)
        ==> exists c :: 0 <= c < |u.cpus| && u.cpus[c].cur == t && u.cpus[c].phase.Inserted?
  {
  }

  lemma CreateTasks(s: Sys, c: nat, t: nat)
    requires Inv(s) && c < |s.cpus| && t !in s.at
    ensures TasksOK(Created(s, c, t)) && Apart(Created(s, c, t))
  {
    var u := Created(s, c, t);
    assert CpuOK(s, c);
    forall x | x in u.at ensures TaskOK(u, x) {
      assert x in s.at ==> TaskOK(s, x);
      StillInserted(s, u, x);
    }
  }

  lemma CreateCpus(s: Sys, c: nat, t: nat)
    requires CpusOK(s) && c < |s.cpus| && t !in s.at
    ensures CpusOK(Created(s, c, t))
  {
    var u := Created(s, c, t);
    SetAdd(s.cpus[c].queue, t);
    forall d: nat | d < |u.cpus| ensures CpuOK(u, d) {
      assert CpuOK(s, d);
    }
  }

  lemma CreateRest(s: Sys, c: nat, t: nat)
    requires RecyclerOK(s) && DeadOK(s) && c < |s.cpus| && t !in s.at
    ensures RecyclerOK(Created(s, c, t)) && DeadOK(Created(s, c, t))
  {
  }

  lemma CreateKeeps(s: Sys, c: nat, t: nat)
    requires Inv(s) && c < |s.cpus| && t !in s.at
    ensures Inv(Created(s, c, t))
  {
    hide CpusOK, TasksOK, Apart, RecyclerOK, DeadOK, Created;
    CreateTasks(s, c, t);
    CreateCpus(s, c, t);
    CreateRest(s, c, t);
  }

  lemma OneCountedKeeps(s: Sys, c: nat)
    requires Inv(s) && c < |s.cpus|
    ensures Inv(OneCounted(s, c))
  {
    var u := OneCounted(s, c);
    assert CpuOK(s, c);
    forall d: nat | d < |u.cpus| ensures CpuOK(u, d) {
      assert CpuOK(s, d);
    }
    forall x | x in u.at ensures TaskOK(u, x) {
      assert x in s.at ==> TaskOK(s, x);
      StillInserted(s, u, x);
    }
  }

  lemma MaskedKeeps(s: Sys, maker: nat, p: Option<nat>)
    requires Inv(s) && maker < |s.cpus|
    ensures Inv(Masked(s, maker, p))
  {
    var u := Masked(s, maker, p);
    assert CpuOK(s, maker);
    forall d: nat | d < |u.cpus| ensures CpuOK(u, d) {
      assert CpuOK(s, d);
    }
    forall x | x in u.at ensures TaskOK(u, x) {
      assert TaskOK(s, x);
      StillInserted(s, u, x);
    }
  }

  lemma PlacingKeeps(s: Sys, a: Action)
    requires Inv(s) && Enabled(s, a) && (a.CountNew? || a.Create?)
    ensures Inv(Apply(s, a))
  {
    hide Inv, Created, OneCounted, Masked;
    match a
    case Create(maker, c, t) =>
      CreateKeeps(s, c, t);
      SameCpus(s, c, t);
      MaskedKeeps(Created(s, c, t), maker, Some(c));
    case CountNew(maker) =>
      OneCountedKeeps(s, s.cpus[maker].placing.value);
      SameCount(s, s.cpus[maker].placing.value);
      MaskedKeeps(OneCounted(s, s.cpus[maker].placing.value), maker, None);
  }

  lemma SameCpus(s: Sys, c: nat, t: nat)
    requires c < |s.cpus|
    ensures |Created(s, c, t).cpus| == |s.cpus|
  {
  }

  lemma SameCount(s: Sys, c: nat)
    requires c < |s.cpus|
    ensures |OneCounted(s, c).cpus| == |s.cpus|
  {
  }

  lemma ExitKeeps(s: Sys, c: nat)
    requires Inv(s) && Enabled(s, Exit(c))
    ensures Inv(Apply(s, Exit(c)))
  {
    var u := Apply(s, Exit(c));
    assert CpuOK(s, c);
    forall d: nat | d < |u.cpus| ensures CpuOK(u, d) {
      assert CpuOK(s, d);
    }
    forall x | x in u.at ensures TaskOK(u, x) {
      assert x in s.at ==> TaskOK(s, x);
      StillInserted(s, u, x);
    }
  }

  lemma KillKeeps(s: Sys, c: nat)
    requires Inv(s) && Enabled(s, Choose(c)) && s.cpus[c].cur in s.dying && s.recycling == 0
    ensures Inv(Put(s, c, s.cpus[c].(phase := ToKill)))
  {
    var u := Put(s, c, s.cpus[c].(phase := ToKill));
    assert CpuOK(s, c);
    forall d: nat | d < |u.cpus| ensures CpuOK(u, d) {
      assert CpuOK(s, d);
    }
    forall x | x in u.at ensures TaskOK(u, x) {
      assert TaskOK(s, x);
      StillInserted(s, u, x);
    }
  }

  ghost function Requeue(s: Sys, c: nat): Sys
    requires c < |s.cpus|
  {
    var k := s.cpus[c];
    Put(s, c, k.(phase := Requeued, queue := k.queue + {k.cur})).(at := s.at[k.cur := InQueue(c)])
  }

  lemma RequeueTasks(s: Sys, c: nat)
    requires Inv(s) && Enabled(s, Choose(c))
    ensures TasksOK(Requeue(s, c)) && Apart(Requeue(s, c))
  {
    var u := Requeue(s, c);
    assert CpuOK(s, c);
    forall x | x in u.at ensures TaskOK(u, x) {
      assert TaskOK(s, x);
      StillInserted(s, u, x);
    }
  }

  lemma RequeueOwn(s: Sys, c: nat)
    requires CpusOK(s) && TasksOK(s) && Enabled(s, Choose(c))
    ensures CpuOK(Requeue(s, c), c)
  {
    var k := s.cpus[c];
    assert CpuOK(s, c) && TaskOK(s, k.cur);
    hide CpusOK, TasksOK, TaskOK;
    SetAdd(k.queue, k.cur);
  }

  lemma RequeueOther(s: Sys, c: nat, d: nat)
    requires CpusOK(s) && TasksOK(s) && Enabled(s, Choose(c)) && d < |s.cpus| && d != c
    ensures CpuOK(Requeue(s, c), d)
  {
    assert CpuOK(s, c) && CpuOK(s, d);
    RequeueBeside(s, c, d);
  }

  lemma RequeueBeside(s: Sys, c: nat, d: nat)
    requires c < |s.cpus| && d < |s.cpus| && d != c && CpuOK(s, c) && CpuOK(s, d) && Enabled(s, Choose(c))
    ensures CpuOK(Requeue(s, c), d)
  {
  }

  lemma RequeueCpus(s: Sys, c: nat)
    requires CpusOK(s) && TasksOK(s) && Enabled(s, Choose(c))
    ensures CpusOK(Requeue(s, c))
  {
    hide CpuOK, TasksOK;
    var u := Requeue(s, c);
    forall d: nat | d < |u.cpus| ensures CpuOK(u, d) {
      if d == c { RequeueOwn(s, c); } else { RequeueOther(s, c, d); }
    }
  }

  lemma RequeueRest(s: Sys, c: nat)
    requires Inv(s) && Enabled(s, Choose(c))
    ensures RecyclerOK(Requeue(s, c)) && DeadOK(Requeue(s, c))
  {
    hide CpusOK, TasksOK, Apart, CpuOK, TaskOK;
    RunningLives(s, c);
  }

  lemma RunningLives(s: Sys, c: nat)
    requires CpusOK(s) && TasksOK(s) && c < |s.cpus| && Holds(s.cpus[c].phase)
    ensures var t := s.cpus[c].cur; t in s.at && s.at[t] == OnCpu(c) && t !in s.flagged
  {
    assert CpuOK(s, c) && TaskOK(s, s.cpus[c].cur);
  }

  lemma RequeueKeeps(s: Sys, c: nat)
    requires Inv(s) && Enabled(s, Choose(c))
    ensures Inv(Requeue(s, c))
  {
    hide CpusOK, TasksOK, Apart, RecyclerOK, DeadOK, Requeue;
    RequeueTasks(s, c);
    RequeueCpus(s, c);
    RequeueRest(s, c);
  }

  lemma ChooseKeeps(s: Sys, c: nat)
    requires Inv(s) && Enabled(s, Choose(c))
    ensures Inv(Apply(s, Choose(c)))
  {
    hide Inv;
    if s.cpus[c].cur in s.dying && s.recycling == 0 { KillKeeps(s, c); } else { RequeueKeeps(s, c); }
  }

  lemma InsertCpus(s: Sys, c: nat)
    requires CpusOK(s) && TasksOK(s) && DeadOK(s) && Enabled(s, Insert(c))
    ensures CpusOK(Apply(s, Insert(c)))
  {
    var u := Apply(s, Insert(c));
    RunningLives(s, c);
    hide TasksOK, TaskOK;
    forall d: nat | d < |u.cpus| ensures CpuOK(u, d) {
      assert CpuOK(s, d);
    }
  }

  lemma InsertTasks(s: Sys, c: nat)
    requires CpusOK(s) && TasksOK(s) && Apart(s) && Enabled(s, Insert(c))
    ensures TasksOK(Apply(s, Insert(c))) && Apart(Apply(s, Insert(c)))
  {
    var u := Apply(s, Insert(c));
    assert CpuOK(s, c) && TaskOK(s, s.cpus[c].cur);
    forall d: nat | d < |s.cpus| && Killing(s.cpus[d].phase) ensures s.cpus[d].cur != s.cpus[c].cur {
      assert CpuOK(s, d) && TaskOK(s, s.cpus[d].cur);
    }
    hide CpuOK;
    forall x | x in u.at ensures TaskOK(u, x) {
      assert x in s.at ==> TaskOK(s, x);
      if x == s.cpus[c].cur { assert u.cpus[c].cur == x && u.cpus[c].phase.Inserted?; }
      StillInserted(s, u, x);
    }
  }

  lemma InsertRest(s: Sys, c: nat)
    requires Inv(s) && Enabled(s, Insert(c))
    ensures RecyclerOK(Apply(s, Insert(c))) && DeadOK(Apply(s, Insert(c)))
  {
    hide CpusOK, TasksOK, Apart, CpuOK, TaskOK;
    RunningLives(s, c);
  }

  lemma InsertKeeps(s: Sys, c: nat)
    requires Inv(s) && Enabled(s, Insert(c))
    ensures Inv(Apply(s, Insert(c)))
  {
    hide CpusOK, TasksOK, Apart, RecyclerOK, DeadOK, Apply;
    InsertCpus(s, c);
    InsertTasks(s, c);
    InsertRest(s, c);
  }

  lemma CountCpus(s: Sys, c: nat)
    requires CpusOK(s) && Apart(s) && Enabled(s, Count(c))
    ensures CpusOK(Apply(s, Count(c)))
  {
    var u := Apply(s, Count(c));
    assert CpuOK(s, c);
    forall d: nat | d < |u.cpus| ensures CpuOK(u, d) {
      assert CpuOK(s, d);
    }
  }

  lemma CountTasks(s: Sys, c: nat)
    requires TasksOK(s) && Apart(s) && Enabled(s, Count(c))
    ensures TasksOK(Apply(s, Count(c))) && Apart(Apply(s, Count(c)))
  {
    var u := Apply(s, Count(c));
    forall x | x in u.at ensures TaskOK(u, x) {
      assert TaskOK(s, x);
      StillInserted(s, u, x);
    }
  }

  lemma CountRest(s: Sys, c: nat)
    requires Inv(s) && Enabled(s, Count(c))
    ensures RecyclerOK(Apply(s, Count(c))) && DeadOK(Apply(s, Count(c)))
  {
    assert CpuOK(s, c);
    hide CpusOK, TasksOK, Apart, TaskOK;
    SetAdd(s.counted, s.cpus[c].cur);
  }

  lemma CountKeeps(s: Sys, c: nat)
    requires Inv(s) && Enabled(s, Count(c))
    ensures Inv(Apply(s, Count(c)))
  {
    hide CpusOK, TasksOK, Apart, RecyclerOK, DeadOK, Apply;
    CountCpus(s, c);
    CountTasks(s, c);
    CountRest(s, c);
  }

  lemma FlagKeeps(s: Sys, c: nat)
    requires Inv(s) && Enabled(s, Flag(c))
    ensures Inv(Apply(s, Flag(c)))
  {
    var u := Apply(s, Flag(c));
    assert CpuOK(s, c);
    forall d: nat | d < |u.cpus| ensures CpuOK(u, d) {
      assert CpuOK(s, d);
    }
    forall x | x in u.at ensures TaskOK(u, x) {
      assert x in s.at ==> TaskOK(s, x);
      StillInserted(s, u, x);
    }
  }

  lemma LeaveKeeps(s: Sys, c: nat)
    requires Inv(s) && Enabled(s, Leave(c))
    ensures Inv(Apply(s, Leave(c)))
  {
    var u := Apply(s, Leave(c));
    assert CpuOK(s, c);
    forall d: nat | d < |u.cpus| ensures CpuOK(u, d) {
      assert CpuOK(s, d);
    }
    forall x | x in u.at ensures TaskOK(u, x) {
      assert x in s.at ==> TaskOK(s, x);
      StillInserted(s, u, x);
    }
  }

  lemma SwitchTasks(s: Sys, c: nat, next: nat)
    requires Inv(s) && Enabled(s, Switch(c, next))
    ensures TasksOK(Apply(s, Switch(c, next))) && Apart(Apply(s, Switch(c, next)))
  {
    var u := Apply(s, Switch(c, next));
    assert CpuOK(s, c);
    forall x | x in u.at ensures TaskOK(u, x) {
      assert TaskOK(s, x);
      StillInserted(s, u, x);
    }
  }

  lemma SwitchCpus(s: Sys, c: nat, next: nat)
    requires CpusOK(s) && TasksOK(s) && Enabled(s, Switch(c, next))
    ensures CpusOK(Apply(s, Switch(c, next)))
  {
    var u := Apply(s, Switch(c, next));
    SetAdd(s.cpus[c].queue, next);
    assert CpuOK(s, c) && TaskOK(s, next);
    hide TasksOK, TaskOK;
    forall d: nat | d < |u.cpus| ensures CpuOK(u, d) {
      assert CpuOK(s, d);
    }
  }

  lemma SwitchRest(s: Sys, c: nat, next: nat)
    requires Inv(s) && Enabled(s, Switch(c, next))
    ensures RecyclerOK(Apply(s, Switch(c, next))) && DeadOK(Apply(s, Switch(c, next)))
  {
    assert CpuOK(s, c) && TaskOK(s, next);
    hide CpusOK, TasksOK, Apart;
  }

  lemma SwitchKeeps(s: Sys, c: nat, next: nat)
    requires Inv(s) && Enabled(s, Switch(c, next))
    ensures Inv(Apply(s, Switch(c, next)))
  {
    SwitchTasks(s, c, next);
    hide CpusOK, TasksOK, Apart, RecyclerOK, DeadOK, Apply;
    SwitchCpus(s, c, next);
    SwitchRest(s, c, next);
  }

  lemma DeleteKeeps(s: Sys)
    requires Inv(s) && Enabled(s, Delete)
    ensures Inv(Apply(s, Delete))
  {
    var u := Apply(s, Delete);
    SetAdd(s.counted, s.stage.t);
    forall d: nat | d < |u.cpus| ensures CpuOK(u, d) {
      assert CpuOK(s, d);
    }
    forall x | x in u.at ensures TaskOK(u, x) {
      assert x in s.at ==> TaskOK(s, x);
      StillInserted(s, u, x);
    }
  }

  lemma FreeKeeps(s: Sys)
    requires Inv(s) && Enabled(s, Free)
    ensures Inv(Apply(s, Free))
  {
    var u := Apply(s, Free);
    forall d: nat | d < |u.cpus| ensures CpuOK(u, d) {
      assert CpuOK(s, d);
    }
    forall x | x in u.at ensures TaskOK(u, x) {
      assert x in s.at ==> TaskOK(s, x);
      StillInserted(s, u, x);
    }
  }

  lemma RecyclerKeeps(s: Sys, a: Action)
    requires Inv(s) && Enabled(s, a) && (a.Enter? || a.Look? || a.LookEmpty? || a.Check? || a.Lower? || a.Release?)
    ensures Inv(Apply(s, a))
  {
    var u := Apply(s, a);
    forall d: nat | d < |u.cpus| ensures CpuOK(u, d) {
      assert CpuOK(s, d);
    }
    forall x | x in u.at ensures TaskOK(u, x) {
      assert TaskOK(s, x);
      StillInserted(s, u, x);
    }
  }

  lemma ActionKeeps(s: Sys, a: Action)
    requires Inv(s) && Enabled(s, a)
    ensures Inv(Apply(s, a))
  {
    hide Inv, Enabled, Apply;
    match a
    case Create(_, _, _) => PlacingKeeps(s, a);
    case CountNew(_) => PlacingKeeps(s, a);
    case Exit(c) => ExitKeeps(s, c);
    case Choose(c) => ChooseKeeps(s, c);
    case Insert(c) => InsertKeeps(s, c);
    case Count(c) => CountKeeps(s, c);
    case Flag(c) => FlagKeeps(s, c);
    case Leave(c) => LeaveKeeps(s, c);
    case Switch(c, next) => SwitchKeeps(s, c, next);
    case Delete => DeleteKeeps(s);
    case Free => FreeKeeps(s);
    case _ => RecyclerKeeps(s, a);
  }

  // ---------- every run ----------

  ghost predicate Legal(s: Sys, run: seq<Action>)
    decreases |run|
  {
    run == [] || (Enabled(s, run[0]) && Legal(Apply(s, run[0]), run[1..]))
  }

  ghost function After(s: Sys, run: seq<Action>): Sys
    requires Legal(s, run)
    decreases |run|
  {
    if run == [] then s else After(Apply(s, run[0]), run[1..])
  }

  /** `n` processors, each running its idle task, numbered like it. */
  ghost function Init(n: nat): Sys
  {
    Sys(seq(n, c requires 0 <= c => Cpu(c, c, Running, {}, 1, 0, None)), {}, 0, {}, {}, Waiting, 0, [],
        map c: nat | c < n :: OnCpu(c), {})
  }

  lemma InitInv(n: nat)
    ensures Inv(Init(n))
  {
  }

  lemma {:induction false} RunKeeps(s: Sys, run: seq<Action>)
    requires Inv(s) && Legal(s, run)
    ensures Inv(After(s, run))
    decreases |run|
  {
    hide Inv, Enabled, Apply;
    if run != [] {
      ActionKeeps(s, run[0]);
      RunKeeps(Apply(s, run[0]), run[1..]);
    }
  }

  /** In every interleaving a task is recycled at most once, killedTaskNum is never negative, and it
      is the size of the killed tree when nobody is in the middle of changing it. */
  lemma RecycledOnce(n: nat, run: seq<Action>)
    requires Legal(Init(n), run)
    ensures var s := After(Init(n), run);
            && (forall i, j :: 0 <= i < j < |s.recycled| ==> s.recycled[i] != s.recycled[j])
            && s.killedNum >= 0
            && ((forall c :: 0 <= c < |s.cpus| ==> !s.cpus[c].phase.Inserted?) && !s.stage.Deleted? ==>
                  s.killedNum == |s.killed|)
  {
    InitInv(n);
    RunKeeps(Init(n), run);
    var s := After(Init(n), run);
    if forall c :: 0 <= c < |s.cpus| ==> !s.cpus[c].phase.Inserted? {
      forall t | t in s.killed ensures t in s.counted {
        assert TaskOK(s, t);
      }
      assert s.counted == s.killed;
    }
  }

  // ---------- the recycler gets on ----------

  /** The steps of Task_recycleThread. */
  predicate Recycler(a: Action)
  {
    a.Enter? || a.Look? || a.LookEmpty? || a.Check? || a.Delete? || a.Lower? || a.Release? || a.Free?
  }

  ghost predicate Alone(run: seq<Action>)
  {
    forall i :: 0 <= i < |run| ==> Recycler(run[i])
  }

  lemma First(s: Sys, a: Action, run: seq<Action>)
    requires Enabled(s, a) && Legal(Apply(s, a), run)
    ensures Legal(s, [a] + run) && After(s, [a] + run) == After(Apply(s, a), run)
    ensures Recycler(a) && Alone(run) ==> Alone([a] + run)
  {
    assert ([a] + run)[1..] == run;
  }

  /** From the task in hand to the next round: the task is recycled, and nothing else changes. */
  lemma Finishes(s: Sys) returns (run: seq<Action>)
    requires s.stage.Sure?
    ensures run == [Delete, Lower, Release, Free] && Legal(s, run) && Alone(run)
    ensures var u, t := After(s, run), s.stage.t;
            && u.stage == Waiting && u.recycled == s.recycled + [t] && u.killed == s.killed - {t}
            && u.killedNum == s.killedNum - 1 && u.flagged == s.flagged && u.cpus == s.cpus
  {
    hide Legal, After;
    var s1 := Apply(s, Delete);
    var s2 := Apply(s1, Lower);
    var s3 := Apply(s2, Release);
    var s4 := Apply(s3, Free);
    Stop(s4);
    First(s3, Free, []);
    assert [Free] + [] == [Free];
    First(s2, Release, [Free]);
    run := [Release] + [Free];
    First(s1, Lower, run);
    run := [Lower] + run;
    First(s, Delete, run);
    run := [Delete] + run;
  }

  lemma Stop(s: Sys)
    ensures Legal(s, []) && After(s, []) == s && Alone([])
  {
  }

  lemma WholeRound(s: Sys, t: nat) returns (run: seq<Action>)
    requires s.stage.Waiting? && s.killedNum > 0 && t in s.killed && t in s.flagged
    ensures run == [Enter, Look(t), Check, Delete, Lower, Release, Free] && Legal(s, run) && Alone(run)
    ensures var u := After(s, run);
            && u.stage == Waiting && u.recycled == s.recycled + [t] && u.killed == s.killed - {t}
            && u.killedNum == s.killedNum - 1
  {
    hide Legal, After;
    var s1 := Apply(s, Enter);
    var s2 := Apply(s1, Look(t));
    var s3 := Apply(s2, Check);
    run := Finishes(s3);
    First(s2, Check, run);
    run := [Check] + run;
    First(s1, Look(t), run);
    run := [Look(t)] + run;
    First(s, Enter, run);
    run := [Enter] + run;
  }

  lemma Countable(s: Sys, t: nat)
    requires DeadOK(s) && s.stage.Waiting? && t in s.killed && t in s.flagged
    ensures s.killedNum > 0
  {
    assert t in s.counted;
  }

  /** A dead task that was flagged can be recycled by the recycler's steps alone, at once: in any state that a
      run leads to and in which the recycler waits. */
  lemma Progress(n: nat, before: seq<Action>, t: nat) returns (run: seq<Action>)
    requires Legal(Init(n), before)
    requires var s := After(Init(n), before); s.stage.Waiting? && t in s.killed && t in s.flagged
    ensures run == [Enter, Look(t), Check, Delete, Lower, Release, Free] && Alone(run)
    ensures var s := After(Init(n), before);
            && Legal(s, run)
            && var u := After(s, run);
            && u.stage == Waiting && u.recycled == s.recycled + [t] && u.killed == s.killed - {t}
            && u.killedNum == s.killedNum - 1
  {
    hide Legal, After, CpusOK, TasksOK, Apart, RecyclerOK, DeadOK;
    InitInv(n);
    RunKeeps(Init(n), before);
    Countable(After(Init(n), before), t);
    run := WholeRound(After(Init(n), before), t);
  }

  /** A task found without its flag is left where it is: back to waiting, with the killed tree as it was. */
  lemma NotYet(s: Sys) returns (run: seq<Action>)
    requires s.stage.Got? && s.stage.t !in s.flagged && s.recycling > 0
    ensures run == [Check, Release] && Legal(s, run) && Alone(run)
    ensures After(s, run) == s.(stage := Waiting, recycling := s.recycling - 1)
  {
    hide Legal, After;
    var s1 := Apply(s, Check);
    var s2 := Apply(s1, Release);
    Stop(s2);
    First(s1, Release, []);
    assert [Release] + [] == [Release];
    First(s, Check, [Release]);
    run := [Check] + [Release];
  }

  /** The most steps from a stage back to waiting. */
  function Steps(g: Stage): nat
  {
    match g
    case Waiting => 0
    case Entered => 6
    case Got(_) => 5
    case Sure(_) => 4
    case Deleted(_) => 3
    case Lowered(_) => 2
    case Leaving => 1
    case Freeing(_) => 1
  }

  /** The task the recycler is bound to recycle. */
  predicate Bound(s: Sys, t: nat)
  {
    s.stage == Sure(t) || s.stage == Deleted(t) || s.stage == Lowered(t) || s.stage == Freeing(t)
    || (s.stage == Got(t) && t in s.flagged)
  }

  /** Whatever is left to do, the recycler has a next step. */
  lemma NextStep(s: Sys) returns (a: Action)
    requires Inv(s) && !s.stage.Waiting?
    ensures Recycler(a) && Enabled(s, a) && Steps(Apply(s, a).stage) < Steps(s.stage)
    ensures s.recycled <= Apply(s, a).recycled
    ensures forall t :: Bound(s, t) ==> Bound(Apply(s, a), t) || t in Apply(s, a).recycled
  {
    match s.stage
    case Entered =>
      if s.killed == {} {
        a := LookEmpty;
      } else {
        var t :| t in s.killed;
        a := Look(t);
      }
    case Got(_) => a := Check;
    case Sure(_) => a := Delete;
    case Deleted(_) => a := Lower;
    case Lowered(_) => a := Release;
    case Leaving => a := Release;
    case Freeing(_) => a := Free;
  }

  /** From wherever a run has brought it, at most six steps of its own lead the recycler back to waiting, and
      a flagged task it has in hand is recycled on the way. */
  lemma {:induction false} ComesBack(s: Sys) returns (run: seq<Action>)
    requires Inv(s)
    ensures Legal(s, run) && Alone(run) && |run| <= Steps(s.stage) <= 6
    ensures After(s, run).stage == Waiting && s.recycled <= After(s, run).recycled
    ensures forall t :: Bound(s, t) ==> t in After(s, run).recycled
    decreases Steps(s.stage)
  {
    if s.stage.Waiting? {
      run := [];
    } else {
      var a := NextStep(s);
      ActionKeeps(s, a);
      hide Inv, Enabled, Apply, Bound, Legal, After;
      run := ComesBack(Apply(s, a));
      First(s, a, run);
      run := [a] + run;
    }
  }

  // ---------- new tasks that are not counted yet ----------

  /** The processors that have put a task on the queue of `c` and still owe its count. */
  ghost function Placers(s: Sys, c: nat): set<nat>
  {
    set d | 0 <= d < |s.cpus| && s.cpus[d].placing == Some(c)
  }

  ghost predicate PlacesOK(s: Sys, d: nat)
    requires d < |s.cpus|
  {
    var k := s.cpus[d];
    k.pend == |Placers(s, d)| && (k.placing.Some? ==> k.placing.value < |s.cpus| && k.phase.Running?)
  }

  ghost predicate Places(s: Sys)
  {
    forall d: nat :: d < |s.cpus| ==> PlacesOK(s, d)
  }

  /** Who may put a task on the queue of `c` when only `c` itself does. */
  ghost predicate OwnOnly(s: Sys, c: nat)
  {
    Placers(s, c) <= {c}
  }

  lemma CreatePlaces(s: Sys, maker: nat, c: nat, t: nat)
    requires Places(s) && Enabled(s, Create(maker, c, t))
    ensures Places(Apply(s, Create(maker, c, t)))
    ensures forall d: nat :: d < |s.cpus| && OwnOnly(s, d) && (d == c ==> maker == c) ==>
              OwnOnly(Apply(s, Create(maker, c, t)), d)
  {
    var u := Apply(s, Create(maker, c, t));
    forall d: nat | d < |s.cpus| ensures Placers(u, d) == Placers(s, d) + (if d == c then {maker} else {}) {
    }
    forall d: nat | d < |s.cpus| ensures PlacesOK(u, d) {
      assert PlacesOK(s, d);
    }
  }

  lemma CountNewPlaces(s: Sys, maker: nat)
    requires Places(s) && Enabled(s, CountNew(maker))
    ensures Places(Apply(s, CountNew(maker)))
    ensures forall d: nat :: d < |s.cpus| && OwnOnly(s, d) ==> OwnOnly(Apply(s, CountNew(maker)), d)
  {
    var u, c := Apply(s, CountNew(maker)), s.cpus[maker].placing.value;
    forall d: nat | d < |s.cpus| ensures Placers(u, d) == Placers(s, d) - (if d == c then {maker} else {}) {
    }
    SetAdd(Placers(s, c), maker);
    forall d: nat | d < |s.cpus| ensures PlacesOK(u, d) {
      assert PlacesOK(s, d);
    }
  }

  lemma SamePlaces(s: Sys, a: Action)
    requires Places(s) && Enabled(s, a) && !a.Create? && !a.CountNew?
    ensures Places(Apply(s, a)) && |Apply(s, a).cpus| == |s.cpus|
    ensures forall d: nat :: Placers(Apply(s, a), d) == Placers(s, d)
  {
    var u := Apply(s, a);
    assert forall d: nat :: d < |s.cpus| ==> u.cpus[d].placing == s.cpus[d].placing && u.cpus[d].pend == s.cpus[d].pend;
    forall d: nat ensures Placers(u, d) == Placers(s, d) {
    }
    forall d: nat | d < |s.cpus| ensures PlacesOK(u, d) {
      assert PlacesOK(s, d);
    }
  }

  lemma StepPlaces(s: Sys, a: Action, c: nat)
    requires Places(s) && Enabled(s, a)
    ensures Places(Apply(s, a)) && |Apply(s, a).cpus| == |s.cpus|
    ensures c < |s.cpus| && OwnOnly(s, c) && (a.Create? && a.c == c ==> a.maker == c) ==> OwnOnly(Apply(s, a), c)
  {
    hide Places, PlacesOK, Placers;
    match a
    case Create(maker, d, t) => CreatePlaces(s, maker, d, t);
    case CountNew(maker) => CountNewPlaces(s, maker);
    case _ => SamePlaces(s, a);
  }

  /** Nobody but `c` puts a task on the queue of `c`. */
  ghost predicate OwnMakers(run: seq<Action>, c: nat)
  {
    forall i :: 0 <= i < |run| && run[i].Create? && run[i].c == c ==> run[i].maker == c
  }

  lemma {:induction false} RunPlaces(s: Sys, run: seq<Action>, c: nat)
    requires Places(s) && Legal(s, run) && c < |s.cpus|
    ensures Places(After(s, run)) && |After(s, run).cpus| == |s.cpus|
    ensures OwnOnly(s, c) && OwnMakers(run, c) ==> OwnOnly(After(s, run), c)
    decreases |run|
  {
    if run != [] {
      hide Places, OwnOnly, Enabled, Apply, Placers;
      StepPlaces(s, run[0], c);
      RunPlaces(Apply(s, run[0]), run[1..], c);
    }
  }

  lemma InitPlaces(n: nat)
    ensures Places(Init(n)) && forall c: nat :: Placers(Init(n), c) == {}
  {
  }

  /** Every task is in exactly one place: on one processor, in one queue, in the killed tree, in the
      recycler's hands, or gone. On a processor that runs a task, taskNum counts the queue and that task, but
      for the tasks that processors have put there and still owe the count of; and there is always a task to
      switch to. */
  lemma OnePlace(n: nat, run: seq<Action>, c: nat)
    requires Legal(Init(n), run) && c < |After(Init(n), run).cpus|
    ensures var s := After(Init(n), run);
            var k := s.cpus[c];
            && (forall t :: t in k.queue <==> t in s.at && s.at[t] == InQueue(c))
            && (forall t :: t in s.killed <==> t in s.at && s.at[t] == Dead)
            && (forall t :: t in s.recycled <==> t in s.at && s.at[t] == Gone)
            && (forall t :: t in s.at && s.at[t] == OnCpu(c) ==> t == k.cur)
            && (k.phase.Running? ==> k.cur in s.at && s.at[k.cur] == OnCpu(c))
            && (k.phase.Running? ==> k.taskNum + |Placers(s, c)| == |k.queue| + 1)
            && (k.phase.Left? || k.phase.Requeued? ==> k.queue != {})
  {
    InitInv(n);
    RunKeeps(Init(n), run);
    InitPlaces(n);
    var s := After(Init(n), run);
    RunCpus(Init(n), run);
    RunPlaces(Init(n), run, c);
    assert CpuOK(s, c) && PlacesOK(s, c);
    assert forall t :: t in s.at ==> TaskOK(s, t);
    assert TaskOK(s, s.cpus[c].cur) && TaskOK(s, s.cpus[c].idle);
  }

  lemma {:induction false} RunCpus(s: Sys, run: seq<Action>)
    requires Legal(s, run)
    ensures |After(s, run).cpus| == |s.cpus|
    decreases |run|
  {
    if run != [] { RunCpus(Apply(s, run[0]), run[1..]); }
  }

  // ---------- what a processor's count is worth ----------

  /** A timer tick can come: a task runs and the interrupts are not masked. The slice of that task is divided
      by the processor's count. */
  ghost predicate Ticks(s: Sys, c: nat)
  {
    Acts(s, c) && s.cpus[c].phase.Running?
  }

  /** When a tick comes, the count is positive exactly when no more other processors are between putting a
      task on this one's queue and counting it than there are tasks in the queue. */
  lemma CountPositive(n: nat, run: seq<Action>, c: nat)
    requires Legal(Init(n), run) && Ticks(After(Init(n), run), c)
    ensures var s := After(Init(n), run);
            s.cpus[c].taskNum > 0 <==> |Placers(s, c) - {c}| <= |s.cpus[c].queue|
  {
    var s := After(Init(n), run);
    OnePlace(n, run, c);
    assert Placers(s, c) - {c} == Placers(s, c);
  }

  /** On a processor on which only its own tasks place new ones, a tick always finds the exact count. */
  lemma OwnCounted(n: nat, run: seq<Action>, c: nat)
    requires Legal(Init(n), run) && OwnMakers(run, c) && Ticks(After(Init(n), run), c)
    ensures var k := After(Init(n), run).cpus[c]; k.taskNum == |k.queue| + 1
  {
    var s := After(Init(n), run);
    InitPlaces(n);
    RunCpus(Init(n), run);
    RunPlaces(Init(n), run, c);
    OnePlace(n, run, c);
    assert Placers(s, c) == {};
  }

  /** The first processor runs task `t`, which has exited; its idle task is queued, and `t` is not counted. */
  ghost predicate Exited(s: Sys, t: nat)
  {
    |s.cpus| > 0 && s.cpus[0] == Cpu(t, 0, Running, {0}, 1, 1, None) && t in s.dying && s.recycling == 0
  }

  /** It ticks with a count of 0. */
  ghost predicate Uncounted(s: Sys, c: nat)
  {
    Ticks(s, c) && s.cpus[c].taskNum == 0
  }

  lemma Dies(s: Sys, t: nat) returns (run: seq<Action>)
    requires Exited(s, t)
    ensures run == [Choose(0), Insert(0), Count(0), Flag(0), Leave(0), Switch(0, 0)]
    ensures Legal(s, run) && Uncounted(After(s, run), 0)
  {
    hide Legal, After;
    var s1 := Apply(s, Choose(0));
    var s2 := Apply(s1, Insert(0));
    var s3 := Apply(s2, Count(0));
    var s4 := Apply(s3, Flag(0));
    var s5 := Apply(s4, Leave(0));
    run := Finished(s5);
    First(s4, Leave(0), run);
    First(s3, Flag(0), [Leave(0)] + run);
    First(s2, Count(0), [Flag(0)] + ([Leave(0)] + run));
    run := [Count(0)] + ([Flag(0)] + ([Leave(0)] + run));
    First(s1, Insert(0), run);
    First(s, Choose(0), [Insert(0)] + run);
    run := [Choose(0)] + ([Insert(0)] + run);
  }

  lemma Finished(s: Sys) returns (run: seq<Action>)
    requires Enabled(s, Switch(0, 0))
    ensures run == [Switch(0, 0)] && Legal(s, run) && After(s, run) == Apply(s, Switch(0, 0))
  {
    run := [Switch(0, 0)];
  }

  /** With two processors or more, a task that the second one has placed on the first can run and die there
      before it is counted, and the next tick finds a count of 0. */
  lemma DeathUncounted(n: nat) returns (run: seq<Action>)
    requires n >= 2
    ensures run == [Create(1, 0, n), Choose(0), Switch(0, n), Exit(0),
                    Choose(0), Insert(0), Count(0), Flag(0), Leave(0), Switch(0, 0)]
    ensures Legal(Init(n), run) && Uncounted(After(Init(n), run), 0)
  {
    hide Legal, After;
    var s0 := Init(n);
    var s1 := Apply(s0, Create(1, 0, n));
    var s2 := Apply(s1, Choose(0));
    var s3 := Apply(s2, Switch(0, n));
    var s4 := Apply(s3, Exit(0));
    assert s4.cpus[0].queue == {0};
    run := Dies(s4, n);
    First(s3, Exit(0), run);
    First(s2, Switch(0, n), [Exit(0)] + run);
    First(s1, Choose(0), [Switch(0, n)] + ([Exit(0)] + run));
    run := [Choose(0)] + ([Switch(0, n)] + ([Exit(0)] + run));
    First(s0, Create(1, 0, n), run);
    run := [Create(1, 0, n)] + run;
  }

  /** Some run brings a processor to a tick with a count of 0. */
  ghost predicate CanFault(n: nat)
  {
    exists run: seq<Action>, c: nat :: Legal(Init(n), run) && Uncounted(After(Init(n), run), c)
  }

  /** Exactly with two processors or more. */
  lemma FaultNeedsTwo(n: nat)
    ensures CanFault(n) <==> n >= 2
  {
    if n >= 2 {
      var run := DeathUncounted(n);
    } else if CanFault(n) {
      var run: seq<Action>, c: nat :| Legal(Init(n), run) && Uncounted(After(Init(n), run), c);
      RunCpus(Init(n), run);
      RunMakers(Init(n), run);
      OwnCounted(n, run, c);
    }
  }

  lemma {:induction false} RunMakers(s: Sys, run: seq<Action>)
    requires Legal(s, run)
    ensures forall i :: 0 <= i < |run| && run[i].Create? ==> run[i].maker < |s.cpus| && run[i].c < |s.cpus|
    decreases |run|
  {
    if run != [] {
      RunCpus(s, [run[0]]);
      RunMakers(Apply(s, run[0]), run[1..]);
    }
  }
}
