/** The run queue of one processor (kernel/task/mgr.c) over the red-black tree: what it does is the
    state machine of `Fairness`. */
module Scheduler {
  import opened TreeShape
  import opened TreeRepair
  import opened RBTrees
  import F = Fairness

  class TaskStruct {
    const pid: nat
    const wNode: RBNode<CFSKey>
    var vRunTime: int
    var resRunTime: int
    var priority: nat
    var needSchedule: bool

    constructor (pid: nat, vRunTime: int)
      ensures this.pid == pid && fresh(wNode)
      ensures this.vRunTime == vRunTime && resRunTime == 20 && priority == 0 && !needSchedule
    {
      this.pid, this.vRunTime, resRunTime, priority, needSchedule := pid, vRunTime, 20, 0, false;
      wNode := new RBNode<CFSKey>(CFSKey(vRunTime, pid));
    }
  }

  // ---------- the queue as a set ----------

  method Enqueue(tree: RBTree<CFSKey>, node: RBNode<CFSKey>, key: CFSKey)
    requires tree.Valid() && node !in tree.Contents()
    modifies node, tree, tree.mem.Keys`left, tree.mem.Keys`right, tree.mem.Keys`parent, tree.mem.Keys`black
    ensures tree.Valid() && node.key == key && tree.mem.Keys == old(tree.mem.Keys) + {node}
    ensures forall n :: n in tree.Contents() <==> n in old(tree.Contents()) || n == node
  {
    hide RBTree.Valid;
    MemIsContents(tree);
    KeySet(tree, node, key);
    tree.InsNode(node);
    ghost var k :| tree.InsertedAt(old(tree.Contents()), old(tree.keys), node, k, tree.Contents());
    Spliced(old(tree.Contents()), node, k);
    MemIsContents(tree);
  }

  lemma MemIsContents(tree: RBTree<CFSKey>)
    requires tree.Valid()
    ensures forall n :: n in tree.mem <==> n in tree.Contents()
  {
    forall n ensures n in tree.mem <==> n in tree.Contents() {
      InSeq(tree.tree, n);
    }
  }

  method KeySet(tree: RBTree<CFSKey>, node: RBNode<CFSKey>, key: CFSKey)
    requires tree.Valid() && node !in tree.mem
    modifies node`key
    ensures tree.Valid() && node.key == key
  {
    node.key := key;
  }

  lemma Spliced<N>(s: seq<N>, x: N, k: int)
    requires 0 <= k <= |s|
    ensures forall n :: n in s[..k] + [x] + s[k..] <==> n in s || n == x
  {
    assert s == s[..k] + s[k..];
  }

  method Dequeue(tree: RBTree<CFSKey>, node: RBNode<CFSKey>)
    requires tree.Valid() && node in tree.Contents()
    modifies tree, tree.mem.Keys`left, tree.mem.Keys`right, tree.mem.Keys`parent, tree.mem.Keys`black
    ensures tree.Valid()
    ensures forall n :: n in tree.Contents() <==> n in old(tree.Contents()) && n != node
  {
    ghost var s := tree.Contents();
    NoRepeat(tree);
    hide RBTree.Valid;
    tree.DelNode(node);
    ghost var a, b := RemovedSplit(s, node);
  }

  lemma NoRepeat(tree: RBTree<CFSKey>)
    requires tree.Valid()
    ensures NoDup(tree.Contents())
  {
    SeqNoDup(tree.tree);
  }

  lemma OneLess<T>(m: map<nat, T>, k: nat)
    requires k in m
    ensures |m - {k}| == |m| - 1
  {
    assert (m - {k}).Keys == m.Keys - {k};
  }

  /** `container` finds the task around each live task's node. */
  ghost predicate Contained(container: map<RBNode<CFSKey>, TaskStruct>, live: map<nat, TaskStruct>)
  {
    forall p :: p in live ==> live[p].pid == p && live[p].wNode in container && container[live[p].wNode] == live[p]
  }

  /** The queue `s` holds the nodes of the live tasks but those of `off`. */
  ghost predicate Queued(s: seq<RBNode<CFSKey>>, container: map<RBNode<CFSKey>, TaskStruct>, live: map<nat, TaskStruct>,
                         off: set<nat>)
  {
    && (forall n :: n in s ==>
          && n in container && container[n].wNode == n && container[n].pid !in off
          && container[n].pid in live && live[container[n].pid] == container[n])
    && (forall p :: p in live && p !in off ==> live[p].wNode in s)
  }

  lemma PutIn(s: seq<RBNode<CFSKey>>, s': seq<RBNode<CFSKey>>, container: map<RBNode<CFSKey>, TaskStruct>,
              live: map<nat, TaskStruct>,
              off: set<nat>, p: nat)
    requires Contained(container, live) && Queued(s, container, live, off + {p}) && p in live && p !in off
    requires forall n :: n in s' <==> n in s || n == live[p].wNode
    ensures Queued(s', container, live, off)
  {
  }

  lemma TakeOut(s: seq<RBNode<CFSKey>>, s': seq<RBNode<CFSKey>>, container: map<RBNode<CFSKey>, TaskStruct>,
                live: map<nat, TaskStruct>, p: nat)
    requires Contained(container, live) && Queued(s, container, live, {}) && p in live
    requires forall n :: n in s' <==> n in s && n != live[p].wNode
    ensures Queued(s', container, live, {p})
  {
    forall n | n in s' ensures container[n].pid != p {
      assert n in s;
    }
  }

  lemma DropOut(s: seq<RBNode<CFSKey>>, container: map<RBNode<CFSKey>, TaskStruct>, live: map<nat, TaskStruct>, p: nat)
    requires Contained(container, live) && Queued(s, container, live, {p}) && p in live
    ensures Contained(container, live - {p}) && Queued(s, container, live - {p}, {}) && live[p].wNode !in s
    ensures live[p] !in (live - {p}).Values
  {

  }

  /** The live tasks have the values `t`. */
  ghost predicate Values(live: map<nat, TaskStruct>, t: map<nat, F.Task>)
    reads live.Values`vRunTime, live.Values`resRunTime, live.Values`priority
  {
    && live.Keys == t.Keys
    && (forall p :: p in live ==> IsTask(live[p].vRunTime, live[p].resRunTime, live[p].priority, t[p]))
  }

  predicate IsTask(v: int, res: int, prio: nat, t: F.Task)
  {
    v == t.v && res == t.res && prio == t.prio
  }

  /** Tasks that were given their first virtual run time but are in no queue yet. */
  ghost predicate Drafted(placing: map<nat, TaskStruct>, live: map<nat, TaskStruct>,
                          container: map<RBNode<CFSKey>, TaskStruct>)
  {
    && (forall d :: d in placing ==> placing[d].pid == d && d !in live && placing[d].wNode !in container)
    && (forall d, e :: d in placing && e in placing && d != e ==> placing[d].wNode != placing[e].wNode)
  }

  ghost predicate Given(placing: map<nat, TaskStruct>, drafts: map<nat, F.Draft>)
    reads placing.Values`vRunTime, placing.Values`resRunTime, placing.Values`priority, placing.Values`needSchedule
  {
    && placing.Keys == drafts.Keys
    && (forall d :: d in placing ==> IsNew(placing[d], drafts[d].v))
  }

  predicate IsNew(task: TaskStruct, v: int)
    reads task`vRunTime, task`resRunTime, task`priority, task`needSchedule
  {
    task.vRunTime == v && task.resRunTime == 20 && task.priority == 0 && !task.needSchedule
  }

  lemma NotDrafted(placing: map<nat, TaskStruct>, live: map<nat, TaskStruct>,
                   container: map<RBNode<CFSKey>, TaskStruct>, p: nat)
    requires Contained(container, live) && Drafted(placing, live, container) && p in live
    ensures live[p] !in placing.Values
  {
  }

  /** Only the running task may have a switch due. */
  ghost predicate Due(live: map<nat, TaskStruct>, cur: nat, need: bool)
    reads live.Values`needSchedule
  {
    forall p :: p in live ==> live[p].needSchedule == (need && p == cur)
  }

  /** Queued nodes carry their tasks' keys. */
  ghost predicate Keyed(container: map<RBNode<CFSKey>, TaskStruct>, live: map<nat, TaskStruct>, off: set<nat>)
    reads live.Values`vRunTime, container.Keys`key
    requires Contained(container, live)
  {
    forall p :: p in live && p !in off ==> live[p].wNode.key == CFSKey(live[p].vRunTime, live[p].pid)
  }

  lemma Fewer(container: map<RBNode<CFSKey>, TaskStruct>, live: map<nat, TaskStruct>, t: map<nat, F.Task>, p: nat,
              need: bool)
    requires Contained(container, live) && p in live && Values(live, t) && Due(live, p, need)
    requires Keyed(container, live, {p})
    ensures Values(live - {p}, t - {p}) && Due(live - {p}, 0, false)
    ensures Contained(container, live - {p}) && Keyed(container, live - {p}, {})
  {
  }

  /** What a tick adds to the virtual run time of a task of each priority, and takes from its slice. */
  ghost predicate TickCharges(t: TaskStruct, v: int, res: int, prio: nat, count: int)
    reads t`vRunTime, t`resRunTime
  {
    prio < 6 ==>
      var w := [1, 2, 3, 4, 5, 6][prio];
      && t.vRunTime == v + w
      && (res > w ==> t.resRunTime == res - w)
      && (res <= w && count > 0 ==> t.resRunTime == if 20 / count > 1 then w * (20 / count) else w)
      && (res <= w && count < 0 ==> t.resRunTime == w)
  }

  lemma RightCharges(t: TaskStruct, v: int, res: int, prio: nat, count: int)
    requires res <= F.Weight(prio) ==> count != 0
    requires t.vRunTime == v + F.Weight(prio)
    requires t.resRunTime
          == if res - F.Weight(prio) <= 0 then F.Weight(prio) * F.Max(1, 20 / count) else res - F.Weight(prio)
    ensures TickCharges(t, v, res, prio, count)
  {
    if prio < 6 {
      assert F.Weight(prio) == [1, 2, 3, 4, 5, 6][prio];
      if count < 0 && res <= F.Weight(prio) { assert 20 / count <= 0; }
    }
  }

  class Processor {
    const tree: RBTree<CFSKey>
    var current: TaskStruct
    var taskNum: int
    /** From a tree node to the task around it. */
    var container: map<RBNode<CFSKey>, TaskStruct>
    ghost var live: map<nat, TaskStruct>
    ghost var sys: F.Cpu
    /** The tasks that are to join, and how many joined without being counted yet. */
    ghost var placing: map<nat, TaskStruct>
    ghost var pend: nat

    ghost predicate Running()
      reads this`live, this`sys, this`current
    {
      sys.cur in live && current == live[sys.cur]
    }

    /** The state machine's view of this processor. */
    ghost predicate Valid()
      reads this, live.Values, placing.Values, tree, tree.mem.Keys, container.Keys`key
    {
      && tree.Valid() && tree.less == CFSLess && Contained(container, live) && Running() && taskNum + pend == |live|
      && Drafted(placing, live, container) && Given(placing, sys.drafts)
      && Values(live, sys.tasks) && Due(live, sys.cur, sys.need) && Keyed(container, live, {sys.cur})
      && Queued(tree.Contents(), container, live, {sys.cur})
    }

    /** `Task_buildInitTask`: the idle task runs alone. */
    constructor (pid: nat)
      ensures Valid() && F.Inv(sys) && sys == F.Init(pid) && fresh(tree) && fresh(current)
    {
      ComparatorsAreTotal();
      var idle := new TaskStruct(pid, 0);
      tree := new RBTree<CFSKey>(CFSLess);
      current, taskNum, container := idle, 1, map[idle.wNode := idle];
      live, sys, placing, pend := map[pid := idle], F.Init(pid), map[], 0;
    }

    method SetCharges(v: int, res: int, ghost p: nat, ghost t: map<nat, F.Task>)
      requires Contained(container, live) && p in live && live[p] == current && Values(live, t)
      requires Keyed(container, live, {p})
      requires Drafted(placing, live, container) && Given(placing, sys.drafts)
      modifies current`vRunTime, current`resRunTime
      ensures Values(live, t[p := t[p].(v := v, res := res)]) && Keyed(container, live, {p})
      ensures Given(placing, sys.drafts) && current.vRunTime == v && current.resRunTime == res
    {
      NotDrafted(placing, live, container, p);
      current.vRunTime, current.resRunTime := v, res;
    }

    method SetDue(need: bool, ghost p: nat, ghost was: bool)
      requires Contained(container, live) && p in live && live[p] == current && Due(live, p, was)
      requires Drafted(placing, live, container) && Given(placing, sys.drafts)
      modifies current`needSchedule
      ensures Due(live, p, need) && Given(placing, sys.drafts) && current.needSchedule == need
    {
      NotDrafted(placing, live, container, p);
      current.needSchedule := need;
    }

    /** The running task with other charges and another flag. */
    ghost function With(s: F.Cpu, v: int, res: int, need: bool): F.Cpu
      requires s.cur in s.tasks
    {
      s.(tasks := s.tasks[s.cur := s.tasks[s.cur].(v := v, res := res)], need := need)
    }

    method SetCurrent(v: int, res: int, need: bool)
      requires Valid() && sys.cur in sys.tasks
      modifies current`vRunTime, current`resRunTime, current`needSchedule, this`sys
      ensures current.vRunTime == v && current.resRunTime == res && current.needSchedule == need
      ensures Valid() && sys == With(old(sys), v, res, need)
    {
      hide RBTree.Valid, Queued, Keyed, Values, Due, Contained, Drafted, Given, With;
      ghost var u := With(sys, v, res, need);
      WithIs(sys, v, res, need);
      SetCharges(v, res, sys.cur, sys.tasks);
      SetDue(need, sys.cur, sys.need);
      sys := u;
    }

    lemma WithIs(s: F.Cpu, v: int, res: int, need: bool)
      requires s.cur in s.tasks
      ensures var u := With(s, v, res, need);
              && u.cur == s.cur && u.need == need && u.drafts == s.drafts
              && u.tasks == s.tasks[s.cur := s.tasks[s.cur].(v := v, res := res)]
    {
    }

    method ClearDue()
      requires Valid()
      modifies current`needSchedule, this`sys
      ensures Valid() && sys == old(sys).(need := false) && !current.needSchedule
    {
      hide RBTree.Valid, Queued, Keyed, Values, Contained, Drafted, Given, Due;
      SetDue(false, sys.cur, sys.need);
      sys := sys.(need := false);
    }

    /** Every task that is to join is one tick later. */
    ghost method Wait()
      requires Valid()
      modifies this`sys
      ensures Valid() && sys == old(sys).(now := old(sys).now + 1)
    {
      hide RBTree.Valid, Queued, Keyed, Values, Due, Contained, Drafted;
      sys := sys.(now := sys.now + 1);
    }

    lemma OverIs(t: F.Task)
      ensures F.Over(t) <==> t.res - F.Weight(t.prio) <= 0
    {
    }

    /** What a charge makes of the running task. */
    lemma UpdatedIs(s: F.Cpu, n: int)
      requires s.cur in s.tasks && (F.Over(s.tasks[s.cur]) ==> n != 0)
      ensures var t := s.tasks[s.cur];
              var w := F.Weight(t.prio);
              F.Updated(s, n)
              == With(s, t.v + w, if F.Over(t) then w * F.Max(1, 20 / n) else t.res - w, F.Over(t))
                 .(now := s.now + 1)
    {
    }

    method Charge(v: int, res: int, over: bool)
      requires Valid() && sys.cur in sys.tasks
      modifies current`vRunTime, current`resRunTime, current`needSchedule, this`sys
      ensures current.vRunTime == v && current.resRunTime == res
      ensures Valid() && sys == With(old(sys), v, res, over).(now := old(sys).now + 1)
    {
      hide Valid, RBTree.Valid;
      SetCurrent(v, res, over);
      Wait();
    }

    /** `Task_updateCurState`; a slice that ends while taskNum is 0 ends in a division by zero. */
    method UpdateCurState() returns (fault: bool)
      requires Valid()
      modifies current`vRunTime, current`resRunTime, current`needSchedule, this`sys
      ensures old(sys).cur in old(sys).tasks && (fault <==> F.Over(old(sys).tasks[old(sys).cur]) && taskNum == 0)
      ensures !fault ==>
                TickCharges(current, old(current.vRunTime), old(current.resRunTime), current.priority, taskNum)
      ensures !fault ==> Valid() && sys == F.Updated(old(sys), taskNum)
    {
      hide *;
      CurrentIs();
      OverIs(sys.tasks[sys.cur]);
      var w := F.Weight(current.priority);
      var v, res := current.vRunTime + w, current.resRunTime - w;
      if res <= 0 && taskNum == 0 { return true; }
      UpdatedIs(sys, taskNum);
      Charge(v, if res <= 0 then w * F.Max(1, 20 / taskNum) else res, res <= 0);
      RightCharges(current, old(current.vRunTime), old(current.resRunTime), current.priority, taskNum);
      fault := false;
    }

    lemma CurrentIs()
      requires Valid()
      ensures sys.cur in sys.tasks
      ensures var t := sys.tasks[sys.cur];
              current.vRunTime == t.v && current.resRunTime == t.res && current.priority == t.prio
      ensures current.needSchedule == sys.need && current.pid == sys.cur
      ensures live.Keys == sys.tasks.Keys && taskNum + pend == |live| && sys.cur in live && live[sys.cur] == current
    {
      hide RBTree.Valid, Queued, Keyed, Drafted, Given;
    }

    /** `Task_releaseProcessor`, up to the interrupt it sends itself. */
    method ReleaseProcessor()
      requires Valid()
      modifies current`vRunTime, current`needSchedule, current`resRunTime, this`sys
      ensures current.resRunTime == 0 && current.needSchedule && current.vRunTime == old(current.vRunTime)
      ensures old(sys).cur in old(sys).tasks && Valid() && sys == F.Released(old(sys))
    {
      CurrentIs();
      hide Valid;
      SetCurrent(current.vRunTime, 0, true);
    }

    // ---------- switching ----------

    /** In the middle of a switch: nobody runs, `t` are the live tasks, all of them in the queue. */
    ghost predicate AllQueued(t: map<nat, F.Task>)
      reads this`live, this`container, this`taskNum, this`pend, this`placing, this`sys
      reads live.Values, placing.Values, tree, tree.mem.Keys, container.Keys`key
    {
      && tree.Valid() && tree.less == CFSLess && Contained(container, live) && taskNum + pend == |live|
      && Drafted(placing, live, container) && Given(placing, sys.drafts)
      && Values(live, t) && Due(live, 0, false) && Keyed(container, live, {})
      && Queued(tree.Contents(), container, live, {})
    }

    /** The running task goes back to the queue. */
    method PutBack()
      requires Valid()
      modifies current`needSchedule, current.wNode, tree, tree.mem.Keys`left, tree.mem.Keys`right, tree.mem.Keys`parent
      modifies tree.mem.Keys`black
      ensures AllQueued(sys.tasks) && tree.mem.Keys == old(tree.mem.Keys) + {current.wNode} && !current.needSchedule
    {
      hide RBTree.Valid, Queued, Contained, Keyed, Values, Due, Drafted, Given;
      CurrentIs();
      ghost var p := sys.cur;
      SetDue(false, p, sys.need);
      NobodyDue(p);
      Insert(p);
    }

    method Insert(ghost p: nat)
      requires tree.Valid() && Contained(container, live) && p in live && live[p] == current
      requires Keyed(container, live, {p})
      requires Queued(tree.Contents(), container, live, {p})
      modifies current.wNode, tree, tree.mem.Keys`left, tree.mem.Keys`right, tree.mem.Keys`parent, tree.mem.Keys`black
      ensures tree.Valid() && Keyed(container, live, {}) && Queued(tree.Contents(), container, live, {})
      ensures tree.mem.Keys == old(tree.mem.Keys) + {current.wNode}
    {
      ghost var s := tree.Contents();
      NotQueued(p);
      hide RBTree.Valid, Queued;
      Enqueue(tree, current.wNode, CFSKey(current.vRunTime, current.pid));
      assert {} + {p} == {p};
      PutIn(s, tree.Contents(), container, live, {}, p);
    }

    method LiveLess(ghost l: map<nat, TaskStruct>, ghost t: map<nat, F.Task>)
      requires tree.Valid() && tree.less == CFSLess && Contained(container, l) && taskNum + pend == |l| + 1
      requires current !in l.Values
      requires Drafted(placing, l, container) && Given(placing, sys.drafts) && current !in placing.Values
      requires Values(l, t) && Due(l, 0, false) && Keyed(container, l, {}) && Queued(tree.Contents(), container, l, {})
      modifies current`needSchedule, this`taskNum, this`live
      ensures !current.needSchedule && live == l && taskNum == old(taskNum) - 1
      ensures AllQueued(t)
    {
      hide RBTree.Valid, Queued, Contained, Keyed, Values, Due, Drafted;
      current.needSchedule := false;
      taskNum := taskNum - 1;
      live := l;
    }

    lemma NobodyDue(p: nat)
      ensures Due(live, p, false) <==> Due(live, 0, false)
    {
    }

    lemma NotQueued(p: nat)
      requires Contained(container, live) && Queued(tree.Contents(), container, live, {p}) && p in live
      ensures live[p].wNode !in tree.Contents()
    {
    }

    /** The running task, killed, leaves the processor's queue for good. */
    method Drop()
      requires Valid()
      modifies current`needSchedule, this`taskNum, this`live
      ensures AllQueued(sys.tasks - {sys.cur}) && live == old(live) - {sys.cur} && taskNum == old(taskNum) - 1
      ensures current.wNode !in tree.Contents() && !current.needSchedule
    {
      hide RBTree.Valid, Queued, Contained, Keyed, Values, Due, Drafted, Given;
      CurrentIs();
      ghost var p := sys.cur;
      NotDrafted(placing, live, container, p);
      StillDrafted(p);
      ghost var l, t := live - {p}, sys.tasks - {p};
      OneLess(live, p);
      DropOut(tree.Contents(), container, live, p);
      Fewer(container, live, sys.tasks, p, sys.need);
      LiveLess(l, t);
    }

    lemma StillDrafted(p: nat)
      requires Drafted(placing, live, container)
      ensures Drafted(placing, live - {p}, container)
    {
    }

    /** The least task of the queue becomes the running one. */
    method TakeLeast(recycling: bool)
      requires sys.cur in sys.tasks && AllQueued(F.Queued(sys, recycling)) && sys.idle in F.Queued(sys, recycling)
      modifies this`current, this`sys, tree, tree.mem.Keys`left, tree.mem.Keys`right, tree.mem.Keys`parent
      modifies tree.mem.Keys`black
      ensures F.IsLeast(F.Queued(old(sys), recycling), sys.cur)
      ensures Valid() && sys == F.Switched(old(sys), recycling, sys.cur)
    {
      hide RBTree.Valid, Contained, Queued, Values, Due, Keyed, Drafted, Given, F.Queued, F.IsLeast;
      ghost var t, s := F.Queued(sys, recycling), tree.Contents();
      SomeoneQueued(t);
      var leftMost := tree.GetMin();
      LeftMostIs(t, leftMost);
      var next := container[leftMost];
      Dequeue(tree, leftMost);
      TakeOut(s, tree.Contents(), container, live, next.pid);
      NobodyDue(next.pid);
      KeyedStill(next.pid);
      Run(next, recycling, t);
    }

    lemma KeysAre(t: map<nat, F.Task>)
      requires Values(live, t)
      ensures live.Keys == t.Keys
    {
    }

    method Run(next: TaskStruct, recycling: bool, ghost t: map<nat, F.Task>)
      requires sys.cur in sys.tasks && t == F.Queued(sys, recycling) && tree.Valid() && tree.less == CFSLess
      requires Contained(container, live) && taskNum + pend == |live| && Values(live, t) && next.pid in live
      requires live[next.pid] == next
      requires Drafted(placing, live, container) && Given(placing, sys.drafts)
      requires Due(live, next.pid, false) && Keyed(container, live, {next.pid})
      requires Queued(tree.Contents(), container, live, {next.pid})
      modifies this`current, this`sys
      ensures next.pid in t && Valid() && sys == F.Switched(old(sys), recycling, next.pid)
    {
      hide RBTree.Valid, Contained, Queued, Values, Due, Keyed, Drafted, Given, F.Queued;
      KeysAre(t);
      current := next;
      sys := F.Switched(sys, recycling, next.pid);
    }

    lemma SomeoneQueued(t: map<nat, F.Task>)
      requires AllQueued(t) && t.Keys != {}
      ensures tree.Contents() != []
    {
      hide RBTree.Valid;
      var p :| p in live;
      assert live[p].wNode in tree.Contents();
    }

    lemma KeyedStill(p: nat)
      requires Contained(container, live) && Keyed(container, live, {})
      ensures Keyed(container, live, {p})
    {
    }

    /** The leftmost node is that of the task that comes first. */
    lemma LeftMostIs(t: map<nat, F.Task>, n: RBNode<CFSKey>)
      requires AllQueued(t) && n in tree.Contents() && forall e :: e in tree.Contents() ==> !CFSLess(e.key, n.key)
      ensures n in container
      ensures var p := container[n].pid;
              p in live && live[p] == container[n] && live[p].wNode == n && F.IsLeast(t, p)
    {
      hide RBTree.Valid;
      var p := container[n].pid;
      forall q | q in t && q != p ensures F.Ahead(t, p, q) {
        assert live[q].wNode in tree.Contents();
      }
    }

    /** `Task_schedule`, on return from an interrupt: if a switch is due, to the least task. A killed
        task is handed over instead of being queued, unless the recycler is at work. With a signal
        pending there is no switch. */
    method Schedule(recycling: bool, signal: bool) returns (dead: TaskStruct?)
      requires Valid() && sys.idle in sys.tasks && sys.tasks[sys.idle].prio != F.KILLED
      modifies this`current, this`sys, this`taskNum, this`live
      modifies current`needSchedule, current.wNode, tree, tree.mem.Keys`left, tree.mem.Keys`right, tree.mem.Keys`parent
      modifies tree.mem.Keys`black
      ensures old(sys).cur in old(sys).tasks && Valid()
      ensures old(sys).need && !signal ==> F.IsLeast(F.Queued(old(sys), recycling), sys.cur)
      ensures !signal ==> sys == F.Returned(old(sys), recycling, sys.cur)
      ensures signal ==> sys == old(sys).(need := false) && dead == null
      ensures !signal ==> (dead != null <==> old(sys).need && old(current.priority) == F.KILLED && !recycling)
      ensures dead != null ==>
                dead == old(current) && dead.wNode !in old(tree.Contents()) && taskNum == old(taskNum) - 1
      ensures dead == null ==> taskNum == old(taskNum)
      ensures !old(current).needSchedule
    {
      hide Valid, AllQueued, F.IsLeast;
      CurrentIs();
      dead := null;
      if !current.needSchedule { return; }
      if signal {
        ClearDue();
        return;
      }
      if current.priority == F.KILLED && !recycling {
        dead := current;
        Drop();
      } else {
        PutBack();
      }
      TakeLeast(recycling);
    }

    /** A timer tick with the switch it may lead to. */
    method Tick(recycling: bool) returns (dead: TaskStruct?, fault: bool)
      requires Valid() && F.Inv(sys)
      modifies this`current, this`sys, this`taskNum, this`live
      modifies current`vRunTime, current`resRunTime, current`needSchedule, current.wNode
      modifies tree, tree.mem.Keys`left, tree.mem.Keys`right, tree.mem.Keys`parent, tree.mem.Keys`black
      ensures old(sys).cur in old(sys).tasks && (fault <==> F.Over(old(sys).tasks[old(sys).cur]) && old(taskNum) == 0)
      ensures !fault ==>
                TickCharges(old(current), old(current.vRunTime), old(current.resRunTime), old(current.priority),
                            old(taskNum))
      ensures !fault ==>
                && (dead != null <==>
                      && old(sys).tasks[old(sys).cur].prio == F.KILLED && F.Over(old(sys).tasks[old(sys).cur])
                      && !recycling)
                && (dead != null ==> dead == old(current)) && taskNum == old(taskNum) - if dead != null then 1 else 0
      ensures !fault ==> Valid() && F.Inv(sys)
      ensures !fault ==> F.Enabled(old(sys), F.Tick(old(taskNum), recycling, sys.cur))
      ensures !fault ==> sys == F.Apply(old(sys), F.Tick(old(taskNum), recycling, sys.cur))
    {
      hide Valid, F.IsLeast, F.Inv, F.Over;
      CurrentIs();
      ghost var s, n := sys, taskNum;
      IdleLives();
      dead := null;
      fault := UpdateCurState();
      if fault { return; }
      dead := Schedule(recycling, false);
      F.ActionKeeps(s, F.Tick(n, recycling, sys.cur));
    }

    /** An interrupt that is no tick, with the switch it may lead to. */
    method Interrupt(recycling: bool) returns (dead: TaskStruct?)
      requires Valid() && F.Inv(sys)
      modifies this`current, this`sys, this`taskNum, this`live
      modifies current`needSchedule, current.wNode, tree, tree.mem.Keys`left, tree.mem.Keys`right, tree.mem.Keys`parent
      modifies tree.mem.Keys`black
      ensures dead != null <==> old(current.needSchedule) && old(current.priority) == F.KILLED && !recycling
      ensures (dead != null ==> dead == old(current)) && taskNum == old(taskNum) - if dead != null then 1 else 0
      ensures Valid() && F.Inv(sys) && F.Enabled(old(sys), F.Interrupt(recycling, sys.cur))
      ensures sys == F.Apply(old(sys), F.Interrupt(recycling, sys.cur))
    {
      hide Valid, F.IsLeast, F.Inv;
      CurrentIs();
      ghost var s := sys;
      IdleLives();
      dead := Schedule(recycling, false);
      F.ActionKeeps(s, F.Interrupt(recycling, sys.cur));
    }

    /** The running task traps, or exits: its priority rises. */
    method SetPriority(prio: nat)
      requires Valid() && F.Inv(sys) && current.priority <= prio <= F.KILLED
      requires prio == F.KILLED ==> current.pid != sys.idle
      modifies current`priority, this`sys
      ensures Valid() && F.Inv(sys) && F.Enabled(old(sys), F.SetPriority(prio))
      ensures sys == F.Apply(old(sys), F.SetPriority(prio))
    {
      hide RBTree.Valid, Queued, Keyed, Values, Due, Contained, Drafted, Given, F.Inv;
      CurrentIs();
      ghost var s, u := sys, F.Apply(sys, F.SetPriority(prio));
      GivePriority(prio, sys.cur, sys.tasks);
      sys := u;
      F.ActionKeeps(s, F.SetPriority(prio));
    }

    method GivePriority(prio: nat, ghost p: nat, ghost t: map<nat, F.Task>)
      requires Contained(container, live) && p in live && live[p] == current && Values(live, t)
      requires Drafted(placing, live, container) && Given(placing, sys.drafts)
      modifies current`priority
      ensures Values(live, t[p := t[p].(prio := prio)]) && Given(placing, sys.drafts)
    {
      NotDrafted(placing, live, container, p);
      current.priority := prio;
    }

    lemma IdleLives()
      requires F.Inv(sys)
      ensures sys.cur in sys.tasks && sys.idle in sys.tasks && sys.tasks[sys.idle].prio != F.KILLED
    {
    }

    // ---------- a new task ----------

    /** `Task_createTask` gives the new task the idle task's virtual run time. */
    method Place(task: TaskStruct, idle: TaskStruct)
      requires Valid() && F.Inv(sys) && sys.idle in live && live[sys.idle] == idle
      requires task.pid !in live && task.pid !in placing && task.wNode !in container && IsNew(task, task.vRunTime)
      requires forall d :: d in placing ==> placing[d].wNode != task.wNode
      modifies this`sys, this`placing, task`vRunTime
      ensures Valid() && F.Inv(sys) && placing == old(placing)[task.pid := task] && taskNum == old(taskNum)
      ensures F.Enabled(old(sys), F.Place(task.pid)) && sys == F.Apply(old(sys), F.Place(task.pid))
    {
      hide Valid, F.Inv;
      ghost var was := sys;
      PlaceEnabled(task.pid, idle);
      LevelWith(task, idle.vRunTime);
      F.ActionKeeps(was, F.Place(task.pid));
    }

    lemma PlaceEnabled(pid: nat, idle: TaskStruct)
      requires Valid() && F.Inv(sys) && pid !in live && pid !in placing && sys.idle in live && live[sys.idle] == idle
      ensures F.Enabled(sys, F.Place(pid)) && sys.tasks[sys.idle].v == idle.vRunTime
    {
      hide RBTree.Valid, Queued, Keyed, Due, Drafted;
    }

    method LevelWith(task: TaskStruct, v: int)
      requires Valid() && task.pid !in live && task.pid !in placing && task.wNode !in container
      requires IsNew(task, task.vRunTime)
      requires forall d :: d in placing ==> placing[d].wNode != task.wNode
      modifies this`sys, this`placing, task`vRunTime
      ensures Valid() && placing == old(placing)[task.pid := task]
      ensures sys == old(sys).(drafts := old(sys).drafts[task.pid := F.Draft(v, old(sys).now)])
    {
      hide RBTree.Valid, Contained, Queued, Values, Due, Keyed, Drafted, Given;
      OneDraft(task);
      GiveTime(task, v);
      GivenMore(task);
      Placed(placing[task.pid := task], sys.(drafts := sys.drafts[task.pid := F.Draft(v, sys.now)]));
    }

    method GiveTime(task: TaskStruct, v: int)
      requires Valid() && task.pid !in live && task.pid !in placing
      requires IsNew(task, task.vRunTime)
      modifies task`vRunTime
      ensures Valid() && IsNew(task, v)
    {
      NotLive(task);
      hide RBTree.Valid, Contained, Queued, Values, Due, Keyed, Drafted, Given;
      task.vRunTime := v;
    }

    ghost method Placed(p: map<nat, TaskStruct>, s: F.Cpu)
      requires Valid() && Drafted(p, live, container) && Given(p, s.drafts)
      requires s.tasks == sys.tasks && s.cur == sys.cur && s.need == sys.need
      modifies this`sys, this`placing
      ensures Valid() && placing == p && sys == s
    {
      hide RBTree.Valid, Contained, Queued, Values, Due, Keyed, Drafted, Given;
      placing, sys := p, s;
    }

    lemma GivenMore(task: TaskStruct)
      requires Given(placing, sys.drafts) && IsNew(task, task.vRunTime)
      ensures Given(placing[task.pid := task], sys.drafts[task.pid := F.Draft(task.vRunTime, sys.now)])
    {
    }

    lemma NotLive(task: TaskStruct)
      requires Contained(container, live) && Drafted(placing, live, container) && task.pid !in live
      requires task.pid !in placing
      ensures task !in live.Values && task !in placing.Values
    {
    }

    lemma OneDraft(task: TaskStruct)
      requires Drafted(placing, live, container) && task.pid !in live && task.pid !in placing
      requires task.wNode !in container
      requires forall d :: d in placing ==> placing[d].wNode != task.wNode
      ensures Drafted(placing[task.pid := task], live, container)
    {
    }

    /** It puts the task into the queue some time later. */
    method Join(task: TaskStruct)
      requires Valid() && F.Inv(sys) && task.pid in placing && placing[task.pid] == task
      modifies this`sys, this`live, this`container, this`placing, this`pend, task.wNode
      modifies tree, tree.mem.Keys`left, tree.mem.Keys`right, tree.mem.Keys`parent, tree.mem.Keys`black
      ensures Valid() && F.Inv(sys) && placing == old(placing) - {task.pid} && taskNum == old(taskNum)
      ensures pend == old(pend) + 1
      ensures F.Enabled(old(sys), F.Join(task.pid)) && sys == F.Apply(old(sys), F.Join(task.pid))
    {
      hide RBTree.Valid, Contained, Queued, Values, Due, Keyed, Drafted, Given, F.Inv;
      JoinEnabled(task);
      ghost var was, x := sys, sys.drafts[task.pid];
      ghost var t := F.Task(x.v, 20, 0, F.Age(sys, task.pid));
      NewTask(container, live, sys, tree.Contents(), task, t);
      Undrafted(task);
      Admit(task, container[task.wNode := task], live[task.pid := task], placing - {task.pid},
            F.Apply(sys, F.Join(task.pid)));
      F.ActionKeeps(was, F.Join(task.pid));
    }

    lemma JoinEnabled(task: TaskStruct)
      requires Valid() && task.pid in placing && placing[task.pid] == task
      ensures F.Enabled(sys, F.Join(task.pid)) && task.pid !in live && task.wNode !in container
      ensures IsNew(task, sys.drafts[task.pid].v)
    {
      hide RBTree.Valid, Queued, Keyed, Due;
    }

    lemma Undrafted(task: TaskStruct)
      requires Drafted(placing, live, container) && Given(placing, sys.drafts) && task.pid in placing
      requires placing[task.pid] == task
      ensures Drafted(placing - {task.pid}, live[task.pid := task], container[task.wNode := task])
      ensures Given(placing - {task.pid}, sys.drafts - {task.pid})
    {
    }

    method Admit(task: TaskStruct, c: map<RBNode<CFSKey>, TaskStruct>, ghost l: map<nat, TaskStruct>,
                 ghost p: map<nat, TaskStruct>, ghost s: F.Cpu)
      requires tree.Valid() && tree.less == CFSLess && Contained(c, l) && taskNum + pend + 1 == |l|
      requires task.pid in l && l[task.pid] == task && s.cur in l && l[s.cur] == current && task.pid != s.cur
      requires Values(l, s.tasks) && Due(l, s.cur, s.need) && Drafted(p, l, c) && Given(p, s.drafts)
      requires Keyed(c, l, {s.cur, task.pid}) && Queued(tree.Contents(), c, l, {s.cur, task.pid})
      modifies this`sys, this`live, this`container, this`placing, this`pend, task.wNode
      modifies tree, tree.mem.Keys`left, tree.mem.Keys`right, tree.mem.Keys`parent, tree.mem.Keys`black
      ensures Valid() && sys == s && placing == p && pend == old(pend) + 1
    {
      hide *;
      InsertNew(task, c, l, s.cur);
      Enter(c, l, p, s);
    }

    method Enter(c: map<RBNode<CFSKey>, TaskStruct>, ghost l: map<nat, TaskStruct>, ghost p: map<nat, TaskStruct>,
                 ghost s: F.Cpu)
      requires tree.Valid() && tree.less == CFSLess && Contained(c, l) && taskNum + pend + 1 == |l|
      requires s.cur in l && l[s.cur] == current && Values(l, s.tasks) && Due(l, s.cur, s.need)
      requires Drafted(p, l, c) && Given(p, s.drafts) && Keyed(c, l, {s.cur}) && Queued(tree.Contents(), c, l, {s.cur})
      modifies this`sys, this`live, this`container, this`placing, this`pend
      ensures Valid() && sys == s && placing == p && pend == old(pend) + 1
    {
      hide RBTree.Valid, Contained, Queued, Values, Due, Keyed, Drafted, Given;
      container, pend := c, pend + 1;
      live, placing, sys := l, p, s;
    }

    /** And it counts the task some time after that. */
    method CountNew()
      requires Valid() && pend > 0
      modifies this`taskNum, this`pend
      ensures Valid() && taskNum == old(taskNum) + 1 && pend == old(pend) - 1
    {
      hide RBTree.Valid, Contained, Queued, Values, Due, Keyed, Drafted, Given;
      taskNum := taskNum + 1;
      pend := pend - 1;
    }

    method InsertNew(task: TaskStruct, ghost c: map<RBNode<CFSKey>, TaskStruct>, ghost l: map<nat, TaskStruct>,
                     ghost cur: nat)
      requires tree.Valid() && Contained(c, l) && task.pid in l && l[task.pid] == task && task.pid != cur
      requires Keyed(c, l, {cur, task.pid}) && Queued(tree.Contents(), c, l, {cur, task.pid})
      modifies task.wNode, tree, tree.mem.Keys`left, tree.mem.Keys`right, tree.mem.Keys`parent, tree.mem.Keys`black
      ensures tree.Valid() && Keyed(c, l, {cur}) && Queued(tree.Contents(), c, l, {cur})
    {
      hide RBTree.Valid, Queued;
      ghost var s := tree.Contents();
      NewUnqueued(task, c, l, cur);
      Enqueue(tree, task.wNode, CFSKey(task.vRunTime, task.pid));
      assert {cur} + {task.pid} == {cur, task.pid};
      PutIn(s, tree.Contents(), c, l, {cur}, task.pid);
    }

    lemma NewUnqueued(task: TaskStruct, c: map<RBNode<CFSKey>, TaskStruct>, l: map<nat, TaskStruct>, cur: nat)
      requires Contained(c, l) && task.pid in l && l[task.pid] == task
      requires Queued(tree.Contents(), c, l, {cur, task.pid})
      ensures task.wNode !in tree.Contents()
    {
    }
  }

  lemma NewTask(container: map<RBNode<CFSKey>, TaskStruct>, live: map<nat, TaskStruct>, sys: F.Cpu,
                s: seq<RBNode<CFSKey>>, task: TaskStruct, t: F.Task)
    requires Contained(container, live) && task.pid !in live && task.wNode !in container && !task.needSchedule
    requires Values(live, sys.tasks) && Due(live, sys.cur, sys.need) && Keyed(container, live, {sys.cur})
    requires sys.cur in live
    requires Queued(s, container, live, {sys.cur}) && IsTask(task.vRunTime, task.resRunTime, task.priority, t)
    ensures var c, l := container[task.wNode := task], live[task.pid := task];
            && Contained(c, l) && |l| == |live| + 1 && Values(l, sys.tasks[task.pid := t])
            && Due(l, sys.cur, sys.need) && Keyed(c, l, {sys.cur, task.pid}) && Queued(s, c, l, {sys.cur, task.pid})
  {
    assert live[task.pid := task].Keys == live.Keys + {task.pid};
  }
}
