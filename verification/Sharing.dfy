/** Several address spaces over one memory and one pool (kernel/task/mgr.c): the upper half belongs to
    the kernel's root table, and every task's root table holds copies of its entries. */
module Sharing {
  import opened FlatMap
  import opened PageTables
  import PagePool

  predicate Upper(a: nat) { 256 <= a < 511 }

  const KERNEL: set<nat> := set a: nat | a < 512 && Upper(a)
  const USER: set<nat> := set a: nat | a < 512 && !Upper(a)

  /** A mapping made in one address space leaves another one with other tables as it is. */
  lemma KeptBy(s: Snap, s': Snap, cr3: nat, a: nat, root: nat, t: Tree, m: Flat)
    requires Confined(s, s', cr3, a) && cr3 in s.tree.role && Holds(s.mem, root, t, m)
    requires t.role.Keys !! s.tree.role.Keys && forall f :: f in t.role ==> f in s.out
    ensures Holds(s'.mem, root, t, m) && t.role.Keys !! s'.tree.role.Keys && s'.mem[root] == s.mem[root]
  {
    RowsKept(s, s', cr3, a, t);
    hide Confined, Fits;
    SameRows(s.mem, s'.mem, root, t, m);
  }

  lemma RowsKept(s: Snap, s': Snap, cr3: nat, a: nat, t: Tree)
    requires Confined(s, s', cr3, a) && cr3 in s.tree.role
    requires t.role.Keys !! s.tree.role.Keys && forall f :: f in t.role ==> f in s.out
    ensures |s'.mem| == |s.mem| && Sized(s'.mem) && t.role.Keys !! s'.tree.role.Keys
    ensures forall f :: f in t.role && f < |s.mem| ==> s'.mem[f] == s.mem[f]
  {
    hide Under;
  }

  /** What an address space means depends on its own tables only. */
  lemma SameRows(mem: seq<seq<Word>>, mem': seq<seq<Word>>, root: nat, t: Tree, m: Flat)
    requires Holds(mem, root, t, m) && |mem'| == |mem| && Sized(mem')
    requires forall f :: f in t.role && f < |mem| ==> mem'[f] == mem[f]
    ensures Holds(mem', root, t, m) && mem'[root] == mem[root]
  {
    hide Recorded, Fits, Up, Idx;
  }

  /** An entry of the root that is there stays. */
  lemma EntryStays(s: Snap, s': Snap, cr3: nat, a: nat, m: Flat, m': Flat, b: nat)
    requires Confined(s, s', cr3, a) && Holds(s.mem, cr3, s.tree, m) && Holds(s'.mem, cr3, s'.tree, m')
    requires b < 512 && (b != a || (a in s.tree.own && s.mem[cr3][b] != NONE))
    ensures s'.mem[cr3][b] == s.mem[cr3][b]
  {
    hide Under, PudOK, PmdOK, PldOK, Fits;
    if b == a { assert s.tree.role[s.tree.pud[b]] == Pud(b); }
  }

  /** Walks from roots with the same entry find the same. */
  lemma SameEntry(mem: seq<seq<Word>>, root: nat, cr3: nat, v: nat)
    requires Sound(mem, cr3, v) && root < |mem| && mem[root][PgdIndex(v)] == mem[cr3][PgdIndex(v)]
    ensures Sound(mem, root, v) && Walk(mem, root, v) == Walk(mem, cr3, v)
  {
  }

  /** An address space: its root, its tables and the mappings made in it. */
  datatype View = View(cr3: nat, tree: Tree, ops: seq<Op>)

  ghost predicate Stands(mem: seq<seq<Word>>, out: set<int>, w: View, own: set<nat>)
  {
    && w.tree.own == own && Holds(mem, w.cr3, w.tree, Run(w.ops))
    && (forall f :: f in w.tree.role ==> f in out)
  }

  /** The entry of root `r` is that of root `k`. */
  ghost predicate Synced(mem: seq<seq<Word>>, r: nat, k: nat, a: nat)
  {
    Sized(mem) && r < |mem| && k < |mem| && a < 512 && mem[r][a] == mem[k][a]
  }

  /** Root `k` has an entry for region `a`. */
  ghost predicate Entered(mem: seq<seq<Word>>, k: nat, a: nat)
  {
    Sized(mem) && k < |mem| && a < 512 && mem[k][a] != NONE
  }

  /** An entry of the upper half is the kernel's or still missing. */
  ghost predicate Follows(mem: seq<seq<Word>>, r: nat, k: nat)
    requires Sized(mem)
  {
    r < |mem| && k < |mem| && forall a: nat :: Upper(a) ==> mem[r][a] == NONE || Synced(mem, r, k, a)
  }

  /** Nothing is mapped in the lower half. */
  ghost predicate LowEmpty(mem: seq<seq<Word>>, k: nat)
    requires Sized(mem)
  {
    k < |mem| && forall a: nat :: a < 512 && !Upper(a) ==> mem[k][a] == NONE
  }

  /** The kernel's address space is right, and it maps nothing in the lower half. */
  ghost predicate KernelStands(mem: seq<seq<Word>>, out: set<int>, k: View)
  {
    Sized(mem) && Stands(mem, out, k, KERNEL) && LowEmpty(mem, k.cr3)
  }

  /** A task's address space is right, shares no table with the kernel's, and follows it. */
  ghost predicate TaskStands(mem: seq<seq<Word>>, out: set<int>, k: View, w: View)
  {
    && Sized(mem) && Stands(mem, out, w, USER) && Follows(mem, w.cr3, k.cr3)
    && w.tree.role.Keys !! k.tree.role.Keys
  }

  /** What a walk from a task's root finds: in the lower half the task's own mappings; in the upper half
      the kernel's, or nothing where the kernel's region is newer than the copy of its entries. */
  lemma WhatIsSeen(mem: seq<seq<Word>>, out: set<int>, k: View, w: View, v: nat)
    requires KernelStands(mem, out, k) && TaskStands(mem, out, k, w) && v < PAGES
    ensures PgdIndex(v) < 512 && w.cr3 < |mem| && k.cr3 < |mem| && Sound(mem, w.cr3, v)
    ensures Walk(mem, w.cr3, v)
         == if !Upper(PgdIndex(v)) then Lookup(Run(w.ops), v)
            else if Synced(mem, w.cr3, k.cr3, PgdIndex(v)) then Lookup(Run(k.ops), v)
            else NONE
  {
    Indices(v);
    hide Lookup, Run, Up, PudIndex, PmdIndex, PldIndex, PgdIndex, Holds, LowEmpty;
    var a := PgdIndex(v);
    if Upper(a) {
      Walked(mem, k.cr3, k.tree, Run(k.ops), v);
      if Synced(mem, w.cr3, k.cr3, a) {
        SameEntry(mem, w.cr3, k.cr3, v);
      }
    } else {
      Walked(mem, w.cr3, w.tree, Run(w.ops), v);
    }
  }

  // ---------- mappings ----------

  /** What the kernel's new mapping does to the entries of a task's root. */
  lemma StillFollows(s: Snap, s': Snap, cr3: nat, a: nat, m: Flat, m': Flat, r: nat)
    requires Confined(s, s', cr3, a) && Holds(s.mem, cr3, s.tree, m) && Holds(s'.mem, cr3, s'.tree, m')
    requires a < 512 && s.tree.own == KERNEL && a in KERNEL && r < |s.mem| == |s'.mem| && s'.mem[r] == s.mem[r]
    requires Follows(s.mem, r, cr3) && LowEmpty(s.mem, cr3)
    ensures Follows(s'.mem, r, cr3) && LowEmpty(s'.mem, cr3)
    ensures forall b: nat :: Upper(b) && Synced(s.mem, r, cr3, b) && (b != a || Entered(s.mem, cr3, b)) ==>
              Synced(s'.mem, r, cr3, b)
  {
    forall b: nat | b < 512 && (b != a || s.mem[cr3][b] != NONE) ensures s'.mem[cr3][b] == s.mem[cr3][b] {
      EntryStays(s, s', cr3, a, m, m', b);
    }
    hide Confined, Holds;
  }

  /** A mapping by the kernel: its own address space. */
  lemma KernelMaps(s: Snap, s': Snap, a: nat, k: View, k': View)
    requires KernelStands(s.mem, s.out, k) && s.tree == k.tree && s'.tree == k'.tree && k'.cr3 == k.cr3
    requires a in KERNEL && Confined(s, s', k.cr3, a) && Stands(s'.mem, s'.out, k', KERNEL)
    ensures KernelStands(s'.mem, s'.out, k')
  {
    hide Holds, Grown;
  }

  /** That of a task: its entries are out of date only where the kernel has entered a new region. */
  lemma KernelMapped(s: Snap, s': Snap, a: nat, k: View, k': View, w: View)
    requires KernelStands(s.mem, s.out, k) && s.tree == k.tree && s'.tree == k'.tree && k'.cr3 == k.cr3
    requires a in KERNEL && Confined(s, s', k.cr3, a) && Stands(s'.mem, s'.out, k', KERNEL)
    requires TaskStands(s.mem, s.out, k, w)
    ensures TaskStands(s'.mem, s'.out, k', w)
    ensures forall b: nat :: Upper(b) && (b != a || Entered(s.mem, k.cr3, b)) ==>
              Synced(s.mem, w.cr3, k.cr3, b) ==> Synced(s'.mem, w.cr3, k.cr3, b)
  {
    hide Grown, Run, PgdOK, PudOK, PmdOK, PldOK, Fits, PudTables, PmdTables, PldTables, Recorded;
    KeptBy(s, s', k.cr3, a, w.cr3, w.tree, Run(w.ops));
    hide Confined, Holds;
    StillSized(s, s', k.cr3, a);
    StillFollows(s, s', k.cr3, a, Run(k.ops), Run(k'.ops), w.cr3);
  }

  lemma StillSized(s: Snap, s': Snap, cr3: nat, a: nat)
    requires Confined(s, s', cr3, a)
    ensures Sized(s'.mem) && |s'.mem| == |s.mem| && s.out <= s'.out
  {
  }

  /** A mapping by a task: its own address space and the kernel's. */
  lemma TaskMaps(s: Snap, s': Snap, a: nat, k: View, w: View, w': View)
    requires KernelStands(s.mem, s.out, k) && s.tree == w.tree && s'.tree == w'.tree && w'.cr3 == w.cr3
    requires a in USER && Confined(s, s', w.cr3, a) && Stands(s'.mem, s'.out, w', USER)
    requires TaskStands(s.mem, s.out, k, w)
    ensures KernelStands(s'.mem, s'.out, k) && TaskStands(s'.mem, s'.out, k, w')
    ensures forall b: nat :: Upper(b) && Synced(s.mem, w.cr3, k.cr3, b) ==> Synced(s'.mem, w.cr3, k.cr3, b)
  {
    hide Grown, Run, PgdOK, PudOK, PmdOK, PldOK, Fits, PudTables, PmdTables, PldTables, Recorded;
    KeptBy(s, s', w.cr3, a, k.cr3, k.tree, Run(k.ops));
    hide Holds;
  }

  /** And that of another task. */
  lemma TaskMapped(s: Snap, s': Snap, a: nat, k: View, w: View, w': View, u: View)
    requires KernelStands(s.mem, s.out, k) && s.tree == w.tree && s'.tree == w'.tree && w'.cr3 == w.cr3
    requires a in USER && Confined(s, s', w.cr3, a) && TaskStands(s.mem, s.out, k, w)
    requires TaskStands(s.mem, s.out, k, u) && u.tree.role.Keys !! w.tree.role.Keys
    ensures TaskStands(s'.mem, s'.out, k, u) && u.tree.role.Keys !! w'.tree.role.Keys
    ensures forall b: nat :: Upper(b) && Synced(s.mem, u.cr3, k.cr3, b) ==> Synced(s'.mem, u.cr3, k.cr3, b)
  {
    hide Grown, Run, PgdOK, PudOK, PmdOK, PldOK, Fits, PudTables, PmdTables, PldTables, Recorded;
    KeptBy(s, s', w.cr3, a, k.cr3, k.tree, Run(k.ops));
    KeptBy(s, s', w.cr3, a, u.cr3, u.tree, Run(u.ops));
    hide Holds;
  }

  // ---------- copying root entries ----------

  /** A root table whose own entries are right is all an address space has in its root's row. */
  lemma RootRow(mem: seq<seq<Word>>, mem': seq<seq<Word>>, cr3: nat, t: Tree, m: Flat)
    requires Holds(mem, cr3, t, m) && Sized(mem') && OthersKept(mem, mem', cr3)
    requires forall a: nat :: a < 512 && a in t.own ==> mem'[cr3][a] == mem[cr3][a]
    ensures Holds(mem', cr3, t, m)
  {
    hide Fits, Recorded, Up, Idx;
  }

  /** The entries from `from` on are those of row `k`. */
  ghost predicate Copied(mem: seq<seq<Word>>, mem': seq<seq<Word>>, r: nat, k: nat, from: nat, to: nat)
  {
    && Sized(mem) && Sized(mem') && r < |mem| && k < |mem| && OthersKept(mem, mem', r)
    && (forall a :: 0 <= a < 512 ==> mem'[r][a] == if from <= a < to then mem[k][a] else mem[r][a])
  }

  /** A page that is no table of the kernel or of task `u` has been written. */
  lemma RowWritten(mem: seq<seq<Word>>, mem': seq<seq<Word>>, out: set<int>, out': set<int>, r: nat, k: View, u: View)
    requires KernelStands(mem, out, k) && Sized(mem') && OthersKept(mem, mem', r) && out <= out'
    requires r !in k.tree.role
    ensures KernelStands(mem', out', k)
    ensures TaskStands(mem, out, k, u) && r !in u.tree.role ==> TaskStands(mem', out', k, u)
  {
    RootIn(mem, k.cr3, k.tree, Run(k.ops));
    SameRows(mem, mem', k.cr3, k.tree, Run(k.ops));
    if TaskStands(mem, out, k, u) && r !in u.tree.role {
      RootIn(mem, u.cr3, u.tree, Run(u.ops));
      SameRows(mem, mem', u.cr3, u.tree, Run(u.ops));
    }
    hide Holds, Run;
  }

  const NEW: Tree := Tree(USER, map[], map[], map[], map[])

  /** A new task's address space over a copy of the kernel's root. */
  lemma SpawnStands(mem: seq<seq<Word>>, mem': seq<seq<Word>>, out: set<int>, k: View, root: nat)
    requires KernelStands(mem, out, k) && root !in out && Copied(mem, mem', root, k.cr3, 0, 512)
    ensures TaskStands(mem', out + {root}, k, View(root, NEW.(role := map[root := Pgd]), []))
    ensures forall a :: 0 <= a < 512 && a in USER ==> mem'[root][a] == NONE
    ensures forall b: nat :: Upper(b) ==> Synced(mem', root, k.cr3, b)
  {
    RootIn(mem, k.cr3, k.tree, Run(k.ops));
    hide Holds, Run;
    Empty(mem', root);
  }

  lemma Empty(mem: seq<seq<Word>>, root: nat)
    requires Sized(mem) && root < |mem| && forall a: nat :: a in USER ==> mem[root][a] == NONE
    ensures Holds(mem, root, NEW.(role := map[root := Pgd]), Run([]))
  {
  }

  /** Copying the kernel's upper entries again: the task's are those of the kernel, and its address
      space is right unless it had a table at entry 511, which the copy takes out. */
  lemma SyncStands(mem: seq<seq<Word>>, mem': seq<seq<Word>>, out: set<int>, k: View, w: View)
    requires KernelStands(mem, out, k) && TaskStands(mem, out, k, w) && Copied(mem, mem', w.cr3, k.cr3, 256, 512)
    ensures TaskStands(mem', out, k, w) <==> 511 !in w.tree.pud
    ensures k.cr3 < |mem'| && forall a: nat :: Upper(a) ==> Synced(mem', w.cr3, k.cr3, a)
  {
    hide Holds, Run;
    RootIn(mem, w.cr3, w.tree, Run(w.ops));
    RootIn(mem, k.cr3, k.tree, Run(k.ops));
    TopEntry(mem, w.cr3, w.tree, Run(w.ops));
    if 511 !in w.tree.pud {
      RootRow(mem, mem', w.cr3, w.tree, Run(w.ops));
    } else if TaskStands(mem', out, k, w) {
      TopEntry(mem', w.cr3, w.tree, Run(w.ops));
    }
  }

  lemma RootIn(mem: seq<seq<Word>>, cr3: nat, t: Tree, m: Flat)
    requires Holds(mem, cr3, t, m)
    ensures cr3 in t.role && cr3 < |mem|
  {
  }

  lemma TopEntry(mem: seq<seq<Word>>, cr3: nat, t: Tree, m: Flat)
    requires Holds(mem, cr3, t, m) && t.own == USER
    ensures cr3 < |mem| && Sized(mem) && (mem[cr3][511] == NONE <==> 511 !in t.pud)
  {
    assert 511 in USER;
  }

  /** A task's pages have gone back to the pool. */
  lemma CleanStands(mem: seq<seq<Word>>, out: set<int>, k: View, w: View, u: View)
    requires KernelStands(mem, out, k) && TaskStands(mem, out, k, w)
    ensures KernelStands(mem, out - w.tree.role.Keys, k)
    ensures TaskStands(mem, out, k, u) && u.tree.role.Keys !! w.tree.role.Keys ==>
              TaskStands(mem, out - w.tree.role.Keys, k, u)
  {
    hide Holds, Run, Follows, LowEmpty;
  }

  lemma CopiedRow(mem: seq<seq<Word>>, mem': seq<seq<Word>>, r: nat, k: nat, from: nat, to: nat)
    requires Copied(mem, mem', r, k, from, to)
    ensures Sized(mem') && OthersKept(mem, mem', r)
  {
  }

  lemma NotIn(mem: seq<seq<Word>>, out: set<int>, k: View, w: View, r: nat)
    requires r !in out
    ensures KernelStands(mem, out, k) ==> r !in k.tree.role
    ensures TaskStands(mem, out, k, w) ==> r !in w.tree.role
  {
    hide Holds, Follows, LowEmpty;
  }

  /** The root of one address space is no table of another. */
  lemma Apart(mem: seq<seq<Word>>, out: set<int>, k: View, w: View, u: View)
    requires KernelStands(mem, out, k) && TaskStands(mem, out, k, w)
    ensures w.cr3 !in k.tree.role
    ensures u.tree.role.Keys !! w.tree.role.Keys ==> w.cr3 !in u.tree.role
  {
    RootIn(mem, w.cr3, w.tree, Run(w.ops));
    hide Holds, Follows, LowEmpty;
  }

  /** Every table of a task lies in a region of its own. */
  lemma InLower(t: Tree, cr3: nat)
    requires RolesOK(t, cr3) && t.own == USER
    ensures cr3 in t.role
    ensures forall f :: f in t.role && f != cr3 ==> exists a: nat :: a < 512 && !Upper(a) && Under(t.role[f], 2, a)
  {
    forall f | f in t.role && f != cr3 ensures exists a: nat :: a < 512 && !Upper(a) && Under(t.role[f], 2, a) {
      assert Recorded(t, cr3, f);
      var a := match t.role[f] case Pgd => 0 case Pud(a) => a case Pmd(g) => Up(g) case Pld(r) => Up(Up(r));
      assert a in t.pud && Under(t.role[f], 2, a);
    }
  }

  lemma SameOwn(s: Snap, s': Snap, cr3: nat, a: nat)
    requires Confined(s, s', cr3, a)
    ensures s'.tree.own == s.tree.own
  {
  }

  class Spaces {
    const ram: Frames
    const pool: PagePool.Pool
    const kernel: AddressSpace
    var tasks: set<AddressSpace>

    ghost function ViewOf(s: AddressSpace): View
      reads s
    {
      View(s.cr3, s.tree, s.ops)
    }

    ghost predicate Object(s: AddressSpace)
      reads s
    {
      s.ram == ram && s.pool == pool && s.Apart() && s.flat == Run(s.ops)
    }

    ghost predicate PoolOK()
      reads pool, pool.cachePool, pool.buddy.Repr()
    {
      && pool.Valid() && ram.words.Length0 == pool.buddy.pages.Length
      && {ram, ram.words, this} !! pool.buddy.Repr() + {pool, pool.cachePool}
    }

    ghost predicate TaskOK(u: AddressSpace, mem: seq<seq<Word>>, out: set<int>, k: View)
      reads u
    {
      Object(u) && TaskStands(mem, out, k, ViewOf(u))
    }

    ghost predicate Valid()
      reads this, kernel, tasks, ram, ram.words, pool, pool.cachePool, pool.buddy.Repr()
    {
      && ram.Mirror() && PoolOK() && Object(kernel) && kernel !in tasks
      && KernelStands(ram.mem, pool.out, ViewOf(kernel))
      && (forall u :: u in tasks ==> TaskOK(u, ram.mem, pool.out, ViewOf(kernel)))
      && (forall u, v :: u in tasks && v in tasks && u != v ==> u.tree.role.Keys !! v.tree.role.Keys)
    }

    /** The kernel's address space alone. */
    constructor (k: AddressSpace)
      requires k.Valid() && k.tree.own == KERNEL && LowEmpty(k.ram.mem, k.cr3)
      ensures Valid() && tasks == {} && kernel == k && ram == k.ram && pool == k.pool
    {
      hide Holds, PagePool.Pool.Valid, Frames.Mirror, LowEmpty;
      ram, pool, kernel, tasks := k.ram, k.pool, k, {};
      new;
      Alone(k);
    }

    lemma Alone(k: AddressSpace)
      requires k.Valid() && k.tree.own == KERNEL && LowEmpty(k.ram.mem, k.cr3)
      ensures k.ram.Mirror() && k.pool.Valid() && KernelStands(k.ram.mem, k.pool.out, ViewOf(k))
    {
      hide Holds;
    }

    /** The tasks other than `t`, beside the kernel's address space `k` and tables `own`. */
    ghost predicate Around(t: set<AddressSpace>, mem: seq<seq<Word>>, out: set<int>, k: View, own: set<nat>)
      reads this, tasks - t
    {
      && (forall u :: u in tasks - t ==> TaskOK(u, mem, out, k) && u.tree.role.Keys !! own)
      && (forall u, v :: u in tasks - t && v in tasks - t && u != v ==> u.tree.role.Keys !! v.tree.role.Keys)
    }

    lemma OpenKernel()
      requires Valid()
      ensures kernel.Valid() && kernel.ram == ram && kernel.pool == pool && kernel.tree.own == KERNEL
      ensures kernel !in tasks
      ensures KernelStands(ram.mem, pool.out, ViewOf(kernel)) && this !in pool.buddy.Repr() + {pool, pool.cachePool}
      ensures kernel.Now() == Snap(ram.mem, kernel.tree, pool.out)
      ensures ViewOf(kernel).tree == kernel.tree && ViewOf(kernel).cr3 == kernel.cr3
      ensures forall u :: u in tasks - {} ==> u != kernel && u !in pool.buddy.Repr() + {pool, pool.cachePool}
      ensures Around({}, ram.mem, pool.out, ViewOf(kernel), {})
    {
      hide Holds, Follows, LowEmpty, PagePool.Pool.Valid, Frames.Mirror;
    }

    /** A mapping in the kernel's own half. */
    method MapKernel(v: nat, p: nat, flag: Flags) returns (ok: bool)
      requires Valid() && v < PAGES && Upper(PgdIndex(v))
      modifies kernel, ram, ram.words, pool, pool.cachePool, pool.buddy.Repr()
      ensures ok ==> Valid() && kernel.ops == old(kernel.ops) + [FlatMap.Map(v, Word(p, flag))]
      ensures ok ==>
                forall u, b: nat ::
                  u in tasks && Upper(b) && (b != PgdIndex(v) || old(Entered(ram.mem, kernel.cr3, b))) ==>
                old(Synced(ram.mem, u.cr3, kernel.cr3, b)) ==> Synced(ram.mem, u.cr3, kernel.cr3, b)
      ensures old(pool.Serves(3)) ==> ok
    {
      hide *;
      OpenKernel();
      InKernel(v);
      ghost var s, k := kernel.Now(), ViewOf(kernel);
      ok := kernel.Map(v, p, flag);
      if ok {
        SameOwn(s, kernel.Now(), kernel.cr3, Up(Up(Up(v))));
        KernelDone(s, k, Up(Up(Up(v))));
      }
    }

    /** A 2M region in the kernel's own half. */
    method MapKernel2M(v: nat, p: nat, flag: Flags) returns (ok: bool)
      requires Valid() && v < PAGES && Upper(PgdIndex(v))
      modifies kernel, ram, ram.words, pool, pool.cachePool, pool.buddy.Repr()
      ensures ok && old(New2M(kernel.ops, v)) ==>
                forall u: nat :: Up(u) == Up(v) ==> LargeEntry(Lookup(Run(kernel.ops), u), p, flag, 512)
      ensures ok ==> Valid() && kernel.ops == old(kernel.ops) + [FlatMap.Map2M(Up(v), LargeWord(Down2M(p), flag))]
      ensures ok ==>
                forall u, b: nat ::
                  u in tasks && Upper(b) && (b != PgdIndex(v) || old(Entered(ram.mem, kernel.cr3, b))) ==>
                old(Synced(ram.mem, u.cr3, kernel.cr3, b)) ==> Synced(ram.mem, u.cr3, kernel.cr3, b)
      ensures old(pool.Serves(2)) ==> ok
    {
      hide *;
      OpenKernel();
      InKernel(v);
      ghost var s, k := kernel.Now(), ViewOf(kernel);
      ok := kernel.Map2M(v, p, flag);
      if ok {
        AllFound2M(old(kernel.ops), v, p, flag);
        SameOwn(s, kernel.Now(), kernel.cr3, Up(Up(Up(v))));
        KernelDone(s, k, Up(Up(Up(v))));
      }
    }

    /** A 1G region in it. */
    method MapKernel1G(v: nat, p: nat, flag: Flags) returns (ok: bool)
      requires Valid() && v < PAGES && Upper(PgdIndex(v))
      modifies kernel, ram, ram.words, pool, pool.cachePool, pool.buddy.Repr()
      ensures ok && old(New1G(kernel.ops, v)) ==>
                forall u: nat :: Up(Up(u)) == Up(Up(v)) ==> LargeEntry(Lookup(Run(kernel.ops), u), p, flag, 262144)
      ensures ok ==> Valid() && kernel.ops == old(kernel.ops) + [FlatMap.Map1G(Up(Up(v)), LargeWord(Down1G(p), flag))]
      ensures ok ==>
                forall u, b: nat ::
                  u in tasks && Upper(b) && (b != PgdIndex(v) || old(Entered(ram.mem, kernel.cr3, b))) ==>
                old(Synced(ram.mem, u.cr3, kernel.cr3, b)) ==> Synced(ram.mem, u.cr3, kernel.cr3, b)
      ensures old(pool.Serves(1)) ==> ok
    {
      hide *;
      OpenKernel();
      InKernel(v);
      ghost var s, k := kernel.Now(), ViewOf(kernel);
      ok := kernel.Map1G(v, p, flag);
      if ok {
        AllFound1G(old(kernel.ops), v, p, flag);
        SameOwn(s, kernel.Now(), kernel.cr3, Up(Up(Up(v))));
        KernelDone(s, k, Up(Up(Up(v))));
      }
    }

    lemma InKernel(v: nat)
      requires v < PAGES && Upper(PgdIndex(v))
      ensures Up(Up(Up(v))) in KERNEL && Up(Up(Up(v))) == PgdIndex(v)
    {
      Indices(v);
    }

    lemma KernelDone(s: Snap, k: View, a: nat)
      requires KernelStands(s.mem, s.out, k) && s.tree == k.tree && a in KERNEL && kernel.cr3 == k.cr3
      requires Around({}, s.mem, s.out, k, {}) && kernel !in tasks
      requires this !in pool.buddy.Repr() + {pool, pool.cachePool}
      requires kernel.Valid() && kernel.ram == ram && kernel.pool == pool && kernel.Now().tree.own == KERNEL
      requires Confined(s, kernel.Now(), k.cr3, a)
      ensures Valid()
      ensures forall u, b: nat :: u in tasks && Upper(b) && (b != a || Entered(s.mem, k.cr3, b)) ==>
                Synced(s.mem, u.cr3, k.cr3, b) ==> Synced(ram.mem, u.cr3, k.cr3, b)
    {
      hide AddressSpace.Valid, PagePool.Pool.Valid, Frames.Mirror, Confined, KernelStands, TaskStands, Stands, Run;
      Closed(kernel);
      ghost var s', k' := kernel.Now(), ViewOf(kernel);
      KernelMaps(s, s', a, k, k');
      forall u | u in tasks
        ensures TaskStands(s'.mem, s'.out, k', ViewOf(u))
        ensures forall b: nat :: Upper(b) && (b != a || Entered(s.mem, k.cr3, b)) ==>
                  Synced(s.mem, u.cr3, k.cr3, b) ==> Synced(s'.mem, u.cr3, k.cr3, b)
      {
        KernelMapped(s, s', a, k, k', ViewOf(u));
      }
    }

    lemma Closed(t: AddressSpace)
      requires t.Valid() && t.ram == ram && t.pool == pool && this !in pool.buddy.Repr() + {pool, pool.cachePool}
      ensures ram.Mirror() && PoolOK() && Object(t) && Stands(ram.mem, pool.out, ViewOf(t), t.tree.own)
      ensures t.Now() == Snap(ram.mem, t.tree, pool.out)
    {
      hide Holds;
    }

    ghost predicate KernelOK(mem: seq<seq<Word>>, out: set<int>)
      reads kernel
    {
      Object(kernel) && KernelStands(mem, out, ViewOf(kernel))
    }

    /** A task's address space, and all the others. */
    lemma OpenTask(t: AddressSpace)
      requires Valid() && t in tasks
      ensures t.Valid() && t.ram == ram && t.pool == pool && t != kernel && KernelOK(ram.mem, pool.out)
      ensures TaskOK(t, ram.mem, pool.out, ViewOf(kernel)) && Object(t)
      ensures TaskStands(ram.mem, pool.out, ViewOf(kernel), ViewOf(t)) && t.Now() == Snap(ram.mem, t.tree, pool.out)
      ensures ViewOf(t).tree == t.tree && ViewOf(t).cr3 == t.cr3 && t.tree.own == USER
      ensures forall u :: u in tasks - {t} + {kernel} ==> u != t && u !in pool.buddy.Repr() + {pool, pool.cachePool}
      ensures this !in pool.buddy.Repr() + {pool, pool.cachePool} && kernel !in tasks
      ensures Around({t}, ram.mem, pool.out, ViewOf(kernel), t.tree.role.Keys)
    {
      hide Holds, Follows, LowEmpty, PagePool.Pool.Valid, Frames.Mirror;
    }

    /** A mapping in a task's own half: the kernel and the other tasks are not affected. */
    method MapTask(t: AddressSpace, v: nat, p: nat, flag: Flags) returns (ok: bool)
      requires Valid() && t in tasks && v < PAGES && !Upper(PgdIndex(v))
      modifies t, ram, ram.words, pool, pool.cachePool, pool.buddy.Repr()
      ensures ok ==> Valid() && t.ops == old(t.ops) + [FlatMap.Map(v, Word(p, flag))]
      ensures ok ==> forall u, b: nat :: u in tasks && Upper(b) ==>
                old(Synced(ram.mem, u.cr3, kernel.cr3, b)) ==> Synced(ram.mem, u.cr3, kernel.cr3, b)
      ensures old(pool.Serves(3)) ==> ok
    {
      hide *;
      OpenTask(t);
      InUser(v);
      ghost var s, w := t.Now(), ViewOf(t);
      ok := t.Map(v, p, flag);
      if ok {
        SameOwn(s, t.Now(), t.cr3, Up(Up(Up(v))));
        TaskDone(t, s, w, Up(Up(Up(v))));
      }
    }

    lemma InUser(v: nat)
      requires v < PAGES && !Upper(PgdIndex(v))
      ensures Up(Up(Up(v))) in USER
    {
      Indices(v);
    }

    lemma TaskDone(t: AddressSpace, s: Snap, w: View, a: nat)
      requires KernelOK(s.mem, s.out) && TaskStands(s.mem, s.out, ViewOf(kernel), w) && t in tasks && t != kernel
      requires s.tree == w.tree && a in USER && t.cr3 == w.cr3
      requires Around({t}, s.mem, s.out, ViewOf(kernel), w.tree.role.Keys)
      requires this !in pool.buddy.Repr() + {pool, pool.cachePool} && kernel !in tasks
      requires t.Valid() && t.ram == ram && t.pool == pool && t.Now().tree.own == USER && Confined(s, t.Now(), w.cr3, a)
      ensures Valid()
      ensures forall u, b: nat :: u in tasks && Upper(b) ==>
                Synced(s.mem, u.cr3, kernel.cr3, b) ==> Synced(ram.mem, u.cr3, kernel.cr3, b)
    {
      hide AddressSpace.Valid, PagePool.Pool.Valid, Frames.Mirror, Confined, KernelStands, TaskStands, Stands, Run;
      Closed(t);
      ghost var s', k, w' := t.Now(), ViewOf(kernel), ViewOf(t);
      TaskMaps(s, s', a, k, w, w');
      forall u | u in tasks - {t}
        ensures TaskStands(s'.mem, s'.out, k, ViewOf(u)) && u.tree.role.Keys !! t.tree.role.Keys
        ensures forall b: nat :: Upper(b) ==>
                  Synced(s.mem, u.cr3, k.cr3, b) ==> Synced(s'.mem, u.cr3, k.cr3, b)
      {
        TaskMapped(s, s', a, k, w, w', ViewOf(u));
      }
      assert KernelOK(ram.mem, pool.out) && TaskOK(t, ram.mem, pool.out, k);
      assert forall u :: u in tasks ==> u == t || u in tasks - {t};
      hide Object, Synced;
    }

    /** `memcpy` of root table entries. */
    method CopyEntries(r: nat, k: nat, from: nat, to: nat)
      requires ram.Mirror() && r < |ram.mem| && k < |ram.mem| && r != k && from <= to <= 512
      modifies ram, ram.words
      ensures ram.Mirror() && Copied(old(ram.mem), ram.mem, r, k, from, to)
    {
      for i := from to to
        invariant ram.Mirror() && Copied(old(ram.mem), ram.mem, r, k, from, i)
      {
        ram.Put(r, i, ram.words[k, i]);
      }
    }

    /** The root table of a new task: a page from the pool with a copy of the kernel's root. */
    method Spawn() returns (t: AddressSpace?)
      requires Valid()
      modifies this`tasks, ram, ram.words, pool, pool.cachePool, pool.buddy.Repr()
      ensures t != null ==> Valid() && fresh(t) && tasks == old(tasks) + {t} && t.ops == []
      ensures t != null ==> forall b: nat :: Upper(b) ==> Synced(ram.mem, t.cr3, kernel.cr3, b)
      ensures t == null <==> old(pool.cacheSize) == PagePool.MIN_CACHE && !old(pool.Refillable())
    {
      hide Valid, BesideAll, KernelStands, TaskStands, Object, Copied, Holds, Synced, AddressSpace.Valid;
      hide PagePool.Pool.Valid, PagePool.Pool.Refillable, Frames.Mirror;
      OpenPool();
      ghost var mem, out, k := ram.mem, pool.out, ViewOf(kernel);
      var root := pool.Alloc();
      if root == -1 { return null; }
      CopyEntries(root, kernel.cr3, 0, 512);
      SpawnStands(mem, ram.mem, out, k, root);
      ghost var ts := tasks;
      t := new AddressSpace(ram, pool, root, USER);
      tasks := tasks + {t};
      Spawned(t, ts, mem, out, k, root);
    }

    /** The tasks of `ts` are right and apart. */
    ghost predicate BesideAll(ts: set<AddressSpace>, mem: seq<seq<Word>>, out: set<int>, k: View)
      reads ts
    {
      && (forall u :: u in ts ==> TaskOK(u, mem, out, k) && u != kernel)
      && (forall u, v :: u in ts && v in ts && u != v ==> u.tree.role.Keys !! v.tree.role.Keys)
    }

    lemma OpenPool()
      requires Valid()
      ensures pool.Valid() && ram.Mirror() && ram.words.Length0 == |ram.mem| == pool.buddy.pages.Length
      ensures Sized(ram.mem)
      ensures {ram, ram.words, this} !! pool.buddy.Repr() + {pool, pool.cachePool}
      ensures kernel.cr3 in pool.out && kernel.cr3 < |ram.mem| && KernelOK(ram.mem, pool.out)
      ensures KernelStands(ram.mem, pool.out, ViewOf(kernel)) && ViewOf(kernel).cr3 == kernel.cr3
      ensures BesideAll(tasks, ram.mem, pool.out, ViewOf(kernel))
      ensures forall u :: u in tasks + {kernel} ==> u !in pool.buddy.Repr() + {pool, pool.cachePool}
    {
      hide Follows, LowEmpty, PagePool.Pool.Valid;
    }

    lemma Spawned(t: AddressSpace, ts: set<AddressSpace>, mem: seq<seq<Word>>, out: set<int>, k: View, root: nat)
      requires t.ram == ram && t.pool == pool && ViewOf(t) == View(root, NEW.(role := map[root := Pgd]), [])
      requires tasks == ts + {t} && t !in ts && t != kernel && pool.out == out + {root} && root !in out
      requires k == ViewOf(kernel) && KernelOK(mem, out) && BesideAll(ts, mem, out, k)
      requires this !in pool.buddy.Repr() + {pool, pool.cachePool} && Copied(mem, ram.mem, root, k.cr3, 0, 512)
      requires t.Valid()
      ensures Valid()
    {
      hide AddressSpace.Valid, PagePool.Pool.Valid, Frames.Mirror, KernelStands, TaskStands, Stands, Run, Copied;
      Closed(t);
      CopiedRow(mem, ram.mem, root, k.cr3, 0, 512);
      SpawnStands(mem, ram.mem, out, k, root);
      NotIn(mem, out, k, k, root);
      RowWritten(mem, ram.mem, out, pool.out, root, k, k);
      forall u | u in ts ensures TaskStands(ram.mem, pool.out, k, ViewOf(u)) && root !in u.tree.role {
        NotIn(mem, out, k, ViewOf(u), root);
        RowWritten(mem, ram.mem, out, pool.out, root, k, ViewOf(u));
      }
    }

    /** `Task_syncKrlPageTable`: the kernel's upper entries are copied into a task's root. */
    method Sync(t: AddressSpace)
      requires Valid() && t in tasks
      modifies ram, ram.words
      ensures forall b: nat :: Upper(b) ==> Synced(ram.mem, t.cr3, kernel.cr3, b)
      ensures Valid() <==> 511 !in t.tree.pud
    {
      hide Valid, BesideAll, Around, KernelStands, TaskStands, Object, Copied, Holds, Synced, AddressSpace.Valid;
      hide PagePool.Pool.Valid, Frames.Mirror;
      OpenTask(t);
      OpenPool();
      RootOf(t);
      ghost var mem := ram.mem;
      CopyEntries(t.cr3, kernel.cr3, 256, 512);
      SyncStands(mem, ram.mem, pool.out, ViewOf(kernel), ViewOf(t));
      Resynced(t, mem);
    }

    lemma RootOf(t: AddressSpace)
      requires Valid() && t in tasks
      ensures t.cr3 != kernel.cr3 && t.cr3 < |ram.mem|
    {
      assert TaskOK(t, ram.mem, pool.out, ViewOf(kernel));
      hide PoolOK, Follows, LowEmpty, Frames.Mirror;
    }

    lemma Resynced(t: AddressSpace, mem: seq<seq<Word>>)
      requires PoolOK() && ram.Mirror() && t in tasks && kernel !in tasks && KernelOK(mem, pool.out)
      requires Object(t) && BesideAll(tasks, mem, pool.out, ViewOf(kernel))
      requires Copied(mem, ram.mem, t.cr3, kernel.cr3, 256, 512)
      ensures Valid() <==> 511 !in t.tree.pud
    {
      hide PagePool.Pool.Valid, Frames.Mirror, KernelStands, TaskStands, Stands, Run, Copied;
      ghost var k, w := ViewOf(kernel), ViewOf(t);
      CopiedRow(mem, ram.mem, w.cr3, k.cr3, 256, 512);
      SyncStands(mem, ram.mem, pool.out, k, w);
      Apart(mem, pool.out, k, w, k);
      RowWritten(mem, ram.mem, pool.out, pool.out, w.cr3, k, k);
      forall u | u in tasks && u != t ensures TaskStands(ram.mem, pool.out, k, ViewOf(u)) {
        Apart(mem, pool.out, k, w, ViewOf(u));
        RowWritten(mem, ram.mem, pool.out, pool.out, w.cr3, k, ViewOf(u));
      }
      if Valid() { assert TaskOK(t, ram.mem, pool.out, k); }
    }

    /** `MM_PageTable_cleanMap` for a task that is recycled: all its tables go back to the pool, and no
        other address space loses one. */
    method Clean(t: AddressSpace)
      requires Valid() && t in tasks && 0 !in t.tree.role
      requires forall a: nat :: a < 512 && t.Own(a) ==> t.NoLarge(2, a)
      modifies this`tasks, pool, pool.cachePool, pool.buddy.Repr()
      ensures Valid() && tasks == old(tasks) - {t} && pool.out == old(pool.out) - t.tree.role.Keys
    {
      hide Valid, BesideAll, Around, KernelOK, TaskOK, KernelStands, TaskStands, Object, Holds;
      hide AddressSpace.Valid, AddressSpace.NoLarge;
      hide PagePool.Pool.Valid, Frames.Mirror;
      OpenTask(t);
      OpenPool();
      AllOwn(t);
      ghost var ts, out := tasks, pool.out;
      t.CleanMap();
      tasks := tasks - {t};
      assert tasks + {t} == ts;
      Cleaned(t, out);
    }

    lemma AllOwn(t: AddressSpace)
      requires t.Valid() && t.tree.own == USER
      ensures t.OwnTables() == t.tree.role.Keys
      ensures forall a: nat :: a < 512 && t.Own(a) ==> a in t.tree.own
    {
      hide Frames.Mirror, PagePool.Pool.Valid, PgdOK, PudOK, PmdOK, PldOK, Fits, RolesOK, Under;
      InLower(t.tree, t.cr3);
    }

    lemma Cleaned(t: AddressSpace, out: set<int>)
      requires PoolOK() && ram.Mirror() && t !in tasks && kernel !in tasks && KernelOK(ram.mem, out)
      requires TaskOK(t, ram.mem, out, ViewOf(kernel)) && pool.out == out - t.tree.role.Keys
      requires BesideAll(tasks + {t}, ram.mem, out, ViewOf(kernel))
      ensures Valid()
    {
      hide PagePool.Pool.Valid, Frames.Mirror, KernelStands, TaskStands, Stands, Run;
      ghost var k, w := ViewOf(kernel), ViewOf(t);
      CleanStands(ram.mem, out, k, w, k);
      forall u | u in tasks ensures TaskStands(ram.mem, pool.out, k, ViewOf(u)) {
        assert u in tasks + {t} && t in tasks + {t};
        CleanStands(ram.mem, out, k, w, ViewOf(u));
      }
    }

    /** `MM_PageTable_getPldEntry` from a task's root, for a page of either half. */
    method Find(t: AddressSpace, v: nat) returns (w: Word)
      requires Valid() && t in tasks && v < PAGES
      ensures !Upper(PgdIndex(v)) ==> w == Lookup(Run(t.ops), v)
      ensures Upper(PgdIndex(v)) ==>
                w == if Synced(ram.mem, t.cr3, kernel.cr3, PgdIndex(v)) then Lookup(Run(kernel.ops), v) else NONE
    {
      hide Valid, BesideAll, Around, KernelStands, TaskStands, Object, Holds, Synced, AddressSpace.Valid;
      hide PagePool.Pool.Valid, Frames.Mirror, Walk, Sound, Lookup, Run, PgdIndex, Up;
      OpenTask(t);
      OpenPool();
      WhatIsSeen(ram.mem, pool.out, ViewOf(kernel), ViewOf(t), v);
      w := t.GetPldEntry(v);
    }
  }
}
