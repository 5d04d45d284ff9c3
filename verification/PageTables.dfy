/** The four-level page tables of kernel/memory/pgtable.c. Physical memory is an array of frames of
    512 words; addresses are frame numbers, virtual addresses virtual page numbers. */
module PageTables {
  import opened FlatMap
  import PagePool

  const TABLE_FLAGS := Flags(true, false, 6)
  const PAGES: nat := 512 * 512 * 512 * 512

  /** Shifting and masking an address. */
  function PgdIndex(v: nat): nat { v / 134217728 % 512 }
  function PudIndex(v: nat): (i: nat) ensures i < 512 { v / 262144 % 512 }
  function PmdIndex(v: nat): (i: nat) ensures i < 512 { v / 512 % 512 }
  function PldIndex(v: nat): (i: nat) ensures i < 512 { v % 512 }

  /** The page numbers with the low bits of a large page cleared. */
  function Down2M(p: nat): nat { p / 512 * 512 }
  function Down1G(p: nat): nat { p / 262144 * 262144 }

  /** The regions of a page, and the indices in their tables. */
  lemma Indices(v: nat)
    requires v < PAGES
    ensures PgdIndex(v) == Up(Up(Up(v))) < 512
    ensures PudIndex(v) == Idx(Up(Up(v))) && PmdIndex(v) == Idx(Up(v)) && PldIndex(v) == Idx(v)
  {
  }

  /** The entry of a large page. */
  function LargeWord(p: nat, flag: Flags): Word
  {
    Word(p, flag.(large := true, present := flag.present || p > 0))
  }

  /** What the entry of a large page of `n` frames around frame `p` has to be: the aligned frame at or below,
      the large bit, and present if it was asked for or the frame is not 0. */
  ghost predicate LargeEntry(w: Word, p: nat, flag: Flags, n: nat)
    requires n > 0
  {
    && w.frame % n == 0 && w.frame <= p < w.frame + n
    && w.flags.large && w.flags.other == flag.other && (w.flags.present <==> flag.present || w.frame > 0)
  }

  lemma LargeWords(p: nat, flag: Flags)
    ensures LargeEntry(LargeWord(Down2M(p), flag), p, flag, 512)
    ensures LargeEntry(LargeWord(Down1G(p), flag), p, flag, 262144)
  {
  }

  /** Nobody has entered the 2M region of page `v`, and it is in no large 1G region. */
  ghost predicate New2M(ops: seq<Op>, v: nat)
  {
    First2M(ops, Up(v)).Nobody? && !Large1G(ops, Up(Up(v)))
  }

  ghost predicate New1G(ops: seq<Op>, v: nat)
  {
    First1G(ops, Up(Up(v))).Nobody?
  }

  /** After the first mapping of a region as a large one, a lookup for any of its pages finds that entry. */
  lemma Found2M(ops: seq<Op>, v: nat, p: nat, flag: Flags, u: nat)
    requires New2M(ops, v) && Up(u) == Up(v)
    ensures LargeEntry(Lookup(Run(ops + [FlatMap.Map2M(Up(v), LargeWord(Down2M(p), flag))]), u), p, flag, 512)
  {
    var o := FlatMap.Map2M(Up(v), LargeWord(Down2M(p), flag));
    LargeWords(p, flag);
    Extended(ops, o, Up(v));
    Extended(ops, o, Up(Up(v)));
    hide Run, Lookup, LargeWord, First1G, First2M, Last;
    FirstComeFirstServed(ops + [o], u);
  }

  lemma Found1G(ops: seq<Op>, v: nat, p: nat, flag: Flags, u: nat)
    requires New1G(ops, v) && Up(Up(u)) == Up(Up(v))
    ensures LargeEntry(Lookup(Run(ops + [FlatMap.Map1G(Up(Up(v)), LargeWord(Down1G(p), flag))]), u), p, flag, 262144)
  {
    var o := FlatMap.Map1G(Up(Up(v)), LargeWord(Down1G(p), flag));
    LargeWords(p, flag);
    Extended(ops, o, Up(Up(v)));
    hide Run, Lookup, LargeWord, First1G, First2M, Last;
    FirstComeFirstServed(ops + [o], u);
  }

  lemma AllFound2M(ops: seq<Op>, v: nat, p: nat, flag: Flags)
    ensures var m := Run(ops + [FlatMap.Map2M(Up(v), LargeWord(Down2M(p), flag))]);
            New2M(ops, v) ==> forall u: nat :: Up(u) == Up(v) ==> LargeEntry(Lookup(m, u), p, flag, 512)
  {
    hide *;
    if New2M(ops, v) {
      forall u: nat | Up(u) == Up(v)
        ensures LargeEntry(Lookup(Run(ops + [FlatMap.Map2M(Up(v), LargeWord(Down2M(p), flag))]), u), p, flag, 512)
      {
        Found2M(ops, v, p, flag, u);
      }
    }
  }

  lemma AllFound1G(ops: seq<Op>, v: nat, p: nat, flag: Flags)
    ensures var m := Run(ops + [FlatMap.Map1G(Up(Up(v)), LargeWord(Down1G(p), flag))]);
            New1G(ops, v) ==> forall u: nat :: Up(Up(u)) == Up(Up(v)) ==> LargeEntry(Lookup(m, u), p, flag, 262144)
  {
    hide *;
    if New1G(ops, v) {
      forall u: nat | Up(Up(u)) == Up(Up(v))
        ensures var m := Run(ops + [FlatMap.Map1G(Up(Up(v)), LargeWord(Down1G(p), flag))]);
                LargeEntry(Lookup(m, u), p, flag, 262144)
      {
        Found1G(ops, v, p, flag, u);
      }
    }
  }

  /** Which table a frame is: of the root, or of a region of the next levels. */
  datatype Role = Pgd | Pud(a: nat) | Pmd(g: nat) | Pld(r: nat)

  /** The regions of the root that the tree is about, the tables of each level by region, and what each
      frame in use is. */
  datatype Tree = Tree(own: set<nat>, pud: map<nat, nat>, pmd: map<nat, nat>, pld: map<nat, nat>, role: map<nat, Role>)

  function TableWord(f: nat): Word
  {
    Word(f, TABLE_FLAGS)
  }

  ghost predicate PudTables(t: Tree)
  {
    forall a :: a in t.pud ==> a < 512 && a in t.own && t.pud[a] in t.role && t.role[t.pud[a]] == Pud(a)
  }

  ghost predicate PmdTables(t: Tree)
  {
    forall g :: g in t.pmd ==> Up(g) in t.pud && t.pmd[g] in t.role && t.role[t.pmd[g]] == Pmd(g)
  }

  ghost predicate PldTables(t: Tree)
  {
    forall r :: r in t.pld ==> Up(r) in t.pmd && t.pld[r] in t.role && t.role[t.pld[r]] == Pld(r)
  }

  /** No two entries share a table, and every frame in use is the table it is recorded as. */
  ghost predicate RolesOK(t: Tree, cr3: nat)
  {
    && cr3 in t.role && t.role[cr3] == Pgd
    && PudTables(t) && PmdTables(t) && PldTables(t)
    && (forall f :: f in t.role ==> Recorded(t, cr3, f))
  }

  ghost predicate Recorded(t: Tree, cr3: nat, f: nat)
    requires f in t.role
  {
    match t.role[f]
    case Pgd => f == cr3
    case Pud(a) => a in t.pud && t.pud[a] == f
    case Pmd(g) => g in t.pmd && t.pmd[g] == f
    case Pld(r) => r in t.pld && t.pld[r] == f
  }

  /** The tables and the large pages of the flat map are at the same places. */
  ghost predicate Fits(t: Tree, m: Flat)
  {
    && t.pmd.Keys == m.split1 && t.pld.Keys == m.split2
    && (forall g :: g in m.giga ==> Up(g) in t.pud && g !in t.pmd && m.giga[g].flags.large)
    && (forall r :: r in m.mega ==> Up(r) in t.pmd && r !in t.pld && m.mega[r].flags.large)
    && (forall v :: v in m.page ==> Up(v) in t.pld)
  }

  // ---------- the word each entry has to hold ----------

  function PgdWord(t: Tree, a: nat): Word
  {
    if a in t.pud then TableWord(t.pud[a]) else NONE
  }

  function PudWord(t: Tree, m: Flat, g: nat): Word
  {
    if g in m.giga then m.giga[g] else if g in t.pmd then TableWord(t.pmd[g]) else NONE
  }

  function PmdWord(t: Tree, m: Flat, r: nat): Word
  {
    if r in m.mega then m.mega[r] else if r in t.pld then TableWord(t.pld[r]) else NONE
  }

  function PldWord(m: Flat, v: nat): Word
  {
    if v in m.page then m.page[v] else NONE
  }

  // ---------- memory ----------

  ghost predicate Sized(mem: seq<seq<Word>>)
  {
    forall f :: 0 <= f < |mem| ==> |mem[f]| == 512
  }

  ghost predicate InMemory(t: Tree, n: nat)
  {
    forall f :: f in t.role ==> f < n
  }

  ghost predicate PgdOK(mem: seq<seq<Word>>, cr3: nat, t: Tree)
    requires Sized(mem) && cr3 < |mem|
  {
    forall a: nat :: a < 512 && a in t.own ==> mem[cr3][a] == PgdWord(t, a)
  }

  ghost predicate PudOK(mem: seq<seq<Word>>, t: Tree, m: Flat)
    requires Sized(mem)
  {
    forall g: nat :: Up(g) in t.pud && t.pud[Up(g)] < |mem| ==> mem[t.pud[Up(g)]][Idx(g)] == PudWord(t, m, g)
  }

  ghost predicate PmdOK(mem: seq<seq<Word>>, t: Tree, m: Flat)
    requires Sized(mem)
  {
    forall r: nat :: Up(r) in t.pmd && t.pmd[Up(r)] < |mem| ==> mem[t.pmd[Up(r)]][Idx(r)] == PmdWord(t, m, r)
  }

  ghost predicate PldOK(mem: seq<seq<Word>>, t: Tree, m: Flat)
    requires Sized(mem)
  {
    forall v: nat :: Up(v) in t.pld && t.pld[Up(v)] < |mem| ==> mem[t.pld[Up(v)]][Idx(v)] == PldWord(m, v)
  }

  /** The tables in `mem` hold exactly the flat map `m`. */
  ghost predicate Holds(mem: seq<seq<Word>>, cr3: nat, t: Tree, m: Flat)
  {
    && Sized(mem) && cr3 < |mem| && RolesOK(t, cr3) && InMemory(t, |mem|) && Fits(t, m)
    && PgdOK(mem, cr3, t) && PudOK(mem, t, m) && PmdOK(mem, t, m) && PldOK(mem, t, m)
  }

  ghost function Write(mem: seq<seq<Word>>, f: nat, i: nat, w: Word): (mem': seq<seq<Word>>)
    requires Sized(mem) && f < |mem| && i < 512
    ensures Sized(mem') && |mem'| == |mem|
  {
    mem[f := mem[f][i := w]]
  }

  ghost predicate Blank(mem: seq<seq<Word>>, f: nat)
    requires Sized(mem)
  {
    f < |mem| && forall i :: 0 <= i < 512 ==> mem[f][i] == NONE
  }

  lemma SameKey(k: nat, l: nat)
    requires Up(k) == Up(l) && Idx(k) == Idx(l)
    ensures k == l
  {
  }

  /** A write to a table of one level leaves the other levels alone. */
  lemma OtherLevels(mem: seq<seq<Word>>, cr3: nat, t: Tree, m: Flat, f: nat, i: nat, w: Word)
    requires Holds(mem, cr3, t, m) && f < |mem| && i < 512
    ensures f !in t.role || !t.role[f].Pgd? ==> PgdOK(Write(mem, f, i, w), cr3, t)
    ensures f !in t.role || !t.role[f].Pud? ==> PudOK(Write(mem, f, i, w), t, m)
    ensures f !in t.role || !t.role[f].Pmd? ==> PmdOK(Write(mem, f, i, w), t, m)
    ensures f !in t.role || !t.role[f].Pld? ==> PldOK(Write(mem, f, i, w), t, m)
  {
    hide Up, Idx, Fits;
  }

  // ---------- a new table ----------

  function WithPud(t: Tree, a: nat, f: nat): Tree { t.(pud := t.pud[a := f], role := t.role[f := Pud(a)]) }
  function WithPmd(t: Tree, g: nat, f: nat): Tree { t.(pmd := t.pmd[g := f], role := t.role[f := Pmd(g)]) }
  function WithPld(t: Tree, r: nat, f: nat): Tree { t.(pld := t.pld[r := f], role := t.role[f := Pld(r)]) }

  /** The frame `f` may become a table. */
  ghost predicate Spare(mem: seq<seq<Word>>, t: Tree, f: nat)
    requires Sized(mem)
  {
    Blank(mem, f) && f !in t.role
  }

  lemma PudRoles(t: Tree, cr3: nat, a: nat, f: nat)
    requires RolesOK(t, cr3) && a < 512 && a in t.own && a !in t.pud && f !in t.role
    ensures RolesOK(WithPud(t, a, f), cr3)
  {
    hide Up, Idx;
    var t' := WithPud(t, a, f);
    assert PudTables(t') by { hide PmdTables, PldTables, Recorded; }
    assert PmdTables(t') by { hide PudTables, PldTables, Recorded; }
    assert PldTables(t') by { hide PudTables, PmdTables, Recorded; }
    hide PudTables, PmdTables, PldTables;
  }

  lemma PudFits(t: Tree, m: Flat, a: nat, f: nat)
    requires Fits(t, m) && a < 512 && a !in t.pud
    ensures Fits(WithPud(t, a, f), m)
  {
    hide Up, Idx;
  }

  lemma PmdRoles(t: Tree, cr3: nat, g: nat, f: nat)
    requires RolesOK(t, cr3) && Up(g) in t.pud && g !in t.pmd && f !in t.role
    ensures RolesOK(WithPmd(t, g, f), cr3)
  {
    hide Up, Idx;
    var t' := WithPmd(t, g, f);
    assert PudTables(t') by { hide PmdTables, PldTables, Recorded; }
    assert PmdTables(t') by { hide PudTables, PldTables, Recorded; }
    assert PldTables(t') by { hide PudTables, PmdTables, Recorded; }
    hide PudTables, PmdTables, PldTables;
  }

  lemma PmdFits(t: Tree, m: Flat, g: nat, f: nat)
    requires Fits(t, m) && Up(g) in t.pud && g !in t.pmd && g !in m.giga
    ensures Fits(WithPmd(t, g, f), m.(split1 := m.split1 + {g}))
  {
    hide Up, Idx;
  }

  lemma PldRoles(t: Tree, cr3: nat, r: nat, f: nat)
    requires RolesOK(t, cr3) && Up(r) in t.pmd && r !in t.pld && f !in t.role
    ensures RolesOK(WithPld(t, r, f), cr3)
  {
    hide Up, Idx;
    var t' := WithPld(t, r, f);
    assert PudTables(t') by { hide PmdTables, PldTables, Recorded; }
    assert PmdTables(t') by { hide PudTables, PldTables, Recorded; }
    assert PldTables(t') by { hide PudTables, PmdTables, Recorded; }
    hide PudTables, PmdTables, PldTables;
  }

  lemma PldFits(t: Tree, m: Flat, r: nat, f: nat)
    requires Fits(t, m) && Up(r) in t.pmd && r !in t.pld && r !in m.mega
    ensures Fits(WithPld(t, r, f), m.(split2 := m.split2 + {r}))
  {
    hide Up, Idx;
  }

  /** A level as the written word leaves it, given what the written word has to be. */
  lemma PudWritten(mem: seq<seq<Word>>, t: Tree, t': Tree, m: Flat, m': Flat, cr3: nat, g: nat, w: Word)
    requires Sized(mem) && RolesOK(t, cr3) && PudOK(mem, t, m) && Up(g) in t.pud && t.pud[Up(g)] < |mem|
    requires t'.pud == t.pud
    requires w == PudWord(t', m', g) && forall k :: k != g ==> PudWord(t', m', k) == PudWord(t, m, k)
    ensures PudOK(Write(mem, t.pud[Up(g)], Idx(g), w), t', m')
  {
    hide PudWord;
    forall k: nat | Up(k) == Up(g) && Idx(k) == Idx(g) ensures k == g { SameKey(k, g); }
    hide Up, Idx;
  }

  lemma PmdWritten(mem: seq<seq<Word>>, t: Tree, t': Tree, m: Flat, m': Flat, cr3: nat, r: nat, w: Word)
    requires Sized(mem) && RolesOK(t, cr3) && PmdOK(mem, t, m) && Up(r) in t.pmd && t.pmd[Up(r)] < |mem|
    requires t'.pmd == t.pmd
    requires w == PmdWord(t', m', r) && forall k :: k != r ==> PmdWord(t', m', k) == PmdWord(t, m, k)
    ensures PmdOK(Write(mem, t.pmd[Up(r)], Idx(r), w), t', m')
  {
    hide PmdWord;
    forall k: nat | Up(k) == Up(r) && Idx(k) == Idx(r) ensures k == r { SameKey(k, r); }
    hide Up, Idx;
  }

  lemma PldWritten(mem: seq<seq<Word>>, t: Tree, m: Flat, m': Flat, cr3: nat, v: nat, w: Word)
    requires Sized(mem) && RolesOK(t, cr3) && PldOK(mem, t, m) && Up(v) in t.pld && t.pld[Up(v)] < |mem|
    requires w == PldWord(m', v) && forall k :: k != v ==> PldWord(m', k) == PldWord(m, k)
    ensures PldOK(Write(mem, t.pld[Up(v)], Idx(v), w), t, m')
  {
    hide PldWord;
    forall k: nat | Up(k) == Up(v) && Idx(k) == Idx(v) ensures k == v { SameKey(k, v); }
    hide Up, Idx;
  }

  /** A blank new table is right where nothing was mapped. */
  lemma PudBlank(mem: seq<seq<Word>>, t: Tree, m: Flat, a: nat, f: nat)
    requires Sized(mem) && PudOK(mem, t, m) && Blank(mem, f)
    requires forall g :: Up(g) == a ==> PudWord(t, m, g) == NONE
    ensures PudOK(mem, WithPud(t, a, f), m)
  {
    hide Up;
  }

  lemma PmdBlank(mem: seq<seq<Word>>, t: Tree, m: Flat, m': Flat, g: nat, f: nat)
    requires Sized(mem) && PmdOK(mem, t, m) && Blank(mem, f) && m'.mega == m.mega
    requires forall r :: Up(r) == g ==> PmdWord(t, m, r) == NONE
    ensures PmdOK(mem, WithPmd(t, g, f), m')
  {
    hide Up;
  }

  lemma PldBlank(mem: seq<seq<Word>>, t: Tree, m: Flat, m': Flat, r: nat, f: nat)
    requires Sized(mem) && PldOK(mem, t, m) && Blank(mem, f) && m'.page == m.page
    requires forall v :: Up(v) == r ==> PldWord(m, v) == NONE
    ensures PldOK(mem, WithPld(t, r, f), m')
  {
    hide Up;
  }

  lemma StillBlank(mem: seq<seq<Word>>, f: nat, g: nat, i: nat, w: Word)
    requires Sized(mem) && Blank(mem, f) && g < |mem| && g != f && i < 512
    ensures Blank(Write(mem, g, i, w), f)
  {
  }

  lemma PudAdded(mem: seq<seq<Word>>, cr3: nat, t: Tree, m: Flat, a: nat, f: nat)
    requires Holds(mem, cr3, t, m) && a < 512 && a in t.own && a !in t.pud && Spare(mem, t, f)
    ensures Holds(Write(mem, cr3, a, TableWord(f)), cr3, WithPud(t, a, f), m)
  {
    var mem', t' := Write(mem, cr3, a, TableWord(f)), WithPud(t, a, f);
    OtherLevels(mem, cr3, t, m, cr3, a, TableWord(f));
    PudRoles(t, cr3, a, f);
    PudFits(t, m, a, f);
    StillBlank(mem, f, cr3, a, TableWord(f));
    assert forall g :: Up(g) == a ==> PudWord(t, m, g) == NONE;
    PudBlank(mem', t, m, a, f);
    assert PgdOK(mem', cr3, t');
    hide PgdOK, PudOK, RolesOK, Fits;
    SameLower(mem', t, t', m);
  }

  lemma SameUpper(mem: seq<seq<Word>>, t: Tree, t': Tree, m: Flat)
    requires Sized(mem) && t'.pud == t.pud && t'.pmd == t.pmd
    ensures PudOK(mem, t, m) ==> PudOK(mem, t', m)
  {
    hide Up, Idx;
  }

  lemma SameLower(mem: seq<seq<Word>>, t: Tree, t': Tree, m: Flat)
    requires Sized(mem) && t'.pld == t.pld
    ensures PmdOK(mem, t, m) && t'.pmd == t.pmd ==> PmdOK(mem, t', m)
    ensures PldOK(mem, t, m) ==> PldOK(mem, t', m)
  {
    hide Up, Idx;
  }

  lemma SameTop(mem: seq<seq<Word>>, cr3: nat, t: Tree, t': Tree)
    requires Sized(mem) && cr3 < |mem| && t'.pud == t.pud && t'.own == t.own
    ensures PgdOK(mem, cr3, t) ==> PgdOK(mem, cr3, t')
  {
  }

  /** Nothing is mapped below a missing table. */
  lemma NoneInNew(t: Tree, cr3: nat, m: Flat, g: nat)
    requires RolesOK(t, cr3) && Fits(t, m) && g !in t.pmd
    ensures forall r: nat :: Up(r) == g ==> PmdWord(t, m, r) == NONE
  {
    hide Recorded, Up;
  }

  lemma NoneInPld(t: Tree, m: Flat, r: nat)
    requires Fits(t, m) && r !in t.pld
    ensures forall v: nat :: Up(v) == r ==> PldWord(m, v) == NONE
  {
    hide Up;
  }

  lemma PmdAdded(mem: seq<seq<Word>>, cr3: nat, t: Tree, m: Flat, g: nat, f: nat)
    requires Holds(mem, cr3, t, m) && Up(g) in t.pud && g !in t.pmd && g !in m.giga && Spare(mem, t, f)
    ensures Holds(Write(mem, t.pud[Up(g)], Idx(g), TableWord(f)), cr3, WithPmd(t, g, f), m.(split1 := m.split1 + {g}))
  {
    hide PgdOK, PudOK, PmdOK, PldOK, PmdTables, PldTables, Recorded, Fits, Idx, Up;
    var at := t.pud[Up(g)];
    var mem', t', m' := Write(mem, at, Idx(g), TableWord(f)), WithPmd(t, g, f), m.(split1 := m.split1 + {g});
    assert at in t.role && t.role[at] == Pud(Up(g));
    OtherLevels(mem, cr3, t, m, at, Idx(g), TableWord(f));
    PmdRoles(t, cr3, g, f);
    PmdFits(t, m, g, f);
    PudWritten(mem, t, t', m, m', cr3, g, TableWord(f));
    StillBlank(mem, f, at, Idx(g), TableWord(f));
    NoneInNew(t, cr3, m, g);
    hide RolesOK;
    PmdBlank(mem', t, m, m', g, f);
    SameTop(mem', cr3, t, t');
    SameLower(mem', t, t', m);
    SameWords(mem', t', m, m');
  }

  lemma PldAdded(mem: seq<seq<Word>>, cr3: nat, t: Tree, m: Flat, r: nat, f: nat)
    requires Holds(mem, cr3, t, m) && Up(r) in t.pmd && r !in t.pld && r !in m.mega && Spare(mem, t, f)
    ensures Holds(Write(mem, t.pmd[Up(r)], Idx(r), TableWord(f)), cr3, WithPld(t, r, f), m.(split2 := m.split2 + {r}))
  {
    hide PgdOK, PudOK, PmdOK, PldOK, PudTables, PldTables, Recorded, Fits, Idx, Up;
    var at := t.pmd[Up(r)];
    var mem', t', m' := Write(mem, at, Idx(r), TableWord(f)), WithPld(t, r, f), m.(split2 := m.split2 + {r});
    assert at in t.role && t.role[at] == Pmd(Up(r));
    OtherLevels(mem, cr3, t, m, at, Idx(r), TableWord(f));
    PldRoles(t, cr3, r, f);
    PldFits(t, m, r, f);
    PmdWritten(mem, t, t', m, m', cr3, r, TableWord(f));
    StillBlank(mem, f, at, Idx(r), TableWord(f));
    NoneInPld(t, m, r);
    hide RolesOK;
    PldBlank(mem', t, m, m', r, f);
    SameTop(mem', cr3, t, t');
    SameUpper(mem', t, t', m);
    SameWords(mem', t', m, m');
  }

  // ---------- a mapping ----------

  lemma SameWords(mem: seq<seq<Word>>, t: Tree, m: Flat, m': Flat)
    requires Sized(mem)
    ensures PudOK(mem, t, m) && m'.giga == m.giga ==> PudOK(mem, t, m')
    ensures PmdOK(mem, t, m) && m'.mega == m.mega ==> PmdOK(mem, t, m')
    ensures PldOK(mem, t, m) && m'.page == m.page ==> PldOK(mem, t, m')
  {
    hide Up, Idx;
  }

  lemma PageFits(t: Tree, cr3: nat, m: Flat, v: nat, w: Word)
    requires RolesOK(t, cr3) && Fits(t, m) && Up(v) in t.pld
    ensures t.pld[Up(v)] in t.role && t.role[t.pld[Up(v)]] == Pld(Up(v)) && Fits(t, m.(page := m.page[v := w]))
  {
    hide Recorded, Up;
  }

  lemma PageSet(mem: seq<seq<Word>>, cr3: nat, t: Tree, m: Flat, v: nat, w: Word)
    requires Holds(mem, cr3, t, m) && Up(v) in t.pld
    ensures Holds(Write(mem, t.pld[Up(v)], Idx(v), w), cr3, t, m.(page := m.page[v := w]))
  {
    hide Up, Idx, PgdOK, PudOK, PmdOK, PldOK, RolesOK, Fits;
    var at, m' := t.pld[Up(v)], m.(page := m.page[v := w]);
    PageFits(t, cr3, m, v, w);
    OtherLevels(mem, cr3, t, m, at, Idx(v), w);
    PldWritten(mem, t, m, m', cr3, v, w);
    SameWords(Write(mem, at, Idx(v), w), t, m, m');
  }

  lemma MegaFits(t: Tree, cr3: nat, m: Flat, r: nat, w: Word)
    requires RolesOK(t, cr3) && Fits(t, m) && Up(r) in t.pmd && r !in t.pld && w.flags.large
    ensures t.pmd[Up(r)] in t.role && t.role[t.pmd[Up(r)]] == Pmd(Up(r)) && Fits(t, m.(mega := m.mega[r := w]))
  {
    hide Recorded, Up;
  }

  lemma MegaSet(mem: seq<seq<Word>>, cr3: nat, t: Tree, m: Flat, r: nat, w: Word)
    requires Holds(mem, cr3, t, m) && Up(r) in t.pmd && r !in t.pld && w.flags.large
    ensures Holds(Write(mem, t.pmd[Up(r)], Idx(r), w), cr3, t, m.(mega := m.mega[r := w]))
  {
    hide Up, Idx, PgdOK, PudOK, PmdOK, PldOK, RolesOK, Fits;
    var at, m' := t.pmd[Up(r)], m.(mega := m.mega[r := w]);
    MegaFits(t, cr3, m, r, w);
    OtherLevels(mem, cr3, t, m, at, Idx(r), w);
    PmdWritten(mem, t, t, m, m', cr3, r, w);
    SameWords(Write(mem, at, Idx(r), w), t, m, m');
  }

  lemma GigaFits(t: Tree, cr3: nat, m: Flat, g: nat, w: Word)
    requires RolesOK(t, cr3) && Fits(t, m) && Up(g) in t.pud && g !in t.pmd && w.flags.large
    ensures t.pud[Up(g)] in t.role && t.role[t.pud[Up(g)]] == Pud(Up(g)) && Fits(t, m.(giga := m.giga[g := w]))
  {
    hide Recorded, Up;
  }

  lemma GigaSet(mem: seq<seq<Word>>, cr3: nat, t: Tree, m: Flat, g: nat, w: Word)
    requires Holds(mem, cr3, t, m) && Up(g) in t.pud && g !in t.pmd && w.flags.large
    ensures Holds(Write(mem, t.pud[Up(g)], Idx(g), w), cr3, t, m.(giga := m.giga[g := w]))
  {
    hide Up, Idx, PgdOK, PudOK, PmdOK, PldOK, RolesOK, Fits;
    var at, m' := t.pud[Up(g)], m.(giga := m.giga[g := w]);
    GigaFits(t, cr3, m, g, w);
    OtherLevels(mem, cr3, t, m, at, Idx(g), w);
    PudWritten(mem, t, t, m, m', cr3, g, w);
    SameWords(Write(mem, at, Idx(g), w), t, m, m');
  }

  // ---------- the tables below a table ----------

  /** The region that the table `x` lies in at level `lvl`, if it is of that level or below. */
  ghost predicate Under(x: Role, lvl: nat, k: nat)
  {
    match x
    case Pgd => false
    case Pud(a) => lvl == 2 && a == k
    case Pmd(g) => (lvl == 2 && Up(g) == k) || (lvl == 1 && g == k)
    case Pld(r) => (lvl == 2 && Up(Up(r)) == k) || (lvl == 1 && Up(r) == k) || (lvl == 0 && r == k)
  }

  /** The table of region `k` of level `lvl` and all below it. */
  ghost function Sub(t: Tree, lvl: nat, k: nat): set<nat>
  {
    set f | f in t.role && Under(t.role[f], lvl, k)
  }

  function Child(k: nat, i: nat): nat { k * 512 + i }

  lemma ChildOf(k: nat, i: nat)
    requires i < 512
    ensures Up(Child(k, i)) == k && Idx(Child(k, i)) == i
  {
  }

  /** The tables below the first `i` entries of the table of region `k`. */
  ghost function Part(t: Tree, lvl: nat, k: nat, i: nat): set<nat>
  {
    set f | f in t.role && Before(t.role[f], lvl, k, i)
  }

  ghost predicate Before(x: Role, lvl: nat, k: nat, i: nat)
  {
    match x
    case Pgd => false
    case Pud(a) => false
    case Pmd(g) => lvl == 2 && Up(g) == k && Idx(g) < i
    case Pld(r) => (lvl == 2 && Up(Up(r)) == k && Idx(Up(r)) < i) || (lvl == 1 && Up(r) == k && Idx(r) < i)
  }

  ghost predicate IsTable(t: Tree, lvl: nat, k: nat)
  {
    if lvl == 2 then k in t.pud else if lvl == 1 then k in t.pmd else k in t.pld
  }

  ghost function TableOf(t: Tree, lvl: nat, k: nat): nat
    requires IsTable(t, lvl, k)
  {
    if lvl == 2 then t.pud[k] else if lvl == 1 then t.pmd[k] else t.pld[k]
  }

  lemma PldSub(t: Tree, cr3: nat, r: nat)
    requires RolesOK(t, cr3) && r in t.pld
    ensures Sub(t, 0, r) == {t.pld[r]}
  {
  }

  lemma PartNone(t: Tree, lvl: nat, k: nat)
    ensures Part(t, lvl, k, 0) == {}
  {
  }

  lemma BeforeNext(x: Role, lvl: nat, k: nat, i: nat)
    requires 0 < lvl <= 2 && i < 512
    ensures Before(x, lvl, k, i + 1) <==> Before(x, lvl, k, i) || Under(x, lvl - 1, Child(k, i))
    ensures !(Before(x, lvl, k, i) && Under(x, lvl - 1, Child(k, i)))
  {
    ChildOf(k, i);
    var c := Child(k, i);
    forall j: nat | Up(j) == k && Idx(j) == i ensures j == c { SameKey(j, c); }
    hide Up, Idx, Child;
  }

  lemma NoneUnder(t: Tree, cr3: nat, lvl: nat, k: nat)
    requires RolesOK(t, cr3) && lvl <= 2 && !IsTable(t, lvl, k)
    ensures Sub(t, lvl, k) == {}
  {
    hide Up;
    forall f | f in t.role ensures !Under(t.role[f], lvl, k) {
      assert Recorded(t, cr3, f);
    }
  }

  /** One more entry: the tables below it, if it leads to one. */
  lemma PartStep(t: Tree, cr3: nat, lvl: nat, k: nat, i: nat)
    requires RolesOK(t, cr3) && 0 < lvl <= 2 && i < 512
    ensures Part(t, lvl, k, i + 1) == Part(t, lvl, k, i) + Sub(t, lvl - 1, Child(k, i))
    ensures Part(t, lvl, k, i) !! Sub(t, lvl - 1, Child(k, i))
    ensures !IsTable(t, lvl - 1, Child(k, i)) ==> Sub(t, lvl - 1, Child(k, i)) == {}
    ensures Sub(t, lvl - 1, Child(k, i)) <= Sub(t, lvl, k)
  {
    ChildOf(k, i);
    hide Before, Child, Up, Idx;
    forall f | f in t.role
      ensures Before(t.role[f], lvl, k, i + 1) <==>
                Before(t.role[f], lvl, k, i) || Under(t.role[f], lvl - 1, Child(k, i))
      ensures !(Before(t.role[f], lvl, k, i) && Under(t.role[f], lvl - 1, Child(k, i)))
    {
      BeforeNext(t.role[f], lvl, k, i);
    }
    if !IsTable(t, lvl - 1, Child(k, i)) {
      NoneUnder(t, cr3, lvl - 1, Child(k, i));
    }
  }

  /** All entries, and the table itself. */
  lemma PartAll(t: Tree, cr3: nat, lvl: nat, k: nat)
    requires RolesOK(t, cr3) && 0 < lvl <= 2 && IsTable(t, lvl, k)
    ensures Sub(t, lvl, k) == Part(t, lvl, k, 512) + {TableOf(t, lvl, k)}
    ensures TableOf(t, lvl, k) !in Part(t, lvl, k, 512)
  {
    hide Up;
    forall f | f in t.role && Under(t.role[f], lvl, k) ensures f in Part(t, lvl, k, 512) || f == TableOf(t, lvl, k) {
      assert Recorded(t, cr3, f);
    }
  }

  /** The low twelve bits of an entry. */
  function Bits(f: Flags): nat
  {
    (if f.present then 1 else 0) + (if f.large then 128 else 0) + f.other
  }

  /** Entries that lead to tables are present, writable and open to users, with nothing else set. */
  lemma TableEntries(mem: seq<seq<Word>>, cr3: nat, t: Tree, m: Flat)
    requires Holds(mem, cr3, t, m)
    ensures forall a :: a in t.pud ==> mem[cr3][a].frame == t.pud[a] && Bits(mem[cr3][a].flags) == 0x7
    ensures forall g: nat :: g in t.pmd ==>
              t.pud[Up(g)] < |mem| && mem[t.pud[Up(g)]][Idx(g)] == Word(t.pmd[g], TABLE_FLAGS)
    ensures forall r: nat :: r in t.pld ==>
              t.pmd[Up(r)] < |mem| && mem[t.pmd[Up(r)]][Idx(r)] == Word(t.pld[r], TABLE_FLAGS)
    ensures Bits(TABLE_FLAGS) == 0x7
  {
    hide Up, Idx, Recorded;
  }

  // ---------- walking the tables ----------

  /** The tables on the way of a walk are in memory. */
  ghost predicate Sound(mem: seq<seq<Word>>, cr3: nat, v: nat)
  {
    && Sized(mem) && cr3 < |mem| && PgdIndex(v) < 512 && SoundBelow(mem, mem[cr3][PgdIndex(v)], v)
  }

  ghost predicate SoundBelow(mem: seq<seq<Word>>, w: Word, v: nat)
    requires Sized(mem)
  {
    w == NONE || (w.frame < |mem| &&
    var w1 := mem[w.frame][PudIndex(v)];
    w1 == NONE || w1.flags.large || (w1.frame < |mem| &&
    var w2 := mem[w1.frame][PmdIndex(v)];
    w2 == NONE || w2.flags.large || w2.frame < |mem|))
  }

  /** The entry a walk from the root `cr3` ends at. */
  ghost function Walk(mem: seq<seq<Word>>, cr3: nat, v: nat): Word
    requires Sound(mem, cr3, v)
  {
    WalkBelow(mem, mem[cr3][PgdIndex(v)], v)
  }

  ghost function WalkBelow(mem: seq<seq<Word>>, w: Word, v: nat): Word
    requires Sized(mem) && SoundBelow(mem, w, v)
  {
    if w == NONE then w else
      var w1 := mem[w.frame][PudIndex(v)];
      if w1 == NONE || w1.flags.large then w1 else
        var w2 := mem[w1.frame][PmdIndex(v)];
        if w2 == NONE || w2.flags.large then w2 else mem[w2.frame][PldIndex(v)]
  }

  /** Nothing is mapped where a table is missing. */
  lemma Above(t: Tree, cr3: nat, m: Flat, v: nat)
    requires RolesOK(t, cr3) && Fits(t, m)
    ensures v in m.page ==> Up(v) in t.pld
    ensures Up(v) in m.mega || Up(v) in t.pld ==> Up(Up(v)) in t.pmd
    ensures Up(Up(v)) in m.giga || Up(Up(v)) in t.pmd ==> Up(Up(Up(v))) in t.pud
  {
  }

  /** The words on the way of a walk. */
  lemma OnTheWay(mem: seq<seq<Word>>, cr3: nat, t: Tree, m: Flat, v: nat)
    requires Holds(mem, cr3, t, m) && v < PAGES && Up(Up(Up(v))) in t.own
    ensures Sized(mem) && cr3 < |mem| && PgdIndex(v) < 512 && mem[cr3][PgdIndex(v)] == PgdWord(t, Up(Up(Up(v))))
    ensures var u := Up(Up(v)); Up(u) in t.pud ==>
              t.pud[Up(u)] < |mem| && mem[t.pud[Up(u)]][PudIndex(v)] == PudWord(t, m, u)
    ensures var r := Up(v); Up(r) in t.pmd ==>
              t.pmd[Up(r)] < |mem| && mem[t.pmd[Up(r)]][PmdIndex(v)] == PmdWord(t, m, r)
    ensures Up(v) in t.pld ==> t.pld[Up(v)] < |mem| && mem[t.pld[Up(v)]][PldIndex(v)] == PldWord(m, v)
  {
    hide Recorded, Up, Idx, PgdIndex, PudIndex, PmdIndex, PldIndex, Fits;
    Indices(v);
  }

  /** A walk for a page of the tree's own regions finds its entry of the flat map. */
  lemma Walked(mem: seq<seq<Word>>, cr3: nat, t: Tree, m: Flat, v: nat)
    requires Holds(mem, cr3, t, m) && v < PAGES && Up(Up(Up(v))) in t.own
    ensures Sound(mem, cr3, v) && Walk(mem, cr3, v) == Lookup(m, v)
  {
    hide PgdOK, PudOK, PmdOK, PldOK, RolesOK, InMemory, Up, Idx, PgdIndex, PudIndex, PmdIndex, PldIndex;
    OnTheWay(mem, cr3, t, m, v);
    Above(t, cr3, m, v);
  }

  // ---------- what a mapping touches ----------

  /** The memory, the tables of an address space, and the pages the pool has given out. */
  datatype Snap = Snap(mem: seq<seq<Word>>, tree: Tree, out: set<int>)

  ghost predicate OthersKept(mem: seq<seq<Word>>, mem': seq<seq<Word>>, f: nat)
  {
    |mem'| == |mem| && forall g :: 0 <= g < |mem| && g != f ==> mem'[g] == mem[g]
  }

  ghost predicate NewFrame(s: Snap, s': Snap, f: nat)
  {
    OthersKept(s.mem, s'.mem, f) && s'.tree == s.tree && f !in s.out && s'.out == s.out + {f}
  }

  /** The tables of region `a` of the root. */
  ghost predicate InRegion(t: Tree, f: nat, a: nat)
  {
    f in t.role && Under(t.role[f], 2, a)
  }

  /** The other tables are still tables, and the new ones are new pages below region `a`. */
  ghost predicate Grown(s: Snap, s': Snap, a: nat)
  {
    && s'.tree.own == s.tree.own
    && (forall f :: f in s.tree.role ==> f in s'.tree.role && s'.tree.role[f] == s.tree.role[f])
    && (forall f :: f in s'.tree.role && f !in s.tree.role ==> f !in s.out && Under(s'.tree.role[f], 2, a))
  }

  /** Row `cr3` is as it was but for entry `a`. */
  ghost predicate OneEntry(mem: seq<seq<Word>>, mem': seq<seq<Word>>, cr3: nat, a: nat)
  {
    Sized(mem) && Sized(mem') && cr3 < |mem| == |mem'| && forall b :: 0 <= b < 512 && b != a ==>
        mem'[cr3][b] == mem[cr3][b]
  }

  /** Of the pages in use only the root's entry for region `a` and the tables of that region have changed. */
  ghost predicate Confined(s: Snap, s': Snap, cr3: nat, a: nat)
  {
    && OneEntry(s.mem, s'.mem, cr3, a) && s.out <= s'.out && Grown(s, s', a)
    && (forall f: nat :: f < |s.mem| && f in s.out && f != cr3 && !InRegion(s.tree, f, a) ==> s'.mem[f] == s.mem[f])
  }

  lemma Unchanged(s: Snap, cr3: nat, a: nat)
    requires Sized(s.mem) && cr3 < |s.mem|
    ensures Confined(s, s, cr3, a)
  {
  }

  lemma Further(s: Snap, s': Snap, s'': Snap, cr3: nat, a: nat)
    requires Confined(s, s', cr3, a) && Confined(s', s'', cr3, a)
    ensures Confined(s, s'', cr3, a)
  {
    hide Under;
    forall f | f in s''.tree.role && f !in s.tree.role ensures f !in s.out && Under(s''.tree.role[f], 2, a) {
      if f in s'.tree.role { assert s''.tree.role[f] == s'.tree.role[f]; }
    }
  }

  /** A new page hung in below region `a`. */
  lemma Hung(s: Snap, s': Snap, s'': Snap, cr3: nat, a: nat, f: nat, at: nat, i: nat, x: Role)
    requires NewFrame(s, s', f) && f !in s.tree.role && Sized(s.mem) && Sized(s'.mem) && at < |s.mem| && i < 512
    requires cr3 in s.tree.role && cr3 < |s.mem| && s.tree.role[cr3] == Pgd
    requires (at == cr3 && i == a) || InRegion(s.tree, at, a)
    requires s''.mem == Write(s'.mem, at, i, TableWord(f)) && s''.out == s'.out
    requires s''.tree.own == s.tree.own && s''.tree.role == s.tree.role[f := x] && Under(x, 2, a)
    ensures Confined(s, s'', cr3, a)
  {
    assert !InRegion(s.tree, cr3, a);
    hide Under;
  }

  lemma Wrote(s: Snap, s': Snap, cr3: nat, a: nat, at: nat, i: nat, w: Word)
    requires Sized(s.mem) && at < |s.mem| && i < 512 && InRegion(s.tree, at, a)
    requires cr3 in s.tree.role && cr3 < |s.mem| && s.tree.role[cr3] == Pgd
    requires s'.mem == Write(s.mem, at, i, w) && s'.tree == s.tree && s'.out == s.out
    ensures Confined(s, s', cr3, a)
  {
    assert !InRegion(s.tree, cr3, a);
    hide Under;
  }

  /** A table lies in the region of the root it was made for. */
  lemma Where(t: Tree, cr3: nat)
    requires RolesOK(t, cr3)
    ensures forall a :: a in t.pud ==> InRegion(t, t.pud[a], a)
    ensures forall g :: g in t.pmd ==> InRegion(t, t.pmd[g], Up(g))
    ensures forall r :: r in t.pld ==> InRegion(t, t.pld[r], Up(Up(r)))
  {
    hide Recorded, Up;
  }

  /** Physical memory. */
  class Frames {
    const words: array2<Word>
    ghost var mem: seq<seq<Word>>

    /** `mem` is what the memory holds. */
    ghost predicate Mirror()
      reads this, words
    {
      && words.Length1 == 512 && |mem| == words.Length0 && Sized(mem)
      && (forall f, i :: 0 <= f < words.Length0 && 0 <= i < 512 ==> mem[f][i] == words[f, i])
    }

    constructor (memory: array2<Word>)
      requires memory.Length1 == 512
      ensures Mirror() && words == memory
    {
      words := memory;
      mem := seq(memory.Length0, f requires 0 <= f < memory.Length0 reads memory =>
                   seq(memory.Length1, i requires 0 <= i < memory.Length1 reads memory => memory[f, i]));
    }

    method Put(f: nat, i: nat, w: Word)
      requires Mirror() && f < words.Length0 && i < 512
      modifies this, words
      ensures Mirror() && mem == Write(old(mem), f, i, w)
    {
      words[f, i] := w;
      mem := Write(mem, f, i, w);
    }
  }

  class AddressSpace {
    const ram: Frames
    const pool: PagePool.Pool
    const cr3: nat
    ghost var tree: Tree
    /** The mappings made so far, and what they mean. */
    ghost var ops: seq<Op>
    ghost var flat: Flat

    /** Every table is a page given out by the pool. */
    ghost predicate FromPool()
      reads this`tree, pool`out
    {
      forall f :: f in tree.role ==> f in pool.out
    }

    ghost predicate PoolOK()
      reads pool, pool.cachePool, pool.buddy.Repr()
    {
      && pool.Valid() && ram.words.Length0 == pool.buddy.pages.Length
      && {ram, ram.words} !! pool.buddy.Repr() + {pool, pool.cachePool}
    }

    ghost predicate Apart()
    {
      this !in pool.buddy.Repr() + {pool, pool.cachePool}
    }

    ghost predicate Built()
      reads this, ram, ram.words, pool, pool.cachePool, pool.buddy.Repr()
    {
      ram.Mirror() && Holds(ram.mem, cr3, tree, flat) && FromPool() && PoolOK() && Apart()
    }

    ghost predicate Valid()
      reads this, ram, ram.words, pool, pool.cachePool, pool.buddy.Repr()
    {
      Built() && flat == Run(ops)
    }

    /** An address space whose root table is zero for the regions it is about. */
    constructor (memory: Frames, p: PagePool.Pool, root: nat, ghost own: set<nat>)
      requires p.Valid() && root in p.out && memory.Mirror()
      requires {memory, memory.words} !! p.buddy.Repr() + {p, p.cachePool}
      requires memory.words.Length0 == p.buddy.pages.Length && root < memory.words.Length0
      requires forall a :: a in own && a < 512 ==> memory.mem[root][a] == NONE
      ensures Valid() && ram == memory && pool == p && cr3 == root && ops == []
      ensures tree == Tree(own, map[], map[], map[], map[root := Pgd])
    {
      hide PagePool.Pool.Valid;
      ram, pool, cr3 := memory, p, root;
      tree, ops, flat := Tree(own, map[], map[], map[], map[root := Pgd]), [], EMPTY;
    }

    /** An address space over tables that are there already and hold the run `done`, as those that the
        boot code lays down. */
    constructor Adopt(memory: Frames, p: PagePool.Pool, root: nat, ghost t: Tree, ghost done: seq<Op>)
      requires p.Valid() && memory.Mirror() && {memory, memory.words} !! p.buddy.Repr() + {p, p.cachePool}
      requires memory.words.Length0 == p.buddy.pages.Length && (forall f :: f in t.role ==> f in p.out)
      requires Holds(memory.mem, root, t, Run(done))
      ensures Valid() && ram == memory && pool == p && cr3 == root && ops == done && tree == t
    {
      hide PagePool.Pool.Valid, Holds, Run;
      ram, pool, cr3, tree, ops, flat := memory, p, root, t, done, Run(done);
    }

    /** What a mapping may touch. */
    ghost function Now(): Snap
      reads this`tree, ram`mem, pool`out
    {
      Snap(ram.mem, tree, pool.out)
    }

    // ---------- lookup ----------

    /** `MM_PageTable_getPldEntry`. */
    method GetPldEntry(v: nat) returns (w: Word)
      requires ram.Mirror() && v < PAGES && Sound(ram.mem, cr3, v)
      ensures w == Walk(ram.mem, cr3, v)
      ensures Holds(ram.mem, cr3, tree, flat) && Up(Up(Up(v))) in tree.own ==> w == Lookup(flat, v)
    {
      hide Up, Idx, PgdIndex, PudIndex, PmdIndex, PldIndex, Lookup, Holds;
      Indices(v);
      if Holds(ram.mem, cr3, tree, flat) && Up(Up(Up(v))) in tree.own { Walked(ram.mem, cr3, tree, flat, v); }
      w := ram.words[cr3, PgdIndex(v)];
      if w == NONE { return; }
      w := ram.words[w.frame, PudIndex(v)];
      if w == NONE || w.flags.large { return; }
      w := ram.words[w.frame, PmdIndex(v)];
      if w == NONE || w.flags.large { return; }
      w := ram.words[w.frame, PldIndex(v)];
    }

    // ---------- tables ----------

    /** A zeroed page from the pool, -1 if there is none. */
    method NewTable(ghost k: nat) returns (f: int)
      requires Built()
      modifies ram, ram.words, pool, pool.cachePool, pool.buddy.Repr()
      ensures f != -1 ==>
                Built() && 0 <= f && Spare(ram.mem, tree, f) && f in pool.out && NewFrame(old(Now()), Now(), f)
      ensures k <= 2 && old(pool.Serves(k + 1)) ==> f != -1 && pool.Serves(k)
    {
      hide Holds, RolesOK, PagePool.Pool.Valid, PagePool.Pool.Refillable;
      f := pool.Alloc();
      if f != -1 {
        Clear(f);
      }
    }

    /** Zeroes a frame that is no table. */
    method Clear(f: nat)
      requires ram.Mirror() && Holds(ram.mem, cr3, tree, flat) && f < ram.words.Length0 && f !in tree.role
      modifies ram, ram.words
      ensures ram.Mirror() && Holds(ram.mem, cr3, tree, flat) && Spare(ram.mem, tree, f)
      ensures OthersKept(old(ram.mem), ram.mem, f)
    {
      hide RolesOK, Fits;
      for i := 0 to 512
        invariant OthersKept(old(ram.mem), ram.mem, f)
        invariant ram.Mirror() && Holds(ram.mem, cr3, tree, flat)
        invariant forall j :: 0 <= j < i ==> ram.mem[f][j] == NONE
      {
        OtherLevels(ram.mem, cr3, tree, flat, f, i, NONE);
        ram.Put(f, i, NONE);
      }
    }

    method AddPud(a: nat, f: nat)
      requires Built() && a < 512 && a in tree.own && a !in tree.pud && Spare(ram.mem, tree, f) && f in pool.out
      modifies ram, ram.words, this`tree
      ensures Built() && tree == WithPud(old(tree), a, f) && ram.mem == Write(old(ram.mem), cr3, a, TableWord(f))
    {
      hide Holds, Frames.Mirror, Spare, PoolOK;
      PudAdded(ram.mem, cr3, tree, flat, a, f);
      InRange();
      ram.Put(cr3, a, TableWord(f));
      tree := WithPud(tree, a, f);
    }

    method AddPmd(at: nat, g: nat, f: nat)
      requires Built() && Up(g) in tree.pud && at == tree.pud[Up(g)] && g !in tree.pmd && g !in flat.giga
      requires Spare(ram.mem, tree, f) && f in pool.out
      modifies ram, ram.words, this`tree, this`flat
      ensures Built() && tree == WithPmd(old(tree), g, f) && flat == old(flat).(split1 := old(flat).split1 + {g})
      ensures ram.mem == Write(old(ram.mem), at, Idx(g), TableWord(f))
    {
      hide Holds, Frames.Mirror, Spare, PoolOK;
      PmdAdded(ram.mem, cr3, tree, flat, g, f);
      InRange();
      ram.Put(at, Idx(g), TableWord(f));
      tree := WithPmd(tree, g, f);
      flat := flat.(split1 := flat.split1 + {g});
    }

    method AddPld(at: nat, r: nat, f: nat)
      requires Built() && Up(r) in tree.pmd && at == tree.pmd[Up(r)] && r !in tree.pld && r !in flat.mega
      requires Spare(ram.mem, tree, f) && f in pool.out
      modifies ram, ram.words, this`tree, this`flat
      ensures Built() && tree == WithPld(old(tree), r, f) && flat == old(flat).(split2 := old(flat).split2 + {r})
      ensures ram.mem == Write(old(ram.mem), at, Idx(r), TableWord(f))
    {
      hide Holds, Frames.Mirror, Spare, PoolOK;
      PldAdded(ram.mem, cr3, tree, flat, r, f);
      InRange();
      ram.Put(at, Idx(r), TableWord(f));
      tree := WithPld(tree, r, f);
      flat := flat.(split2 := flat.split2 + {r});
    }

    /** Tables are in memory. */
    lemma InRange()
      requires ram.Mirror() && Holds(ram.mem, cr3, tree, flat)
      ensures cr3 < ram.words.Length0 == |ram.mem| && ram.words.Length1 == 512 && Sized(ram.mem)
      ensures forall a :: a in tree.pud ==> tree.pud[a] < ram.words.Length0
      ensures forall g :: g in tree.pmd ==> tree.pmd[g] < ram.words.Length0
      ensures forall r :: r in tree.pld ==> tree.pld[r] < ram.words.Length0
    {
    }

    lemma Placed()
      requires ram.Mirror() && Holds(ram.mem, cr3, tree, flat)
      ensures cr3 in tree.role && tree.role[cr3] == Pgd
      ensures forall a :: a in tree.pud ==> InRegion(tree, tree.pud[a], a)
      ensures forall g :: g in tree.pmd ==> InRegion(tree, tree.pmd[g], Up(g))
      ensures forall r :: r in tree.pld ==> InRegion(tree, tree.pld[r], Up(Up(r)))
    {
      Where(tree, cr3);
    }

    lemma PgdSays(a: nat)
      requires ram.Mirror() && Holds(ram.mem, cr3, tree, flat) && a < 512 && a in tree.own
      ensures ram.words[cr3, a] == PgdWord(tree, a)
    {
    }

    lemma PudSays(g: nat)
      requires ram.Mirror() && Holds(ram.mem, cr3, tree, flat) && Up(g) in tree.pud
      ensures tree.pud[Up(g)] < ram.words.Length0 && ram.words[tree.pud[Up(g)], Idx(g)] == PudWord(tree, flat, g)
      ensures g in flat.giga ==> flat.giga[g].flags.large && g !in tree.pmd
      ensures tree.pmd.Keys == flat.split1
    {
    }

    lemma PmdSays(r: nat)
      requires ram.Mirror() && Holds(ram.mem, cr3, tree, flat) && Up(r) in tree.pmd
      ensures tree.pmd[Up(r)] < ram.words.Length0 && ram.words[tree.pmd[Up(r)], Idx(r)] == PmdWord(tree, flat, r)
      ensures r in flat.mega ==> flat.mega[r].flags.large && r !in tree.pld
      ensures tree.pld.Keys == flat.split2 && tree.pmd.Keys == flat.split1 && Up(r) !in flat.giga
    {
    }

    /** The PUD table of region `a`, made if it is missing. */
    method EnterPud(a: nat, ghost k: nat) returns (f: int)
      requires Built() && a < 512 && a in tree.own
      modifies ram, ram.words, this`tree, pool, pool.cachePool, pool.buddy.Repr()
      ensures f != -1 ==> Built() && 0 <= f && a in tree.pud && tree.pud[a] == f && Confined(old(Now()), Now(), cr3, a)
      ensures k <= 2 && old(pool.Serves(k + 1)) ==> f != -1 && pool.Serves(k)
    {
      hide Holds, PagePool.Pool.Valid, Confined, InRegion;
      PgdSays(a);
      InRange();
      Placed();
      ghost var s := Now();
      var w := ram.words[cr3, a];
      if w != NONE {
        Unchanged(s, cr3, a);
        return w.frame;
      }
      f := NewTable(k);
      if f != -1 {
        ghost var s' := Now();
        AddPud(a, f);
        Hung(s, s', Now(), cr3, a, f, cr3, a, Pud(a));
      }
    }

    /** The PMD table of 1G region `g`, made if the region is new; none if it is one large page. */
    method EnterPmd(at: nat, g: nat, ghost k: nat) returns (f: int, large: bool)
      requires Built() && Up(g) in tree.pud && at == tree.pud[Up(g)]
      modifies ram, ram.words, this`tree, this`flat, pool, pool.cachePool, pool.buddy.Repr()
      ensures large <==> g in old(flat).giga
      ensures large ==> Built() && flat == old(flat)
      ensures !large && f != -1 ==> Built() && 0 <= f && g in tree.pmd && tree.pmd[g] == f
      ensures !large && f != -1 ==> flat == old(flat).(split1 := old(flat).split1 + {g})
      ensures large || f != -1 ==> Confined(old(Now()), Now(), cr3, Up(g))
      ensures k <= 2 && old(pool.Serves(k + 1)) && !large ==> f != -1 && pool.Serves(k)
    {
      hide Holds, PagePool.Pool.Valid, Up, Confined, InRegion;
      InRange();
      Placed();
      ghost var s := Now();
      PudSays(g);
      var w := ram.words[at, Idx(g)];
      large := false;
      if w == NONE {
        f := NewTable(k);
        if f != -1 {
          ghost var s' := Now();
          AddPmd(at, g, f);
          Hung(s, s', Now(), cr3, Up(g), f, at, Idx(g), Pmd(g));
        }
      } else {
        Unchanged(s, cr3, Up(g));
        f, large := w.frame, w.flags.large;
        assert !large ==> flat.split1 + {g} == flat.split1;
      }
    }

    /** The PLD table of 2M region `r`, made if the region is new; none if it is one large page. */
    method EnterPld(at: nat, r: nat, ghost k: nat) returns (f: int, large: bool)
      requires Built() && Up(r) in tree.pmd && at == tree.pmd[Up(r)]
      modifies ram, ram.words, this`tree, this`flat, pool, pool.cachePool, pool.buddy.Repr()
      ensures large <==> r in old(flat).mega
      ensures large ==> Built() && flat == old(flat)
      ensures !large && f != -1 ==> Built() && 0 <= f && r in tree.pld && tree.pld[r] == f
      ensures !large && f != -1 ==> flat == old(flat).(split2 := old(flat).split2 + {r})
      ensures large || f != -1 ==> Confined(old(Now()), Now(), cr3, Up(Up(r)))
      ensures k <= 2 && old(pool.Serves(k + 1)) && !large ==> f != -1 && pool.Serves(k)
    {
      hide Holds, PagePool.Pool.Valid, Up, Confined, InRegion;
      InRange();
      Placed();
      ghost var s := Now();
      PmdSays(r);
      var w := ram.words[at, Idx(r)];
      large := false;
      if w == NONE {
        f := NewTable(k);
        if f != -1 {
          ghost var s' := Now();
          AddPld(at, r, f);
          Hung(s, s', Now(), cr3, Up(Up(r)), f, at, Idx(r), Pld(r));
        }
      } else {
        Unchanged(s, cr3, Up(Up(r)));
        f, large := w.frame, w.flags.large;
        assert !large ==> flat.split2 + {r} == flat.split2;
      }
    }

    // ---------- mappings ----------

    method SetPage(at: nat, v: nat, w: Word)
      requires Built() && Up(v) in tree.pld && at == tree.pld[Up(v)]
      modifies ram, ram.words, this`flat
      ensures Built() && flat == old(flat).(page := old(flat).page[v := w])
      ensures Confined(old(Now()), Now(), cr3, Up(Up(Up(v))))
    {
      hide Holds, Frames.Mirror, PoolOK, Confined, InRegion;
      InRange();
      Placed();
      ghost var s := Now();
      PageSet(ram.mem, cr3, tree, flat, v, w);
      ram.Put(at, Idx(v), w);
      flat := flat.(page := flat.page[v := w]);
      Wrote(s, Now(), cr3, Up(Up(Up(v))), at, Idx(v), w);
    }

    method SetMega(at: nat, r: nat, w: Word)
      requires Built() && Up(r) in tree.pmd && at == tree.pmd[Up(r)] && r !in tree.pld && w.flags.large
      modifies ram, ram.words, this`flat
      ensures Built() && flat == old(flat).(mega := old(flat).mega[r := w])
      ensures Confined(old(Now()), Now(), cr3, Up(Up(r)))
    {
      hide Holds, Frames.Mirror, PoolOK, Confined, InRegion;
      InRange();
      Placed();
      ghost var s := Now();
      MegaSet(ram.mem, cr3, tree, flat, r, w);
      ram.Put(at, Idx(r), w);
      flat := flat.(mega := flat.mega[r := w]);
      Wrote(s, Now(), cr3, Up(Up(r)), at, Idx(r), w);
    }

    method SetGiga(at: nat, g: nat, w: Word)
      requires Built() && Up(g) in tree.pud && at == tree.pud[Up(g)] && g !in tree.pmd && w.flags.large
      modifies ram, ram.words, this`flat
      ensures Built() && flat == old(flat).(giga := old(flat).giga[g := w]) && Confined(old(Now()), Now(), cr3, Up(g))
    {
      hide Holds, Frames.Mirror, PoolOK, Confined, InRegion;
      InRange();
      Placed();
      ghost var s := Now();
      GigaSet(ram.mem, cr3, tree, flat, g, w);
      ram.Put(at, Idx(g), w);
      flat := flat.(giga := flat.giga[g := w]);
      Wrote(s, Now(), cr3, Up(g), at, Idx(g), w);
    }

    ghost method Did(o: Op)
      requires Built() && flat == Step(Run(ops), o)
      modifies this`ops
      ensures Valid() && ops == old(ops) + [o]
    {
      hide Holds, Frames.Mirror, PoolOK, Step;
      assert (ops + [o])[..|ops|] == ops;
      ops := ops + [o];
    }

    /** The PUD table for page `v`. */
    method EnterRoot(v: nat, ghost k: nat) returns (f: int)
      requires Built() && v < PAGES && Up(Up(Up(v))) in tree.own
      modifies ram, ram.words, this`tree, pool, pool.cachePool, pool.buddy.Repr()
      ensures f != -1 ==> Built() && 0 <= f && Up(Up(Up(v))) in tree.pud && tree.pud[Up(Up(Up(v)))] == f
      ensures f != -1 ==> Confined(old(Now()), Now(), cr3, Up(Up(Up(v))))
      ensures k <= 2 && old(pool.Serves(k + 1)) ==> f != -1 && pool.Serves(k)
    {
      hide Built;
      Indices(v);
      hide Up, PgdIndex;
      f := EnterPud(PgdIndex(v), k);
    }

    /** The table pages that `MM_PageTable_map` and `map2M` need for the 1G region of page `v`. */
    method Enter(v: nat, ghost k: nat) returns (f: int, large: bool)
      requires Built() && v < PAGES && Up(Up(Up(v))) in tree.own
      modifies ram, ram.words, this`tree, this`flat, pool, pool.cachePool, pool.buddy.Repr()
      ensures large ==> Built() && Up(Up(v)) in old(flat).giga && flat == old(flat)
      ensures !large && f != -1 ==> Built() && Up(Up(v)) !in old(flat).giga
      ensures !large && f != -1 ==> 0 <= f && Up(Up(v)) in tree.pmd && tree.pmd[Up(Up(v))] == f
      ensures !large && f != -1 ==> flat == old(flat).(split1 := old(flat).split1 + {Up(Up(v))})
      ensures large || f != -1 ==> Confined(old(Now()), Now(), cr3, Up(Up(Up(v))))
      ensures k <= 1 && old(pool.Serves(k + 2)) && !large ==> f != -1 && pool.Serves(k)
    {
      hide Built, Up, Confined;
      ghost var s := Now();
      f := EnterRoot(v, k + 1);
      if f == -1 { return -1, false; }
      ghost var s' := Now();
      f, large := EnterPmd(f, Up(Up(v)), k);
      if large || f != -1 { Further(s, s', Now(), cr3, Up(Up(Up(v)))); }
    }

    /** `MM_PageTable_map`; false if a table page could not be had. */
    method Map(v: nat, p: nat, flag: Flags) returns (ok: bool)
      requires Valid() && v < PAGES && Up(Up(Up(v))) in tree.own
      modifies this, ram, ram.words, pool, pool.cachePool, pool.buddy.Repr()
      ensures ok ==> Valid() && ops == old(ops) + [FlatMap.Map(v, Word(p, flag))]
      ensures ok ==> Confined(old(Now()), Now(), cr3, Up(Up(Up(v))))
      ensures old(pool.Serves(3)) ==> ok
    {
      hide Built, Run, Up, Confined;
      ghost var s, a := Now(), Up(Up(Up(v)));
      var f, large := Enter(v, 1);
      if !large {
        if f == -1 { return false; }
        ghost var s' := Now();
        f, large := EnterPld(f, Up(v), 0);
        if large || f != -1 { Further(s, s', Now(), cr3, a); }
        if !large {
          if f == -1 { return false; }
          s' := Now();
          SetPage(f, v, Word(p, flag));
          Further(s, s', Now(), cr3, a);
        }
      }
      Did(FlatMap.Map(v, Word(p, flag)));
      ok := true;
    }

    /** The last step of `map2M`: an entry that is there stays. */
    method NewMega(at: nat, r: nat, w: Word)
      requires Built() && Up(r) in tree.pmd && at == tree.pmd[Up(r)] && w.flags.large
      modifies ram, ram.words, this`flat
      ensures Built() && Confined(old(Now()), Now(), cr3, Up(Up(r)))
      ensures flat == if r in old(flat).mega || r in old(flat).split2 then old(flat)
                else old(flat).(mega := old(flat).mega[r := w])
    {
      hide Holds, PoolOK, Up, Idx, Confined;
      PmdSays(r);
      InRange();
      Unchanged(Now(), cr3, Up(Up(r)));
      if ram.words[at, Idx(r)] == NONE {
        SetMega(at, r, w);
      }
    }

    method NewGiga(at: nat, g: nat, w: Word)
      requires Built() && Up(g) in tree.pud && at == tree.pud[Up(g)] && w.flags.large
      modifies ram, ram.words, this`flat
      ensures Built() && Confined(old(Now()), Now(), cr3, Up(g))
      ensures flat == if g in old(flat).giga || g in old(flat).split1 then old(flat)
                else old(flat).(giga := old(flat).giga[g := w])
    {
      hide Holds, PoolOK, Up, Idx, Confined;
      PudSays(g);
      InRange();
      Unchanged(Now(), cr3, Up(g));
      if ram.words[at, Idx(g)] == NONE {
        SetGiga(at, g, w);
      }
    }

    /** `MM_PageTable_map2M`: nothing if the region is mapped or divided already. */
    method Map2M(v: nat, p: nat, flag: Flags) returns (ok: bool)
      requires Valid() && v < PAGES && Up(Up(Up(v))) in tree.own
      modifies this, ram, ram.words, pool, pool.cachePool, pool.buddy.Repr()
      ensures ok && old(New2M(ops, v)) ==>
                forall u: nat :: Up(u) == Up(v) ==> LargeEntry(Lookup(flat, u), p, flag, 512)
      ensures ok ==> Valid() && ops == old(ops) + [FlatMap.Map2M(Up(v), LargeWord(Down2M(p), flag))]
      ensures ok ==> Confined(old(Now()), Now(), cr3, Up(Up(Up(v))))
      ensures old(pool.Serves(2)) ==> ok
    {
      hide Built, Run, Up, Down2M, Confined;
      ghost var m, r, s := flat, Up(v), Now();
      var w := LargeWord(Down2M(p), flag);
      var f, large := Enter(v, 0);
      if !large {
        if f == -1 { return false; }
        ghost var s' := Now();
        NewMega(f, Up(v), w);
        Further(s, s', Now(), cr3, Up(Up(r)));
      }
      assert flat == Step(m, FlatMap.Map2M(r, w));
      Did(FlatMap.Map2M(r, w));
      AllFound2M(old(ops), v, p, flag);
      ok := true;
    }

    /** `MM_PageTable_map1G`: nothing if the region is mapped or divided already. */
    method Map1G(v: nat, p: nat, flag: Flags) returns (ok: bool)
      requires Valid() && v < PAGES && Up(Up(Up(v))) in tree.own
      modifies this, ram, ram.words, pool, pool.cachePool, pool.buddy.Repr()
      ensures ok && old(New1G(ops, v)) ==>
                forall u: nat :: Up(Up(u)) == Up(Up(v)) ==> LargeEntry(Lookup(flat, u), p, flag, 262144)
      ensures ok ==> Valid() && ops == old(ops) + [FlatMap.Map1G(Up(Up(v)), LargeWord(Down1G(p), flag))]
      ensures ok ==> Confined(old(Now()), Now(), cr3, Up(Up(Up(v))))
      ensures old(pool.Serves(1)) ==> ok
    {
      hide Built, Run, Up, Down1G, Confined;
      ghost var m, g, s := flat, Up(Up(v)), Now();
      var w := LargeWord(Down1G(p), flag);
      var f := EnterRoot(v, 0);
      if f == -1 { return false; }
      ghost var s' := Now();
      NewGiga(f, Up(Up(v)), w);
      Further(s, s', Now(), cr3, Up(g));
      assert flat == Step(m, FlatMap.Map1G(g, w));
      Did(FlatMap.Map1G(g, w));
      AllFound1G(old(ops), v, p, flag);
      ok := true;
    }

    // ---------- releasing the tables ----------

    /** What `_cleanMap` relies on and keeps. */
    ghost predicate Walkable()
      reads this`tree, this`flat, ram, ram.words, pool, pool.cachePool, pool.buddy.Repr()
    {
      ram.Mirror() && Holds(ram.mem, cr3, tree, flat) && PoolOK() && Apart() && 0 !in tree.role
      && forall a: nat :: a < 512 && Own(a) ==> a in tree.own
    }

    /** No large page in region `k` of level `lvl`. */
    ghost predicate NoLarge(lvl: nat, k: nat)
      reads this`flat
    {
      && (lvl == 2 ==> forall g :: g in flat.giga ==> Up(g) != k)
      && (lvl == 2 ==> forall r :: r in flat.mega ==> Up(Up(r)) != k)
      && (lvl == 1 ==> forall r :: r in flat.mega ==> Up(r) != k)
    }

    /** The entry of region `c` says where its table is. */
    lemma ChildWord(lvl: nat, c: nat)
      requires Walkable() && 0 < lvl <= 2 && NoLarge(lvl, Up(c)) && IsTable(tree, lvl, Up(c))
      ensures TableOf(tree, lvl, Up(c)) < ram.words.Length0 && ram.words.Length1 == 512
      ensures var w := ram.words[TableOf(tree, lvl, Up(c)), Idx(c)];
              if IsTable(tree, lvl - 1, c) then w.frame == TableOf(tree, lvl - 1, c) != 0 else w.frame == 0
    {
      hide PoolOK;
      if lvl == 2 { PudSays(c); } else { PmdSays(c); }
    }

    /** `_cleanMap`: frees the table `entry` of region `k` and all tables below it. */
    method CleanSub(entry: nat, lvl: nat, ghost k: nat)
      requires Apart() && Walkable() && lvl <= 2 && NoLarge(lvl, k) && IsTable(tree, lvl, k)
      requires entry == TableOf(tree, lvl, k)
      requires Sub(tree, lvl, k) <= pool.out
      modifies pool, pool.cachePool, pool.buddy.Repr()
      ensures Walkable() && pool.out == old(pool.out) - Sub(tree, lvl, k)
      decreases lvl
    {
      hide Walkable, RolesOK, NoLarge, Sub, Part, IsTable, TableOf, Child, Up, Idx;
      Roles();
      if lvl == 0 {
        EntryOf(0, k);
        PldSub(tree, cr3, k);
        Release(entry);
        return;
      }
      ghost var out := pool.out;
      PartNone(tree, lvl, k);
      for i := 0 to 512
        invariant Walkable() && pool.out == out - Part(tree, lvl, k, i)
      {
        ghost var c := Child(k, i);
        ChildOf(k, i);
        ChildWord(lvl, c);
        PartStep(tree, cr3, lvl, k, i);
        if ram.words[entry, i].frame != 0 {
          LargeBelow(lvl, c);
          CleanSub(ram.words[entry, i].frame, lvl - 1, c);
        }
      }
      PartAll(tree, cr3, lvl, k);
      Release(entry);
    }

    /** The regions of the root table that are not shared between address spaces. */
    ghost predicate Own(a: nat)
    {
      a < 256 || a == 0x1ff
    }

    /** The root table and all tables of its own regions. */
    ghost function OwnTables(): set<nat>
      reads this`tree
    {
      set f | f in tree.role && (f == cr3 || exists a: nat :: a < 512 && Own(a) && Under(tree.role[f], 2, a))
    }

    /** Those of the regions below `i`. */
    ghost function OwnBelow(i: nat): set<nat>
      reads this`tree
    {
      set f, a: nat | f in tree.role && a < i && a < 512 && Own(a) && Under(tree.role[f], 2, a) :: f
    }

    lemma OwnNext(i: nat)
      requires Walkable() && i < 512
      ensures Own(i) && i in tree.pud ==>
                OwnBelow(i + 1) == OwnBelow(i) + Sub(tree, 2, i) && OwnBelow(i) !! Sub(tree, 2, i)
      ensures !Own(i) || i !in tree.pud ==> OwnBelow(i + 1) == OwnBelow(i)
    {
      hide Holds, PoolOK, Up;
      Roles();
      if i !in tree.pud { NoneUnder(tree, cr3, 2, i); assert Sub(tree, 2, i) == {}; }
    }

    lemma OwnAll()
      requires Walkable()
      ensures OwnTables() == OwnBelow(512) + {cr3} && cr3 !in OwnBelow(512)
    {
      hide Holds, PoolOK, Up;
      Roles();
    }

    /** One entry of the root table. */
    method CleanEntry(i: nat, ghost out: set<int>)
      requires Apart() && Walkable() && i < 512 && Own(i) && NoLarge(2, i) && OwnTables() <= out
      requires pool.out == out - OwnBelow(i)
      modifies pool, pool.cachePool, pool.buddy.Repr()
      ensures Walkable() && pool.out == out - OwnBelow(i + 1)
    {
      RootWord(i);
      OwnNext(i);
      RootSub(i);
      hide Walkable, OwnTables, OwnBelow, Sub, NoLarge, Up;
      if ram.words[cr3, i].frame != 0 {
        CleanSub(ram.words[cr3, i].frame, 2, i);
      }
    }

    lemma RootWord(i: nat)
      requires Walkable() && i < 512 && Own(i)
      ensures cr3 < ram.words.Length0 && ram.words.Length1 == 512
      ensures if i in tree.pud then ram.words[cr3, i].frame == tree.pud[i] != 0 else ram.words[cr3, i].frame == 0
    {
      hide PoolOK;
      PgdSays(i);
    }

    lemma RootSub(i: nat)
      requires i < 512 && Own(i)
      ensures Sub(tree, 2, i) <= OwnTables()
    {
    }

    /** `MM_PageTable_cleanMap`: every table of the address space but those of the shared regions goes
        back to the pool, each once; there must be no large pages in the own regions. */
    method CleanMap()
      requires Valid() && 0 !in tree.role
      requires forall a: nat :: a < 512 && Own(a) ==> a in tree.own && NoLarge(2, a)
      modifies pool, pool.cachePool, pool.buddy.Repr()
      ensures pool.Valid() && OwnTables() <= old(pool.out) && pool.out == old(pool.out) - OwnTables()
    {
      hide Valid, Built, Walkable, OwnTables, OwnBelow, NoLarge;
      ghost var out := pool.out;
      CleanStart();
      for i := 0 to 256
        invariant Walkable() && pool.out == out - OwnBelow(i)
      {
        CleanEntry(i, out);
      }
      SharedSkipped();
      CleanEntry(0x1ff, out);
      Release(cr3);
      PoolAgain();
    }

    lemma CleanStart()
      requires Valid() && 0 !in tree.role && forall a: nat :: a < 512 && Own(a) ==> a in tree.own
      ensures Walkable() && Apart() && OwnTables() <= pool.out && OwnBelow(0) == {}
      ensures OwnTables() == OwnBelow(512) + {cr3} && cr3 !in OwnBelow(512)
    {
      hide Holds, PoolOK;
      OwnAll();
    }

    lemma SharedSkipped()
      ensures OwnBelow(256) == OwnBelow(0x1ff)
    {
    }

    lemma PoolAgain()
      requires Walkable()
      ensures pool.Valid()
    {
    }

    lemma Roles()
      requires Walkable()
      ensures RolesOK(tree, cr3)
    {
    }

    lemma EntryOf(lvl: nat, k: nat)
      requires lvl == 0 && IsTable(tree, lvl, k)
      ensures k in tree.pld && TableOf(tree, lvl, k) == tree.pld[k]
    {
    }

    lemma LargeBelow(lvl: nat, c: nat)
      requires 0 < lvl <= 2 && NoLarge(lvl, Up(c))
      ensures NoLarge(lvl - 1, c)
    {
    }

    method Release(f: nat)
      requires Walkable() && f in pool.out
      modifies pool, pool.cachePool, pool.buddy.Repr()
      ensures Walkable() && pool.out == old(pool.out) - {f}
    {
      hide Holds, PagePool.Pool.Valid, PagePool.Pool.Stack;
      pool.Free(f);
    }
  }
}
