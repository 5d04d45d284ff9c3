/** What page tables mean: a map from page numbers to entries in which the first mapping of a
    large region decides whether it is one large page. Keys are virtual page numbers for 4K
    pages, and those divided by 512 and 512 * 512 for 2M and 1G regions. */
module FlatMap {

  /** The low twelve bits of an entry: present, bit 7, and the others. */
  datatype Flags = Flags(present: bool, large: bool, other: nat)

  datatype Word = Word(frame: nat, flags: Flags)

  const NONE := Word(0, Flags(false, false, 0))

  /** The region one level up, and the index in its table. */
  function Up(k: nat): nat { k / 512 }
  function Idx(k: nat): (i: nat) ensures i < 512 { k % 512 }

  datatype Flat = Flat(giga: map<nat, Word>, mega: map<nat, Word>, page: map<nat, Word>,
                       split1: set<nat>, split2: set<nat>)

  const EMPTY := Flat(map[], map[], map[], {}, {})

  /** The entry a walk for page `v` ends at. */
  ghost function Lookup(m: Flat, v: nat): Word
  {
    if Up(Up(v)) in m.giga then m.giga[Up(Up(v))]
    else if Up(v) in m.mega then m.mega[Up(v)]
    else if v in m.page then m.page[v]
    else NONE
  }

  datatype Op = Map(v: nat, w: Word) | Map2M(r: nat, w: Word) | Map1G(g: nat, w: Word)

  /** A large region stays one; a region entered by a smaller mapping is never made a large one. */
  ghost function Step(m: Flat, o: Op): Flat
  {
    match o
    case Map(v, w) =>
      if Up(Up(v)) in m.giga then m
      else if Up(v) in m.mega then m.(split1 := m.split1 + {Up(Up(v))})
      else m.(page := m.page[v := w], split1 := m.split1 + {Up(Up(v))}, split2 := m.split2 + {Up(v)})
    case Map2M(r, w) =>
      if Up(r) in m.giga then m
      else if r in m.mega || r in m.split2 then m.(split1 := m.split1 + {Up(r)})
      else m.(mega := m.mega[r := w], split1 := m.split1 + {Up(r)})
    case Map1G(g, w) =>
      if g in m.giga || g in m.split1 then m else m.(giga := m.giga[g := w])
  }

  ghost function Run(ops: seq<Op>): Flat
  {
    if ops == [] then EMPTY else Step(Run(ops[..|ops| - 1]), ops[|ops| - 1])
  }

  // ---------- an independent account of a run ----------

  /** The 1G region and the 2M region an operation enters. */
  ghost predicate Enters1G(o: Op, g: nat)
  {
    match o
    case Map(v, _) => Up(Up(v)) == g
    case Map2M(r, _) => Up(r) == g
    case Map1G(h, _) => h == g
  }

  ghost predicate Enters2M(o: Op, r: nat)
  {
    match o
    case Map(v, _) => Up(v) == r
    case Map2M(q, _) => q == r
    case Map1G(_, _) => false
  }

  datatype Found = Nobody | By(o: Op)

  ghost function First1G(ops: seq<Op>, g: nat): Found
  {
    if ops == [] then Nobody
    else
      var before := First1G(ops[..|ops| - 1], g);
      if before.By? then before else if Enters1G(ops[|ops| - 1], g) then By(ops[|ops| - 1]) else Nobody
  }

  ghost function First2M(ops: seq<Op>, r: nat): Found
  {
    if ops == [] then Nobody
    else
      var before := First2M(ops[..|ops| - 1], r);
      if before.By? then before else if Enters2M(ops[|ops| - 1], r) then By(ops[|ops| - 1]) else Nobody
  }

  /** The last word given to page `v` alone. */
  ghost function Last(ops: seq<Op>, v: nat): Word
  {
    if ops == [] then NONE
    else if ops[|ops| - 1].Map? && ops[|ops| - 1].v == v then ops[|ops| - 1].w
    else Last(ops[..|ops| - 1], v)
  }

  ghost predicate Large1G(ops: seq<Op>, g: nat)
  {
    First1G(ops, g).By? && First1G(ops, g).o.Map1G?
  }

  ghost predicate Large2M(ops: seq<Op>, r: nat)
  {
    First2M(ops, r).By? && First2M(ops, r).o.Map2M?
  }

  /** How the state at page `v` follows from who came first. */
  ghost predicate Agrees(m: Flat, ops: seq<Op>, v: nat)
  {
    var r := Up(v);
    var g := Up(r);
    && (g in m.giga <==> Large1G(ops, g))
    && (g in m.giga ==> m.giga[g] == First1G(ops, g).o.w)
    && (g in m.split1 <==> First1G(ops, g).By? && !First1G(ops, g).o.Map1G?)
    && (r in m.mega || r in m.split2 ==> g in m.split1)
    && (g !in m.giga ==>
          && (r in m.mega <==> Large2M(ops, r))
          && (r in m.mega ==> m.mega[r] == First2M(ops, r).o.w)
          && (r in m.split2 <==> First2M(ops, r).By? && First2M(ops, r).o.Map?)
          && (r !in m.mega ==> (if v in m.page then m.page[v] else NONE) == Last(ops, v)))
  }

  lemma {:induction false} FirstEnters(ops: seq<Op>, r: nat)
    ensures First1G(ops, r).By? ==> First1G(ops, r).o in ops && Enters1G(First1G(ops, r).o, r)
    ensures First2M(ops, r).By? ==> First2M(ops, r).o in ops && Enters2M(First2M(ops, r).o, r)
  {
    if ops != [] {
      FirstEnters(ops[..|ops| - 1], r);
    }
  }

  lemma Extended(ops: seq<Op>, o: Op, k: nat)
    ensures First1G(ops + [o], k) == if First1G(ops, k).By? then First1G(ops, k) else if Enters1G(o, k) then By(o)
              else Nobody
    ensures First2M(ops + [o], k) == if First2M(ops, k).By? then First2M(ops, k) else if Enters2M(o, k) then By(o)
              else Nobody
    ensures Last(ops + [o], k) == if o.Map? && o.v == k then o.w else Last(ops, k)
  {
    assert (ops + [o])[..|ops|] == ops;
  }

  lemma StepAgrees(m: Flat, ops: seq<Op>, o: Op, v: nat)
    requires Agrees(m, ops, v)
    ensures Agrees(Step(m, o), ops + [o], v)
  {
    Extended(ops, o, v);
    Extended(ops, o, Up(v));
    Extended(ops, o, Up(Up(v)));
    FirstEnters(ops, Up(v));
    FirstEnters(ops, Up(Up(v)));
    hide First1G, First2M, Last, Up;
  }

  lemma {:induction false} RunAgrees(ops: seq<Op>, v: nat)
    ensures Agrees(Run(ops), ops, v)
  {
    if ops != [] {
      hide Agrees;
      var before, o := ops[..|ops| - 1], ops[|ops| - 1];
      RunAgrees(before, v);
      assert before + [o] == ops;
      StepAgrees(Run(before), before, o, v);
    }
  }

  /** After any run a page has the word of its 1G region if that was entered first by a 1G mapping,
      else that of its 2M region if that was entered first by a 2M mapping, else its own last one. */
  lemma FirstComeFirstServed(ops: seq<Op>, v: nat)
    ensures Lookup(Run(ops), v)
         == if Large1G(ops, Up(Up(v))) then First1G(ops, Up(Up(v))).o.w
            else if Large2M(ops, Up(v)) then First2M(ops, Up(v)).o.w
            else Last(ops, v)
  {
    RunAgrees(ops, v);
  }

  /** One mapping changes the words of its own page or region only. */
  lemma OnlyItsOwn(m: Flat, o: Op, v: nat)
    ensures Lookup(Step(m, o), v) != Lookup(m, v) ==>
              match o
              case Map(u, w) => v == u && Lookup(Step(m, o), v) == w
              case Map2M(r, w) => Up(v) == r && Lookup(Step(m, o), v) == w
              case Map1G(g, w) => Up(Up(v)) == g && Lookup(Step(m, o), v) == w
  {
  }
}
