/** A growing index wound round a ring of `size` slots. Rings, queues and their cycle or phase
    bits are images of such an index. */
module Cycles {

  /** The slot of index `n`. */
  function Slot(n: nat, size: nat): (r: nat)
    requires size > 0
    ensures r < size
  {
    if n == 0 then 0
    else if Slot(n - 1, size) == size - 1 then 0 else Slot(n - 1, size) + 1
  }

  /** The bit that changes with every round, starting at `true`. */
  function Bit(n: nat, size: nat): bool
    requires size > 0
  {
    n == 0 || (if Slot(n - 1, size) == size - 1 then !Bit(n - 1, size) else Bit(n - 1, size))
  }

  function Lap(n: nat, size: nat): nat
    requires size > 0
  {
    if n == 0 then 0
    else if Slot(n - 1, size) == size - 1 then Lap(n - 1, size) + 1 else Lap(n - 1, size)
  }

  lemma {:induction false} Decompose(n: nat, size: nat)
    requires size > 0
    ensures n == Lap(n, size) * size + Slot(n, size)
  {
    if n > 0 {
      Decompose(n - 1, size);
      if Slot(n - 1, size) == size - 1 {
        NextRound(Lap(n - 1, size), size);
      }
    }
  }

  lemma {:induction false} BitIsParity(n: nat, size: nat)
    requires size > 0
    ensures Bit(n, size) <==> Lap(n, size) % 2 == 0
  {
    if n > 0 {
      BitIsParity(n - 1, size);
    }
  }

  lemma WholeRounds(q: nat, q': nat, size: nat)
    ensures q < q' ==> q * size + size <= q' * size
  {
    if q < q' {
      assert (q + 1) * size <= q' * size;
    }
  }

  lemma NextRound(q: nat, size: nat)
    ensures (q + 1) * size == q * size + size
  {
  }

  lemma Unique(q: nat, r: nat, q': nat, r': nat, size: nat)
    requires r < size && r' < size && q * size + r == q' * size + r'
    ensures q == q' && r == r'
  {
    WholeRounds(q, q', size);
    WholeRounds(q', q, size);
  }

  lemma Located(n: nat, q: nat, r: nat, size: nat)
    requires r < size && n == q * size + r
    ensures Slot(n, size) == r && Lap(n, size) == q
  {
    Decompose(n, size);
    Unique(Lap(n, size), Slot(n, size), q, r, size);
  }

  /** In the first round slots are the indices themselves. */
  lemma {:induction false} FirstRound(n: nat, size: nat)
    requires n < size
    ensures Slot(n, size) == n && Bit(n, size) && Lap(n, size) == 0
  {
    if n > 0 {
      FirstRound(n - 1, size);
    }
  }

  /** One round later: the same slot, the other bit. */
  lemma OneRound(n: nat, size: nat)
    requires size > 0
    ensures Slot(n + size, size) == Slot(n, size)
    ensures Bit(n + size, size) == !Bit(n, size)
  {
    hide Slot, Lap, Bit;
    Decompose(n, size);
    NextRound(Lap(n, size), size);
    Located(n + size, Lap(n, size) + 1, Slot(n, size), size);
    BitIsParity(n, size);
    BitIsParity(n + size, size);
  }

  /** Every slot is that of an index of the round from `n` on. */
  lemma InRound(n: nat, c: nat, size: nat) returns (m: nat)
    requires c < size
    ensures n <= m < n + size && Slot(m, size) == c
  {
    hide Slot, Lap, Bit;
    Decompose(n, size);
    var q, r := Lap(n, size), Slot(n, size);
    NextRound(q, size);
    if r <= c {
      m := q * size + c;
      Located(m, q, c, size);
    } else {
      m := (q + 1) * size + c;
      Located(m, q + 1, c, size);
    }
  }

  /** Less than one round apart: different slots. */
  lemma SlotsDiffer(m: nat, n: nat, size: nat)
    requires size > 0 && m < n < m + size
    ensures Slot(m, size) != Slot(n, size)
  {
    Decompose(m, size);
    Decompose(n, size);
    WholeRounds(Lap(m, size), Lap(n, size), size);
    WholeRounds(Lap(n, size), Lap(m, size), size);
  }
}
