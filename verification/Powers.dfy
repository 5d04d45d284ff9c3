/** Powers of two. */
module Powers {

  function Pow2(k: nat): (r: nat)
    ensures r >= 1
  {
    if k == 0 then 1 else 2 * Pow2(k - 1)
  }

  lemma HalfWord()
    ensures Pow2(15) == 32768
  {
    assert Pow2(8) == 256;
  }

  lemma Pow2Double(k: nat)
    ensures Pow2(k + 1) == 2 * Pow2(k)
  {
  }

  lemma {:induction false} Pow2Add(a: nat, b: nat)
    ensures Pow2(a + b) == Pow2(a) * Pow2(b)
  {
    if a > 0 {
      Pow2Add(a - 1, b);
    }
  }

  lemma {:induction false} Pow2Mono(a: nat, b: nat)
    requires a <= b
    ensures Pow2(a) <= Pow2(b)
  {
    if a < b {
      Pow2Mono(a, b - 1);
    }
  }

  lemma SquareMono(a: nat, b: nat)
    requires a <= b
    ensures a * a <= b * b
  {
    assert a * a <= a * b <= b * b;
  }

  function Times(q: nat, h: nat): nat
  {
    q * h
  }

  lemma MulMono(a: nat, b: nat, h: nat)
    requires a <= b
    ensures a * h <= b * h
  {
  }

  lemma Doubling(i: nat, h: nat)
    ensures i * (2 * h) == (2 * i) * h
    ensures (2 * i + 1) * h == i * (2 * h) + h
  {
  }

  ghost predicate Multiple(b: nat, h: nat)
  {
    exists q: nat :: Times(q, h) == b
  }

  lemma MultipleOfHalf(b: nat, h: nat)
    requires Multiple(b, 2 * h)
    ensures Multiple(b, h) && Multiple(b + h, h)
  {
    var q: nat :| Times(q, 2 * h) == b;
    assert Times(2 * q, h) == b;
    assert Times(2 * q + 1, h) == b + h;
  }

  lemma {:induction false} MultipleOfSmaller(b: nat, j: nat, k: nat)
    requires j <= k && Multiple(b, Pow2(k))
    ensures Multiple(b, Pow2(j))
  {
    if j < k {
      MultipleOfHalf(b, Pow2(k - 1));
      MultipleOfSmaller(b, j, k - 1);
    }
  }

  /** Between multiples of `h` there is room for `h`. */
  lemma RoomBelow(a: nat, b: nat, h: nat)
    requires Multiple(a, h) && Multiple(b, h) && a < b
    ensures a + h <= b
  {
    var q: nat :| Times(q, h) == a;
    var r: nat :| Times(r, h) == b;
    if r <= q {
      MulMono(r, q, h);
    } else {
      MulMono(q + 1, r, h);
    }
  }

  lemma HalfMultiple(p: nat, h: nat)
    ensures Multiple(p, 2 * h) ==> Multiple(p / 2, h)
  {
    if Multiple(p, 2 * h) {
      var q: nat :| Times(q, 2 * h) == p;
      Doubling(q, h);
      assert q * (2 * h) == 2 * (q * h);
      assert Times(q, h) == p / 2;
    }
  }

  /** The exponent of the largest power of two dividing `p`. */
  function TrailingZeros(p: nat): nat
    requires p > 0
  {
    if p % 2 == 1 then 0 else 1 + TrailingZeros(p / 2)
  }

  lemma {:induction false} TrailingZerosDivide(p: nat)
    requires p > 0
    ensures Multiple(p, Pow2(TrailingZeros(p))) && !Multiple(p, Pow2(TrailingZeros(p) + 1))
  {
    if p % 2 == 1 {
      assert Times(p, 1) == p;
      if Multiple(p, 2) {
        var q: nat :| Times(q, 2) == p;
      }
    } else {
      TrailingZerosDivide(p / 2);
      HalfMultiple(p, Pow2(TrailingZeros(p / 2) + 1));
      var h := Pow2(TrailingZeros(p / 2));
      var q: nat :| Times(q, h) == p / 2;
      Doubling(q, h);
      assert Times(q, 2 * h) == p;
    }
  }
}
