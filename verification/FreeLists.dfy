/** The allocator's sixteen free lists (kernel/memory/buddy.c:24-65, kernel/lib/ds.h:25-46):
    circular doubly linked lists threaded through the page descriptors, with no sentinel, so
    that the head pointer names a member. Each list is proved against a sequence. */
module FreeLists {

  const ORDERS: nat := 16

  ghost function Succ(i: nat, len: nat): nat
  {
    if i + 1 == len then 0 else i + 1
  }

  /** Following `next` from any member of `s` walks `s` round; `prev` walks it back. */
  ghost predicate Ring(next: seq<nat>, prev: seq<nat>, s: seq<nat>)
  {
    && (forall i :: 0 <= i < |s| ==> s[i] < |next| && s[i] < |prev|)
    && (forall i :: 0 <= i < |s| ==> next[s[i]] == s[Succ(i, |s|)] && prev[s[Succ(i, |s|)]] == s[i])
  }

  ghost predicate NoRepeat(s: seq<nat>)
  {
    forall i, j :: 0 <= i < j < |s| ==> s[i] != s[j]
  }

  ghost function Without(s: seq<nat>, k: nat): seq<nat>
    requires k < |s|
  {
    s[..k] + s[k + 1..]
  }

  lemma RingFrame(next: seq<nat>, prev: seq<nat>, next': seq<nat>, prev': seq<nat>, s: seq<nat>)
    requires Ring(next, prev, s) && |next'| == |next| && |prev'| == |prev|
    requires forall p :: p in s ==> p < |next| && p < |prev| && next'[p] == next[p] && prev'[p] == prev[p]
    ensures Ring(next', prev', s)
  {
    forall i | 0 <= i < |s|
      ensures next'[s[i]] == s[Succ(i, |s|)] && prev'[s[Succ(i, |s|)]] == s[i]
    {
      assert s[i] in s && s[Succ(i, |s|)] in s;
    }
  }

  /** Linking `p` in before the head puts it at the end. */
  lemma RingInsert(next: seq<nat>, prev: seq<nat>, s: seq<nat>, p: nat)
    requires Ring(next, prev, s) && NoRepeat(s) && |s| > 0 && p !in s && p < |next| == |prev|
    ensures var pos := s[0]; var last := prev[pos];
            && last == s[|s| - 1]
            && Ring(next[p := pos][last := p], prev[p := last][pos := p], s + [p])
  {
    var n := |s|;
    var pos, last := s[0], prev[s[0]];
    assert prev[s[Succ(n - 1, n)]] == s[n - 1];
    var next', prev', s' := next[p := pos][last := p], prev[p := last][pos := p], s + [p];
    forall i | 0 <= i < |s'|
      ensures next'[s'[i]] == s'[Succ(i, |s'|)] && prev'[s'[Succ(i, |s'|)]] == s'[i]
    {
      if i < n - 1 {
        assert next[s[i]] == s[Succ(i, n)] && prev[s[Succ(i, n)]] == s[i];
      }
    }
  }

  /** Linking a member in a second time: a walk from the head comes back after that member, and those behind
      it are lost; the last member becomes its own successor, and the walk does not come back at all. */
  lemma InsertedTwice(next: seq<nat>, prev: seq<nat>, s: seq<nat>, k: nat)
    requires Ring(next, prev, s) && NoRepeat(s) && k < |s| && |next| == |prev|
    ensures var p, pos := s[k], s[0];
            var last := prev[pos];
            && last == s[|s| - 1]
            && (forall i :: 0 <= i < k ==> next[p := pos][last := p][s[i]] == s[i + 1])
            && next[p := pos][last := p][p] == if k == |s| - 1 then p else pos
  {
    var n := |s|;
    assert prev[s[Succ(n - 1, n)]] == s[n - 1];
    forall i | 0 <= i < k ensures next[s[i]] == s[i + 1] {
      RingAt(next, prev, s, i);
    }
  }

  /** Unlinking the member at position `k`. */
  lemma RingRemove(next: seq<nat>, prev: seq<nat>, s: seq<nat>, k: nat)
    requires Ring(next, prev, s) && NoRepeat(s) && k < |s| && |next| == |prev|
    ensures var p := s[k]; var a, b := prev[p], next[p];
            && a in s && b in s
            && a == s[if k == 0 then |s| - 1 else k - 1] && b == s[Succ(k, |s|)]
            && Ring(next[a := b][p := p], prev[b := a][p := p], Without(s, k))
  {
    var n, p := |s|, s[k];
    var before := if k == 0 then n - 1 else k - 1;
    assert Succ(before, n) == k;
    var a, b := prev[p], next[p];
    assert prev[s[Succ(before, n)]] == s[before];
    assert next[p] == s[Succ(k, n)] && next[s[before]] == p && prev[s[Succ(k, n)]] == p;
    var s' := Without(s, k);
    forall i | 0 <= i < |s'|
      ensures s'[i] < |next|
      ensures next[a := b][p := p][s'[i]] == s'[Succ(i, |s'|)]
      ensures prev[b := a][p := p][s'[Succ(i, |s'|)]] == s'[i]
    {
      RemovedStep(next, prev, s, k, i);
    }
  }

  lemma RingAt(next: seq<nat>, prev: seq<nat>, s: seq<nat>, i: nat)
    requires Ring(next, prev, s) && i < |s|
    ensures s[i] < |next| && s[i] < |prev| && Succ(i, |s|) < |s|
    ensures next[s[i]] == s[Succ(i, |s|)] && prev[s[Succ(i, |s|)]] == s[i]
  {
  }

  lemma WithoutAt(s: seq<nat>, k: nat, i: nat)
    requires k < |s| && i < |s| - 1
    ensures |Without(s, k)| == |s| - 1 && Without(s, k)[i] == s[if i < k then i else i + 1]
  {
  }

  lemma MembersDiffer(s: seq<nat>, i: nat, j: nat)
    requires NoRepeat(s) && i < |s| && j < |s| && i != j
    ensures s[i] != s[j]
  {
  }

  /** One step round the ring without its member at `k`. */
  lemma RemovedStep(next: seq<nat>, prev: seq<nat>, s: seq<nat>, k: nat, i: nat)
    requires Ring(next, prev, s) && NoRepeat(s) && k < |s| && |next| == |prev| && i < |s| - 1
    ensures var p := s[k]; var a, b := prev[p], next[p]; var s' := Without(s, k);
            && a < |next| && b < |prev| && s'[i] < |next|
            && next[a := b][p := p][s'[i]] == s'[Succ(i, |s'|)]
            && prev[b := a][p := p][s'[Succ(i, |s'|)]] == s'[i]
  {
    hide Ring, NoRepeat, Without, Succ;
    var n := |s|;
    var before := if k == 0 then n - 1 else k - 1;
    StepOver(n, k, i);
    var j, i1 := if i < k then i else i + 1, Succ(i, n - 1);
    var j1 := if i1 < k then i1 else i1 + 1;
    RingAt(next, prev, s, before);
    RingAt(next, prev, s, k);
    RingAt(next, prev, s, j);
    RingAt(next, prev, s, j1);
    RingAt(next, prev, s, Succ(k, n));
    WithoutAt(s, k, i);
    WithoutAt(s, k, i1);
    MembersDiffer(s, j, k);
    MembersDiffer(s, j1, k);
    if j != before {
      MembersDiffer(s, j, before);
      MembersDiffer(s, j1, Succ(k, n));
    }
  }

  /** Positions before and after one step round a ring that leaves out position `k`. */
  lemma StepOver(n: nat, k: nat, i: nat)
    requires k < n && i < n - 1
    ensures var before, after := if k == 0 then n - 1 else k - 1, Succ(k, n);
            var j, i1 := if i < k then i else i + 1, Succ(i, n - 1);
            var j1 := if i1 < k then i1 else i1 + 1;
            && Succ(before, n) == k && after < n && i1 < n - 1
            && j1 == (if j == before then after else Succ(j, n))
            && j < n && j1 < n && j != k && j1 != k && (j != before ==> j1 != after)
  {
  }

  /** The links and heads of all lists. */
  ghost predicate Linked(next: seq<nat>, prev: seq<nat>, first: seq<int>, lists: seq<seq<nat>>)
  {
    && |next| == |prev| && |first| == ORDERS == |lists|
    && (forall k :: 0 <= k < ORDERS ==> OneLinked(next, prev, first[k], lists[k]))
    && Disjoint(lists)
  }

  ghost predicate OneLinked(next: seq<nat>, prev: seq<nat>, first: int, s: seq<nat>)
  {
    && Ring(next, prev, s) && NoRepeat(s)
    && first == if s == [] then -1 else s[0]
  }

  ghost predicate Disjoint(lists: seq<seq<nat>>)
  {
    forall j, k, p :: 0 <= j < k < |lists| && p in lists[j] ==> p !in lists[k]
  }

  lemma OnlyHere(lists: seq<seq<nat>>, k: nat, p: nat)
    requires Disjoint(lists) && k < |lists| && p in lists[k]
    ensures forall j :: 0 <= j < |lists| && j != k ==> p !in lists[j]
  {
  }

  /** Relinking members of list `k` only, and pages of no list, keeps the others. */
  lemma OthersLinked(next: seq<nat>, prev: seq<nat>, next': seq<nat>, prev': seq<nat>, first: seq<int>,
                     lists: seq<seq<nat>>, k: nat)
    requires Linked(next, prev, first, lists) && k < ORDERS && |next'| == |prev'| == |next|
    requires forall p :: 0 <= p < |next| && (next'[p] != next[p] || prev'[p] != prev[p]) ==>
               forall j :: 0 <= j < ORDERS && j != k ==> p !in lists[j]
    ensures forall j :: 0 <= j < ORDERS && j != k ==> OneLinked(next', prev', first[j], lists[j])
  {
    forall j | 0 <= j < ORDERS && j != k ensures OneLinked(next', prev', first[j], lists[j]) {
      assert OneLinked(next, prev, first[j], lists[j]);
      forall p | p in lists[j] ensures p < |next| && next'[p] == next[p] && prev'[p] == prev[p] {
        var i :| 0 <= i < |lists[j]| && lists[j][i] == p;
      }
      RingFrame(next, prev, next', prev', lists[j]);
    }
  }

  lemma InsertLinked(next: seq<nat>, prev: seq<nat>, first: seq<int>, lists: seq<seq<nat>>, k: nat, p: nat)
    requires Linked(next, prev, first, lists) && k < ORDERS && p < |next|
    requires forall j :: 0 <= j < ORDERS ==> p !in lists[j]
    ensures lists[k] == [] ==>
              && first[k] == -1
              && Linked(next[p := p], prev[p := p], first[k := p], lists[k := lists[k] + [p]])
    ensures lists[k] != [] ==>
              && var pos := first[k];
              && 0 <= pos < |next| && pos != p && prev[pos] < |next|
              && var last := prev[pos];
              && Linked(next[p := pos][last := p], prev[p := last][pos := p], first, lists[k := lists[k] + [p]])
  {
    var s := lists[k];
    assert OneLinked(next, prev, first[k], s);
    if s == [] {
      OthersLinked(next, prev, next[p := p], prev[p := p], first, lists, k);
    } else {
      RingInsert(next, prev, s, p);
      var pos, last := s[0], prev[s[0]];
      assert pos in s && last in s;
      OthersLinked(next, prev, next[p := pos][last := p], prev[p := last][pos := p], first, lists, k);
    }
  }

  /** The head after unlinking `p`, the member before it `a` and the one after it `b`. */
  function NewHead(first: int, p: nat, a: nat, b: nat): int
  {
    if first != p then first else if a == p && b == p then -1 else b
  }

  lemma RemoveOne(next: seq<nat>, prev: seq<nat>, first: int, s: seq<nat>, i: nat)
    requires OneLinked(next, prev, first, s) && i < |s| && |next| == |prev|
    ensures s[i] < |next|
    ensures var p := s[i]; var a, b := prev[p], next[p];
            && a in s && b in s && a < |next| && b < |next|
            && OneLinked(next[a := b][p := p], prev[b := a][p := p], NewHead(first, p, a, b), Without(s, i))
  {
    RingRemove(next, prev, s, i);
    var p := s[i];
    assert prev[p] == s[if i == 0 then |s| - 1 else i - 1] && next[p] == s[Succ(i, |s|)];
    if |s| > 1 {
      assert next[p] != p;
      assert Without(s, i)[0] == if i == 0 then s[1] else s[0];
    }
  }

  lemma RemoveLinked(next: seq<nat>, prev: seq<nat>, first: seq<int>, lists: seq<seq<nat>>, k: nat, i: nat)
    requires Linked(next, prev, first, lists) && k < ORDERS && i < |lists[k]|
    ensures lists[k][i] < |next|
    ensures var p := lists[k][i]; var a, b := prev[p], next[p];
            && a < |next| && b < |next|
            && Linked(next[a := b][p := p], prev[b := a][p := p],
                      first[k := NewHead(first[k], p, a, b)], lists[k := Without(lists[k], i)])
  {
    var s, p := lists[k], lists[k][i];
    RemoveOne(next, prev, first[k], s, i);
    var a, b := prev[p], next[p];
    OnlyHere(lists, k, a);
    OnlyHere(lists, k, b);
    OnlyHere(lists, k, p);
    var next', prev' := next[a := b][p := p], prev[b := a][p := p];
    assert forall q :: 0 <= q < |next| && (next'[q] != next[q] || prev'[q] != prev[q]) ==> q == a || q == b || q == p;
    OthersLinked(next, prev, next', prev', first, lists, k);
    DisjointWithout(lists, k, i);
  }

  lemma DisjointWithout(lists: seq<seq<nat>>, k: nat, i: nat)
    requires Disjoint(lists) && k < |lists| && i < |lists[k]|
    ensures Disjoint(lists[k := Without(lists[k], i)])
  {
    var s := lists[k];
    forall q | q in Without(s, i) ensures q in s {
      var j :| 0 <= j < |Without(s, i)| && Without(s, i)[j] == q;
      assert s[if j < i then j else j + 1] == q;
    }
  }

  class PageLists {
    const next: array<nat>
    const prev: array<nat>
    /** The head of each list, -1 where it is empty. */
    const first: array<int>
    ghost var lists: seq<seq<nat>>

    ghost predicate Valid()
      reads this, next, prev, first
    {
      next != prev && Linked(next[..], prev[..], first[..], lists)
    }

    constructor (size: nat)
      ensures Valid() && next.Length == size && fresh(next) && fresh(prev) && fresh(first)
      ensures lists == seq(ORDERS, _ => [])
    {
      next := new nat[size](i => i);
      prev := new nat[size](i => i);
      first := new int[ORDERS](_ => -1);
      lists := seq(ORDERS, _ => []);
    }

    /** `_insNewFreePageFrame`. */
    method Insert(k: nat, p: nat)
      requires Valid() && k < ORDERS && p < next.Length
      requires forall j :: 0 <= j < ORDERS ==> p !in lists[j]
      modifies this`lists, next, prev, first
      ensures Valid() && lists == old(lists)[k := old(lists)[k] + [p]]
    {
      ghost var nx: seq<nat>, pv: seq<nat>, fs := next[..], prev[..], first[..];
      InsertLinked(nx, pv, fs, lists, k, p);
      assert OneLinked(nx, pv, fs[k], lists[k]);
      next[p], prev[p] := p, p;
      if first[k] == -1 {
        first[k] := p;
        assert next[..] == nx[p := p] && prev[..] == pv[p := p] && first[..] == fs[k := p];
      } else {
        var pos := first[k];
        next[p], prev[p] := pos, prev[pos];
        next[prev[p]] := p;
        prev[pos] := p;
        assert next[..] == nx[p := pos][pv[pos] := p] && prev[..] == pv[p := pv[pos]][pos := p];
      }
      lists := lists[k := lists[k] + [p]];
    }

    /** `_rmFreePageFrame`; `i` is where `p` was. */
    method Remove(k: nat, p: nat, ghost i: nat)
      requires Valid() && k < ORDERS && i < |lists[k]| && lists[k][i] == p
      modifies this`lists, next, prev, first
      ensures Valid() && lists == old(lists)[k := Without(old(lists)[k], i)]
    {
      ghost var nx: seq<nat>, pv: seq<nat>, fs := next[..], prev[..], first[..];
      RemoveLinked(nx, pv, fs, lists, k, i);
      if first[k] == p {
        if prev[p] == p && next[p] == p { first[k] := -1; }
        else { first[k] := next[p]; }
      }
      var a, b := prev[p], next[p];
      prev[b] := a;
      next[a] := b;
      prev[p], next[p] := p, p;
      assert next[..] == nx[a := b][p := p] && prev[..] == pv[b := a][p := p];
      assert first[..] == fs[k := NewHead(fs[k], p, a, b)];
      lists := lists[k := Without(lists[k], i)];
    }

    lemma MembersOnce(k: nat)
      requires Valid() && k < ORDERS
      ensures NoRepeat(lists[k])
    {
      assert OneLinked(next[..], prev[..], first[..][k], lists[k]);
    }

    method First(k: nat) returns (p: int)
      requires Valid() && k < ORDERS
      ensures p == if lists[k] == [] then -1 else lists[k][0]
    {
      assert OneLinked(next[..], prev[..], first[..][k], lists[k]);
      p := first[k];
    }

    method Next(p: nat, ghost k: nat, ghost i: nat) returns (q: nat)
      requires Valid() && k < ORDERS && i < |lists[k]| && lists[k][i] == p
      ensures q == lists[k][Succ(i, |lists[k]|)]
    {
      assert OneLinked(next[..], prev[..], first[..][k], lists[k]);
      q := next[p];
    }
  }
}
