/** The free lists of fixed-size pools, and the check that they do not run in a circle. */
module Memp {
  /** The links of a pool of `|next|` elements. Element numbers stand for addresses; `|next|` for null. */
  ghost predicate Links(next: seq<nat>) {
    forall i :: 0 <= i < |next| ==> next[i] <= |next|
  }

  /** The element `k` steps behind `start`; null has no successor. */
  ghost function Walk(next: seq<nat>, start: nat, k: nat): (e: nat)
    requires Links(next) && start <= |next|
    ensures e <= |next|
    decreases k
  {
    if k == 0 || start == |next| then start else Walk(next, next[start], k - 1)
  }

  /** The list from `start` on never ends. */
  ghost predicate Cyclic(next: seq<nat>, start: nat)
    requires Links(next) && start <= |next|
  {
    forall k: nat :: Walk(next, start, k) != |next|
  }

  lemma WalkZero(next: seq<nat>, start: nat)
    requires Links(next) && start <= |next|
    ensures Walk(next, start, 0) == start
  {
  }

  lemma {:induction false} WalkAdd(next: seq<nat>, start: nat, a: nat, b: nat)
    requires Links(next) && start <= |next|
    ensures Walk(next, start, a + b) == Walk(next, Walk(next, start, a), b)
    decreases a
  {
    if a > 0 && start < |next| {
      WalkAdd(next, next[start], a - 1, b);
    }
  }

  lemma WalkNext(next: seq<nat>, start: nat, k: nat)
    requires Links(next) && start <= |next|
    ensures var e := Walk(next, start, k);
      Walk(next, start, k + 1) == if e == |next| then |next| else next[e]
  {
    WalkAdd(next, start, k, 1);
  }

  /** Behind null there is only null. */
  lemma EndStays(next: seq<nat>, start: nat, k: nat, l: nat)
    requires Links(next) && start <= |next| && k <= l && Walk(next, start, k) == |next|
    ensures Walk(next, start, l) == |next|
  {
    WalkAdd(next, start, k, l - k);
  }

  // ---------------------------------------------------------------- circles

  /** Where two steps meet, the walk repeats itself. */
  lemma {:induction false} Repeats(next: seq<nat>, start: nat, i: nat, period: nat, x: nat, q: nat)
    requires Links(next) && start <= |next| && i <= x
    requires Walk(next, start, i) == Walk(next, start, i + period)
    ensures Walk(next, start, x + q * period) == Walk(next, start, x)
    decreases q
  {
    if q > 0 {
      Repeats(next, start, i, period, x, q - 1);
      var y := x + (q - 1) * period;
      assert x + q * period == y + period && y - i >= 0;
      WalkAdd(next, start, i, y - i);
      WalkAdd(next, start, i + period, y - i);
      assert i + (y - i) == y && i + period + (y - i) == y + period;
    }
  }

  /** A walk that visits an element twice never ends. */
  lemma RepeatIsCyclic(next: seq<nat>, start: nat, i: nat, period: nat)
    requires Links(next) && start <= |next| && period > 0
    requires Walk(next, start, i) == Walk(next, start, i + period) != |next|
    ensures Cyclic(next, start)
  {
    forall k: nat
      ensures Walk(next, start, k) != |next|
    {
      Repeats(next, start, i, period, i, k);
      assert k <= i + k * period;
      if Walk(next, start, k) == |next| {
        EndStays(next, start, k, i + k * period);
      }
    }
  }

  ghost function Visited(next: seq<nat>, start: nat, k: nat): set<nat>
    requires Links(next) && start <= |next|
  {
    set j: nat | j < k :: Walk(next, start, j)
  }

  lemma {:induction false} Below(n: nat, s: set<nat>)
    requires forall x :: x in s ==> x < n
    ensures |s| <= n
  {
    if n == 0 {
      assert s == {};
    } else {
      Below(n - 1, s - {n - 1});
      assert n - 1 in s ==> s == (s - {n - 1}) + {n - 1};
      assert n - 1 !in s ==> s == s - {n - 1};
    }
  }

  /** Either some element comes twice within `k` steps, or `k` elements have been visited. */
  lemma {:induction false} TwiceOrMany(next: seq<nat>, start: nat, k: nat) returns (i: nat, j: nat)
    requires Links(next) && start <= |next|
    ensures (i < j < k && Walk(next, start, i) == Walk(next, start, j)) || |Visited(next, start, k)| == k
    decreases k
  {
    i, j := 0, 0;
    if k > 0 {
      i, j := TwiceOrMany(next, start, k - 1);
      if !(i < j < k - 1 && Walk(next, start, i) == Walk(next, start, j)) {
        var e := Walk(next, start, k - 1);
        var before := Visited(next, start, k - 1);
        assert Visited(next, start, k) == before + {e};
        if e in before {
          i :| 0 <= i < k - 1 && Walk(next, start, i) == e;
          j := k - 1;
        }
      }
    } else {
      assert Visited(next, start, 0) == {};
    }
  }

  lemma VisitedEarly(next: seq<nat>, start: nat, k: nat, x: nat)
    requires Links(next) && start <= |next| && Walk(next, start, k) != |next| && x in Visited(next, start, k + 1)
    ensures x < |next|
  {
    var l: nat :| l < k + 1 && Walk(next, start, l) == x;
    if x == |next| {
      EndStays(next, start, l, k);
    }
  }

  /** Within as many steps as there are elements, the walk has ended or the two pointers have met. */
  lemma MeetOrEnd(next: seq<nat>, start: nat) returns (k: nat)
    requires Links(next) && start <= |next|
    ensures k <= |next|
    ensures Walk(next, start, k) == |next| || Walk(next, start, k) == Walk(next, start, 2 * k + 1)
  {
    hide Walk;
    k := |next|;
    if Walk(next, start, k) != |next| {
      var i, j := Twice(next, start);
      var q;
      k, q := Meeting(i, j - i);
      Repeats(next, start, i, j - i, k, q);
      assert k + q * (j - i) == 2 * k + 1;
    }
  }

  /** A walk with as many steps as there are elements has visited one twice. */
  lemma Twice(next: seq<nat>, start: nat) returns (i: nat, j: nat)
    requires Links(next) && start <= |next| && Walk(next, start, |next|) != |next|
    ensures i < j <= |next| && Walk(next, start, i) == Walk(next, start, j)
  {
    hide Walk;
    var n := |next|;
    i, j := TwiceOrMany(next, start, n + 1);
    var seen := Visited(next, start, n + 1);
    forall x | x in seen
      ensures x < n
    {
      VisitedEarly(next, start, n, x);
    }
    Below(n, seen);
  }

  /** The first multiple of the period behind `i`, less one. */
  lemma Meeting(i: nat, period: nat) returns (k: nat, q: nat)
    requires period > 0
    ensures i <= k < i + period && k + 1 == q * period
  {
    q := i / period + 1;
    k := q * period - 1;
  }

  lemma Ended(next: seq<nat>, start: nat, k: nat)
    requires Links(next) && start <= |next| && Walk(next, start, k) == |next|
    ensures !Cyclic(next, start)
  {
  }

  /** `memp_sanity`: Floyd's cycle finding. */
  method Sanity(next: seq<nat>, tab: nat) returns (r: int)
    requires Links(next) && tab <= |next|
    ensures r == 0 <==> Cyclic(next, tab)
    ensures r == 0 || r == 1
  {
    var none := |next|;
    var t := tab;
    if t != none {
      var h := next[t];
      ghost var k: nat := 0;
      ghost var last := MeetOrEnd(next, tab);
      WalkNext(next, tab, 0);
      while t != none && h != none
        invariant t == Walk(next, tab, k) && h == Walk(next, tab, 2 * k + 1) && k <= last
        decreases last - k
      {
        if t == h {
          RepeatIsCyclic(next, tab, k, k + 1);
          return 0;
        }
        WalkNext(next, tab, k);
        WalkNext(next, tab, 2 * k + 1);
        WalkNext(next, tab, 2 * k + 2);
        t := next[t];
        h := if next[h] != none then next[next[h]] else none;
        k := k + 1;
      }
      Ended(next, tab, if t == none then k else 2 * k + 1);
    } else {
      Ended(next, tab, 0);
    }
    return 1;
  }

  // ---------------------------------------------------------------- the free list of a pool

  /** `free` is the list from `tab` on: each element leads to the next, the last to null. */
  ghost predicate ListOf(next: seq<nat>, tab: nat, free: seq<nat>) {
    && Links(next)
    && (forall i :: 0 <= i < |free| ==> free[i] < |next|)
    && tab == (if free == [] then |next| else free[0])
    && (forall i {:trigger next[free[i]]} :: 0 <= i < |free| ==>
          next[free[i]] == if i + 1 < |free| then free[i + 1] else |next|)
  }

  ghost predicate Distinct(free: seq<nat>) {
    forall i, j :: 0 <= i < j < |free| ==> free[i] != free[j]
  }

  lemma {:induction false} ListWalk(next: seq<nat>, tab: nat, free: seq<nat>, k: nat)
    requires ListOf(next, tab, free) && k <= |free|
    ensures Walk(next, tab, k) == if k < |free| then free[k] else |next|
    decreases k
  {
    if k > 0 {
      ListWalk(next, tab, free, k - 1);
      WalkNext(next, tab, k - 1);
    }
  }

  lemma ListEnds(next: seq<nat>, tab: nat, free: seq<nat>)
    requires ListOf(next, tab, free)
    ensures !Cyclic(next, tab)
  {
    ListWalk(next, tab, free, |free|);
  }

  /** Putting `m` in front of the list. */
  lemma PushedList(next: seq<nat>, tab: nat, free: seq<nat>, m: nat)
    requires ListOf(next, tab, free) && m < |next| && m !in free
    ensures ListOf(next[m := tab], m, [m] + free)
  {
    var all, after := [m] + free, next[m := tab];
    forall i | 0 <= i < |all|
      ensures after[all[i]] == if i + 1 < |all| then all[i + 1] else |after|
    {
      if i > 0 {
        assert all[i] == free[i - 1] && free[i - 1] in free;
      }
    }
  }

  /** The first steps of the list do not depend on the links of an element further back. */
  lemma {:induction false} WalkToSecond(next: seq<nat>, tab: nat, free: seq<nat>, i: nat, after: seq<nat>, k: nat)
    requires ListOf(next, tab, free) && Distinct(free) && i < |free| && after == next[free[i] := tab] && k <= i
    requires Links(after)
    ensures Walk(after, free[i], k + 1) == free[k]
    decreases k
  {
    if k > 0 {
      WalkToSecond(next, tab, free, i, after, k - 1);
      assert next[free[k - 1]] == free[k] && free[k - 1] != free[i];
    }
    WalkNext(after, free[i], k);
  }

  lemma LinksSet(next: seq<nat>, tab: nat, free: seq<nat>, m: nat)
    requires ListOf(next, tab, free) && m < |next|
    ensures Links(next[m := tab])
  {
  }

  /** Freeing an element makes a circle exactly if it is on the free list already. */
  lemma FreedTwiceIsCyclic(next: seq<nat>, tab: nat, free: seq<nat>, m: nat)
    requires ListOf(next, tab, free) && Distinct(free) && m < |next|
    ensures Links(next[m := tab]) && (Cyclic(next[m := tab], m) <==> m in free)
  {
    hide Walk, Cyclic, ListOf, Distinct;
    LinksSet(next, tab, free, m);
    if m in free {
      WalkZero(next[m := tab], m);
      var i :| 0 <= i < |free| && free[i] == m;
      WalkToSecond(next, tab, free, i, next[m := tab], i);
      RepeatIsCyclic(next[m := tab], m, 0, i + 1);
    } else {
      PushedList(next, tab, free, m);
      ListEnds(next[m := tab], m, [m] + free);
    }
  }

  /** The elements of `list` are those below `n`. */
  ghost predicate Upto(list: seq<nat>, n: nat) {
    forall m: nat :: m < n <==> m in list
  }

  lemma NoList(next: seq<nat>)
    requires Links(next)
    ensures ListOf(next, |next|, []) && Distinct([]) && Upto([], 0)
  {
  }

  lemma UptoIs(list: seq<nat>, n: nat)
    requires Upto(list, n)
    ensures forall m: nat :: m < n <==> m in list
  {
  }

  lemma PushedUpto(list: seq<nat>, n: nat)
    requires Upto(list, n) && Distinct(list)
    ensures n !in list && Upto([n] + list, n + 1) && Distinct([n] + list)
  {
    assert n !in list;
    forall m: nat
      ensures m in [n] + list <==> m == n || m in list
    {
    }
  }

  datatype Request = Allocate | Release(m: nat)

  /** What callers see of a pool: the links, the head of the free list and what is handed out. */
  datatype View = View(next: seq<nat>, tab: nat, held: set<nat>)

  /** One request; a release by somebody who does not hold the element is not made. */
  function After(v: View, r: Request): View {
    match r
    case Allocate => if v.tab < |v.next| then View(v.next, v.next[v.tab], v.held + {v.tab}) else v
    case Release(m) => if m in v.held && m < |v.next| then View(v.next[m := v.tab], m, v.held - {m}) else v
  }

  function AfterAll(v: View, rs: seq<Request>): View
    decreases |rs|
  {
    if rs == [] then v else After(AfterAll(v, rs[..|rs| - 1]), rs[|rs| - 1])
  }

  /** The element that was given back last is the next to be handed out, and nothing else has changed then. */
  lemma LastFreedFirst(v: View, m: nat)
    requires m in v.held && m < |v.next|
    ensures After(v, Release(m)).tab == m && m !in After(v, Release(m)).held
    ensures After(After(v, Release(m)), Allocate) == v.(next := v.next[m := v.tab])
  {
    assert v.held - {m} + {m} == v.held;
  }

  class Pool {
    var next: seq<nat>
    /** The head of the free list. */
    var tab: nat
    /** The elements that callers hold. */
    var held: set<nat>
    ghost var free: seq<nat>

    /** The list and the elements handed out are exactly the pool, each element once. */
    ghost predicate Valid()
      reads this
    {
      && ListOf(next, tab, free) && Distinct(free)
      && (forall m: nat :: m < |next| <==> (m in free || m in held))
      && (forall m :: m in free ==> m !in held)
    }

    function State(): View
      reads this
    {
      View(next, tab, held)
    }

    /** `memp_init_pool`. */
    constructor (num: nat)
      ensures Valid() && |next| == num && held == {} && |free| == num
    {
      hide ListOf, Distinct, Upto;
      var links: seq<nat> := seq(num, i => num);
      NoList(links);
      var head, i := num, 0;
      ghost var list: seq<nat> := [];
      while i < num
        invariant 0 <= i <= num && |links| == num == |list| + num - i && ListOf(links, head, list) && Distinct(list)
        invariant Upto(list, i)
      {
        PushedUpto(list, i);
        PushedList(links, head, list, i);
        links := links[i := head];
        head := i;
        list := [i] + list;
        i := i + 1;
      }
      UptoIs(list, num);
      next, tab, held, free := links, head, {}, list;
    }

    /** `do_memp_malloc_pool`: null only when every element is out. */
    method Malloc() returns (m: nat)
      requires Valid()
      modifies `tab, `held, `free
      ensures Valid()
      ensures State() == After(old(State()), Allocate)
      ensures if m == |next| then (forall e: nat :: e < |next| ==> e in old(held)) && held == old(held) && free == old(free)
              else m !in old(held) && m in old(free) && held == old(held) + {m}
    {
      m := tab;
      if m != |next| {
        assert m == free[0];
        tab := next[m];
        held := held + {m};
        assert forall e :: e in free <==> e == m || e in free[1..];
        assert free[1..] == [] || free[1..][0] == free[1];
        free := free[1..];
      }
    }

    /** `do_memp_free_pool`. */
    method Free(m: nat) returns (sane: int)
      requires Valid() && m in held
      modifies `next, `tab, `held, `free
      ensures Valid() && State() == After(old(State()), Release(m))
      ensures |next| == |old(next)| && held == old(held) - {m} && free == [m] + old(free)
      ensures sane == 1
    {
      PushedList(next, tab, free, m);
      next := next[m := tab];
      tab := m;
      held := held - {m};
      free := [m] + free;
      sane := Sanity(next, tab);
      ListEnds(next, tab, free);
    }

    /** Every run of allocations and of releases by holders keeps the pool whole. */
    method Serve(rs: seq<Request>) returns (sane: int)
      requires Valid()
      modifies this
      ensures State() == AfterAll(old(State()), rs)
      ensures Valid() && |next| == |old(next)| && sane == 1
      ensures held == {} ==> forall m: nat :: m < |next| <==> m in free
    {
      var i := 0;
      assert rs[..0] == [];
      while i < |rs|
        invariant 0 <= i <= |rs| && Valid() && |next| == |old(next)| && State() == AfterAll(old(State()), rs[..i])
      {
        assert rs[..i + 1][..i] == rs[..i];
        match rs[i] {
          case Allocate =>
            var _ := Malloc();
          case Release(m) =>
            if m in held {
              var _ := Free(m);
            }
        }
        i := i + 1;
      }
      assert rs[..i] == rs;
      ListEnds(next, tab, free);
      sane := Sanity(next, tab);
    }
  }
}
