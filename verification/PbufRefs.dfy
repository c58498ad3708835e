/** Reference counts of packet buffers: shared chains, released exactly when nothing refers to them. */
module PbufRefs {
  /** The address of a pbuf. */
  type Id = nat

  const NULL: Id := 0

  /** `LWIP_PBUF_REF_T` has eight bits. */
  const MAX_REF: nat := 255

  /** Which allocator a pbuf came from. */
  datatype Source = Pool | Reference | Heap

  datatype Node = Node(next: Id, ref: nat, source: Source)

  type Buffers = map<Id, Node>

  // ---------------------------------------------------------------- what counts as a reference

  /** The pbufs that link to `x`. */
  ghost function Predecessors(live: Buffers, x: Id): set<Id> {
    set y | y in live && live[y].next == x
  }

  ghost predicate Closed(live: Buffers) {
    NULL !in live && forall x {:trigger live[x].next} :: x in live ==> live[x].next == NULL || live[x].next in live
  }

  /** No chain runs in a circle: ranks fall along every link. */
  ghost predicate Ranked(live: Buffers, rank: map<Id, nat>) {
    && live.Keys <= rank.Keys
    && forall x {:trigger live[x].next} :: x in live && live[x].next in live ==> rank[live[x].next] < rank[x]
  }

  ghost function Owed(live: Buffers, handles: multiset<Id>, claim: Id, x: Id): nat {
    handles[x] + |Predecessors(live, x)| + if x == claim then 1 else 0
  }

  /** Each count is the number of handles outside plus the links inside; `claim` has one more
      reference, which the running function is about to store or to drop. */
  ghost predicate Exact(live: Buffers, handles: multiset<Id>, claim: Id) {
    && (forall x :: x in live ==> live[x].ref == Owed(live, handles, claim, x) && live[x].ref >= 1)
    && (forall x :: x in handles ==> x in live)
    && (claim == NULL || claim in live)
  }

  lemma NoPredecessor(live: Buffers, p: Id)
    requires |Predecessors(live, p)| == 0
    ensures forall y :: y in live ==> live[y].next != p
  {
    assert Predecessors(live, p) == {};
    assert forall y :: y in live && live[y].next == p ==> y in Predecessors(live, p);
  }

  lemma DropCount(live: Buffers, p: Id, x: Id)
    requires p in live
    ensures |Predecessors(live - {p}, x)| == |Predecessors(live, x)| - if live[p].next == x then 1 else 0
  {
    var was, now := Predecessors(live, x), Predecessors(live - {p}, x);
    if live[p].next == x {
      assert was == now + {p};
    } else {
      assert was == now;
    }
  }

  /** Nothing refers to `p` but the claim that is dropped: it goes, and the claim moves on. */
  lemma DropDead(live: Buffers, handles: multiset<Id>, p: Id)
    requires Closed(live) && Exact(live, handles, p) && p in live && live[p].ref == 1
    ensures Closed(live - {p}) && Exact(live - {p}, handles, live[p].next)
  {
    assert Owed(live, handles, p, p) == 1;
    NoPredecessor(live, p);
    forall x
      ensures |Predecessors(live - {p}, x)| == |Predecessors(live, x)| - if live[p].next == x then 1 else 0
    {
      DropCount(live, p, x);
    }
    hide Predecessors;
    assert forall x :: x in handles ==> x != p;
  }

  ghost predicate LinksKept(live: Buffers, after: Buffers) {
    && after.Keys <= live.Keys
    && forall y :: y in after ==> after[y].next == live[y].next && after[y].source == live[y].source
  }

  /** Changing counts does not change who refers to whom. */
  lemma SameOwed(live: Buffers, handles: multiset<Id>, claim: Id, p: Id, ref: nat)
    requires p in live
    ensures forall x :: Owed(live[p := live[p].(ref := ref)], handles, claim, x) == Owed(live, handles, claim, x)
  {
    var after := live[p := live[p].(ref := ref)];
    forall x
      ensures Predecessors(after, x) == Predecessors(live, x)
    {
    }
  }

  /** A claim on a pbuf with other references is dropped. */
  lemma DropLive(live: Buffers, handles: multiset<Id>, p: Id)
    requires Closed(live) && Exact(live, handles, p) && p in live && live[p].ref > 1
    ensures Closed(live[p := live[p].(ref := live[p].ref - 1)])
    ensures Exact(live[p := live[p].(ref := live[p].ref - 1)], handles, NULL)
  {
    SameOwed(live, handles, NULL, p, live[p].ref - 1);
    hide Predecessors;
    var after := live[p := live[p].(ref := live[p].ref - 1)];
    forall x | x in live
      ensures after[x].ref == Owed(after, handles, NULL, x)
    {
      assert Owed(live, handles, p, x) == Owed(live, handles, NULL, x) + if x == p then 1 else 0;
    }
  }

  lemma HandleOwed(live: Buffers, handles: multiset<Id>, p: Id, x: Id)
    ensures Owed(live, handles + multiset{p}, NULL, x) == Owed(live, handles, NULL, x) + if x == p then 1 else 0
  {
    hide Predecessors;
  }

  lemma RefClosed(live: Buffers, p: Id, ref: nat)
    requires Closed(live) && p in live
    ensures Closed(live[p := live[p].(ref := ref)])
  {
  }

  /** One more handle, one more in the count. */
  lemma AddHandle(live: Buffers, handles: multiset<Id>, p: Id)
    requires Closed(live) && Exact(live, handles, NULL) && p in live
    ensures Closed(live[p := live[p].(ref := live[p].ref + 1)])
    ensures Exact(live[p := live[p].(ref := live[p].ref + 1)], handles + multiset{p}, NULL)
  {
    hide Closed, Owed;
    RefClosed(live, p, live[p].ref + 1);
    SameOwed(live, handles + multiset{p}, NULL, p, live[p].ref + 1);
    var after := live[p := live[p].(ref := live[p].ref + 1)];
    forall x | x in live
      ensures after[x].ref == Owed(after, handles + multiset{p}, NULL, x)
    {
      HandleOwed(live, handles, p, x);
    }
  }

  /** A new pbuf, which only the claim refers to. */
  lemma Fresh(live: Buffers, handles: multiset<Id>, q: Id, node: Node)
    requires Closed(live) && Exact(live, handles, NULL) && q !in live && q != NULL
    requires node.next == NULL && node.ref == 1
    ensures Closed(live[q := node]) && Exact(live[q := node], handles, q)
  {
    var after := live[q := node];
    forall x | x in after
      ensures Predecessors(after, x) == Predecessors(live, x)
    {
      assert forall y :: y in after && after[y].next == x ==> y != q;
      if x == q {
        assert Predecessors(live, q) == {};
      }
    }
    assert handles[q] == 0;
  }

  lemma LinkCount(live: Buffers, p: Id, t: Id, x: Id)
    requires p in live && live[p].next == NULL && t != NULL && x != NULL
    ensures |Predecessors(live[p := live[p].(next := t)], x)| == |Predecessors(live, x)| + if x == t then 1 else 0
  {
    var was, now := Predecessors(live, x), Predecessors(live[p := live[p].(next := t)], x);
    if x == t {
      assert now == was + {p};
    } else {
      assert now == was;
    }
  }

  lemma LinkClosed(live: Buffers, p: Id, t: Id)
    requires Closed(live) && p in live && t in live
    ensures Closed(live[p := live[p].(next := t)])
  {
  }

  lemma LinkOwed(live: Buffers, handles: multiset<Id>, last: Id, t: Id)
    requires Closed(live) && last in live && live[last].next == NULL && t in live
    ensures Closed(live[last := live[last].(next := t)])
    ensures forall x :: x in live ==>
      Owed(live[last := live[last].(next := t)], handles, NULL, x) == Owed(live, handles, t, x)
  {
    LinkClosed(live, last, t);
    forall x | x in live
      ensures Owed(live[last := live[last].(next := t)], handles, NULL, x) == Owed(live, handles, t, x)
    {
      LinkCount(live, last, t, x);
    }
  }

  /** Linking `last` to a claimed pbuf: the link takes the place of the claim. */
  lemma LinkClaimed(live: Buffers, handles: multiset<Id>, last: Id, t: Id)
    requires Closed(live) && Exact(live, handles, t) && last in live && live[last].next == NULL && t in live
    ensures Closed(live[last := live[last].(next := t)])
    ensures Exact(live[last := live[last].(next := t)], handles, NULL)
  {
    LinkOwed(live, handles, last, t);
    hide Closed, Owed;
  }

  /** A claim may be turned into a handle, and back. */
  lemma KeepClaim(live: Buffers, handles: multiset<Id>, t: Id)
    requires Exact(live, handles, t) && t in live && NULL !in live
    ensures Exact(live, handles + multiset{t}, NULL)
  {
    hide Predecessors;
  }

  lemma ClaimHandle(live: Buffers, handles: multiset<Id>, t: Id)
    requires Exact(live, handles, NULL) && t in handles && NULL !in live
    ensures Exact(live, handles - multiset{t}, t)
  {
    hide Predecessors;
  }

  lemma CutCount(live: Buffers, p: Id, x: Id)
    requires p in live && live[p].next != NULL && x != NULL
    ensures |Predecessors(live[p := live[p].(next := NULL)], x)|
         == |Predecessors(live, x)| - if x == live[p].next then 1 else 0
  {
    var was, now := Predecessors(live, x), Predecessors(live[p := live[p].(next := NULL)], x);
    if x == live[p].next {
      assert was == now + {p};
    } else {
      assert was == now;
    }
  }

  lemma CutClosed(live: Buffers, p: Id)
    requires Closed(live) && p in live
    ensures Closed(live[p := live[p].(next := NULL)])
  {
  }

  /** Cutting the link of `p`: what it referred to is claimed instead. */
  lemma Cut(live: Buffers, handles: multiset<Id>, p: Id)
    requires Closed(live) && Exact(live, handles, NULL) && p in live && live[p].next != NULL
    ensures Closed(live[p := live[p].(next := NULL)])
    ensures Exact(live[p := live[p].(next := NULL)], handles, live[p].next)
  {
    CutClosed(live, p);
    assert NULL !in live && live[p].next in live;
    hide Closed;
    var after := live[p := live[p].(next := NULL)];
    forall x | x in live
      ensures |Predecessors(after, x)| == |Predecessors(live, x)| - if x == live[p].next then 1 else 0
    {
      CutCount(live, p, x);
    }
    hide Predecessors;
  }

  // ---------------------------------------------------------------- chains

  /** The last pbuf of the chain that starts at `x`. */
  ghost function Last(live: Buffers, rank: map<Id, nat>, x: Id): (l: Id)
    requires Closed(live) && Ranked(live, rank) && x in live
    ensures l in live && live[l].next == NULL
    decreases rank[x]
  {
    if live[x].next == NULL then x else Last(live, rank, live[x].next)
  }

  /** Links from `last` to `t` are safe when the chain of `t` ends elsewhere. */
  ghost function Raised(live: Buffers, rank: map<Id, nat>, last: Id, t: Id): map<Id, nat>
    requires Closed(live) && Ranked(live, rank) && t in live
  {
    map x | x in live :: if Last(live, rank, x) == last then rank[x] + rank[t] + 1 else rank[x]
  }

  lemma LinkRanked(live: Buffers, rank: map<Id, nat>, last: Id, t: Id)
    requires Closed(live) && Ranked(live, rank) && last in live && t in live && live[last].next == NULL
    requires Last(live, rank, t) != last
    ensures Ranked(live[last := live[last].(next := t)], Raised(live, rank, last, t))
  {
    var raised := Raised(live, rank, last, t);
    forall x | x in live && x != last && live[x].next in live
      ensures raised[live[x].next] < raised[x]
    {
      assert Last(live, rank, x) == Last(live, rank, live[x].next);
    }
    assert Last(live, rank, last) == last;
  }

  lemma {:induction false} LastIsLowest(live: Buffers, rank: map<Id, nat>, other: map<Id, nat>, x: Id)
    requires Closed(live) && Ranked(live, rank) && x in live && Ranked(live, other)
    ensures other[Last(live, rank, x)] <= other[x]
    decreases rank[x]
  {
    if live[x].next != NULL {
      LastIsLowest(live, rank, other, live[x].next);
    }
  }

  lemma LessLinked(live: Buffers, after: Buffers, other: map<Id, nat>)
    requires live.Keys == after.Keys && NULL !in live
    requires forall y :: y in live ==> live[y].next == NULL || after[y].next == live[y].next
    ensures Ranked(after, other) ==> Ranked(live, other)
  {
    assert forall y :: y in live ==> (live[y].next in live ==> after[y].next == live[y].next);
  }

  ghost predicate Acyclic(live: Buffers) {
    exists rank :: Ranked(live, rank)
  }

  /** Joining two chains makes a circle if and only if they end in the same pbuf. */
  lemma JoinIsAcyclic(live: Buffers, rank: map<Id, nat>, last: Id, t: Id)
    requires Closed(live) && Ranked(live, rank) && last in live && live[last].next == NULL && t in live
    ensures Acyclic(live[last := live[last].(next := t)]) <==> Last(live, rank, t) != last
  {
    var after := live[last := live[last].(next := t)];
    if Last(live, rank, t) != last {
      LinkRanked(live, rank, last, t);
    } else {
      forall other: map<Id, nat>
        ensures !Ranked(after, other)
      {
        assert after[last].next == t;
        assert Ranked(after, other) ==> Ranked(live, other) && other[t] < other[last] by {
          LessLinked(live, after, other);
        }
        if Ranked(live, other) {
          LastIsLowest(live, rank, other, t);
        }
      }
    }
  }

  ghost predicate Reaches(live: Buffers, rank: map<Id, nat>, a: Id, x: Id)
    requires Closed(live) && Ranked(live, rank) && a in live
    decreases rank[a]
  {
    a == x || (live[a].next != NULL && Reaches(live, rank, live[a].next, x))
  }

  lemma {:induction false} ReachedLives(live: Buffers, rank: map<Id, nat>, a: Id, x: Id)
    requires Closed(live) && Ranked(live, rank) && a in live && Reaches(live, rank, a, x)
    ensures x in live
    decreases rank[a]
  {
    if a != x {
      ReachedLives(live, rank, live[a].next, x);
    }
  }

  lemma {:induction false} ReachesDown(live: Buffers, rank: map<Id, nat>, a: Id, x: Id)
    requires Closed(live) && Ranked(live, rank) && a in live && x in live && Reaches(live, rank, a, x)
    ensures rank[x] <= rank[a]
    decreases rank[a]
  {
    if a != x {
      ReachesDown(live, rank, live[a].next, x);
    }
  }

  lemma {:induction false} ReachesOn(live: Buffers, rank: map<Id, nat>, a: Id, y: Id)
    requires Closed(live) && Ranked(live, rank) && a in live && y in live && Reaches(live, rank, a, y)
    requires live[y].next in live
    ensures Reaches(live, rank, a, live[y].next)
    decreases rank[a]
  {
    if a == y {
      assert Reaches(live, rank, live[a].next, live[y].next);
    } else {
      ReachesOn(live, rank, live[a].next, y);
    }
  }

  ghost function Above(live: Buffers, rank: map<Id, nat>, x: Id): set<Id>
    requires Ranked(live, rank) && x in live
  {
    set y | y in live && rank[y] > rank[x]
  }

  /** Every pbuf in use hangs on a handle: nothing leaks. */
  lemma {:induction false} HeldBySome(live: Buffers, rank: map<Id, nat>, handles: multiset<Id>, x: Id) returns (h: Id)
    requires Closed(live) && Ranked(live, rank) && Exact(live, handles, NULL) && x in live
    ensures h in handles && Reaches(live, rank, h, x)
    decreases Above(live, rank, x)
  {
    if x in handles {
      h := x;
    } else {
      assert Owed(live, handles, NULL, x) >= 1;
      assert Predecessors(live, x) != {};
      var y :| y in Predecessors(live, x);
      assert y in Above(live, rank, x);
      h := HeldBySome(live, rank, handles, y);
      ReachesOn(live, rank, h, y);
    }
  }

  /** In use is exactly what some handle leads to. */
  lemma InUseIsReachable(live: Buffers, rank: map<Id, nat>, handles: multiset<Id>, x: Id)
    requires Closed(live) && Ranked(live, rank) && Exact(live, handles, NULL)
    ensures x in live <==> exists h :: h in handles && Reaches(live, rank, h, x)
  {
    if x in live {
      var h := HeldBySome(live, rank, handles, x);
    } else {
      forall h | h in handles
        ensures !Reaches(live, rank, h, x)
      {
        if Reaches(live, rank, h, x) {
          ReachedLives(live, rank, h, x);
        }
      }
    }
  }

  /** When the last handle is gone, so is every pbuf. */
  lemma NoHandlesNothingInUse(live: Buffers, rank: map<Id, nat>, handles: multiset<Id>)
    requires Closed(live) && Ranked(live, rank) && Exact(live, handles, NULL) && handles == multiset{}
    ensures live == map[]
  {
    forall x | x in live
      ensures false
    {
      var h := HeldBySome(live, rank, handles, x);
    }
  }

  lemma {:induction false} SameReach(a: Buffers, rank: map<Id, nat>, b: Buffers, h: Id, x: Id)
    requires Closed(a) && Ranked(a, rank) && Closed(b) && h in a && h in b && Reaches(a, rank, h, x)
    requires forall y :: y in a && y in b ==> a[y].next == b[y].next
    ensures x in b
    decreases rank[h]
  {
    if h != x {
      assert a[h].next == b[h].next;
      SameReach(a, rank, b, a[h].next, x);
    }
  }

  /** What is in use, and every count, follows from the handles and the links alone. */
  lemma InUseIsDetermined(a: Buffers, rankA: map<Id, nat>, b: Buffers, rankB: map<Id, nat>, handles: multiset<Id>)
    requires Closed(a) && Ranked(a, rankA) && Exact(a, handles, NULL)
    requires Closed(b) && Ranked(b, rankB) && Exact(b, handles, NULL)
    requires forall y :: y in a && y in b ==> a[y].next == b[y].next && a[y].source == b[y].source
    ensures a == b
  {
    forall x | x in a
      ensures x in b
    {
      var h := HeldBySome(a, rankA, handles, x);
      SameReach(a, rankA, b, h, x);
    }
    forall x | x in b
      ensures x in a
    {
      var h := HeldBySome(b, rankB, handles, x);
      SameReach(b, rankB, a, h, x);
    }
    forall x | x in a
      ensures a[x] == b[x]
    {
      assert Predecessors(a, x) == Predecessors(b, x);
      assert a[x].ref == Owed(a, handles, NULL, x) && b[x].ref == Owed(b, handles, NULL, x);
    }
  }

  // ---------------------------------------------------------------- how far a release reaches

  /** How many pbufs from `x` on, up to the first with another count, have a count of one. */
  ghost function Lone(live: Buffers, rank: map<Id, nat>, x: Id): nat
    requires Closed(live) && Ranked(live, rank) && (x == NULL || x in live)
    decreases x != NULL, if x in live then rank[x] else 0
  {
    if x == NULL || live[x].ref != 1 then 0 else 1 + Lone(live, rank, live[x].next)
  }

  /** The same without preconditions. */
  ghost function LoneFrom(live: Buffers, rank: map<Id, nat>, x: Id): nat {
    if Closed(live) && Ranked(live, rank) && x in live then Lone(live, rank, x) else 0
  }

  lemma LoneStep(live: Buffers, rank: map<Id, nat>, x: Id)
    requires Closed(live) && Ranked(live, rank) && x in live
    ensures LoneFrom(live, rank, x) == if live[x].ref == 1 then 1 + LoneFrom(live, rank, live[x].next) else 0
    ensures LoneFrom(live, rank, NULL) == 0
  {
    assert Lone(live, rank, NULL) == 0;
  }

  /** Cutting a link does not matter to the pbufs behind it. */
  lemma {:induction false} LoneBehindCut(live: Buffers, rank: map<Id, nat>, p: Id, x: Id)
    requires Closed(live) && Ranked(live, rank) && p in live && x in live && rank[x] < rank[p]
    requires Closed(live[p := live[p].(next := NULL)]) && Ranked(live[p := live[p].(next := NULL)], rank)
    ensures LoneFrom(live[p := live[p].(next := NULL)], rank, x) == LoneFrom(live, rank, x)
    decreases rank[x]
  {
    var cut := live[p := live[p].(next := NULL)];
    LoneStep(live, rank, x);
    LoneStep(cut, rank, x);
    var q := live[x].next;
    if q != NULL {
      assert rank[q] < rank[x];
      hide LoneFrom;
      LoneBehindCut(live, rank, p, q);
    }
  }

  /** A chain of `n` pbufs from `x` to `last`, each with a count of one. */
  ghost predicate LoneChain(live: Buffers, x: Id, last: Id, n: nat)
    decreases n
  {
    && n > 0 && x in live && live[x].ref == 1
    && if n == 1 then x == last && live[x].next == NULL else LoneChain(live, live[x].next, last, n - 1)
  }

  lemma {:induction false} LoneChainCounts(live: Buffers, rank: map<Id, nat>, x: Id, last: Id, n: nat)
    requires Closed(live) && Ranked(live, rank) && LoneChain(live, x, last, n)
    ensures LoneFrom(live, rank, x) == n
    decreases n
  {
    LoneStep(live, rank, x);
    hide LoneFrom;
    if n > 1 {
      LoneChainCounts(live, rank, live[x].next, last, n - 1);
    }
  }

  /** A new pbuf behind the last one. */
  lemma {:induction false} LoneChainGrows(live: Buffers, x: Id, last: Id, n: nat, q: Id, source: Source)
    requires NULL !in live && q !in live && last in live && live[last].next == NULL && LoneChain(live, x, last, n)
    ensures LoneChain(live[q := Node(NULL, 1, source)][last := live[last].(next := q)], x, q, n + 1)
    decreases n
  {
    var after := live[q := Node(NULL, 1, source)][last := live[last].(next := q)];
    if n == 1 {
      assert LoneChain(after, q, q, 1);
    } else {
      assert live[x].next in live && x != last;
      LoneChainGrows(live, live[x].next, last, n - 1, q, source);
    }
  }
}
