/** The pbuf functions that allocate, share and release, with a ledger of the handles that callers hold. */
module PbufStore {
  import opened PbufRefs

  datatype Request =
    | AllocatePool(length: nat, offset: nat)
    | AllocateReference
    | AllocateRam(granted: bool)
    | Refer(p: Id)
    | Concatenate(h: Id, t: Id)
    | Join(h: Id, t: Id)
    | Split(p: Id)
    | Release(p: Id)

  /** How many pool pbufs hold `length` bytes when the first starts with `offset` bytes for headers. */
  function PoolCount(bufsize: nat, length: nat, offset: nat): (n: nat)
    requires offset < bufsize
    ensures n >= 1
    decreases length
  {
    if length <= bufsize - offset then 1 else 1 + PoolCount(bufsize, length - (bufsize - offset), 0)
  }

  /** They have room for headers and bytes, and one pbuf less has not. */
  lemma {:induction false} PoolCountIs(bufsize: nat, length: nat, offset: nat)
    requires offset < bufsize
    ensures var n := PoolCount(bufsize, length, offset); offset + length <= n * bufsize && (n > 1 ==> (n - 1) * bufsize < offset + length)
    decreases length
  {
    if length > bufsize - offset {
      var m := PoolCount(bufsize, length - (bufsize - offset), 0);
      PoolCountIs(bufsize, length - (bufsize - offset), 0);
      assert (m + 1) * bufsize == m * bufsize + bufsize && m * bufsize == (m - 1) * bufsize + bufsize;
      assert m == 1 ==> (m - 1) * bufsize == 0;
    }
  }

  /** Every address is either in use or with its own allocator. */
  ghost predicate Conserved(home: map<Id, Source>, live: Buffers, idle: set<Id>) {
    && NULL !in home
    && live.Keys !! idle && live.Keys + idle == home.Keys
    && forall x :: x in live ==> live[x].source == home[x] && live[x].ref <= MAX_REF
  }

  ghost predicate Consistent(home: map<Id, Source>, live: Buffers, idle: set<Id>, handles: multiset<Id>,
                             rank: map<Id, nat>, claim: Id) {
    Conserved(home, live, idle) && Closed(live) && Ranked(live, rank) && Exact(live, handles, claim)
  }

  lemma RankedKept(live: Buffers, after: Buffers, rank: map<Id, nat>)
    requires Ranked(live, rank) && LinksKept(live, after)
    ensures Ranked(after, rank)
  {
    assert forall x :: x in after ==> after[x].next == live[x].next;
  }

  lemma LinksKeptOn(was: Buffers, live: Buffers, after: Buffers)
    requires LinksKept(was, live) && LinksKept(live, after)
    ensures LinksKept(was, after)
  {
  }

  lemma ConservedDrop(home: map<Id, Source>, live: Buffers, idle: set<Id>, x: Id)
    requires Conserved(home, live, idle) && x in live
    ensures Conserved(home, live - {x}, idle + {x}) && LinksKept(live, live - {x})
  {
  }

  lemma ConservedRecount(home: map<Id, Source>, live: Buffers, idle: set<Id>, x: Id, ref: nat)
    requires Conserved(home, live, idle) && x in live && ref <= MAX_REF
    ensures Conserved(home, live[x := live[x].(ref := ref)], idle) && LinksKept(live, live[x := live[x].(ref := ref)])
  {
  }

  /** A pbuf that only the claim refers to goes back to its allocator. */
  lemma DeadGone(home: map<Id, Source>, live: Buffers, idle: set<Id>, handles: multiset<Id>, rank: map<Id, nat>, x: Id)
    requires Consistent(home, live, idle, handles, rank, x) && x in live && live[x].ref == 1
    ensures Consistent(home, live - {x}, idle + {x}, handles, rank, live[x].next) && LinksKept(live, live - {x})
  {
    hide Conserved, Closed, Exact, Ranked, LinksKept;
    DropDead(live, handles, x);
    ConservedDrop(home, live, idle, x);
    RankedKept(live, live - {x}, rank);
  }

  /** A claim on a pbuf that has other references only lowers the count. */
  lemma LiveStays(home: map<Id, Source>, live: Buffers, idle: set<Id>, handles: multiset<Id>, rank: map<Id, nat>, x: Id)
    requires Consistent(home, live, idle, handles, rank, x) && x in live && live[x].ref > 1
    ensures Consistent(home, live[x := live[x].(ref := live[x].ref - 1)], idle, handles, rank, NULL)
    ensures LinksKept(live, live[x := live[x].(ref := live[x].ref - 1)])
  {
    InRange(home, live, idle, x);
    hide Conserved, Closed, Exact, Ranked, LinksKept;
    DropLive(live, handles, x);
    ConservedRecount(home, live, idle, x, live[x].ref - 1);
    RankedKept(live, live[x := live[x].(ref := live[x].ref - 1)], rank);
  }

  lemma InRange(home: map<Id, Source>, live: Buffers, idle: set<Id>, x: Id)
    requires Conserved(home, live, idle) && x in live
    ensures live[x].ref <= MAX_REF
  {
  }

  lemma ClaimedInUse(home: map<Id, Source>, live: Buffers, idle: set<Id>, handles: multiset<Id>, rank: map<Id, nat>,
                     x: Id)
    requires Consistent(home, live, idle, handles, rank, x) && x != NULL
    ensures x in live && live[x].ref >= 1 && x in home && home[x] == live[x].source && x !in idle
  {
  }

  lemma NextEight(n: nat)
    ensures Eight(n + 1) == Eight(Eight(n) + 1)
  {
  }

  lemma OneMoreGone(was: Buffers, live: Buffers, x: Id)
    requires LinksKept(was, live) && x in live
    ensures Gone(was, live - {x}) == Gone(was, live) + 1
    ensures Eight(Gone(was, live - {x})) == Eight(Eight(Gone(was, live)) + 1)
  {
    hide Eight, LinksKept, Gone;
    KeysKept(was, live);
    DropKeys(live, x);
    GoneLess(was, live, live - {x}, x);
    NextEight(Gone(was, live));
  }

  lemma GoneLess(was: Buffers, live: Buffers, rest: Buffers, x: Id)
    requires live.Keys <= was.Keys && x in live && rest.Keys == live.Keys - {x}
    ensures Gone(was, rest) == Gone(was, live) + 1
  {
    OneKeyLess(was.Keys, live.Keys, rest.Keys, x);
  }

  lemma KeysKept(was: Buffers, live: Buffers)
    requires LinksKept(was, live)
    ensures live.Keys <= was.Keys
  {
  }

  lemma DropKeys(live: Buffers, x: Id)
    ensures (live - {x}).Keys == live.Keys - {x}
  {
  }

  lemma OneKeyLess(was: set<Id>, live: set<Id>, rest: set<Id>, x: Id)
    requires live <= was && x in live && rest == live - {x}
    ensures |was - rest| == |was - live| + 1
  {
    assert was - rest == (was - live) + {x};
  }

  /** A handle may be turned into a claim, and back. */
  lemma HandleToClaim(home: map<Id, Source>, live: Buffers, idle: set<Id>, handles: multiset<Id>, rank: map<Id, nat>,
                      p: Id)
    requires Consistent(home, live, idle, handles, rank, NULL) && p in handles
    ensures Consistent(home, live, idle, handles - multiset{p}, rank, p) && p in live
  {
    assert NULL !in live;
    hide Conserved, Closed, Ranked;
    ClaimHandle(live, handles, p);
  }

  lemma ClaimToHandle(home: map<Id, Source>, live: Buffers, idle: set<Id>, handles: multiset<Id>, rank: map<Id, nat>,
                      p: Id)
    requires Consistent(home, live, idle, handles, rank, p) && p in live
    ensures Consistent(home, live, idle, handles + multiset{p}, rank, NULL)
  {
    assert NULL !in live;
    hide Conserved, Closed, Ranked;
    KeepClaim(live, handles, p);
  }

  lemma FreshClaimed(home: map<Id, Source>, live: Buffers, idle: set<Id>, handles: multiset<Id>, rank: map<Id, nat>,
                     q: Id, source: Source)
    requires Consistent(home, live, idle + {q}, handles, rank, NULL)
    requires q in home && home[q] == source && q !in live && q !in idle
    ensures Consistent(home, live[q := Node(NULL, 1, source)], idle, handles, rank[q := 0], q)
  {
    var node := Node(NULL, 1, source);
    assert q != NULL;
    assert live[q := node].Keys + idle == live.Keys + (idle + {q});
    FreshRanked(live, rank, q, node);
    hide Ranked;
    Fresh(live, handles, q, node);
    hide Closed, Exact;
  }

  lemma FreshRanked(live: Buffers, rank: map<Id, nat>, q: Id, node: Node)
    requires Closed(live) && Ranked(live, rank) && q !in live && node.next == NULL && q != NULL
    ensures Ranked(live[q := node], rank[q := 0])
  {
    var after := live[q := node];
    assert forall x :: x in live ==> after[x].next == live[x].next && after[x].next != q;
  }

  lemma ConservedLink(home: map<Id, Source>, live: Buffers, idle: set<Id>, p: Id, t: Id)
    requires Conserved(home, live, idle) && p in live
    ensures Conserved(home, live[p := live[p].(next := t)], idle)
  {
  }

  /** A link to a claimed pbuf that closes no circle takes the place of the claim. */
  lemma LinkedOn(home: map<Id, Source>, live: Buffers, idle: set<Id>, handles: multiset<Id>, rank: map<Id, nat>,
                 last: Id, t: Id)
    requires Consistent(home, live, idle, handles, rank, t) && t in live
    requires last in live && live[last].next == NULL && Last(live, rank, t) != last
    ensures Consistent(home, live[last := live[last].(next := t)], idle, handles, Raised(live, rank, last, t), NULL)
  {
    ConservedLink(home, live, idle, last, t);
    hide Conserved;
    LinkRanked(live, rank, last, t);
    LinkClaimed(live, handles, last, t);
    hide Closed, Exact, Ranked;
  }

  lemma Parts(home: map<Id, Source>, live: Buffers, idle: set<Id>, handles: multiset<Id>, rank: map<Id, nat>, claim: Id)
    requires Consistent(home, live, idle, handles, rank, claim)
    ensures idle <= home.Keys && NULL !in home && NULL !in live
    ensures Conserved(home, live, idle) && Closed(live) && Ranked(live, rank) && Exact(live, handles, claim)
  {
  }

  lemma IdleIsFresh(home: map<Id, Source>, live: Buffers, idle: set<Id>, handles: multiset<Id>, rank: map<Id, nat>,
                    q: Id)
    requires Consistent(home, live, idle, handles, rank, NULL) && q in idle
    ensures q in home && q !in live && q != NULL && (idle - {q}) + {q} == idle
  {
    assert (idle - {q}) + {q} == idle;
    hide Closed, Ranked, Exact;
  }

  lemma GrownOn(home: map<Id, Source>, live: Buffers, idle: set<Id>, handles: multiset<Id>, rank: map<Id, nat>,
                last: Id, q: Id)
    requires Consistent(home, live, idle, handles, rank, q) && q in live && live[q].next == NULL
    requires last in live && live[last].next == NULL && last != q
    ensures Closed(live) && Ranked(live, rank)
    ensures Consistent(home, live[last := live[last].(next := q)], idle, handles, Raised(live, rank, last, q), NULL)
  {
    assert Last(live, rank, q) == q;
    LinkedOn(home, live, idle, handles, rank, last, q);
  }

  ghost predicate NoneIdle(home: map<Id, Source>, idle: set<Id>, source: Source) {
    forall x :: x in idle && x in home ==> home[x] != source
  }

  /** The pool pbufs that are still to be had. */
  ghost function PoolIdle(home: map<Id, Source>, idle: set<Id>): set<Id> {
    set x | x in idle && x in home && home[x] == Pool
  }

  ghost function Left(home: map<Id, Source>, idle: set<Id>): nat {
    |PoolIdle(home, idle)|
  }

  lemma NoneLeft(home: map<Id, Source>, idle: set<Id>)
    requires NoneIdle(home, idle, Pool)
    ensures Left(home, idle) == 0
  {
    assert PoolIdle(home, idle) == {};
  }

  lemma OneLess(home: map<Id, Source>, idle: set<Id>, q: Id)
    requires q in idle && q in home && home[q] == Pool
    ensures Left(home, idle - {q}) == Left(home, idle) - 1
  {
    assert PoolIdle(home, idle) == PoolIdle(home, idle - {q}) + {q};
  }

  /** A count kept in eight bits. */
  function Eight(n: nat): nat {
    n % 256
  }

  /** How many pbufs were released between two states. */
  ghost function Gone(was: Buffers, live: Buffers): nat {
    |was.Keys - live.Keys|
  }

  lemma SameGone(was: Buffers, live: Buffers, after: Buffers)
    requires live.Keys == after.Keys
    ensures Gone(was, after) == Gone(was, live)
  {
  }

  /** The old pbufs are as they were, and the new ones come from the pool. */
  ghost predicate Extended(was: Buffers, live: Buffers) {
    && was.Keys <= live.Keys
    && (forall x :: x in was ==> live[x] == was[x])
    && (forall x :: x in live && x !in was ==> live[x].source == Pool)
  }

  lemma LoneOne(live: Buffers, p: Id)
    requires p in live && live[p].next == NULL && live[p].ref == 1
    ensures LoneChain(live, p, p, 1)
  {
  }

  lemma PoolStart(home: map<Id, Source>, was: Buffers, idle0: set<Id>, live: Buffers, idle: set<Id>, p: Id)
    requires p != NULL ==> p !in was && live == was[p := Node(NULL, 1, Pool)]
    requires p == NULL ==> NoneIdle(home, idle0, Pool)
    ensures p != NULL ==> Extended(was, live) && Gone(live, was) == 1
    ensures p == NULL ==> Left(home, idle0) == 0
  {
    if p == NULL {
      NoneLeft(home, idle0);
    } else {
      assert live.Keys - was.Keys == {p};
    }
  }

  lemma ExtendedOn(was: Buffers, live: Buffers, last: Id, q: Id)
    requires Extended(was, live) && last in live && last !in was && q !in live
    ensures var after := live[q := Node(NULL, 1, Pool)][last := live[last].(next := q)];
      Extended(was, after) && Gone(after, was) == Gone(live, was) + 1 && q !in was
  {
    var more := live[q := Node(NULL, 1, Pool)];
    NewKeys(was, live, q);
    ExtendedAdd(was, live, q);
    hide Extended, Gone;
    OneMoreNew(was, live, more, q);
    SameNew(was, more, more[last := live[last].(next := q)]);
    ExtendedLink(was, more, last, q);
  }

  lemma NewKeys(was: Buffers, live: Buffers, q: Id)
    requires Extended(was, live) && q !in live
    ensures was.Keys <= live.Keys && q !in was && live[q := Node(NULL, 1, Pool)].Keys == live.Keys + {q}
  {
    assert live[q := Node(NULL, 1, Pool)].Keys == live.Keys + {q};
  }

  lemma ExtendedAdd(was: Buffers, live: Buffers, q: Id)
    requires Extended(was, live) && q !in live
    ensures Extended(was, live[q := Node(NULL, 1, Pool)])
  {
  }

  lemma ExtendedLink(was: Buffers, live: Buffers, last: Id, q: Id)
    requires Extended(was, live) && last in live && last !in was
    ensures Extended(was, live[last := live[last].(next := q)])
  {
  }

  lemma OneMoreNew(was: Buffers, live: Buffers, more: Buffers, q: Id)
    requires was.Keys <= live.Keys && q !in live && more.Keys == live.Keys + {q}
    ensures Gone(more, was) == Gone(live, was) + 1
  {
    var added := live.Keys - was.Keys;
    assert q !in added && more.Keys - was.Keys == added + {q};
  }

  lemma SameNew(was: Buffers, live: Buffers, after: Buffers)
    requires after.Keys == live.Keys
    ensures Gone(after, was) == Gone(live, was)
  {
  }

  /** Dropping the only handle on what was added leaves what there was before. */
  lemma Restored(home: map<Id, Source>, was: Buffers, idle0: set<Id>, rank0: map<Id, nat>, before: Buffers,
                 live: Buffers, idle: set<Id>, rank: map<Id, nat>, handles: multiset<Id>)
    requires Consistent(home, was, idle0, handles, rank0, NULL) && Consistent(home, live, idle, handles, rank, NULL)
    requires Extended(was, before) && LinksKept(before, live)
    ensures live == was && idle == idle0
  {
    InUseIsDetermined(live, rank, was, rank0, handles);
    assert idle == home.Keys - live.Keys && idle0 == home.Keys - was.Keys;
  }

  /** The increment of an eight-bit count. */
  function IncRef(ref: nat): nat {
    (ref + 1) % (MAX_REF + 1)
  }

  /** It is an increment exactly while the count is below its maximum; then it starts again at 0. */
  lemma IncRefIsExact(ref: nat)
    requires ref <= MAX_REF
    ensures IncRef(ref) == ref + 1 <==> ref < MAX_REF
    ensures IncRef(ref) == 0 <==> ref == MAX_REF
  {
  }

  /** One more handle. */
  lemma Referred(home: map<Id, Source>, live: Buffers, idle: set<Id>, handles: multiset<Id>, rank: map<Id, nat>, p: Id)
    requires Consistent(home, live, idle, handles, rank, NULL) && p in live && live[p].ref < MAX_REF
    ensures Consistent(home, live[p := live[p].(ref := live[p].ref + 1)], idle, handles + multiset{p}, rank, NULL)
  {
    hide Conserved, Closed, Exact, Ranked, LinksKept;
    AddHandle(live, handles, p);
    ConservedRecount(home, live, idle, p, live[p].ref + 1);
    RankedKept(live, live[p := live[p].(ref := live[p].ref + 1)], rank);
  }

  ghost function Joined(live: Buffers, rank: map<Id, nat>, h: Id, t: Id): Buffers
    requires Closed(live) && Ranked(live, rank) && h in live
  {
    var last := Last(live, rank, h);
    live[last := live[last].(next := t)]
  }

  ghost function Chained(live: Buffers, rank: map<Id, nat>, h: Id, t: Id): Buffers
    requires Closed(live) && Ranked(live, rank) && h in live && t in live
  {
    var joined := Joined(live, rank, h, t);
    joined[t := joined[t].(ref := IncRef(joined[t].ref))]
  }

  lemma InRangeOf(home: map<Id, Source>, live: Buffers, idle: set<Id>, handles: multiset<Id>, rank: map<Id, nat>, p: Id)
    requires Consistent(home, live, idle, handles, rank, NULL) && p in live
    ensures live[p].ref <= MAX_REF
  {
  }

  /** A count of 0 is wrong for any pbuf in use. */
  lemma Forgotten(home: map<Id, Source>, live: Buffers, idle: set<Id>, handles: multiset<Id>, rank: map<Id, nat>, p: Id)
    requires p in live && live[p].ref == 0
    ensures !Consistent(home, live, idle, handles, rank, NULL)
  {
  }

  /** Without its link, `p` leaves a claim on what it referred to, from which it cannot be reached. */
  lemma Unlinked(home: map<Id, Source>, live: Buffers, idle: set<Id>, handles: multiset<Id>, rank: map<Id, nat>, p: Id)
    requires Consistent(home, live, idle, handles, rank, NULL) && p in live && live[p].next != NULL
    ensures var q, after := live[p].next, live[p := live[p].(next := NULL)];
      && Consistent(home, after, idle, handles, rank, q) && Closed(after) && Ranked(after, rank) && q in after
      && !Reaches(after, rank, q, p) && LoneFrom(after, rank, q) == LoneFrom(live, rank, q)
  {
    var q, after := live[p].next, live[p := live[p].(next := NULL)];
    ConservedLink(home, live, idle, p, NULL);
    hide Conserved;
    Cut(live, handles, p);
    CutRanked(live, rank, p);
    assert rank[q] < rank[p];
    LoneBehindCut(live, rank, p, q);
    hide Exact;
    if Reaches(after, rank, q, p) {
      ReachesDown(after, rank, q, p);
    }
  }

  lemma CutRanked(live: Buffers, rank: map<Id, nat>, p: Id)
    requires Ranked(live, rank) && p in live && NULL !in live
    ensures Ranked(live[p := live[p].(next := NULL)], rank)
  {
    var after := live[p := live[p].(next := NULL)];
    assert forall x :: x in live && x != p ==> after[x].next == live[x].next;
  }

  lemma CutGone(was: Buffers, cut: Buffers, live: Buffers, q: Id)
    requires q in cut && LinksKept(cut, live) && was.Keys == cut.Keys
    ensures q !in live ==> Gone(cut, live) > 0
    ensures Gone(was, live) == Gone(cut, live)
    ensures Eight(Gone(cut, live)) == Gone(was, live) % 256 && Eight(0) == 0
  {
    if q !in live {
      assert q in cut.Keys - live.Keys;
    }
  }

  /** Nothing from `x` on has been changed. */
  ghost predicate Untouched(was: Buffers, rank: map<Id, nat>, x: Id, live: Buffers) {
    forall y :: y in was && y in rank && x in was && x in rank && rank[y] <= rank[x] ==> y in live && live[y] == was[y]
  }

  lemma UntouchedStep(was: Buffers, rank: map<Id, nat>, p: Id, before: Buffers, x: Id, live: Buffers, next: Id)
    requires OnChain(was, rank, p, x) && x in before && x in was && Untouched(was, rank, x, before)
    requires before[x].ref == 1 ==> next == before[x].next
    requires before[x].ref != 1 ==> next == NULL
    requires forall y :: y in before && y != x ==> y in live && live[y] == before[y]
    ensures Untouched(was, rank, next, live)
    ensures LoneFrom(was, rank, x) == LoneFrom(was, rank, next) + if before[x].ref == 1 then 1 else 0
  {
    assert before[x] == was[x];
    LoneStep(was, rank, x);
    hide LoneFrom;
    assert next in was ==> rank[next] < rank[x];
  }

  /** `x` is on the chain of `p`, or behind its end. */
  ghost predicate OnChain(was: Buffers, rank: map<Id, nat>, p: Id, x: Id) {
    Closed(was) && Ranked(was, rank) && p in was && (x == NULL || (x in was && Reaches(was, rank, p, x)))
  }

  /** Only pbufs on the chain of `p` differ. */
  ghost predicate OnlyChain(was: Buffers, rank: map<Id, nat>, p: Id, live: Buffers) {
    && Closed(was) && Ranked(was, rank) && p in was
    && forall y :: y in was && !Reaches(was, rank, p, y) ==> y in live && live[y] == was[y]
  }

  lemma Start(home: map<Id, Source>, live: Buffers, idle: set<Id>, handles: multiset<Id>, rank: map<Id, nat>, p: Id)
    requires Consistent(home, live, idle, handles, rank, p)
    ensures LinksKept(live, live) && Gone(live, live) == 0 && Eight(0) == 0
    ensures p != NULL ==> OnlyChain(live, rank, p, live) && OnChain(live, rank, p, p)
    ensures Untouched(live, rank, p, live) && LoneFrom(live, rank, NULL) == 0
  {
    assert live.Keys - live.Keys == {};
  }

  lemma ChainStep(was: Buffers, rank: map<Id, nat>, p: Id, before: Buffers, x: Id, live: Buffers, next: Id)
    requires OnChain(was, rank, p, x) && x in before && LinksKept(was, before) && OnlyChain(was, rank, p, before)
    requires next == NULL || next == before[x].next
    requires forall y :: y in before && y != x ==> y in live && live[y] == before[y]
    ensures x in was
    ensures OnlyChain(was, rank, p, live) && OnChain(was, rank, p, next) && next != p
  {
    if next != NULL {
      ReachesDown(was, rank, p, x);
      assert was[x].next == next;
      ReachesOn(was, rank, p, x);
    }
  }

  lemma SoundNow(home: map<Id, Source>, live: Buffers, idle: set<Id>, handles: multiset<Id>, rank: map<Id, nat>)
    requires Consistent(home, live, idle, handles, rank, NULL)
    ensures Sound(home, View(live, idle, handles, rank))
  {
  }

  lemma HandlesInUse(live: Buffers, handles: multiset<Id>)
    requires Exact(live, handles, NULL)
    ensures forall x :: x in handles ==> x in live
  {
  }

  // ---------------------------------------------------------------- what each request does

  /** The state of a store. */
  datatype View = View(live: Buffers, idle: set<Id>, handles: multiset<Id>, ghost rank: map<Id, nat>)

  ghost predicate Sound(home: map<Id, Source>, v: View) {
    Consistent(home, v.live, v.idle, v.handles, v.rank, NULL)
  }

  ghost predicate Same(v: View, w: View) {
    w.live == v.live && w.idle == v.idle && w.handles == v.handles
  }

  ghost predicate PoolAllocated(home: map<Id, Source>, bufsize: nat, length: nat, offset: nat, v: View, w: View)
    requires offset < bufsize
  {
    var n := PoolCount(bufsize, length, offset);
    if Left(home, v.idle) < n then Same(v, w)
    else exists p, last ::
      && p !in v.live && w.handles == v.handles + multiset{p} && Extended(v.live, w.live)
      && Gone(w.live, v.live) == n && LoneChain(w.live, p, last, n)
  }

  ghost predicate OneAllocated(home: map<Id, Source>, source: Source, granted: bool, v: View, w: View) {
    if !granted || NoneIdle(home, v.idle, source) then Same(v, w)
    else exists p ::
      && p in v.idle && p in home && home[p] == source && w.idle == v.idle - {p}
      && w.handles == v.handles + multiset{p} && w.live == v.live[p := Node(NULL, 1, source)]
  }

  /** A caller may join the chain of `t`, on which it holds a handle, to that of `h`. */
  ghost predicate Joinable(v: View, h: Id, t: Id) {
    && Closed(v.live) && Ranked(v.live, v.rank) && h in v.live && t in v.live && t in v.handles
    && Last(v.live, v.rank, h) != Last(v.live, v.rank, t)
  }

  /** What one request does; a call that the caller may not make does nothing. Where only the links that are left are
      given, `InUseIsDetermined` fixes the rest. */
  ghost predicate Performed(home: map<Id, Source>, bufsize: nat, r: Request, v: View, w: View) {
    match r
    case AllocatePool(length, offset) =>
      if offset < bufsize then PoolAllocated(home, bufsize, length, offset, v, w) else Same(v, w)
    case AllocateReference => OneAllocated(home, Reference, true, v, w)
    case AllocateRam(granted) => OneAllocated(home, Heap, granted, v, w)
    case Refer(p) =>
      if p in v.live && v.live[p].ref < MAX_REF
      then Same(v.(live := v.live[p := v.live[p].(ref := v.live[p].ref + 1)], handles := v.handles + multiset{p}), w)
      else Same(v, w)
    case Concatenate(h, t) =>
      if Joinable(v, h, t) then Same(v.(live := Joined(v.live, v.rank, h, t), handles := v.handles - multiset{t}), w)
      else Same(v, w)
    case Join(h, t) =>
      if Joinable(v, h, t) && v.live[t].ref < MAX_REF then Same(v.(live := Chained(v.live, v.rank, h, t)), w)
      else Same(v, w)
    case Split(p) =>
      if p in v.live then w.handles == v.handles && LinksKept(v.live[p := v.live[p].(next := NULL)], w.live) else Same(v, w)
    case Release(p) =>
      if p in v.handles then w.handles == v.handles - multiset{p} && LinksKept(v.live, w.live) else Same(v, w)
  }

  /** A run: each request does what it is to do, from one sound state to the next. */
  ghost predicate IsRun(home: map<Id, Source>, bufsize: nat, rs: seq<Request>, states: seq<View>) {
    && |states| == |rs| + 1
    && (forall k :: 0 <= k < |states| ==> Sound(home, states[k]))
    && (forall k :: 0 <= k < |rs| ==> Performed(home, bufsize, rs[k], states[k], states[k + 1]))
  }

  lemma RunOn(home: map<Id, Source>, bufsize: nat, rs: seq<Request>, states: seq<View>, r: Request, w: View)
    requires IsRun(home, bufsize, rs, states) && Sound(home, w)
    requires Performed(home, bufsize, r, states[|rs|], w)
    ensures IsRun(home, bufsize, rs + [r], states + [w])
  {
  }

  class Store {
    /** The allocator that each address belongs to. */
    const home: map<Id, Source>
    /** The usable size of a pool pbuf. */
    const bufsize: nat

    var live: Buffers
    var idle: set<Id>
    var handles: multiset<Id>
    ghost var rank: map<Id, nat>

    /** Between two steps of a function, which itself holds one reference to `claim`. */
    ghost predicate Claimed(claim: Id)
      reads this
    {
      Consistent(home, live, idle, handles, rank, claim)
    }

    ghost predicate Valid()
      reads this
    {
      Claimed(NULL) && bufsize > 0
    }

    constructor (home: map<Id, Source>, bufsize: nat)
      requires NULL !in home && bufsize > 0
      ensures Valid() && this.home == home && this.bufsize == bufsize
      ensures live == map[] && idle == home.Keys && handles == multiset{}
    {
      this.home, this.bufsize := home, bufsize;
      live, idle, handles, rank := map[], home.Keys, multiset{}, map[];
    }

    /** `memp_malloc` and `mem_malloc`, as far as addresses go. */
    method Take(source: Source) returns (q: Id)
      requires idle <= home.Keys && NULL !in home
      modifies `idle
      ensures q == NULL ==> idle == old(idle)
      ensures q == NULL <==> NoneIdle(home, old(idle), source)
      ensures q != NULL ==> q in old(idle) && home[q] == source && idle == old(idle) - {q}
    {
      var some := set x | x in idle && home[x] == source;
      assert forall x :: x in idle && home[x] == source ==> x in some;
      if some == {} {
        return NULL;
      }
      q :| q in some;
      idle := idle - {q};
    }

    /** `memp_free` and `mem_free`, by the allocator that the pbuf names. */
    method GiveBack(q: Id, ghost source: Source)
      requires q in home && home[q] == source && q !in idle
      modifies `idle
      ensures idle == old(idle) + {q}
    {
      idle := idle + {q};
    }

    /** `pbuf_free`: the claim on `p` is dropped. Along the chain each pbuf without references goes
        back to its allocator. The result has eight bits. */
    method Free(p: Id) returns (count: nat)
      requires Claimed(p)
      modifies `live, `idle
      ensures Claimed(NULL) && LinksKept(old(live), live)
      ensures count == Eight(Gone(old(live), live))
      ensures p != NULL ==> p in old(live) && (old(live)[p].ref > 1 <==> p in live)
      ensures p != NULL && p in live ==> Gone(old(live), live) == 0
      ensures p != NULL ==> OnlyChain(old(live), rank, p, live)
      ensures Gone(old(live), live) == LoneFrom(old(live), rank, p)
    {
      hide Consistent, LinksKept, Eight, Gone, OnlyChain, LoneFrom, Untouched;
      Start(home, live, idle, handles, rank, p);
      count := 0;
      var x := p;
      while x != NULL
        invariant Claimed(x) && LinksKept(old(live), live) && count == Eight(Gone(old(live), live))
        invariant x == p ==> live == old(live)
        invariant x != p ==> p in old(live) && (old(live)[p].ref > 1 <==> p in live)
        invariant x != p && p in live ==> x == NULL && Gone(old(live), live) == 0
        invariant p != NULL ==> OnlyChain(old(live), rank, p, live) && OnChain(old(live), rank, p, x)
        invariant Untouched(old(live), rank, x, live)
        invariant Gone(old(live), live) + LoneFrom(old(live), rank, x) == LoneFrom(old(live), rank, p)
        decreases if x == NULL then 0 else 1 + |live|
      {
        ghost var before := live;
        ClaimedInUse(home, live, idle, handles, rank, x);
        var next;
        next, count := DropOne(x, count, old(live));
        ChainStep(old(live), rank, p, before, x, live, next);
        UntouchedStep(old(live), rank, p, before, x, live, next);
        x := next;
      }
    }

    /** One round of the loop of `pbuf_free`. */
    method DropOne(x: Id, count0: nat, ghost was: Buffers) returns (next: Id, count: nat)
      requires Claimed(x) && x != NULL && LinksKept(was, live)
      requires count0 == Eight(Gone(was, live))
      modifies `live, `idle
      ensures Claimed(next) && LinksKept(was, live)
      ensures count == Eight(Gone(was, live))
      ensures old(live)[x].ref == 1 ==> live == old(live) - {x} && next == old(live)[x].next
                                        && Gone(was, live) == Gone(was, old(live)) + 1
      ensures old(live)[x].ref != 1 ==> next == NULL && Gone(was, live) == Gone(was, old(live))
                                        && live == old(live)[x := old(live)[x].(ref := old(live)[x].ref - 1)]
    {
      hide Consistent, LinksKept, Eight, Gone;
      ClaimedInUse(home, live, idle, handles, rank, x);
      var ref := live[x].ref - 1;
      if ref == 0 {
        DeadGone(home, live, idle, handles, rank, x);
        LinksKeptOn(was, live, live - {x});
        OneMoreGone(was, live, x);
        GiveBack(x, live[x].source);
        next := live[x].next;
        live := live - {x};
        count := Eight(count0 + 1);
      } else {
        LiveStays(home, live, idle, handles, rank, x);
        LinksKeptOn(was, live, live[x := live[x].(ref := ref)]);
        SameGone(was, live, live[x := live[x].(ref := ref)]);
        live := live[x := live[x].(ref := ref)];
        next, count := NULL, count0;
      }
    }

    /** `pbuf_free` by a caller that holds a handle. */
    method ReleaseHandle(p: Id) returns (count: nat)
      requires Valid() && p in handles
      modifies `live, `idle, `handles
      ensures Valid() && handles == old(handles) - multiset{p} && LinksKept(old(live), live)
      ensures count == Eight(Gone(old(live), live))
    {
      HandleToClaim(home, live, idle, handles, rank, p);
      hide Consistent, LinksKept, Eight, Gone;
      handles := handles - multiset{p};
      count := Free(p);
    }

    /** `pbuf_init_alloced_pbuf` on a new address: its one reference is claimed. */
    method Init(q: Id, source: Source)
      requires q in home && home[q] == source && q !in live && q !in idle
      requires Consistent(home, live, idle + {q}, handles, rank, NULL)
      modifies `live, `rank
      ensures Claimed(q) && live == old(live)[q := Node(NULL, 1, source)]
    {
      FreshClaimed(home, live, idle, handles, rank, q, source);
      hide Consistent, Conserved;
      live := live[q := Node(NULL, 1, source)];
      rank := rank[q := 0];
    }

    /** `pbuf_alloc` of one pbuf: `pbuf_alloc_reference` and the case PBUF_RAM. */
    method AllocOne(source: Source, granted: bool) returns (p: Id)
      requires Valid()
      modifies `live, `idle, `handles, `rank
      ensures Valid()
      ensures p == NULL ==> live == old(live) && idle == old(idle) && handles == old(handles)
      ensures p != NULL ==> p in old(idle) && p !in old(live) && p in home && home[p] == source
      ensures p != NULL ==> idle == old(idle) - {p} && handles == old(handles) + multiset{p}
                            && live == old(live)[p := Node(NULL, 1, source)]
      ensures p == NULL <==> !granted || NoneIdle(home, old(idle), source)
    {
      hide Consistent, Conserved;
      p := NULL;
      if granted {
        Parts(home, live, idle, handles, rank, NULL);
        p := Take(source);
      }
      if p != NULL {
        IdleIsFresh(home, live, old(idle), handles, rank, p);
        Init(p, source);
        ClaimToHandle(home, live, idle, handles, rank, p);
        handles := handles + multiset{p};
      }
    }

    /** The loop to the last pbuf of a chain. */
    method FindLast(h: Id) returns (last: Id)
      requires Closed(live) && Ranked(live, rank) && h in live
      ensures last == Last(live, rank, h)
    {
      last := h;
      while live[last].next != NULL
        invariant last in live && Last(live, rank, last) == Last(live, rank, h)
        decreases rank[last]
      {
        last := live[last].next;
      }
    }

    /** One more round of the pool case: a new pbuf behind `last`. */
    method Grow(last: Id) returns (q: Id)
      requires Claimed(NULL) && last in live && live[last].next == NULL
      modifies `live, `idle, `rank
      ensures Claimed(NULL)
      ensures q == NULL ==> live == old(live) && idle == old(idle) && Left(home, idle) == 0
      ensures q != NULL ==> q in old(idle) && q !in old(live) && Left(home, idle) == Left(home, old(idle)) - 1
      ensures q != NULL ==> live == old(live)[q := Node(NULL, 1, Pool)][last := old(live)[last].(next := q)]
    {
      hide Consistent, Conserved, Closed, Ranked, Exact, Left;
      Parts(home, live, idle, handles, rank, NULL);
      q := Take(Pool);
      if q == NULL {
        NoneLeft(home, idle);
        return;
      }
      OneLess(home, old(idle), q);
      IdleIsFresh(home, live, old(idle), handles, rank, q);
      Init(q, Pool);
      GrownOn(home, live, idle, handles, rank, last, q);
      rank := Raised(live, rank, last, q);
      live := live[last := live[last].(next := q)];
    }

    /** `pbuf_alloc`, case PBUF_POOL: a chain of pool pbufs, or nothing at all. */
    method AllocPool(length: nat, offset: nat) returns (p: Id)
      requires Valid() && offset < bufsize
      modifies `live, `idle, `handles, `rank
      ensures Valid()
      ensures p == NULL ==> live == old(live) && idle == old(idle) && handles == old(handles)
      ensures p == NULL <==> Left(home, old(idle)) < PoolCount(bufsize, length, offset)
      ensures p != NULL ==> p !in old(live) && handles == old(handles) + multiset{p}
      ensures p != NULL ==> Extended(old(live), live) && Gone(live, old(live)) == PoolCount(bufsize, length, offset)
      ensures p != NULL ==> exists last :: LoneChain(live, p, last, PoolCount(bufsize, length, offset))
    {
      hide Consistent, Conserved, Closed, Ranked, Exact, Left, Gone, Extended, LoneChain;
      ghost var total := PoolCount(bufsize, length, offset);
      p := AllocOne(Pool, true);
      PoolStart(home, old(live), old(idle), live, idle, p);
      if p == NULL {
        return;
      }
      OneLess(home, old(idle), p);
      LoneOne(live, p);
      var last := p;
      var rem := length - if length < bufsize - offset then length else bufsize - offset;
      while rem > 0
        invariant Valid() && handles == old(handles) + multiset{p}
        invariant Extended(old(live), live) && last in live && last !in old(live) && live[last].next == NULL
        invariant Gone(live, old(live)) + Left(home, idle) == Left(home, old(idle))
        invariant Gone(live, old(live)) + (if rem > 0 then PoolCount(bufsize, rem, 0) else 0) == total
        invariant rem >= 0 && LoneChain(live, p, last, Gone(live, old(live)))
      {
        ghost var before := live;
        Parts(home, live, idle, handles, rank, NULL);
        var q := Grow(last);
        if q == NULL {
          var _ := ReleaseHandle(p);
          assert old(handles) + multiset{p} - multiset{p} == old(handles);
          Restored(home, old(live), old(idle), old(rank), before, live, idle, rank, handles);
          p := NULL;
          return;
        }
        ExtendedOn(old(live), before, last, q);
        LoneChainGrows(before, p, last, Gone(before, old(live)), q, Pool);
        last := q;
        rem := rem - if rem < bufsize then rem else bufsize;
      }
    }

    /** `pbuf_ref`: one more handle, taken on any pbuf in use. All stays well exactly if the count does not wrap. */
    method Ref(p: Id)
      requires Valid() && p in live
      modifies `live, `handles
      ensures handles == old(handles) + multiset{p}
      ensures live == old(live)[p := old(live)[p].(ref := IncRef(old(live)[p].ref))]
      ensures Valid() <==> old(live)[p].ref < MAX_REF
    {
      hide Consistent, IncRef;
      InRangeOf(home, live, idle, handles, rank, p);
      IncRefIsExact(live[p].ref);
      if live[p].ref < MAX_REF {
        Referred(home, live, idle, handles, rank, p);
      } else {
        Forgotten(home, live[p := live[p].(ref := 0)], idle, handles + multiset{p}, rank, p);
      }
      live := live[p := live[p].(ref := IncRef(live[p].ref))];
      handles := handles + multiset{p};
    }

    /** `pbuf_cat`: the caller's handle on `t` becomes the link from the last pbuf of `h`. */
    method Cat(h: Id, t: Id)
      requires Valid() && h in live && t in handles && t in live
      requires Closed(live) && Ranked(live, rank) && Last(live, rank, h) != Last(live, rank, t)
      modifies `live, `handles, `rank
      ensures Valid() && handles == old(handles) - multiset{t}
      ensures live == Joined(old(live), old(rank), h, t)
    {
      hide Consistent, Conserved, Closed, Ranked, Exact;
      var last := FindLast(h);
      HandleToClaim(home, live, idle, handles, rank, t);
      LinkedOn(home, live, idle, handles - multiset{t}, rank, last, t);
      handles := handles - multiset{t};
      rank := Raised(live, rank, last, t);
      live := live[last := live[last].(next := t)];
    }

    /** `pbuf_chain`: as `pbuf_cat`, and the caller keeps its handle. */
    method Chain(h: Id, t: Id)
      requires Valid() && h in live && t in handles && t in live
      requires Closed(live) && Ranked(live, rank) && Last(live, rank, h) != Last(live, rank, t)
      modifies `live, `handles, `rank
      ensures handles == old(handles)
      ensures live == Chained(old(live), old(rank), h, t)
      ensures Valid() <==> old(live)[t].ref < MAX_REF
    {
      hide Consistent, Closed, Ranked;
      Cat(h, t);
      Ref(t);
      assert old(handles) - multiset{t} + multiset{t} == old(handles);
    }

    /** `pbuf_dechain`: `p` is cut off, and its link on the rest is dropped. */
    method Dechain(p: Id) returns (r: Id)
      requires Valid() && p in live
      modifies `live, `idle
      ensures Valid() && p in live && live[p] == old(live)[p].(next := NULL)
      ensures LinksKept(old(live)[p := old(live)[p].(next := NULL)], live)
      ensures r == NULL || r == old(live)[p].next
      // the result is gone exactly if behind `p` a positive multiple of 256 pbufs have no other reference
      ensures var lone := LoneFrom(old(live), rank, old(live)[p].next);
        && Gone(old(live), live) == lone
        && ((r == NULL || r in live) <==> lone == 0 || lone % 256 != 0)
      ensures old(live)[p].next == NULL ==> r == NULL
    {
      hide Consistent, Conserved, Closed, Ranked, Exact, LinksKept, Gone, Eight, LoneFrom;
      var q := live[p].next;
      var gone := 1;
      if q != NULL {
        Unlinked(home, live, idle, handles, rank, p);
        live := live[p := live[p].(next := NULL)];
        ghost var cut := live;
        gone := Free(q);
        CutGone(old(live), cut, live, q);
      } else {
        Start(home, live, idle, handles, rank, NULL);
        assert live[p].(next := NULL) == live[p];
        assert live[p := live[p].(next := NULL)] == live;
      }
      r := if gone > 0 then NULL else q;
    }

    /** In use is exactly what some handle leads to. */
    ghost predicate InUseIsHeld()
      reads this
      requires Valid()
    {
      forall x :: x in live <==> exists h :: h in handles && Reaches(live, rank, h, x)
    }

    ghost function State(): View
      reads this
    {
      View(live, idle, handles, rank)
    }

    // Each call is made only where the caller may make it.

    method PerformPool(length: nat, offset: nat)
      requires Valid()
      modifies `live, `idle, `handles, `rank
      ensures Valid() && Performed(home, bufsize, AllocatePool(length, offset), old(State()), State())
    {
      hide Consistent, Conserved, Closed, Ranked, Exact, LinksKept, Extended, Gone, LoneChain, Left, NoneIdle, IncRef;
      if offset < bufsize {
        var p := AllocPool(length, offset);
        if p != NULL {
          ghost var last :| LoneChain(live, p, last, PoolCount(bufsize, length, offset));
          assert PoolAllocated(home, bufsize, length, offset, old(State()), State());
        }
      }
    }

    method PerformReference()
      requires Valid()
      modifies `live, `idle, `handles, `rank
      ensures Valid() && Performed(home, bufsize, AllocateReference, old(State()), State())
    {
      hide Consistent, Conserved, Closed, Ranked, Exact, LinksKept, Extended, Gone, LoneChain, Left, NoneIdle, IncRef;
      var p := AllocOne(Reference, true);
    }

    method PerformRam(granted: bool)
      requires Valid()
      modifies `live, `idle, `handles, `rank
      ensures Valid() && Performed(home, bufsize, AllocateRam(granted), old(State()), State())
    {
      hide Consistent, Conserved, Closed, Ranked, Exact, LinksKept, Extended, Gone, LoneChain, Left, NoneIdle, IncRef;
      var p := AllocOne(Heap, granted);
    }

    method PerformRef(p: Id)
      requires Valid()
      modifies `live, `idle, `handles, `rank
      ensures Valid() && Performed(home, bufsize, Refer(p), old(State()), State())
    {
      hide Consistent, Conserved, Closed, Ranked, Exact, LinksKept, Extended, Gone, LoneChain, Left, NoneIdle, IncRef;
      if p in live && live[p].ref < MAX_REF {
        IncRefIsExact(live[p].ref);
        Ref(p);
      }
    }

    method PerformCat(h: Id, t: Id)
      requires Valid()
      modifies `live, `idle, `handles, `rank
      ensures Valid() && Performed(home, bufsize, Concatenate(h, t), old(State()), State())
    {
      hide Consistent, Conserved, Closed, Ranked, Exact, LinksKept, Extended, Gone, LoneChain, Left, NoneIdle, IncRef;
      Parts(home, live, idle, handles, rank, NULL);
      HandlesInUse(live, handles);
      if h in live && t in handles {
        var last := FindLast(h);
        var end := FindLast(t);
        if last != end {
          Cat(h, t);
        }
      }
    }

    method PerformChain(h: Id, t: Id)
      requires Valid()
      modifies `live, `idle, `handles, `rank
      ensures Valid() && Performed(home, bufsize, Join(h, t), old(State()), State())
    {
      hide Consistent, Conserved, Closed, Ranked, Exact, LinksKept, Extended, Gone, LoneChain, Left, NoneIdle, IncRef;
      Parts(home, live, idle, handles, rank, NULL);
      HandlesInUse(live, handles);
      if h in live && t in handles && live[t].ref < MAX_REF {
        var last := FindLast(h);
        var end := FindLast(t);
        if last != end {
          Chain(h, t);
        }
      }
    }

    method PerformDechain(p: Id)
      requires Valid()
      modifies `live, `idle, `handles, `rank
      ensures Valid() && Performed(home, bufsize, Split(p), old(State()), State())
    {
      hide Consistent, Conserved, Closed, Ranked, Exact, LinksKept, Extended, Gone, LoneChain, Left, NoneIdle, IncRef;
      if p in live {
        var r := Dechain(p);
      }
    }

    method PerformFree(p: Id)
      requires Valid()
      modifies `live, `idle, `handles, `rank
      ensures Valid() && Performed(home, bufsize, Release(p), old(State()), State())
    {
      hide Consistent, Conserved, Closed, Ranked, Exact, LinksKept, Extended, Gone, LoneChain, Left, NoneIdle, IncRef;
      if p in handles {
        var count := ReleaseHandle(p);
      }
    }

    method Perform(r: Request)
      requires Valid()
      modifies `live, `idle, `handles, `rank
      ensures Valid() && Performed(home, bufsize, r, old(State()), State())
    {
      hide Consistent, Performed;
      match r
      case AllocatePool(length, offset) => PerformPool(length, offset);
      case AllocateReference => PerformReference();
      case AllocateRam(granted) => PerformRam(granted);
      case Refer(p) => PerformRef(p);
      case Concatenate(h, t) => PerformCat(h, t);
      case Join(h, t) => PerformChain(h, t);
      case Split(p) => PerformDechain(p);
      case Release(p) => PerformFree(p);
    }

    /** Every run of requests, each doing what it is to do, keeps the counts exact, keeps in use what handles lead to,
        and in the end gives all back. */
    method Serve(rs: seq<Request>) returns (ghost states: seq<View>)
      requires Valid()
      modifies `live, `idle, `handles, `rank
      ensures IsRun(home, bufsize, rs, states) && states[0] == old(State()) && states[|rs|] == State()
      ensures Valid() && InUseIsHeld()
      ensures handles == multiset{} ==> live == map[] && idle == home.Keys
    {
      states := [State()];
      var i := 0;
      assert rs[..0] == [];
      while i < |rs|
        invariant 0 <= i <= |rs| && Valid()
        invariant IsRun(home, bufsize, rs[..i], states) && states[0] == old(State()) && states[i] == State()
      {
        hide Consistent, Performed, Sound;
        Perform(rs[i]);
        SoundNow(home, live, idle, handles, rank);
        RunOn(home, bufsize, rs[..i], states, rs[i], State());
        assert rs[..i] + [rs[i]] == rs[..i + 1];
        states := states + [State()];
        i := i + 1;
      }
      assert rs[..i] == rs;
      Held();
    }

    lemma Held()
      requires Valid()
      ensures InUseIsHeld()
      ensures handles == multiset{} ==> live == map[] && idle == home.Keys
    {
      forall x
        ensures x in live <==> exists h :: h in handles && Reaches(live, rank, h, x)
      {
        InUseIsReachable(live, rank, handles, x);
      }
      if handles == multiset{} {
        NoHandlesNothingInUse(live, rank, handles);
      }
    }
  }

  // ---------------------------------------------------------------- where the 8-bit count fails

  lemma {:induction false} OneBytePerPbuf(n: nat)
    requires n > 0
    ensures PoolCount(1, n, 0) == n
  {
    if n > 1 {
      OneBytePerPbuf(n - 1);
    }
  }

  /** The addresses from 1 to `n`. */
  function UpTo(n: nat): (s: set<Id>)
    ensures forall i :: i in s <==> 1 <= i <= n
    ensures |s| == n
  {
    if n == 0 then {} else UpTo(n - 1) + {n}
  }

  lemma AllInPool(n: nat, home: map<Id, Source>)
    requires home.Keys == UpTo(n) && forall i :: i in home ==> home[i] == Pool
    ensures Left(home, home.Keys) == n
  {
    assert PoolIdle(home, home.Keys) == UpTo(n);
  }

  /** A store of `n` pool pbufs of one byte each, all in one chain. */
  method ChainOf(n: nat) returns (s: Store, p: Id, ghost last: Id)
    requires n > 0
    ensures fresh(s) && s.Valid() && LoneChain(s.live, p, last, n)
  {
    hide Consistent, Left, LoneChain, UpTo;
    var home := map i | i in UpTo(n) :: Pool;
    assert home.Keys == UpTo(n);
    s := new Store(home, 1);
    OneBytePerPbuf(n);
    AllInPool(n, home);
    p := s.AllocPool(n, 0);
    last :| LoneChain(s.live, p, last, n);
  }

  lemma LoneTail(live: Buffers, x: Id, last: Id, n: nat)
    requires LoneChain(live, x, last, n) && n > 1
    ensures x in live && LoneChain(live, live[x].next, last, n - 1)
  {
  }

  /** Cutting a pbuf off a chain of 256 others, each without another reference, returns one that is gone. */
  method DanglingTail(n: nat) returns (s: Store, r: Id)
    requires n == 256
    ensures s.Valid() && r != NULL && r !in s.live
  {
    hide Consistent, LoneChain, LoneFrom, Closed, Ranked, Exact, Conserved, Gone, LinksKept;
    var p;
    ghost var last;
    s, p, last := ChainOf(n + 1);
    LoneTail(s.live, p, last, n + 1);
    Parts(s.home, s.live, s.idle, s.handles, s.rank, NULL);
    LoneChainCounts(s.live, s.rank, s.live[p].next, last, n);
    r := s.Dechain(p);
  }

  /** Two pbufs from the heap, with `n` references to the second. */
  method Referenced(n: nat) returns (s: Store, h: Id, p: Id)
    requires 1 <= n <= MAX_REF
    ensures fresh(s) && s.Valid() && h in s.live && p in s.live && h != p && s.live[p].ref == n && p in s.handles
    ensures s.live[h].next == NULL && s.live[p].next == NULL
  {
    hide Consistent;
    var home := map[1 := Heap, 2 := Heap];
    s := new Store(home, 1);
    assert 1 in s.idle && home[1] == Heap;
    h := s.AllocOne(Heap, true);
    ghost var other: Id := if h == 1 then 2 else 1;
    assert other in s.idle && home[other] == Heap;
    p := s.AllocOne(Heap, true);
    var i := 1;
    while i < n
      invariant 1 <= i <= n && fresh(s) && s.Valid() && h in s.live && p in s.live && h != p && p in s.handles
      invariant s.live[p].ref == i && s.live[h].next == NULL && s.live[p].next == NULL
    {
      IncRefIsExact(s.live[p].ref);
      s.Ref(p);
      i := i + 1;
    }
  }

  /** The 256th reference brings the count to 0. */
  method RefIsForgotten() returns (s: Store, p: Id)
    ensures p in s.live && p in s.handles && s.live[p].ref == 0 && !s.Valid()
  {
    hide Consistent;
    var h;
    s, h, p := Referenced(MAX_REF);
    IncRefIsExact(s.live[p].ref);
    s.Ref(p);
  }

  /** So it does if it comes from a chain. */
  method ChainIsForgotten() returns (s: Store, h: Id, p: Id)
    ensures h in s.live && p in s.live && s.live[h].next == p && s.live[p].ref == 0 && !s.Valid()
  {
    s, h, p := Referenced(MAX_REF);
    s.Chain(h, p);
  }
}
