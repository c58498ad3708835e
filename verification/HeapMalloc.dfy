/** `mem_malloc`, with `mem_free` and `mem_trim` from other contexts let in wherever the code drops
    its protection. The variant without LWIP_ALLOW_MEM_FREE_FROM_OTHER_CONTEXT is the case in which
    no window holds a call. */
module HeapMalloc {
  import opened HeapLayout
  import opened HeapStore

  /** What other contexts do: `windows[k]` are the calls made in the k-th window of a `mem_malloc`. */
  type Windows = seq<seq<Call>>

  /** The number of calls in the windows from `k` on. */
  function Pending(ws: Windows, k: nat): nat
    decreases |ws| - k
  {
    if k < |ws| then |ws[k]| + Pending(ws, k + 1) else 0
  }

  lemma {:induction false} NonePending(ws: Windows, k: nat)
    ensures Pending(ws, k) == 0 <==> forall j :: k <= j < |ws| ==> ws[j] == []
    decreases |ws| - k
  {
    if k < |ws| {
      NonePending(ws, k + 1);
    }
  }

  /** The addresses that the calls name. */
  ghost function Names(ws: Windows): set<int> {
    set k, j | 0 <= k < |ws| && 0 <= j < |ws[k]| :: ws[k][j].off
  }

  /** Clients hold no more than before, and regions outside `may` are untouched. */
  ghost predicate Shrunk(before: set<(int, int)>, after: set<(int, int)>, may: set<int>) {
    && (forall x :: x in after && x.0 !in may ==> x in before)
    && (forall x :: x in before && x.0 !in may ==> x in after)
    && (forall x :: x in after && x.0 in may ==> exists y :: y in before && y.0 == x.0 && x.1 <= y.1)
  }

  lemma ShrunkTwice(a: set<(int, int)>, b: set<(int, int)>, c: set<(int, int)>, may: set<int>, may': set<int>)
    requires Shrunk(a, b, may) && Shrunk(b, c, may') && may' <= may
    ensures Shrunk(a, c, may)
  {
    forall x | x in c && x.0 in may ensures exists y :: y in a && y.0 == x.0 && x.1 <= y.1 {
      if x.0 in may' {
        var y :| y in b && y.0 == x.0 && x.1 <= y.1;
        var z :| z in a && z.0 == y.0 && y.1 <= z.1;
        assert z in a && z.0 == x.0;
      }
    }
  }

  lemma ShrunkSame(a: set<(int, int)>, may: set<int>)
    ensures Shrunk(a, a, may)
  {
  }

  lemma ShrunkByRemoval(a: set<(int, int)>, x: (int, int), may: set<int>)
    requires x.0 in may
    ensures Shrunk(a, a - {x}, may)
  {
  }

  lemma ShrunkByCut(a: set<(int, int)>, x: (int, int), x': (int, int), may: set<int>)
    requires x in a && x.0 in may && x'.0 == x.0 && x'.1 <= x.1
    ensures Shrunk(a, a - {x} + {x'}, may)
  {
  }

  /** The heap is as it was, and nobody has noted a change. */
  twostate predicate Undisturbed(h: Heap)
    reads h
  {
    old(!h.disturbed) && !h.disturbed && h.cells == old(h.cells) && h.lfree == old(h.lfree) && h.owned == old(h.owned)
  }

  /** `lfree` stays exact, and if it was not, it is either made exact or left alone. */
  twostate predicate LowKept(h: Heap)
    reads h
  {
    if old(h.Tight()) then h.Tight() else h.Tight() || h.lfree == old(h.lfree)
  }

  /** What clients and the allocator see of a heap. */
  datatype View = View(cells: seq<Cell>, low: nat, owned: set<int>)

  ghost function Seen(h: Heap): View
    reads h
  {
    View(h.cells, h.lfree, h.owned)
  }

  /** Block `i` is the one that the pointer `off` belongs to. */
  ghost predicate Owns(g: Geometry, v: View, i: nat, off: int) {
    i < |v.cells| && v.cells[i].used && v.cells[i].start == off - g.header
  }

  /** What a call of `mem_free` or `mem_trim` does. One that names what nobody owns is not made. */
  ghost predicate Released(g: Geometry, c: Call, v: View, w: View)
    requires g.Aligned()
  {
    if c.off !in v.owned then w == v
    else match c
      case FreeCall(off) =>
        && w.owned == v.owned - {off}
        && exists i: nat :: Owns(g, v, i, off) && w.cells == FreeBlock(v.cells, i)
                            && Live(g, w.cells) == Live(g, v.cells) - {Region(g, v.cells, i)}
      case TrimCall(off, n) =>
        if n >= g.width || Needed(g, n) > g.size then w == v
        else
          && w.owned == v.owned
          && exists i: nat :: Owns(g, v, i, off) && TrimmedTo(g, v, i, Needed(g, n), w)
  }

  ghost predicate TrimmedTo(g: Geometry, v: View, i: nat, size: nat, w: View)
    requires i < |v.cells|
  {
    if size >= Room(g, v.cells, i) then w == v
    else
      && w.cells == TrimBlock(g, v.cells, i, size) && w.low == TrimLow(g, v.cells, i, size, v.low)
      && var left := if Separable(g, v.cells, i, size) then size else Room(g, v.cells, i);
         Live(g, w.cells) == Live(g, v.cells) - {Region(g, v.cells, i)} + {(v.cells[i].start + g.header, left)}
  }

  method PerformFree(h: Heap, off: int)
    requires h.Valid() && off in h.owned
    modifies h, h.ram
    ensures Released(h.g, FreeCall(off), old(Seen(h)), Seen(h))
    ensures h.Valid() && h.owned <= old(h.owned) && h.InFlight() == old(h.InFlight()) && LowKept(h) && h.disturbed
    ensures Shrunk(old(h.Held()), h.Held(), {off})
  {
    h.Free(Addr(off));
    assert Released(h.g, FreeCall(off), old(Seen(h)), Seen(h)) by {
      ghost var i: nat :| old(h.Block(i, off)) && h.Freed(old(h.cells), i);
      assert Owns(h.g, old(Seen(h)), i, off);
    }
    assert Shrunk(old(h.Held()), h.Held(), {off}) by {
      ghost var i: nat :| old(h.Block(i, off)) && h.Freed(old(h.cells), i);
      ShrunkByRemoval(old(h.Held()), Region(h.g, old(h.cells), i), {off});
    }
  }

  method PerformTrim(h: Heap, off: int, n: nat)
    requires h.Valid() && off in h.owned && n < h.g.width
    modifies h, h.ram
    ensures Released(h.g, TrimCall(off, n), old(Seen(h)), Seen(h))
    ensures h.Valid() && h.owned <= old(h.owned) && h.InFlight() == old(h.InFlight()) && LowKept(h) && (h.disturbed || Undisturbed(h))
    ensures Shrunk(old(h.Held()), h.Held(), {off})
  {
    hide Chained, Tiled, Live, Coalesced, LowestFree, NoFreeBelow, TrimBlock, TrimLow, Shrunk, Needed;
    var r := h.Trim(Addr(off), n);
    assert Released(h.g, TrimCall(off, n), old(Seen(h)), Seen(h)) by {
      if Needed(h.g, n) <= h.g.size {
        ghost var i: nat :| old(h.Block(i, off)) && h.Trimmed(old(h.cells), old(h.lfree), old(h.disturbed), i, Needed(h.g, n), r != Null);
        assert Owns(h.g, old(Seen(h)), i, off) && TrimmedTo(h.g, old(Seen(h)), i, Needed(h.g, n), Seen(h));
      }
    }
    assert Shrunk(old(h.Held()), h.Held(), {off}) by {
      if h.cells == old(h.cells) {
        ShrunkSame(old(h.Held()), {off});
      } else {
        ghost var i: nat :| old(h.Block(i, off)) && h.Trimmed(old(h.cells), old(h.lfree), old(h.disturbed), i, Needed(h.g, n), r != Null);
        ghost var x := Region(h.g, old(h.cells), i);
        UsedIsLive(h.g, old(h.cells), i);
        ShrunkByCut(old(h.Held()), x, Region(h.g, h.cells, i), {off});
      }
    }
  }

  lemma NotMade(g: Geometry, c: Call, v: View)
    requires g.Aligned() && (c.off !in v.owned || (c.TrimCall? && c.n >= g.width))
    ensures Released(g, c, v, v)
  {
  }

  /** One call of another context, if it owns what it names. */
  method Perform(h: Heap, c: Call)
    requires h.Valid()
    modifies h, h.ram
    ensures h.Valid() && h.owned <= old(h.owned) && h.InFlight() == old(h.InFlight()) && LowKept(h) && (h.disturbed || Undisturbed(h))
    ensures Shrunk(old(h.Held()), h.Held(), {c.off} * old(h.owned))
    ensures Released(h.g, c, old(Seen(h)), Seen(h))
  {
    hide Released, Live, Tiled, Coalesced, NoFreeBelow, LowestFree, Chained, Shrunk;
    ShrunkSame(h.Held(), {c.off} * h.owned);
    if c.off !in h.owned {
      NotMade(h.g, c, Seen(h));
      return;
    }
    assert {c.off} * h.owned == {c.off};
    match c
    case FreeCall(off) =>
      PerformFree(h, off);
    case TrimCall(off, n) =>
      if n < h.g.width {
        PerformTrim(h, off, n);
      } else {
        NotMade(h.g, c, Seen(h));
      }
  }

  /** The same, as a window sees it. */
  method Interfere(h: Heap, c: Call)
    requires h.Valid()
    modifies h, h.ram
    ensures h.Valid() && h.owned <= old(h.owned) && h.InFlight() == old(h.InFlight()) && LowKept(h) && (h.disturbed || Undisturbed(h))
    ensures Shrunk(old(h.Held()), h.Held(), {c.off} * old(h.owned))
  {
    hide Released, Live, Tiled, Coalesced, NoFreeBelow, LowestFree, Chained, Shrunk;
    Perform(h, c);
  }

  lemma NamesAt(ws: Windows, k: nat, j: nat)
    requires k < |ws| && j < |ws[k]|
    ensures ws[k][j].off in Names(ws)
  {
  }

  /** Drop the protection and take it again. Other contexts make the calls of window `k`. */
  method Window(h: Heap, ws: Windows, k: nat) returns (k': nat)
    requires h.Valid() && k <= |ws|
    modifies h, h.ram
    ensures h.Valid() && h.owned <= old(h.owned) && h.InFlight() == old(h.InFlight()) && LowKept(h)
    ensures !h.disturbed ==> h.cells == old(h.cells) && h.lfree == old(h.lfree) && h.owned == old(h.owned)
    ensures Shrunk(old(h.Held()), h.Held(), Names(ws) * old(h.owned))
    ensures k' == if k < |ws| then k + 1 else k
    ensures Pending(ws, k') <= Pending(ws, k)
    ensures h.disturbed ==> Pending(ws, k') < Pending(ws, k)
  {
    h.disturbed := false;
    k' := k;
    ghost var may := Names(ws) * h.owned;
    ShrunkSame(h.Held(), may);
    if k < |ws| {
      k' := k + 1;
      var j := 0;
      while j < |ws[k]|
        invariant 0 <= j <= |ws[k]|
        invariant h.Valid() && h.owned <= old(h.owned) && h.InFlight() == old(h.InFlight()) && LowKept(h)
        invariant h.disturbed ==> 0 < j
        invariant !h.disturbed ==> h.cells == old(h.cells) && h.lfree == old(h.lfree) && h.owned == old(h.owned)
        invariant Shrunk(old(h.Held()), h.Held(), may)
      {
        ghost var held, mayNow := h.Held(), {ws[k][j].off} * h.owned;
        NamesAt(ws, k, j);
        Interfere(h, ws[k][j]);
        ShrunkTwice(old(h.Held()), held, h.Held(), may, mayNow);
        j := j + 1;
      }
    }
  }

  /** Where a scan starts: nothing below `lfree` fits. */
  lemma ScanStart(g: Geometry, cs: seq<Cell>, lf: nat, size: nat) returns (i: nat)
    requires Tiled(g, cs) && NoFreeBelow(g, cs, lf)
    ensures i <= |cs| && lf == Start(g, cs, i) && NoneFits(g, cs, i, size)
  {
    if lf == g.size {
      i := |cs|;
    } else {
      i :| 0 <= i < |cs| && cs[i].start == lf;
    }
  }

  /** Where a scan may stop: behind `size - n` nothing fits `n` bytes. */
  lemma ScanEnd(g: Geometry, cs: seq<Cell>, i: nat, size: nat)
    requires Tiled(g, cs) && i <= |cs| && NoneFits(g, cs, i, size) && Start(g, cs, i) >= g.size - size
    ensures NoneFits(g, cs, |cs|, size)
  {
    forall j | i <= j < |cs| ensures !Fits(g, cs, j, size) {
      assert Start(g, cs, j + 1) <= g.size;
      assert j == i || cs[i].start <= cs[j].start;
    }
  }

  /** Block `i` starts at `ptr` and is the first that fits. */
  ghost predicate FirstFit(g: Geometry, cs: seq<Cell>, i: nat, ptr: nat, size: nat) {
    i < |cs| && cs[i].start == ptr && Fits(g, cs, i, size) && NoneFits(g, cs, i, size)
  }

  twostate predicate Same(h: Heap)
    reads h
  {
    h.cells == old(h.cells) && h.lfree == old(h.lfree) && h.owned == old(h.owned)
  }

  lemma ChainTiled(g: Geometry, cs: seq<Cell>, r: seq<Header>)
    requires Chained(g, cs, r)
    ensures Tiled(g, cs) && |r| == g.size + 1
  {
  }

  /** What one look at a header tells the scan. */
  lemma ScanStep(g: Geometry, cs: seq<Cell>, r: seq<Header>, i: nat, size: nat)
    requires Chained(g, cs, r) && i < |cs| && NoneFits(g, cs, i, size)
    ensures r[cs[i].start].next == Start(g, cs, i + 1)
    ensures |r| == g.size + 1 && cs[i].start < Start(g, cs, i + 1) <= g.size
    ensures if !r[cs[i].start].used && r[cs[i].start].next - (cs[i].start + g.header) >= size
            then FirstFit(g, cs, i, cs[i].start, size)
            else NoneFits(g, cs, i + 1, size)
  {
    assert r[cs[i].start] == HeaderOf(g, cs, i);
  }

  /** One pass of the scan, from `lfree` until a block fits, the end is near, or a window was used. */
  method Scan(h: Heap, size: nat, ws: Windows, k0: nat) returns (found: bool, ptr: nat, k: nat)
    requires h.Valid() && h.Tight() && 0 < size <= h.g.size && k0 <= |ws|
    modifies h, h.ram
    ensures h.Valid() && h.Tight() && h.owned <= old(h.owned) && h.InFlight() == old(h.InFlight()) && k <= |ws|
    ensures Pending(ws, k) <= Pending(ws, k0)
    ensures Shrunk(old(h.Held()), h.Held(), Names(ws) * old(h.owned))
    ensures h.disturbed ==> !found && Pending(ws, k) < Pending(ws, k0)
    ensures !h.disturbed ==> Same(h)
    ensures found ==> exists i: nat :: FirstFit(h.g, h.cells, i, ptr, size)
    ensures !found && !h.disturbed ==> NoneFits(h.g, h.cells, |h.cells|, size)
  {
    hide Chained, Tiled, Live, Aligned, Coalesced, LowestFree, NoFreeBelow, NoneFits, Shrunk, FirstFit, Addresses, Names, Pending;
    ChainTiled(h.g, h.cells, h.ram[..]);
    found, k := false, k0;
    ptr := h.lfree;
    h.disturbed := false;
    ghost var i: nat := ScanStart(h.g, h.cells, h.lfree, size);
    ShrunkSame(h.Held(), Names(ws) * h.owned);
    while ptr < h.g.size - size
      invariant h.Valid() && h.Tight() && !h.disturbed && Same(h) && Tiled(h.g, h.cells)
      invariant k <= |ws| && Pending(ws, k) <= Pending(ws, k0)
      invariant i <= |h.cells| && ptr == Start(h.g, h.cells, i) && NoneFits(h.g, h.cells, i, size)
      decreases h.g.size - ptr
    {
      k := Window(h, ws, k);
      if h.disturbed {
        return;
      }
      ScanStep(h.g, h.cells, h.ram[..], i, size);
      if !h.ram[ptr].used && h.ram[ptr].next - (ptr + h.g.header) >= size {
        found := true;
        return;
      }
      ptr := h.ram[ptr].next;
      i := i + 1;
    }
    ScanEnd(h.g, h.cells, i, size);
  }

  /** The search of `mem_malloc`: scan again as long as other contexts disturbed it. */
  method Search(h: Heap, size: nat, ws: Windows) returns (found: bool, ptr: nat, k: nat, restarts: nat)
    requires h.Valid() && h.Tight() && 0 < size <= h.g.size
    modifies h, h.ram
    ensures h.Valid() && h.Tight() && h.owned <= old(h.owned) && h.InFlight() == old(h.InFlight()) && k <= |ws|
    ensures restarts + Pending(ws, k) <= Pending(ws, 0)
    ensures Pending(ws, 0) == 0 ==> Same(h)
    ensures Shrunk(old(h.Held()), h.Held(), Names(ws) * old(h.owned))
    ensures found ==> exists i: nat :: FirstFit(h.g, h.cells, i, ptr, size)
    ensures !found ==> NoneFits(h.g, h.cells, |h.cells|, size)
  {
    ghost var may := Names(ws) * h.owned;
    restarts := 0;
    found, ptr, k := Scan(h, size, ws, 0);
    while h.disturbed
      invariant h.Valid() && h.Tight() && h.owned <= old(h.owned) && h.InFlight() == old(h.InFlight()) && k <= |ws|
      invariant restarts + Pending(ws, k) + (if h.disturbed then 1 else 0) <= Pending(ws, 0)
      invariant Pending(ws, 0) == 0 ==> Same(h)
      invariant Shrunk(old(h.Held()), h.Held(), may)
      invariant found ==> exists i: nat :: FirstFit(h.g, h.cells, i, ptr, size)
      invariant !found && !h.disturbed ==> NoneFits(h.g, h.cells, |h.cells|, size)
      decreases Pending(ws, k), h.disturbed
    {
      ghost var held, mayNow := h.Held(), Names(ws) * h.owned;
      restarts := restarts + 1;
      found, ptr, k := Scan(h, size, ws, k);
      ShrunkTwice(old(h.Held()), held, h.Held(), may, mayNow);
    }
  }

  /** Mark block `i` as used, splitting off what is large enough to be a block of its own. */
  method Take(h: Heap, ptr: nat, size: nat, ghost i: nat)
    requires h.Linked() && i < |h.cells| && h.cells[i] == Cell(ptr, false)
    requires Fits(h.g, h.cells, i, size) && h.g.min <= size
    modifies h`cells, h.ram
    ensures h.Linked() && h.cells == TakeBlock(h.g, old(h.cells), i, size)
  {
    ghost var r := h.ram[..];
    assert r[ptr] == HeaderOf(h.g, h.cells, i);
    if h.ram[ptr].next - (ptr + h.g.header) >= size + h.g.header + h.g.min {
      h.Split(ptr, size, i);
    } else {
      h.Store(ptr, h.ram[ptr].(used := true));
      MarkChained(h.g, h.cells, r, h.ram[..], i, true);
      h.cells := h.cells[i := Cell(ptr, true)];
    }
  }

  /** The first `n` blocks are all used. */
  ghost predicate AllUsed(cs: seq<Cell>, n: nat)
    requires n <= |cs|
  {
    forall j :: 0 <= j < n ==> cs[j].used
  }

  lemma AllUsedBelow(g: Geometry, cs: seq<Cell>, r: seq<Header>, i: nat)
    requires Chained(g, cs, r) && i <= |cs| && AllUsed(cs, i)
    ensures NoFreeBelow(g, cs, Start(g, cs, i))
    ensures i == |cs| || !cs[i].used ==> LowestFree(g, cs, Start(g, cs, i))
  {
  }

  /** Move `lfree` up from the taken block at `mem` to the next free block. Windows may use it up
      again; a walk that was disturbed starts anew. */
  method AdjustLfree(h: Heap, mem: nat, ws: Windows, k0: nat) returns (k: nat, restarts: nat)
    requires h.Valid() && k0 <= |ws|
    requires h.lfree != mem ==> h.Tight()
    modifies h, h.ram
    ensures h.Valid() && h.Tight() && h.owned <= old(h.owned) && h.InFlight() == old(h.InFlight()) && k <= |ws|
    ensures restarts + Pending(ws, k) <= Pending(ws, k0)
    ensures Pending(ws, k0) == 0 ==> h.cells == old(h.cells)
    ensures Shrunk(old(h.Held()), h.Held(), Names(ws) * old(h.owned))
  {
    ghost var may := Names(ws) * h.owned;
    ShrunkSame(h.Held(), may);
    k, restarts := k0, 0;
    while mem == h.lfree
      invariant h.Valid() && h.owned <= old(h.owned) && h.InFlight() == old(h.InFlight()) && k <= |ws|
      invariant h.lfree != mem ==> h.Tight()
      invariant restarts + Pending(ws, k) <= Pending(ws, k0)
      invariant Pending(ws, k0) == 0 ==> h.cells == old(h.cells)
      invariant Shrunk(old(h.Held()), h.Held(), may)
      decreases Pending(ws, k)
    {
      ghost var held, mayNow := h.Held(), Names(ws) * h.owned;
      var done;
      done, k := Walk(h, ws, k);
      ShrunkTwice(old(h.Held()), held, h.Held(), may, mayNow);
      if done {
        return;
      }
      restarts := restarts + 1;
    }
  }

  /** One walk from `lfree` to the next free block, until it is found or a window was used. */
  method Walk(h: Heap, ws: Windows, k0: nat) returns (done: bool, k: nat)
    requires h.Valid() && k0 <= |ws|
    modifies h, h.ram
    ensures h.Valid() && h.owned <= old(h.owned) && h.InFlight() == old(h.InFlight()) && k <= |ws|
    ensures Pending(ws, k) <= Pending(ws, k0)
    ensures Shrunk(old(h.Held()), h.Held(), Names(ws) * old(h.owned))
    ensures done ==> h.Tight() && h.cells == old(h.cells)
    ensures !done ==> LowKept(h) && Pending(ws, k) < Pending(ws, k0)
  {
    hide Chained, Tiled, Live, Coalesced, LowestFree, NoFreeBelow, NoneFits, Shrunk, AllUsed;
    k := k0;
    var cur := h.lfree;
    ghost var i: nat := WalkStart(h.g, h.cells, h.ram[..], h.lfree);
    ShrunkSame(h.Held(), Names(ws) * h.owned);
    while h.ram[cur].used && cur != h.g.size
      invariant h.Valid() && Same(h) && h.ram.Length == h.g.size + 1
      invariant k <= |ws| && Pending(ws, k) <= Pending(ws, k0)
      invariant i <= |h.cells| && cur == Start(h.g, h.cells, i) <= h.g.size && AllUsed(h.cells, i)
      invariant i < |h.cells| ==> cur < h.g.size && h.ram[cur].used == h.cells[i].used
      decreases |h.cells| - i
    {
      k := Window(h, ws, k);
      if h.disturbed {
        return false, k;
      }
      WalkStep(h.g, h.cells, h.ram[..], i);
      cur := h.ram[cur].next;
      i := i + 1;
    }
    AllUsedBelow(h.g, h.cells, h.ram[..], i);
    h.lfree := cur;
    return true, k;
  }

  lemma WalkStart(g: Geometry, cs: seq<Cell>, r: seq<Header>, lf: nat) returns (i: nat)
    requires Chained(g, cs, r) && NoFreeBelow(g, cs, lf)
    ensures i <= |cs| && lf == Start(g, cs, i) <= g.size && |r| == g.size + 1 && AllUsed(cs, i)
    ensures i < |cs| ==> lf < g.size && r[lf].used == cs[i].used
  {
    i := ScanStart(g, cs, lf, 0);
    if i < |cs| {
      ChainAt(g, cs, r, i);
    }
  }

  lemma WalkStep(g: Geometry, cs: seq<Cell>, r: seq<Header>, i: nat)
    requires Chained(g, cs, r) && i < |cs| && AllUsed(cs, i) && cs[i].used
    ensures |r| == g.size + 1 && cs[i].start < |r|
    ensures r[cs[i].start].next == Start(g, cs, i + 1) <= g.size && AllUsed(cs, i + 1)
    ensures i + 1 < |cs| ==> Start(g, cs, i + 1) < g.size && r[Start(g, cs, i + 1)].used == cs[i + 1].used
  {
    ChainAt(g, cs, r, i);
    if i + 1 < |cs| {
      ChainAt(g, cs, r, i + 1);
    }
  }

  /** The region handed out by a `mem_malloc`: fresh, large enough but smaller than `most`, and beside it clients hold
      what they held, less what other contexts freed or cut. */
  ghost predicate Granted(before: set<(int, int)>, after: set<(int, int)>, r: Pointer, size: nat, most: nat,
                          may: set<int>) {
    && r.Addr?
    && exists s: int ::
         && (r.off, s) in after && size <= s < most
         && r.off !in Addresses(after - {(r.off, s)})
         && Shrunk(before, after - {(r.off, s)}, may)
  }

  /** The bytes that a client gets of the free block `i` when it asks for `size`: the rest stays free if it is large
      enough to be a block. */
  function Handed(g: Geometry, cs: seq<Cell>, i: nat, size: nat): int
    requires i < |cs|
  {
    if size + g.header + g.min <= Room(g, cs, i) then size else Room(g, cs, i)
  }

  /** Take the block found at `ptr`. It is in flight until it is returned. */
  method TakeFound(h: Heap, ptr: nat, size: nat, ghost i: nat) returns (ghost mine: (int, int))
    requires h.Valid() && h.Tight()
    requires FirstFit(h.g, h.cells, i, ptr, size) && h.g.min <= size && size % h.g.align == 0
    modifies h`cells, h.ram
    ensures h.Valid() && (h.lfree != ptr ==> h.Tight())
    ensures h.cells == TakeBlock(h.g, old(h.cells), i, size)
    ensures h.Held() == old(h.Held()) + {mine} && mine == (ptr + h.g.header, Handed(h.g, old(h.cells), i, size))
    ensures size <= mine.1 < size + h.g.header + h.g.min
    ensures mine.0 !in Addresses(old(h.Held())) && mine.0 !in h.owned
    ensures h.InFlight() == old(h.InFlight()) + {mine.0}
  {
    TakeKeeps(h.g, h.cells, i, size);
    TakeLive(h.g, h.cells, i, size);
    TakeLowest(h.g, h.cells, i, size, h.lfree);
    mine := Region(h.g, TakeBlock(h.g, h.cells, i, size), i);
    AddAddress(h.Held(), mine);
    Take(h, ptr, size, i);
  }

  /** Return the block in flight to the caller, who owns it from now on. */
  method HandOver(h: Heap, off: int, ghost mine: (int, int), ghost before: set<(int, int)>, ghost may: set<int>, ghost size: nat,
                  ghost most: nat)
    requires h.Valid() && h.Tight() && h.InFlight() == {off}
    requires mine.0 == off && mine.0 !in Addresses(before) && mine.0 !in may && size <= mine.1 < most
    requires Shrunk(before + {mine}, h.Held(), may)
    modifies h`owned
    ensures h.Valid() && h.Tight() && h.owned == old(h.owned) + {off} && h.InFlight() == {}
    ensures Granted(before, h.Held(), Addr(off), size, most, may)
  {
    LiveUnique(h.g, h.cells);
    GrantStays(before, mine, h.Held(), Addr(off), may, size, most);
    assert off in h.InFlight();
    h.owned := h.owned + {off};
  }

  /** Take the block found at `ptr`, repair `lfree` and hand the block out. */
  method Grant(h: Heap, ptr: nat, size: nat, ws: Windows, k0: nat, ghost i: nat) returns (r: Pointer, restarts: nat)
    requires h.Valid() && h.Tight() && h.InFlight() == {} && k0 <= |ws|
    requires FirstFit(h.g, h.cells, i, ptr, size) && h.g.min <= size && size % h.g.align == 0
    modifies h, h.ram
    ensures h.Valid() && h.Tight() && h.InFlight() == {}
    ensures r == Addr(ptr + h.g.header) && r.off in h.owned && h.owned <= old(h.owned) + {r.off}
    ensures restarts <= Pending(ws, k0)
    ensures Granted(old(h.Held()), h.Held(), r, size, size + h.g.header + h.g.min, Names(ws) * old(h.owned))
    ensures Pending(ws, k0) == 0 ==>
              && h.cells == TakeBlock(h.g, old(h.cells), i, size)
              && h.Held() == old(h.Held()) + {(r.off, Handed(h.g, old(h.cells), i, size))}
  {
    hide Live, Shrunk, Granted, Tiled, Coalesced, NoFreeBelow, LowestFree, TakeBlock, Chained;
    ghost var may := Names(ws) * h.owned;
    r := Addr(ptr + h.g.header);
    ghost var mine := TakeFound(h, ptr, size, i);
    var k;
    k, restarts := AdjustLfree(h, ptr, ws, k0);
    HandOver(h, ptr + h.g.header, mine, old(h.Held()), may, size, size + h.g.header + h.g.min);
  }

  lemma AddAddress(live: set<(int, int)>, x: (int, int))
    ensures Addresses(live + {x}) == Addresses(live) + {x.0}
  {
    assert forall a :: a in Addresses(live) ==> a in Addresses(live + {x});
    assert x in live + {x};
  }

  /** What other contexts do after the block was taken cannot touch it. */
  lemma GrantStays(before: set<(int, int)>, mine: (int, int), after: set<(int, int)>, r: Pointer, may: set<int>, size: nat,
                   most: nat)
    requires mine.0 !in Addresses(before) && mine.0 !in may && size <= mine.1 < most && r == Addr(mine.0)
    requires Shrunk(before + {mine}, after, may)
    requires forall x, y :: x in after && y in after && x.0 == y.0 ==> x == y
    ensures Granted(before, after, r, size, most, may)
  {
    assert mine in after;
    var rest := after - {mine};
    forall x | x in rest ensures x.0 != mine.0 && (x.0 in may ==> exists y :: y in before && y.0 == x.0 && x.1 <= y.1) {
      if x.0 in may {
        var y :| y in before + {mine} && y.0 == x.0 && x.1 <= y.1;
      }
    }
    assert Shrunk(before, rest, may);
    assert (mine.0, mine.1) == mine;
  }

  /** The part of `mem_malloc` behind the check of the size. */
  method Obtain(h: Heap, size: nat, ws: Windows) returns (r: Pointer, restarts: nat)
    requires h.Valid() && h.Tight() && h.InFlight() == {} && 0 < size <= h.g.size && h.g.min <= size && size % h.g.align == 0
    modifies h, h.ram
    ensures h.Valid() && h.Tight() && h.InFlight() == {}
    ensures restarts <= Pending(ws, 0)
    ensures r == Null ==>
              && NoneFits(h.g, h.cells, |h.cells|, size)
              && Shrunk(old(h.Held()), h.Held(), Names(ws) * old(h.owned)) && h.owned <= old(h.owned)
    ensures r != Null ==>
              && r.off in h.owned && h.owned <= old(h.owned) + {r.off}
              && Granted(old(h.Held()), h.Held(), r, size, size + h.g.header + h.g.min, Names(ws) * old(h.owned))
    ensures Pending(ws, 0) == 0 && r == Null ==> h.cells == old(h.cells)
    ensures Pending(ws, 0) == 0 && r != Null ==>
              && h.g.header <= r.off
              && exists i: nat :: FirstFit(h.g, old(h.cells), i, r.off - h.g.header, size)
                                  && h.cells == TakeBlock(h.g, old(h.cells), i, size)
                                  && h.Held() == old(h.Held()) + {(r.off, Handed(h.g, old(h.cells), i, size))}
  {
    hide Live, Shrunk, Granted, Tiled, Coalesced, NoFreeBelow, LowestFree, TakeBlock, Chained, NoneFits, Handed, FirstFit;
    var found, ptr, k;
    found, ptr, k, restarts := Search(h, size, ws);
    if !found {
      return Null, restarts;
    }
    ghost var i: nat :| FirstFit(h.g, h.cells, i, ptr, size);
    ghost var held, mayNow := h.Held(), Names(ws) * h.owned;
    var more;
    r, more := Grant(h, ptr, size, ws, k, i);
    restarts := restarts + more;
    GrantedLater(old(h.Held()), held, h.Held(), r, size, size + h.g.header + h.g.min, Names(ws) * old(h.owned), mayNow);
  }

  /** `mem_malloc`. The search succeeds exactly when some free block of the whole heap fits at the
      moment it ends; it starts over at most once per call of another context. Without such calls
      the first fitting block of the old list is taken. */
  method Malloc(h: Heap, n: nat, ws: Windows) returns (r: Pointer, restarts: nat)
    requires h.Valid() && h.Tight() && h.InFlight() == {} && n < h.g.width
    modifies h, h.ram
    ensures h.Valid() && h.Tight() && h.InFlight() == {}
    ensures restarts <= Pending(ws, 0)
    ensures r == Null ==>
              && (n == 0 || Needed(h.g, n) > h.g.size || NoneFits(h.g, h.cells, |h.cells|, Needed(h.g, n)))
              && Shrunk(old(h.Held()), h.Held(), Names(ws) * old(h.owned)) && h.owned <= old(h.owned)
    ensures r != Null ==>
              && 0 < n && r.off in h.owned && h.owned <= old(h.owned) + {r.off}
              && Granted(old(h.Held()), h.Held(), r, Needed(h.g, n), Needed(h.g, n) + h.g.header + h.g.min,
                         Names(ws) * old(h.owned))
    ensures Pending(ws, 0) == 0 ==>
              if r == Null then h.cells == old(h.cells)
              else exists i: nat :: FirstFit(h.g, old(h.cells), i, r.off - h.g.header, Needed(h.g, n))
                                 && h.cells == TakeBlock(h.g, old(h.cells), i, Needed(h.g, n))
                                 && h.Held() == old(h.Held()) + {(r.off, Handed(h.g, old(h.cells), i, Needed(h.g, n)))}
  {
    ShrunkSame(h.Held(), Names(ws) * h.owned);
    hide Live, Shrunk, Granted, Tiled, Coalesced, NoFreeBelow, LowestFree, TakeBlock, Chained, Needed, TruncatedSize, RoundUp,
      FirstFit, NoneFits, Handed;
    if n == 0 {
      return Null, 0;
    }
    TruncationIsCaught(h.g, n);
    var size := TruncatedSize(h.g, n);
    if size > h.g.size || size < n {
      return Null, 0;
    }
    r, restarts := Obtain(h, size, ws);
  }

  lemma GrantedLater(a: set<(int, int)>, b: set<(int, int)>, c: set<(int, int)>, r: Pointer, size: nat, most: nat, may: set<int>,
                     may': set<int>)
    requires Shrunk(a, b, may) && Granted(b, c, r, size, most, may') && may' <= may
    ensures Granted(a, c, r, size, most, may)
  {
    var s: int :| (r.off, s) in c && size <= s < most && r.off !in Addresses(c - {(r.off, s)}) && Shrunk(b, c - {(r.off, s)}, may');
    ShrunkTwice(a, b, c - {(r.off, s)}, may, may');
  }

  // ---------------------------------------------------------------- whole runs

  /** A client's request. The windows of an allocation say what other contexts do meanwhile. */
  datatype Request = Allocate(n: nat, windows: Windows) | Release(c: Call)

  /** What an allocation of `n` bytes returns and does while other contexts make the calls of its windows. */
  ghost predicate Allocated(g: Geometry, n: nat, ws: Windows, v: View, r: Pointer, w: View)
    requires g.Aligned()
  {
    var may := Names(ws) * v.owned;
    && (r == Null ==>
          && (n == 0 || Needed(g, n) > g.size || NoneFits(g, w.cells, |w.cells|, Needed(g, n)))
          && Shrunk(Live(g, v.cells), Live(g, w.cells), may) && w.owned <= v.owned)
    && (r != Null ==>
          && 0 < n && r.off in w.owned && w.owned <= v.owned + {r.off}
          && Granted(Live(g, v.cells), Live(g, w.cells), r, Needed(g, n), Needed(g, n) + g.header + g.min, may))
    && (Pending(ws, 0) == 0 ==>
          if r == Null then w.cells == v.cells
          else exists i: nat :: FirstFit(g, v.cells, i, r.off - g.header, Needed(g, n))
                             && w.cells == TakeBlock(g, v.cells, i, Needed(g, n))
                             && Live(g, w.cells) == Live(g, v.cells) + {(r.off, Handed(g, v.cells, i, Needed(g, n)))})
  }

  ghost predicate Served(g: Geometry, request: Request, v: View, w: View)
    requires g.Aligned()
  {
    match request
    case Allocate(n, windows) => if n < g.width then exists r :: Allocated(g, n, windows, v, r, w) else w == v
    case Release(c) => Released(g, c, v, w)
  }

  /** The block list is well formed, `low` is the lowest free block, and every used block is owned. */
  ghost predicate Whole(g: Geometry, v: View) {
    && Tiled(g, v.cells) && Aligned(g, v.cells) && Coalesced(v.cells) && LowestFree(g, v.cells, v.low)
    && Addresses(Live(g, v.cells)) == v.owned
  }

  /** A run: each request does what it is to do, from one whole heap to the next. */
  ghost predicate IsRun(g: Geometry, requests: seq<Request>, states: seq<View>)
    requires g.Aligned()
  {
    && |states| == |requests| + 1
    && (forall k :: 0 <= k < |states| ==> Whole(g, states[k]))
    && (forall k :: 0 <= k < |requests| ==> Served(g, requests[k], states[k], states[k + 1]))
  }

  lemma RunOn(g: Geometry, requests: seq<Request>, states: seq<View>, request: Request, w: View)
    requires g.Aligned() && IsRun(g, requests, states) && Whole(g, w) && Served(g, request, states[|requests|], w)
    ensures IsRun(g, requests + [request], states + [w])
  {
    hide Whole, Served;
  }

  /** One request of a client. */
  method ServeOne(h: Heap, request: Request)
    requires h.Valid() && h.Tight() && h.InFlight() == {}
    modifies h, h.ram
    ensures h.Valid() && h.Tight() && h.InFlight() == {}
    ensures Served(h.g, request, old(Seen(h)), Seen(h))
  {
    hide Live, Shrunk, Granted, Tiled, Coalesced, NoFreeBelow, LowestFree, TakeBlock, Chained, Released;
    match request
    case Allocate(n, windows) =>
      if n < h.g.width {
        var r, restarts := Malloc(h, n, windows);
        assert Allocated(h.g, n, windows, old(Seen(h)), r, Seen(h));
      }
    case Release(c) =>
      Perform(h, c);
  }

  /** Serve any sequence of requests on a new heap. Whatever they are, each does what it is to do, the block list stays
      well formed, `lfree` is the lowest free block, every used block is owned by a client, and once the clients have
      given everything back the heap is one free block again. */
  method Serve(g: Geometry, requests: seq<Request>) returns (h: Heap, ghost states: seq<View>)
    requires g.Aligned()
    ensures h.g == g && h.Valid() && h.Tight() && h.InFlight() == {}
    ensures IsRun(g, requests, states) && states[0] == View(Initial(), 0, {}) && states[|requests|] == Seen(h)
    ensures h.owned == {} ==> h.cells == Initial()
  {
    hide Served, Whole, Live, Tiled, Coalesced, NoFreeBelow, LowestFree, Chained, Aligned;
    h := new Heap(g);
    WholeNow(h);
    StartsLow(h);
    states := [Seen(h)];
    assert requests[..0] == [];
    var j := 0;
    while j < |requests|
      invariant fresh(h) && fresh(h.ram) && h.g == g && 0 <= j <= |requests|
      invariant h.Valid() && h.Tight() && h.InFlight() == {}
      invariant IsRun(g, requests[..j], states) && states[0] == View(Initial(), 0, {}) && states[j] == Seen(h)
    {
      ServeOne(h, requests[j]);
      WholeNow(h);
      RunOn(g, requests[..j], states, requests[j], Seen(h));
      assert requests[..j] + [requests[j]] == requests[..j + 1];
      states := states + [Seen(h)];
      j := j + 1;
    }
    assert requests[..j] == requests;
    AllBack(h);
  }

  lemma StartsLow(h: Heap)
    requires h.Tight() && h.cells == Initial()
    ensures h.lfree == 0
  {
    assert h.cells[0] == Cell(0, false);
  }

  lemma AllBack(h: Heap)
    requires h.Valid() && h.InFlight() == {}
    ensures h.owned == {} ==> h.cells == Initial()
  {
    if h.owned == {} {
      ChainTiled(h.g, h.cells, h.ram[..]);
      NoAddresses(h.Held());
      NothingHeld(h.g, h.cells);
    }
  }

  lemma WholeNow(h: Heap)
    requires h.Valid() && h.Tight() && h.InFlight() == {}
    ensures Whole(h.g, Seen(h))
  {
    hide Tiled, Aligned, Coalesced, Live, Addresses, NoFreeBelow, Chained, LowestFree;
    ChainTiled(h.g, h.cells, h.ram[..]);
    NothingBetween(Addresses(Live(h.g, h.cells)), h.owned);
  }

  lemma NothingBetween(a: set<int>, b: set<int>)
    requires a - b == {} && b <= a
    ensures a == b
  {
    assert forall x :: x in a ==> x in b || x in a - b;
  }

  lemma NoAddresses(live: set<(int, int)>)
    requires Addresses(live) == {}
    ensures live == {}
  {
    assert forall x :: x in live ==> x.0 in Addresses(live);
  }
}
