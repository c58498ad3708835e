/** The heap of `mem.c` as code: headers stored in `ram` and the `lfree` pointer, updated in place. */
module HeapStore {
  import opened HeapLayout

  /** `struct mem`. */
  datatype Header = Header(next: nat, prev: nat, used: bool)

  /** A `void *` given to or returned by the heap, as an offset into `ram`. */
  datatype Pointer = Null | Addr(off: int)

  /** A call that another context makes while `mem_malloc` has dropped its protection. */
  datatype Call = FreeCall(off: int) | TrimCall(off: int, n: nat)

  /** The header that block `i` must have. */
  ghost function HeaderOf(g: Geometry, cs: seq<Cell>, i: nat): Header
    requires i < |cs|
  {
    Header(Start(g, cs, i + 1), if i == 0 then 0 else cs[i - 1].start, cs[i].used)
  }

  /** The headers `r` describe the blocks `cs`. */
  ghost predicate Chained(g: Geometry, cs: seq<Cell>, r: seq<Header>) {
    && Tiled(g, cs)
    && |r| == g.size + 1
    && r[g.size].used && r[g.size].next == g.size
    && forall i {:trigger HeaderOf(g, cs, i)} :: 0 <= i < |cs| ==> r[cs[i].start] == HeaderOf(g, cs, i)
  }

  /** What the chain says about one block and its neighbours. */
  lemma ChainAt(g: Geometry, cs: seq<Cell>, r: seq<Header>, i: nat)
    requires Chained(g, cs, r) && i < |cs|
    ensures Tiled(g, cs) && g.Ok() && |r| == g.size + 1 && r[g.size].used
    ensures cs[i].start + g.header + g.min <= Start(g, cs, i + 1) <= g.size
    ensures r[cs[i].start] == Header(Start(g, cs, i + 1), if i == 0 then 0 else cs[i - 1].start, cs[i].used)
    ensures if i == 0 then cs[0].start == 0 else cs[i - 1].start + g.header + g.min <= cs[i].start
    ensures i + 1 < |cs| <==> Start(g, cs, i + 1) < g.size
  {
    assert r[cs[i].start] == HeaderOf(g, cs, i);
  }

  /** Headers at `p` and `q` do not overlap. */
  predicate Apart(g: Geometry, p: nat, q: nat) {
    p + g.header <= q || q + g.header <= p
  }

  /** `r'` comes from `r` by writing headers at `a`, `b` and `c`; what overlaps them is lost. */
  ghost predicate Rewritten(g: Geometry, r: seq<Header>, r': seq<Header>, a: nat, b: nat, c: nat) {
    && |r'| == |r|
    && forall q :: 0 <= q < |r| && Apart(g, q, a) && Apart(g, q, b) && Apart(g, q, c) ==> r'[q] == r[q]
  }

  lemma BlocksApart(g: Geometry, cs: seq<Cell>, j: nat, k: nat)
    requires Tiled(g, cs) && j < |cs| && k <= |cs| && j != k
    ensures Apart(g, Start(g, cs, k), cs[j].start)
  {
  }

  /** Which headers change when block `i + 1` is fused into block `i`. */
  lemma FuseHeaders(g: Geometry, cs: seq<Cell>, ds: seq<Cell>, i: nat)
    requires i + 1 < |cs| && ds == Fuse(cs, i)
    ensures forall k :: 0 <= k < i ==> ds[k] == cs[k] && HeaderOf(g, ds, k) == HeaderOf(g, cs, k)
    ensures ds[i] == cs[i] && HeaderOf(g, ds, i) == HeaderOf(g, cs, i).(next := Start(g, cs, i + 2))
    ensures i + 1 < |ds| ==>
              ds[i + 1] == cs[i + 2] && HeaderOf(g, ds, i + 1) == HeaderOf(g, cs, i + 2).(prev := cs[i].start)
    ensures forall k :: i + 1 < k < |ds| ==> ds[k] == cs[k + 1] && HeaderOf(g, ds, k) == HeaderOf(g, cs, k + 1)
  {
  }

  lemma FuseChained(g: Geometry, cs: seq<Cell>, r: seq<Header>, r': seq<Header>, i: nat)
    requires Chained(g, cs, r) && i + 1 < |cs|
    requires var m, z := cs[i].start, Start(g, cs, i + 2);
             && Rewritten(g, r, r', m, if z == g.size then m else z, m)
             && r'[m] == r[m].(next := z)
             && (z != g.size ==> r'[z] == r[z].(prev := m))
    ensures Chained(g, Fuse(cs, i), r')
  {
    var ds := Fuse(cs, i);
    var z := Start(g, cs, i + 2);
    FuseTiled(g, cs, i);
    FuseHeaders(g, cs, ds, i);
    assert z != g.size <==> i + 2 < |cs|;
    forall k | 0 <= k < |ds| ensures r'[ds[k].start] == HeaderOf(g, ds, k) {
      if k < i {
        BlocksApart(g, cs, i, k);
        if z != g.size { BlocksApart(g, cs, i + 2, k); }
      } else if i + 1 < k {
        BlocksApart(g, cs, i, k + 1);
        BlocksApart(g, cs, i + 2, k + 1);
      }
    }
    BlocksApart(g, cs, i, |cs|);
    if z != g.size { BlocksApart(g, cs, i + 2, |cs|); }
  }

  /** Which headers change when block `i` is split. */
  lemma SplitHeaders(g: Geometry, cs: seq<Cell>, ds: seq<Cell>, i: nat, size: nat)
    requires i < |cs| && ds == SplitBlock(g, cs, i, size)
    ensures forall k :: 0 <= k < i ==> HeaderOf(g, ds, k) == HeaderOf(g, cs, k)
    ensures HeaderOf(g, ds, i) == Header(cs[i].start + g.header + size, HeaderOf(g, cs, i).prev, true)
    ensures HeaderOf(g, ds, i + 1) == Header(Start(g, cs, i + 1), cs[i].start, false)
    ensures i + 1 < |cs| ==>
              HeaderOf(g, ds, i + 2) == HeaderOf(g, cs, i + 1).(prev := cs[i].start + g.header + size)
    ensures forall k :: i + 1 < k < |cs| ==> HeaderOf(g, ds, k + 1) == HeaderOf(g, cs, k)
  {
    forall k | i + 1 < k < |cs| ensures HeaderOf(g, ds, k + 1) == HeaderOf(g, cs, k) {
      assert ds[k + 1] == cs[k] && ds[k] == cs[k - 1];
      assert k + 2 < |ds| ==> ds[k + 2] == cs[k + 1];
    }
  }

  /** Rewriting up to three neighbouring blocks spares all others. */
  lemma Spares(g: Geometry, ds: seq<Cell>, r: seq<Header>, r': seq<Header>, i: nat, k: nat)
    requires Tiled(g, ds) && |r| == g.size + 1 && i + 1 < |ds| && k <= |ds|
    requires Rewritten(g, r, r', ds[i].start, ds[i + 1].start, if i + 2 < |ds| then ds[i + 2].start else ds[i].start)
    requires k < i || i + 2 < k || (k == i + 2 && k == |ds|)
    ensures r'[Start(g, ds, k)] == r[Start(g, ds, k)]
  {
    BlocksApart(g, ds, i, k);
    BlocksApart(g, ds, i + 1, k);
    if i + 2 < |ds| { BlocksApart(g, ds, i + 2, k); }
  }

  /** `r'` is `r` after the writes that split block `i`. */
  ghost predicate SplitWritten(g: Geometry, cs: seq<Cell>, r: seq<Header>, r': seq<Header>, i: nat, size: nat)
    requires Chained(g, cs, r) && i < |cs|
  {
    var p, cut, z := cs[i].start, cs[i].start + g.header + size, Start(g, cs, i + 1);
    && cut < |r|
    && Rewritten(g, r, r', p, cut, if z == g.size then p else z)
    && r'[p] == Header(cut, r[p].prev, true)
    && r'[cut] == Header(z, p, false)
    && (z != g.size ==> r'[z] == r[z].(prev := cut))
  }

  lemma SplitChainedAt(g: Geometry, cs: seq<Cell>, ds: seq<Cell>, r: seq<Header>, r': seq<Header>, i: nat, size: nat, k: nat)
    requires Chained(g, cs, r) && i < |cs| && k < |ds|
    requires ds == SplitBlock(g, cs, i, size) && Tiled(g, ds) && SplitWritten(g, cs, r, r', i, size)
    ensures r'[ds[k].start] == HeaderOf(g, ds, k)
  {
    var j := if k <= i then k else k - 1;
    assert r[cs[j].start] == HeaderOf(g, cs, j);
    SplitHeaders(g, cs, ds, i, size);
    if k < i {
      Spares(g, ds, r, r', i, k);
    } else if i + 2 < k {
      Spares(g, ds, r, r', i, k);
      assert HeaderOf(g, ds, j + 1) == HeaderOf(g, cs, j);
    }
  }

  lemma SplitChained(g: Geometry, cs: seq<Cell>, r: seq<Header>, r': seq<Header>, i: nat, size: nat)
    requires Chained(g, cs, r) && i < |cs| && g.min <= size && size + g.header + g.min <= Room(g, cs, i)
    requires SplitWritten(g, cs, r, r', i, size)
    ensures Chained(g, SplitBlock(g, cs, i, size), r')
  {
    var ds := SplitBlock(g, cs, i, size);
    SplitTiled(g, cs, i, size);
    forall k | 0 <= k < |ds| ensures r'[ds[k].start] == HeaderOf(g, ds, k) {
      SplitChainedAt(g, cs, ds, r, r', i, size, k);
    }
    Spares(g, ds, r, r', i, |ds|);
  }

  /** `r'` is `r` after the writes that move the start of block `i + 1` down. */
  ghost predicate MoveWritten(g: Geometry, cs: seq<Cell>, r: seq<Header>, r': seq<Header>, i: nat, size: nat)
    requires Chained(g, cs, r) && i + 1 < |cs|
  {
    var p, cut, z := cs[i].start, cs[i].start + g.header + size, Start(g, cs, i + 2);
    && cut < |r|
    && Rewritten(g, r, r', p, cut, if z == g.size then p else z)
    && r'[p] == r[p].(next := cut)
    && r'[cut] == Header(z, p, false)
    && (z != g.size ==> r'[z] == r[z].(prev := cut))
  }

  lemma MoveChainedAt(g: Geometry, cs: seq<Cell>, ds: seq<Cell>, r: seq<Header>, r': seq<Header>, i: nat, size: nat, k: nat)
    requires Chained(g, cs, r) && i + 1 < |cs| && k < |ds|
    requires ds == cs[i + 1 := Cell(cs[i].start + g.header + size, false)] && Tiled(g, ds)
    requires MoveWritten(g, cs, r, r', i, size)
    ensures r'[ds[k].start] == HeaderOf(g, ds, k)
  {
    assert r[cs[k].start] == HeaderOf(g, cs, k);
    if k < i || i + 2 < k {
      Spares(g, ds, r, r', i, k);
    }
  }

  /** Moving the start of block `i + 1` down changes its header and those of its neighbours. */
  lemma MoveChained(g: Geometry, cs: seq<Cell>, r: seq<Header>, r': seq<Header>, i: nat, size: nat)
    requires Chained(g, cs, r) && i + 1 < |cs| && g.min <= size <= Room(g, cs, i)
    requires MoveWritten(g, cs, r, r', i, size)
    ensures Chained(g, cs[i + 1 := Cell(cs[i].start + g.header + size, false)], r')
  {
    var ds := cs[i + 1 := Cell(cs[i].start + g.header + size, false)];
    assert ds[i + 1].start <= cs[i + 1].start;
    assert Tiled(g, ds);
    forall k | 0 <= k < |ds| ensures r'[ds[k].start] == HeaderOf(g, ds, k) {
      MoveChainedAt(g, cs, ds, r, r', i, size, k);
    }
    Spares(g, ds, r, r', i, |ds|);
  }

  /** Rewriting the used mark of block `i`. */
  lemma MarkChained(g: Geometry, cs: seq<Cell>, r: seq<Header>, r': seq<Header>, i: nat, used: bool)
    requires Chained(g, cs, r) && i < |cs|
    requires Rewritten(g, r, r', cs[i].start, cs[i].start, cs[i].start)
    requires r'[cs[i].start] == r[cs[i].start].(used := used)
    ensures Chained(g, cs[i := Cell(cs[i].start, used)], r')
  {
    var ds := cs[i := Cell(cs[i].start, used)];
    assert Tiled(g, ds);
    forall k | 0 <= k < |ds| ensures r'[ds[k].start] == HeaderOf(g, ds, k) {
      assert r[cs[k].start] == HeaderOf(g, cs, k);
      if k != i {
        BlocksApart(g, cs, i, k);
      }
    }
    BlocksApart(g, cs, i, |cs|);
  }

  lemma StartsChained(g: Geometry, r: seq<Header>)
    requires g.Ok() && |r| == g.size + 1
    requires r[0] == Header(g.size, 0, false) && r[g.size] == Header(g.size, g.size, true)
    ensures Chained(g, Initial(), r)
  {
    assert HeaderOf(g, Initial(), 0) == Header(g.size, 0, false);
  }

  lemma StartsAligned(g: Geometry)
    requires g.Aligned()
    ensures g.Ok() && Aligned(g, Initial())
  {
    assert 0 % g.align == 0;
  }

  /** The headers that `mem_init` writes describe one free block. */
  lemma Starts(g: Geometry, r: seq<Header>)
    requires g.Aligned() && |r| == g.size + 1
    requires r[0] == Header(g.size, 0, false) && r[g.size] == Header(g.size, g.size, true)
    ensures Chained(g, Initial(), r) && Aligned(g, Initial()) && Coalesced(Initial())
    ensures NoFreeBelow(g, Initial(), 0) && LowestFree(g, Initial(), 0)
    ensures Live(g, Initial()) == {} && Addresses({}) == {}
  {
    StartsChained(g, r);
    StartsAligned(g);
    hide Chained, Aligned, Tiled, Geometry.Aligned;
    assert Initial()[0].start == 0;
  }

  class Heap {
    const g: Geometry
    /** `ram[p]` is the header that would be read at byte `p`; headers closer than `g.header`
        bytes overlap. */
    const ram: array<Header>
    var lfree: nat
    /** `mem_free_count`. */
    var disturbed: bool
    /** The addresses that clients own: returned to them and not freed. This is the clients'
        knowledge; the heap code does not look at it. */
    var owned: set<int>
    /** The block list that the headers in `ram` describe. */
    ghost var cells: seq<Cell>

    ghost predicate Linked()
      reads this, ram
    {
      Chained(g, cells, ram[..])
    }

    /** What clients own are rooms of used blocks. */
    ghost predicate Owned()
      reads this
    {
      owned <= Addresses(Live(g, cells))
    }

    /** The addresses of used blocks that no client owns: those an allocation is about to return. */
    ghost function InFlight(): set<int>
      reads this
    {
      Addresses(Live(g, cells)) - owned
    }

    ghost predicate Valid()
      reads this, ram
    {
      && Linked()
      && Aligned(g, cells)
      && Coalesced(cells)
      && NoFreeBelow(g, cells, lfree)
      && Owned()
    }

    /** `lfree` is exactly the lowest free block. */
    ghost predicate Tight()
      reads this
    {
      LowestFree(g, cells, lfree)
    }

    /** The regions clients hold. */
    ghost function Held(): set<(int, int)>
      reads this
    {
      Live(g, cells)
    }

    constructor (geometry: Geometry)
      requires geometry.Aligned()
      ensures g == geometry && fresh(ram)
      ensures Valid() && Tight() && InFlight() == {} && cells == Initial() && Held() == {} && owned == {}
    {
      g := geometry;
      ram := new Header[geometry.size + 1](_ => Header(0, 0, false));
      lfree := 0;
      disturbed := false;
      owned := {};
      cells := Initial();
      new;
      hide Chained, Aligned, Coalesced, NoFreeBelow, LowestFree, Live, Addresses, Initial;
      ram[0] := Header(g.size, 0, false);
      ram[g.size] := Header(g.size, g.size, true);
      Starts(g, ram[..]);
    }

    /** Write a header. It may clobber whatever header overlaps its bytes. */
    method Store(p: nat, h: Header)
      requires g.Ok() && p < ram.Length
      modifies ram
      ensures ram[p] == h
      ensures forall q :: 0 <= q < ram.Length && (q + g.header <= p || p + g.header <= q) ==>
                            ram[q] == old(ram[q])
    {
      ram[p] := h;
    }

    /** Let the block at `m` reach over the one at `n` up to `z`, and `z` point back to it unless
        that is the end of the heap. */
    method Link(m: nat, n: nat, z: nat)
      requires g.Ok() && ram.Length == g.size + 1
      requires m + g.header <= n && n + g.header <= z <= g.size
      modifies ram
      ensures Rewritten(g, old(ram[..]), ram[..], m, if z == g.size then m else z, m)
      ensures ram[m] == old(ram[m]).(next := z) && ram[n] == old(ram[n])
      ensures z != g.size ==> ram[z] == old(ram[z]).(prev := m)
    {
      Store(m, ram[m].(next := z));
      if z != g.size {
        Store(z, ram[z].(prev := m));
      }
    }

    /** Unlink the block at `n` so that the one at `m` reaches over it. */
    method Combine(m: nat, n: nat, ghost i: nat)
      requires Linked()
      requires i + 1 < |cells| && cells[i] == Cell(m, false) && cells[i + 1] == Cell(n, false)
      modifies this`lfree, this`cells, ram
      ensures Linked()
      ensures cells == Fuse(old(cells), i)
      ensures lfree == if old(lfree) == n then m else old(lfree)
      ensures !ram[n].used
    {
      hide Chained, Tiled;
      ghost var r := ram[..];
      ChainAt(g, cells, r, i);
      ChainAt(g, cells, r, i + 1);
      if lfree == n {
        lfree := m;
      }
      Link(m, n, ram[n].next);
      FuseChained(g, cells, r, ram[..], i);
      cells := Fuse(cells, i);
    }

    /** Combining two free blocks never moves `lfree`, because no free block lies below it. */
    method Merge(m: nat, n: nat, ghost i: nat)
      requires Linked() && NoFreeBelow(g, cells, lfree)
      requires i + 1 < |cells| && cells[i] == Cell(m, false) && cells[i + 1] == Cell(n, false)
      modifies this`lfree, this`cells, ram
      ensures Linked() && NoFreeBelow(g, cells, lfree)
      ensures cells == Fuse(old(cells), i) && lfree == old(lfree) && (old(Tight()) ==> Tight())
      ensures Held() == old(Held())
      ensures !ram[n].used
    {
      hide Chained, Tiled, Live, Fuse, LowestFree;
      ChainAt(g, cells, ram[..], i);
      FuseLive(g, cells, i);
      FuseLowest(g, cells, i, lfree);
      Combine(m, n, i);
    }

    /** The first half of `plug_holes`. */
    method Forward(mem: nat, ghost i: nat)
      requires Linked() && NoFreeBelow(g, cells, lfree)
      requires i < |cells| && cells[i] == Cell(mem, false)
      modifies this`lfree, this`cells, ram
      ensures Linked() && NoFreeBelow(g, cells, lfree)
      ensures cells == PlugForward(old(cells), i) && lfree == old(lfree) && (old(Tight()) ==> Tight())
      ensures Held() == old(Held())
    {
      hide Chained, Tiled, Live, LowestFree, NoFreeBelow;
      ChainAt(g, cells, ram[..], i);
      var nmem := ram[mem].next;
      if i + 1 < |cells| {
        ChainAt(g, cells, ram[..], i + 1);
      }
      if mem != nmem && !ram[nmem].used && nmem != g.size {
        Merge(mem, nmem, i);
      }
    }

    /** The second half of `plug_holes`. */
    method Backward(mem: nat, ghost i: nat)
      requires Linked() && NoFreeBelow(g, cells, lfree)
      requires i < |cells| && cells[i] == Cell(mem, false)
      modifies this`lfree, this`cells, ram
      ensures Linked() && NoFreeBelow(g, cells, lfree)
      ensures cells == PlugBackward(old(cells), i) && lfree == old(lfree) && (old(Tight()) ==> Tight())
      ensures Held() == old(Held())
      ensures !ram[mem].used
    {
      hide Chained, Tiled, Live, LowestFree, NoFreeBelow;
      ChainAt(g, cells, ram[..], i);
      var pmem := ram[mem].prev;
      if 0 < i {
        ChainAt(g, cells, ram[..], i - 1);
      }
      if pmem != mem && !ram[pmem].used {
        Merge(pmem, mem, i - 1);
      }
    }

    /** Merge the free block at `mem` with the free blocks next to it. Under the invariant its two
        updates of `lfree` are never needed. */
    method PlugHoles(mem: nat, ghost i: nat)
      requires Linked() && NoFreeBelow(g, cells, lfree)
      requires i < |cells| && cells[i] == Cell(mem, false)
      modifies this`lfree, this`cells, ram
      ensures Linked() && NoFreeBelow(g, cells, lfree)
      ensures cells == Plug(old(cells), i) && lfree == old(lfree) && (old(Tight()) ==> Tight())
      ensures Held() == old(Held())
      ensures !ram[mem].used
    {
      hide Chained, Tiled, Live, LowestFree, NoFreeBelow, PlugForward, PlugBackward;
      Forward(mem, i);
      assert cells[..i + 1][i] == old(cells)[..i + 1][i];
      Backward(mem, i);
    }

    /** `mem_link_valid`: the neighbours named by the header at `mem` point back to it. */
    predicate LinkValid(mem: nat)
      requires ram.Length == g.size + 1 && mem < ram.Length
      reads ram
    {
      && ram[mem].next <= g.size && ram[mem].prev <= g.size
      && (ram[mem].prev == mem || ram[ram[mem].prev].next == mem)
      && (ram[mem].next == g.size || ram[ram[mem].next].prev == mem)
    }

    /** No guard of `mem_free` rejects the pointer. */
    predicate Accepted(rmem: Pointer)
      requires g.Ok() && ram.Length == g.size + 1
      reads ram
    {
      && rmem.Addr?
      && rmem.off % g.align == 0
      && g.header <= rmem.off && rmem.off + g.min <= g.size
      && ram[rmem.off - g.header].used
      && LinkValid(rmem.off - g.header)
    }

    /** What a client owns is the room of a used block. */
    lemma OwnedBlock(a: int) returns (i: nat)
      requires Owned() && a in owned
      ensures i < |cells| && cells[i] == Cell(a - g.header, true)
    {
      var x :| x in Live(g, cells) && x.0 == a;
      i := LiveBlock(g, cells, x);
    }

    lemma BlockLinkValid(i: nat)
      requires Linked() && i < |cells|
      ensures LinkValid(cells[i].start)
    {
      hide Chained, Tiled;
      ChainAt(g, cells, ram[..], i);
      if 0 < i {
        ChainAt(g, cells, ram[..], i - 1);
      }
      if i + 1 < |cells| {
        ChainAt(g, cells, ram[..], i + 1);
      }
    }

    /** The guards of `mem_free` never reject a pointer that a client owns. */
    lemma OwnedIsAccepted(a: int)
      requires Valid() && a in owned
      ensures Accepted(Addr(a))
    {
      var i := OwnedBlock(a);
      BlockLinkValid(i);
      ChainAt(g, cells, ram[..], i);
      SumOfMultiples(cells[i].start, g.header, g.align);
    }

    /** Clear the used mark of block `i` and lower `lfree` to it. */
    method Clear(mem: nat, ghost i: nat)
      requires Linked() && NoFreeBelow(g, cells, lfree)
      requires i < |cells| && cells[i] == Cell(mem, true)
      modifies this`lfree, this`cells, ram
      ensures Linked() && NoFreeBelow(g, cells, lfree)
      ensures cells == old(cells)[i := Cell(mem, false)]
      ensures Held() == old(Held()) - {Region(g, old(cells), i)}
      ensures if old(Tight()) then Tight() else Tight() || lfree == old(lfree)
    {
      hide Chained, Tiled, Live, LowestFree, NoFreeBelow;
      ghost var r, before := ram[..], cells;
      ChainAt(g, cells, r, i);
      Store(mem, ram[mem].(used := false));
      MarkChained(g, cells, r, ram[..], i, false);
      ClearLowest(g, cells, i, lfree);
      cells := cells[i := Cell(mem, false)];
      ChainAt(g, cells, ram[..], i);
      MarkLive(g, cells, i);
      assert cells[i := Cell(mem, true)] == before;
      assert Region(g, before, i) == Region(g, cells, i);
      if mem < lfree {
        lfree := mem;
      }
    }

    /** Put block `i` back: `mem_free` after its guards. */
    method Release(mem: nat, ghost i: nat)
      requires Linked() && NoFreeBelow(g, cells, lfree)
      requires i < |cells| && cells[i] == Cell(mem, true)
      modifies this`lfree, this`cells, ram
      ensures Linked() && NoFreeBelow(g, cells, lfree)
      ensures cells == FreeBlock(old(cells), i)
      ensures Held() == old(Held()) - {Region(g, old(cells), i)}
      ensures !ram[mem].used
      ensures if old(Tight()) then Tight() else Tight() || lfree == old(lfree)
    {
      hide Chained, Tiled, Live, LowestFree, NoFreeBelow, Plug, Region;
      Clear(mem, i);
      PlugHoles(mem, i);
    }

    /** `mem_free` once the pointer has passed the guards. */
    method FreeOwned(off: int)
      requires Valid() && off in owned
      modifies this, ram
      ensures Valid() && owned == old(owned) - {off} && InFlight() == old(InFlight()) && disturbed
      ensures exists i: nat :: old(Block(i, off)) && Freed(old(cells), i)
      ensures off >= g.header && off - g.header < ram.Length && !ram[off - g.header].used
      ensures if old(Tight()) then Tight() else Tight() || lfree == old(lfree)
    {
      hide Chained, Tiled, Live, Coalesced, NoFreeBelow, LowestFree, FreeBlock;
      ghost var i := OwnedBlock(off);
      assert Block(i, off);
      ChainAt(g, cells, ram[..], i);
      FreeKeeps(g, cells, i);
      RemoveAddress(g, cells, i);
      Release(off - g.header, i);
      disturbed := true;
      owned := owned - {off};
      assert Freed(old(cells), i);
    }

    lemma Sizes()
      requires Valid()
      ensures g.Ok() && ram.Length == g.size + 1
    {
    }

    lemma AcceptedIsAddr(rmem: Pointer)
      requires g.Ok() && ram.Length == g.size + 1
      ensures Accepted(rmem) ==> rmem.Addr?
    {
    }

    lemma Unmarked(rmem: Pointer)
      requires g.Ok() && ram.Length == g.size + 1 && rmem.Addr? && g.header <= rmem.off
      requires rmem.off - g.header < ram.Length && !ram[rmem.off - g.header].used
      ensures !Accepted(rmem)
    {
    }

    /** What freeing block `i` of `before` does. */
    ghost predicate Freed(before: seq<Cell>, i: nat)
      requires i < |before|
      reads this
    {
      cells == FreeBlock(before, i) && Held() == Live(g, before) - {Region(g, before, i)}
    }

    /** The block that a client pointer belongs to. */
    ghost predicate Block(i: nat, off: int)
      reads this
    {
      i < |cells| && cells[i].used && cells[i].start == off - g.header
    }

    /** `mem_free`. A caller may pass anything that a guard rejects, or else must own it. Right
        after the call the pointer is rejected. */
    method Free(rmem: Pointer)
      requires Valid()
      requires Accepted(rmem) ==> rmem.off in owned
      modifies this, ram
      ensures Valid() && InFlight() == old(InFlight())
      ensures rmem.Null? || rmem.off !in old(owned) ==>
                && cells == old(cells) && lfree == old(lfree) && owned == old(owned)
                && disturbed == old(disturbed) && ram[..] == old(ram[..])
      ensures rmem.Addr? && rmem.off in old(owned) ==>
                && owned == old(owned) - {rmem.off} && disturbed
                && exists i: nat :: old(Block(i, rmem.off)) && Freed(old(cells), i)
      ensures !Accepted(rmem)
      ensures if old(Tight()) then Tight() else Tight() || lfree == old(lfree)
    {
      hide Chained, Tiled, Live, Coalesced, NoFreeBelow, LowestFree, Accepted, Aligned, Addresses, Freed, Geometry.Ok;
      Sizes();
      AcceptedIsAddr(rmem);
      if rmem.Addr? && rmem.off in owned {
        OwnedIsAccepted(rmem.off);
      }
      if Accepted(rmem) {
        FreeOwned(rmem.off);
        Unmarked(rmem);
      }
    }

    /** Write a free header at `cut`, then the header `h` at `mem`, and let the block at `z` point
        back to `cut` unless that is the end of the heap. */
    method Relink(mem: nat, h: Header, cut: nat, z: nat)
      requires g.Ok() && ram.Length == g.size + 1
      requires mem + g.header <= cut && cut + g.header <= z <= g.size
      modifies ram
      ensures Rewritten(g, old(ram[..]), ram[..], mem, cut, if z == g.size then mem else z)
      ensures ram[mem] == h && ram[cut] == Header(z, mem, false)
      ensures z != g.size ==> ram[z] == old(ram[z]).(prev := cut)
    {
      Store(cut, Header(z, mem, false));
      Store(mem, h);
      if z != g.size {
        Store(z, ram[z].(prev := cut));
      }
    }

    /** Cut the used block at `mem` and link what follows `size` bytes of room as a free block. */
    method Split(mem: nat, size: nat, ghost i: nat)
      requires Linked() && i < |cells| && cells[i].start == mem
      requires g.min <= size && size + g.header + g.min <= Room(g, cells, i)
      modifies this`cells, ram
      ensures Linked() && cells == SplitBlock(g, old(cells), i, size)
    {
      hide Chained, Tiled;
      ghost var r := ram[..];
      ChainAt(g, cells, r, i);
      var ptr2 := mem + g.header + size;
      Relink(mem, Header(ptr2, ram[mem].prev, true), ptr2, ram[mem].next);
      SplitChained(g, cells, r, ram[..], i, size);
      cells := SplitBlock(g, cells, i, size);
    }

    /** Move the start of the free block behind `mem` down to the end of `size` bytes of room. */
    method Move(mem: nat, size: nat, ghost i: nat)
      requires Linked() && i + 1 < |cells| && cells[i] == Cell(mem, true) && !cells[i + 1].used
      requires g.min <= size <= Room(g, cells, i)
      modifies this`cells, this`lfree, ram
      ensures Linked() && cells == old(cells)[i + 1 := Cell(mem + g.header + size, false)]
      ensures lfree == if old(lfree) == old(cells)[i + 1].start then mem + g.header + size else old(lfree)
    {
      hide Chained, Tiled, Rewritten;
      ghost var r := ram[..];
      ChainAt(g, cells, r, i);
      ChainAt(g, cells, r, i + 1);
      var mem2 := ram[mem].next;
      var next := ram[mem2].next;
      var ptr2 := mem + g.header + size;
      if lfree == mem2 {
        lfree := ptr2;
      }
      Relink(mem, ram[mem].(next := ptr2), ptr2, next);
      MoveChained(g, cells, r, ram[..], i, size);
      cells := cells[i + 1 := Cell(ptr2, false)];
    }

    /** What trimming block `i` of `before` to `size` bytes does. */
    ghost predicate Trimmed(before: seq<Cell>, low: nat, wasDisturbed: bool, i: nat, size: nat, ok: bool)
      requires i < |before|
      reads this
    {
      if size >= Room(g, before, i) then
        && ok == (size == Room(g, before, i))
        && cells == before && lfree == low && disturbed == wasDisturbed
      else
        && ok && disturbed
        && cells == TrimBlock(g, before, i, size) && lfree == TrimLow(g, before, i, size, low)
        && i < |cells| && cells[i] == before[i] && size <= Room(g, cells, i) <= Room(g, before, i)
        && Room(g, cells, i) == (if Separable(g, before, i, size) then size else Room(g, before, i))
        && Held() == Live(g, before) - {Region(g, before, i)} + {Region(g, cells, i)}
    }

    /** `mem_trim` once the requested size and the pointer have passed the guards. */
    method TrimOwned(off: int, newsize: nat) returns (ok: bool)
      requires Valid() && off in owned && newsize % g.align == 0 && g.min <= newsize
      modifies this, ram
      ensures Valid() && owned == old(owned) && InFlight() == old(InFlight())
      ensures exists i: nat :: old(Block(i, off)) && Trimmed(old(cells), old(lfree), old(disturbed), i, newsize, ok)
      ensures if old(Tight()) then Tight() else Tight() || lfree == old(lfree)
    {
      hide Chained, Tiled, Live, Coalesced, NoFreeBelow, LowestFree, TrimBlock, TrimLow;
      ghost var i := OwnedBlock(off);
      assert Block(i, off);
      ChainAt(g, cells, ram[..], i);
      var mem := off - g.header;
      var size := ram[mem].next - mem - g.header;
      if newsize > size {
        return false;
      }
      TrimLive(g, cells, i, newsize);
      TrimShape(g, cells, i, newsize);
      TrimLowest(g, cells, i, newsize, lfree);
      UsedIsLive(g, cells, i);
      ReplaceAddresses(Live(g, cells), Region(g, cells, i), Region(g, TrimBlock(g, cells, i, newsize), i));
      if newsize == size {
        return true;
      }
      Cut(mem, size, newsize, i);
      disturbed := true;
      return true;
    }

    lemma OwnedInside(rmem: Pointer)
      requires Valid()
      ensures rmem.Addr? && rmem.off in owned ==> 0 <= rmem.off < g.size
    {
      if rmem.Addr? && rmem.off in owned {
        var i := OwnedBlock(rmem.off);
      }
    }

    /** `mem_trim`. A pointer into the heap must be owned by the caller, unless the size is refused first. */
    method Trim(rmem: Pointer, n: nat) returns (r: Pointer)
      requires Valid() && n < g.width
      requires Needed(g, n) <= g.size && rmem.Addr? && 0 <= rmem.off < g.size ==> rmem.off in owned
      modifies this, ram
      ensures Valid() && owned == old(owned) && InFlight() == old(InFlight())
      ensures Needed(g, n) > g.size ==> r == Null
      ensures Needed(g, n) <= g.size && (rmem.Null? || rmem.off !in owned) ==> r == rmem
      ensures Needed(g, n) > g.size || rmem.Null? || rmem.off !in owned ==>
                cells == old(cells) && lfree == old(lfree) && disturbed == old(disturbed)
      ensures Needed(g, n) <= g.size && rmem.Addr? && rmem.off in owned ==>
                && (r == rmem || r == Null)
                && exists i: nat :: old(Block(i, rmem.off)) && Trimmed(old(cells), old(lfree), old(disturbed), i, Needed(g, n), r != Null)
      ensures if old(Tight()) then Tight() else Tight() || lfree == old(lfree)
    {
      TruncationIsCaught(g, n);
      var newsize := TruncatedSize(g, n);
      if newsize > g.size || newsize < n {
        return Null;
      }
      if rmem.Null? || rmem.off < 0 || rmem.off >= g.size {
        OwnedInside(rmem);
        return rmem;
      }
      var ok := TrimOwned(rmem.off, newsize);
      return if ok then rmem else Null;
    }

    /** The protected part of `mem_trim`. */
    method Cut(mem: nat, size: nat, newsize: nat, ghost i: nat)
      requires Linked() && NoFreeBelow(g, cells, lfree)
      requires i < |cells| && cells[i] == Cell(mem, true) && size == Room(g, cells, i)
      requires g.min <= newsize < size
      modifies this`lfree, this`cells, ram
      ensures Linked()
      ensures cells == TrimBlock(g, old(cells), i, newsize)
      ensures lfree == TrimLow(g, old(cells), i, newsize, old(lfree))
    {
      hide Chained, Tiled;
      ChainAt(g, cells, ram[..], i);
      if i + 1 < |cells| {
        ChainAt(g, cells, ram[..], i + 1);
      }
      if !ram[ram[mem].next].used {
        Move(mem, newsize, i);
      } else if newsize + g.header + g.min <= size {
        if mem + g.header + newsize < lfree {
          lfree := mem + g.header + newsize;
        }
        Split(mem, newsize, i);
      }
    }
  }
}
