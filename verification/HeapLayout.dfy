/** The block list of the first-fit heap, seen as a value.

    `mem.c` keeps the heap as a chain of headers threaded through `ram`. Here the chain is the
    sequence of its blocks in address order. `HeapStore` proves that the header-writing code
    computes the functions of this module. */
module HeapLayout {

  /** The constants of the allocator: MEM_ALIGNMENT, SIZEOF_STRUCT_MEM, MIN_SIZE_ALIGNED,
      MEM_SIZE_ALIGNED and the number of values of `mem_size_t`. */
  datatype Geometry = Geometry(align: nat, header: nat, min: nat, size: nat, width: nat) {
    predicate Ok() {
      0 < align && 0 < header && 0 < min && header + min <= size < width
    }

    predicate Aligned() {
      && Ok()
      && header % align == 0 && min % align == 0 && size % align == 0 && width % align == 0
    }
  }

  /** One block: the offset of its header, and whether it is handed out. It reaches up to the
      next block, or to the end of the heap. */
  datatype Cell = Cell(start: nat, used: bool)

  /** Where the block with index `i` starts; the end marker stands behind the last block. */
  function Start(g: Geometry, cs: seq<Cell>, i: nat): nat
    requires i <= |cs|
  {
    if i < |cs| then cs[i].start else g.size
  }

  /** The bytes a client may use in block `i`. */
  function Room(g: Geometry, cs: seq<Cell>, i: nat): int
    requires i < |cs|
  {
    Start(g, cs, i + 1) - cs[i].start - g.header
  }

  /** The blocks tile [0, size): they start at 0, are in order, and each one has a header and at
      least `min` bytes of room. */
  ghost predicate Tiled(g: Geometry, cs: seq<Cell>) {
    && g.Ok()
    && 0 < |cs| && cs[0].start == 0
    && (forall i, j :: 0 <= i < j < |cs| ==> cs[i].start + g.header + g.min <= cs[j].start)
    && (forall i :: 0 <= i < |cs| ==> cs[i].start + g.header + g.min <= g.size)
  }

  /** Every block starts at a multiple of the alignment. */
  ghost predicate Aligned(g: Geometry, cs: seq<Cell>) {
    && g.Aligned()
    && forall i :: 0 <= i < |cs| ==> cs[i].start % g.align == 0
  }

  /** No free block is followed by a free block. */
  ghost predicate Coalesced(cs: seq<Cell>) {
    forall i :: 0 <= i < |cs| - 1 ==> cs[i].used || cs[i + 1].used
  }

  /** `lf` is the start of a block or the end of the heap, and no free block lies below it. */
  ghost predicate NoFreeBelow(g: Geometry, cs: seq<Cell>, lf: nat) {
    && (lf == g.size || exists i :: 0 <= i < |cs| && cs[i].start == lf)
    && forall i :: 0 <= i < |cs| && cs[i].start < lf ==> cs[i].used
  }

  /** `lf` is the start of the lowest free block, or the end of the heap when there is none. */
  ghost predicate LowestFree(g: Geometry, cs: seq<Cell>, lf: nat) {
    && NoFreeBelow(g, cs, lf)
    && forall i :: 0 <= i < |cs| && cs[i].start == lf ==> !cs[i].used
  }

  ghost function Region(g: Geometry, cs: seq<Cell>, i: nat): (int, int)
    requires i < |cs|
  {
    (cs[i].start + g.header, Room(g, cs, i))
  }

  /** What clients hold: for every used block the address of its room and the room's length. */
  ghost function Live(g: Geometry, cs: seq<Cell>): set<(int, int)> {
    set i {:trigger Region(g, cs, i)} | 0 <= i < |cs| && cs[i].used :: Region(g, cs, i)
  }

  ghost function Addresses(live: set<(int, int)>): set<int> {
    set x | x in live :: x.0
  }

  lemma ReplaceAddresses(live: set<(int, int)>, x: (int, int), y: (int, int))
    requires x in live && x.0 == y.0
    ensures Addresses(live - {x} + {y}) == Addresses(live)
  {
    var live' := live - {x} + {y};
    forall z | z in live ensures z.0 in Addresses(live') {
      assert (if z == x then y else z) in live';
    }
    forall z | z in live' ensures z.0 in Addresses(live) {
      assert (if z == y then x else z) in live;
    }
  }

  lemma LiveBlock(g: Geometry, cs: seq<Cell>, x: (int, int)) returns (i: nat)
    requires x in Live(g, cs)
    ensures i < |cs| && cs[i].used && Region(g, cs, i) == x
  {
    i :| 0 <= i < |cs| && cs[i].used && Region(g, cs, i) == x;
  }

  /** The heap before the first call. */
  function Initial(): seq<Cell> {
    [Cell(0, false)]
  }

  // ---------------------------------------------------------------- block sizes

  function RoundUp(g: Geometry, n: nat): nat
    requires g.Ok()
  {
    (n + g.align - 1) / g.align * g.align
  }

  /** The size of the room reserved for a request, in unbounded arithmetic. */
  function Needed(g: Geometry, n: nat): nat
    requires g.Ok()
  {
    if RoundUp(g, n) < g.min then g.min else RoundUp(g, n)
  }

  /** The size the code computes: the rounding is truncated to `mem_size_t`. */
  function TruncatedSize(g: Geometry, n: nat): nat
    requires g.Ok()
  {
    var s := RoundUp(g, n) % g.width;
    if s < g.min then g.min else s
  }

  lemma Scaled(d: int, a: int)
    requires 0 < a
    ensures 0 < d ==> a <= d * a
    ensures d <= 0 ==> d * a <= 0
    ensures d < 0 ==> d * a <= 0 - a
  {
  }

  /** Division with remainder is unique. */
  lemma Quotient(x: nat, a: nat, q: int, r: nat)
    requires r < a && x == q * a + r
    ensures x % a == r && x / a == q
  {
    var d := x / a - q;
    assert x == x / a * a + x % a;
    assert d * a == r - x % a;
    Scaled(d, a);
  }

  lemma RoundUpBounds(g: Geometry, n: nat)
    requires g.Aligned()
    ensures n <= RoundUp(g, n) < n + g.align
    ensures RoundUp(g, n) % g.align == 0
  {
    var q := (n + g.align - 1) / g.align;
    assert n + g.align - 1 == q * g.align + (n + g.align - 1) % g.align;
    Quotient(q * g.align, g.align, q, 0);
  }

  /** Two different multiples of `a` are at least `a` apart. */
  lemma MultiplesApart(x: nat, y: nat, a: nat)
    requires 0 < a && x % a == 0 && y % a == 0 && x < y
    ensures x + a <= y
  {
    var d := y / a - x / a;
    assert x == x / a * a && y == y / a * a;
    assert d * a == y - x;
    Scaled(d, a);
  }

  lemma SumOfMultiples(x: nat, y: nat, a: nat)
    requires 0 < a && x % a == 0 && y % a == 0
    ensures (x + y) % a == 0
  {
    assert x == x / a * a && y == y / a * a;
    assert x + y == (x / a + y / a) * a;
    Quotient(x + y, a, x / a + y / a, 0);
  }

  /** The two guards `size > MEM_SIZE_ALIGNED || size < size_in` reject exactly the requests that
      are too big for the heap, also when the truncated rounding wraps; a size that passes is
      the untruncated one. */
  lemma TruncationIsCaught(g: Geometry, n: nat)
    requires g.Aligned() && n < g.width
    ensures (TruncatedSize(g, n) > g.size || TruncatedSize(g, n) < n) <==> Needed(g, n) > g.size
    ensures Needed(g, n) <= g.size ==> TruncatedSize(g, n) == Needed(g, n)
    ensures n <= Needed(g, n) && g.min <= Needed(g, n) && Needed(g, n) % g.align == 0
    ensures Needed(g, n) == g.min || Needed(g, n) < n + g.align
  {
    RoundUpBounds(g, n);
    var s := RoundUp(g, n);
    if g.width <= s {
      if g.width < s {
        MultiplesApart(g.width, s, g.align);
      }
      Quotient(s, g.width, 1, 0);
      MultiplesApart(g.min, g.width, g.align);
    } else {
      Quotient(s, g.width, 0, s);
    }
  }

  // ---------------------------------------------------------------- the operations on blocks

  /** Block `i + 1` becomes part of block `i`. */
  function Fuse(cs: seq<Cell>, i: nat): seq<Cell>
    requires i + 1 < |cs|
  {
    cs[..i + 1] + cs[i + 2..]
  }

  function PlugForward(cs: seq<Cell>, i: nat): (ds: seq<Cell>)
    requires i < |cs|
    ensures i < |ds| && ds[..i + 1] == cs[..i + 1]
  {
    if i + 1 < |cs| && !cs[i + 1].used then Fuse(cs, i) else cs
  }

  function PlugBackward(cs: seq<Cell>, i: nat): seq<Cell>
    requires i < |cs|
  {
    if 0 < i && !cs[i - 1].used then Fuse(cs, i - 1) else cs
  }

  /** Merge the free block `i` with its free neighbours. */
  function Plug(cs: seq<Cell>, i: nat): seq<Cell>
    requires i < |cs|
  {
    PlugBackward(PlugForward(cs, i), i)
  }

  function FreeBlock(cs: seq<Cell>, i: nat): seq<Cell>
    requires i < |cs|
  {
    Plug(cs[i := Cell(cs[i].start, false)], i)
  }

  function SplitBlock(g: Geometry, cs: seq<Cell>, i: nat, size: nat): (ds: seq<Cell>)
    requires i < |cs|
    ensures |ds| == |cs| + 1
    ensures ds[i] == Cell(cs[i].start, true) && ds[i + 1] == Cell(cs[i].start + g.header + size, false)
    ensures forall k :: 0 <= k < i ==> ds[k] == cs[k]
    ensures forall m :: i + 2 <= m < |ds| ==> ds[m] == cs[m - 1]
  {
    cs[..i] + [Cell(cs[i].start, true), Cell(cs[i].start + g.header + size, false)] + cs[i + 1..]
  }

  /** Hand out block `i` with `size` bytes of room, splitting off what is large enough to be a
      block of its own. */
  function TakeBlock(g: Geometry, cs: seq<Cell>, i: nat, size: nat): seq<Cell>
    requires i < |cs|
  {
    if Room(g, cs, i) >= size + g.header + g.min then SplitBlock(g, cs, i, size)
    else cs[i := Cell(cs[i].start, true)]
  }

  /** Shrink the room of block `i` to `size` bytes, if what is cut off can join the next block or
      be a block of its own. */
  function TrimBlock(g: Geometry, cs: seq<Cell>, i: nat, size: nat): seq<Cell>
    requires i < |cs|
  {
    if size == Room(g, cs, i) then cs
    else if i + 1 < |cs| && !cs[i + 1].used then cs[i + 1 := Cell(cs[i].start + g.header + size, false)]
    else if size + g.header + g.min <= Room(g, cs, i) then SplitBlock(g, cs, i, size)
    else cs
  }

  // ---------------------------------------------------------------- what the operations keep

  lemma FuseTiled(g: Geometry, cs: seq<Cell>, i: nat)
    requires Tiled(g, cs) && i + 1 < |cs|
    ensures Tiled(g, Fuse(cs, i))
  {
  }

  /** The blocks other than `i` and `i + 1` keep their regions when these two are fused. */
  lemma FuseRegion(g: Geometry, cs: seq<Cell>, ds: seq<Cell>, i: nat, k: nat)
    requires i + 1 < |cs| && ds == Fuse(cs, i) && k < |cs| && k != i && k != i + 1
    ensures var m := if k <= i then k else k - 1;
            ds[m] == cs[k] && Region(g, ds, m) == Region(g, cs, k)
  {
  }

  /** Fusing two free blocks changes nothing for clients. */
  lemma FuseLive(g: Geometry, cs: seq<Cell>, i: nat)
    requires i + 1 < |cs| && !cs[i].used && !cs[i + 1].used
    ensures Live(g, Fuse(cs, i)) == Live(g, cs)
  {
    var ds := Fuse(cs, i);
    assert |ds| == |cs| - 1 && ds[i] == cs[i];
    hide Region, Fuse;
    forall x | x in Live(g, cs) ensures x in Live(g, ds) {
      var k := LiveBlock(g, cs, x);
      FuseRegion(g, cs, ds, i, k);
    }
    forall x | x in Live(g, ds) ensures x in Live(g, cs) {
      var m := LiveBlock(g, ds, x);
      FuseRegion(g, cs, ds, i, if m <= i then m else m + 1);
    }
  }

  /** Marking the free block `i` as used adds exactly its region. */
  lemma MarkLive(g: Geometry, cs: seq<Cell>, i: nat)
    requires Tiled(g, cs) && i < |cs| && !cs[i].used
    ensures Region(g, cs, i) !in Live(g, cs)
    ensures Live(g, cs[i := Cell(cs[i].start, true)]) == Live(g, cs) + {Region(g, cs, i)}
  {
    var ds := cs[i := Cell(cs[i].start, true)];
    assert forall k :: 0 <= k < |cs| ==> Region(g, ds, k) == Region(g, cs, k);
    forall k | 0 <= k < |cs| && cs[k].used
      ensures Region(g, cs, k) in Live(g, ds) && Region(g, cs, k) != Region(g, cs, i)
    {
      assert ds[k].used;
      assert cs[k].start != cs[i].start;
    }
    forall m | 0 <= m < |ds| && ds[m].used ensures Region(g, ds, m) in Live(g, cs) + {Region(g, cs, i)} {
      assert m != i ==> cs[m].used;
    }
    assert ds[i].used;
  }

  lemma SplitApart(g: Geometry, cs: seq<Cell>, i: nat, size: nat, a: nat, b: nat)
    requires Tiled(g, cs) && i < |cs| && a < b <= |cs|
    requires g.min <= size && size + g.header + g.min <= Room(g, cs, i)
    ensures var ds := SplitBlock(g, cs, i, size);
      |ds| == |cs| + 1 && ds[a].start + g.header + g.min <= ds[b].start
  {
    var a' := if a <= i then a else a - 1;
    var b' := if b <= i then b else b - 1;
    assert i + 1 < |cs| && i < b' ==> cs[i + 1].start <= cs[b'].start;
  }

  lemma SplitTiled(g: Geometry, cs: seq<Cell>, i: nat, size: nat)
    requires Tiled(g, cs) && i < |cs|
    requires g.min <= size && size + g.header + g.min <= Room(g, cs, i)
    ensures Tiled(g, SplitBlock(g, cs, i, size))
  {
    var ds := SplitBlock(g, cs, i, size);
    forall a, b | 0 <= a < b < |ds| ensures ds[a].start + g.header + g.min <= ds[b].start {
      SplitApart(g, cs, i, size, a, b);
    }
  }

  lemma DistinctRegions(g: Geometry, cs: seq<Cell>, i: nat)
    requires Tiled(g, cs) && i < |cs|
    ensures forall k :: 0 <= k < |cs| && k != i ==> Region(g, cs, k) != Region(g, cs, i)
  {
    forall k | 0 <= k < |cs| && k != i ensures Region(g, cs, k) != Region(g, cs, i) {
      assert cs[k].start != cs[i].start;
    }
  }

  lemma SplitRegions(g: Geometry, cs: seq<Cell>, ds: seq<Cell>, i: nat, size: nat)
    requires i < |cs| && ds == SplitBlock(g, cs, i, size)
    ensures Region(g, ds, i) == (cs[i].start + g.header, size)
    ensures forall k :: 0 <= k < i ==> ds[k].used == cs[k].used && Region(g, ds, k) == Region(g, cs, k)
    ensures forall k :: i < k < |cs| ==> ds[k + 1].used == cs[k].used && Region(g, ds, k + 1) == Region(g, cs, k)
  {
    forall k | i < k < |cs| ensures ds[k + 1] == cs[k] && Region(g, ds, k + 1) == Region(g, cs, k) {
      assert k < |cs| - 1 ==> ds[k + 2] == cs[k + 1];
    }
  }

  /** When `ds` has one more unused block behind `i` and otherwise the regions of `cs`, only the
      region of `i` can differ. */
  lemma InsertLive(g: Geometry, cs: seq<Cell>, ds: seq<Cell>, i: nat)
    requires i < |cs| && |ds| == |cs| + 1 && ds[i].used && !ds[i + 1].used
    requires forall k :: 0 <= k < |cs| && k != i ==> Region(g, cs, k) != Region(g, cs, i)
    requires forall k :: 0 <= k < i ==> ds[k].used == cs[k].used && Region(g, ds, k) == Region(g, cs, k)
    requires forall k :: i < k < |cs| ==> ds[k + 1].used == cs[k].used && Region(g, ds, k + 1) == Region(g, cs, k)
    ensures Live(g, ds) == Live(g, cs) - {Region(g, cs, i)} + {Region(g, ds, i)}
  {
    forall m | 0 <= m < |ds| && ds[m].used && m != i
      ensures Region(g, ds, m) in Live(g, cs) - {Region(g, cs, i)}
    {
      if i < m {
        var k := m - 1;
        assert k != i ==> Region(g, ds, k + 1) == Region(g, cs, k);
      }
    }
  }

  /** Splitting block `i` cuts its region down to `size` bytes and touches no other. */
  lemma SplitLive(g: Geometry, cs: seq<Cell>, i: nat, size: nat)
    requires Tiled(g, cs) && i < |cs|
    ensures Live(g, SplitBlock(g, cs, i, size)) ==
            Live(g, cs) - {Region(g, cs, i)} + {(cs[i].start + g.header, size)}
  {
    var ds := SplitBlock(g, cs, i, size);
    SplitRegions(g, cs, ds, i, size);
    DistinctRegions(g, cs, i);
    InsertLive(g, cs, ds, i);
  }

  /** Moving the start of the free block behind `i` cuts the region of `i` down likewise. */
  lemma MoveLive(g: Geometry, cs: seq<Cell>, i: nat, size: nat)
    requires Tiled(g, cs) && i + 1 < |cs| && cs[i].used && !cs[i + 1].used
    ensures Live(g, cs[i + 1 := Cell(cs[i].start + g.header + size, false)]) ==
            Live(g, cs) - {Region(g, cs, i)} + {(cs[i].start + g.header, size)}
  {
    var ds := cs[i + 1 := Cell(cs[i].start + g.header + size, false)];
    var mine := (cs[i].start + g.header, size);
    DistinctRegions(g, cs, i);
    hide Tiled;
    assert Region(g, ds, i) == mine && ds[i].used;
    assert forall k :: 0 <= k < |cs| && k != i && k != i + 1 ==> Region(g, ds, k) == Region(g, cs, k);
    hide Region;
    forall x | x in Live(g, cs) - {Region(g, cs, i)} ensures x in Live(g, ds) {
      var k := LiveBlock(g, cs, x);
      assert x == Region(g, ds, k) && ds[k].used;
    }
    forall x | x in Live(g, ds) ensures x in Live(g, cs) - {Region(g, cs, i)} + {mine} {
      var k := LiveBlock(g, ds, x);
      if k != i {
        assert x == Region(g, cs, k) && cs[k].used;
      }
    }
  }

  /** The offset of a header placed behind `size` bytes of room is aligned. */
  lemma CutAligned(g: Geometry, start: nat, size: nat)
    requires g.Aligned() && start % g.align == 0 && size % g.align == 0
    ensures (start + g.header + size) % g.align == 0
  {
    SumOfMultiples(start, g.header, g.align);
    SumOfMultiples(start + g.header, size, g.align);
  }

  // ---------------------------------------------------------------- the lowest free block

  lemma FuseLowest(g: Geometry, cs: seq<Cell>, i: nat, lf: nat)
    requires Tiled(g, cs) && i + 1 < |cs| && !cs[i].used && !cs[i + 1].used && NoFreeBelow(g, cs, lf)
    ensures var lf' := if lf == cs[i + 1].start then cs[i].start else lf;
            && NoFreeBelow(g, Fuse(cs, i), lf')
            && (LowestFree(g, cs, lf) ==> LowestFree(g, Fuse(cs, i), lf'))
  {
    var ds := Fuse(cs, i);
    if lf != g.size {
      var k :| 0 <= k < |cs| && cs[k].start == lf;
      assert k != i + 1;
      assert ds[if k <= i then k else k - 1].start == lf;
    }
    assert forall m :: 0 <= m < |ds| ==> ds[m] == cs[if m <= i then m else m + 1];
  }

  /** Different used blocks have different addresses. */
  lemma RemoveAddress(g: Geometry, cs: seq<Cell>, i: nat)
    requires Tiled(g, cs) && i < |cs| && cs[i].used
    ensures Addresses(Live(g, cs) - {Region(g, cs, i)}) == Addresses(Live(g, cs)) - {cs[i].start + g.header}
  {
    forall x | x in Live(g, cs) && x != Region(g, cs, i) ensures x.0 != cs[i].start + g.header {
      var k := LiveBlock(g, cs, x);
      assert cs[k].start != cs[i].start;
    }
  }

  /** Two regions that clients hold are apart by at least a header, and lie inside the heap. */
  lemma LiveRegionsDisjoint(g: Geometry, cs: seq<Cell>, x: (int, int), y: (int, int))
    requires Tiled(g, cs) && x in Live(g, cs) && y in Live(g, cs) && x != y
    ensures x.0 + x.1 + g.header <= y.0 || y.0 + y.1 + g.header <= x.0
    ensures g.header <= x.0 && x.0 + x.1 <= g.size && g.min <= x.1
  {
    var i := LiveBlock(g, cs, x);
    var j := LiveBlock(g, cs, y);
    BlockEnd(g, cs, i, j);
    BlockEnd(g, cs, j, i);
  }

  lemma BlockEnd(g: Geometry, cs: seq<Cell>, i: nat, j: nat)
    requires Tiled(g, cs) && i < |cs| && j < |cs|
    ensures i < j ==> Start(g, cs, i + 1) <= cs[j].start
    ensures cs[i].start + g.header + g.min <= Start(g, cs, i + 1) <= g.size
  {
  }

  /** Clearing the used mark of block `i` and lowering `lf` to it. */
  lemma ClearLowest(g: Geometry, cs: seq<Cell>, i: nat, lf: nat)
    requires Tiled(g, cs) && i < |cs| && NoFreeBelow(g, cs, lf)
    ensures var ds := cs[i := Cell(cs[i].start, false)];
            var lf' := if cs[i].start < lf then cs[i].start else lf;
            && NoFreeBelow(g, ds, lf')
            && (LowestFree(g, cs, lf) ==> LowestFree(g, ds, lf'))
            && (lf' != lf ==> LowestFree(g, ds, lf'))
  {
    var ds := cs[i := Cell(cs[i].start, false)];
    assert ds[i].start == cs[i].start;
    if lf != g.size {
      var k :| 0 <= k < |cs| && cs[k].start == lf;
      assert ds[k].start == lf;
    }
  }

  /** Splitting a block and lowering `lf` to the remainder. */
  lemma SplitLowestAt(g: Geometry, cs: seq<Cell>, i: nat, size: nat, lf: nat, m: nat)
    requires Tiled(g, cs) && i < |cs| && NoFreeBelow(g, cs, lf) && m <= |cs|
    requires size + g.header + g.min <= Room(g, cs, i)
    ensures var ds := SplitBlock(g, cs, i, size);
            var cut := cs[i].start + g.header + size;
            var lf' := if cut < lf then cut else lf;
            && |ds| == |cs| + 1
            && (ds[m].start < lf' ==> ds[m].used)
            && (ds[m].start == lf' && (lf' != lf || (LowestFree(g, cs, lf) && cs[i].start != lf)) ==> !ds[m].used)
  {
    SplitOrigin(g, cs, i, size, m);
  }

  lemma SplitHasLow(g: Geometry, cs: seq<Cell>, i: nat, size: nat, lf: nat)
    requires i < |cs| && (lf == g.size || exists k :: 0 <= k < |cs| && cs[k].start == lf)
    ensures var ds := SplitBlock(g, cs, i, size);
            var cut := cs[i].start + g.header + size;
            var lf' := if cut < lf then cut else lf;
            lf' == g.size || exists k :: 0 <= k < |ds| && ds[k].start == lf'
  {
    var ds := SplitBlock(g, cs, i, size);
    if cs[i].start + g.header + size < lf {
      assert ds[i + 1].start == cs[i].start + g.header + size;
    } else if lf != g.size {
      var k :| 0 <= k < |cs| && cs[k].start == lf;
      assert ds[if k <= i then k else k + 1].start == lf;
    }
  }

  lemma SplitLowest(g: Geometry, cs: seq<Cell>, i: nat, size: nat, lf: nat)
    requires Tiled(g, cs) && i < |cs| && NoFreeBelow(g, cs, lf)
    requires size + g.header + g.min <= Room(g, cs, i)
    ensures var ds := SplitBlock(g, cs, i, size);
            var cut := cs[i].start + g.header + size;
            var lf' := if cut < lf then cut else lf;
            && NoFreeBelow(g, ds, lf')
            && (lf' != lf ==> LowestFree(g, ds, lf'))
            && (LowestFree(g, cs, lf) && cs[i].start != lf ==> LowestFree(g, ds, lf'))
  {
    var ds := SplitBlock(g, cs, i, size);
    var cut := cs[i].start + g.header + size;
    var lf' := if cut < lf then cut else lf;
    SplitHasLow(g, cs, i, size, lf);
    forall m | 0 <= m < |ds|
      ensures ds[m].start < lf' ==> ds[m].used
      ensures ds[m].start == lf' && (lf' != lf || (LowestFree(g, cs, lf) && cs[i].start != lf)) ==> !ds[m].used
    {
      SplitLowestAt(g, cs, i, size, lf, m);
    }
  }

  /** Where the blocks of a split list come from. */
  lemma SplitOrigin(g: Geometry, cs: seq<Cell>, i: nat, size: nat, m: nat)
    requires Tiled(g, cs) && i < |cs| && size + g.header + g.min <= Room(g, cs, i)
    requires m <= |cs|
    ensures var cell := SplitBlock(g, cs, i, size)[m];
            || cell == Cell(cs[i].start, true)
            || cell == Cell(cs[i].start + g.header + size, false)
            || (m < i && cell == cs[m])
            || (i + 1 < m && cell == cs[m - 1] && cs[i].start + g.header + size < cell.start)
  {
  }

  /** Moving the free block behind `i`, and `lf` with it. */
  lemma MoveLowest(g: Geometry, cs: seq<Cell>, i: nat, size: nat, lf: nat)
    requires Tiled(g, cs) && i + 1 < |cs| && cs[i].used && !cs[i + 1].used && NoFreeBelow(g, cs, lf)
    requires size <= Room(g, cs, i)
    ensures var cut := cs[i].start + g.header + size;
            var ds := cs[i + 1 := Cell(cut, false)];
            var lf' := if lf == cs[i + 1].start then cut else lf;
            && NoFreeBelow(g, ds, lf')
            && (lf' != lf || LowestFree(g, cs, lf) ==> LowestFree(g, ds, lf'))
  {
    var cut := cs[i].start + g.header + size;
    var ds := cs[i + 1 := Cell(cut, false)];
    assert ds[i + 1].start == cut;
    if lf != g.size && lf != cs[i + 1].start {
      var k :| 0 <= k < |cs| && cs[k].start == lf;
      assert ds[k].start == lf;
    }
  }

  /** Merging around the only place where free blocks may meet leaves none that meet. */
  lemma PlugCoalesced(cs: seq<Cell>, i: nat)
    requires i < |cs| && !cs[i].used
    requires forall k :: 0 <= k < |cs| - 1 && k != i && k + 1 != i ==> cs[k].used || cs[k + 1].used
    ensures Coalesced(Plug(cs, i))
  {
    var ds := PlugForward(cs, i);
    forall k | 0 <= k < |ds| - 1 && k + 1 != i ensures ds[k].used || ds[k + 1].used {
      if k < i {
        assert ds[k] == cs[k] && ds[k + 1] == cs[k + 1];
      } else {
        var d := |cs| - |ds|;
        assert ds[k + 1] == cs[k + 1 + d];
        assert k == i || (ds[k] == cs[k + d] && (cs[k + d].used || cs[k + d + 1].used));
        assert k != i || d == 0 || cs[i + 1].used || cs[i + 2].used;
      }
    }
    var es := PlugBackward(ds, i);
    forall k | 0 <= k < |es| - 1 ensures es[k].used || es[k + 1].used {
      if k + 1 < i || es == ds {
        assert es[k] == ds[k];
      } else if k + 1 == i {
        assert es[k + 1] == ds[i + 1] && es[k] == ds[i - 1];
      } else {
        assert es[k] == ds[k + 1] && es[k + 1] == ds[k + 1 + 1];
      }
    }
  }

  lemma FreeKeeps(g: Geometry, cs: seq<Cell>, i: nat)
    requires Aligned(g, cs) && Coalesced(cs) && i < |cs| && cs[i].used
    ensures Aligned(g, FreeBlock(cs, i)) && Coalesced(FreeBlock(cs, i))
  {
    PlugCoalesced(cs[i := Cell(cs[i].start, false)], i);
  }

  lemma SplitAligned(g: Geometry, cs: seq<Cell>, i: nat, size: nat)
    requires Aligned(g, cs) && i < |cs| && size % g.align == 0
    ensures Aligned(g, SplitBlock(g, cs, i, size))
  {
    CutAligned(g, cs[i].start, size);
  }

  lemma TrimShape(g: Geometry, cs: seq<Cell>, i: nat, size: nat)
    requires Aligned(g, cs) && Coalesced(cs) && i < |cs| && cs[i].used && size % g.align == 0
    ensures Aligned(g, TrimBlock(g, cs, i, size)) && Coalesced(TrimBlock(g, cs, i, size))
  {
    CutAligned(g, cs[i].start, size);
    SplitAligned(g, cs, i, size);
  }

  /** What lies behind `size` bytes of block `i` can join the next block, or is large enough to be one. */
  predicate Separable(g: Geometry, cs: seq<Cell>, i: nat, size: nat)
    requires i < |cs|
  {
    (i + 1 < |cs| && !cs[i + 1].used) || size + g.header + g.min <= Room(g, cs, i)
  }

  /** After trimming, the client keeps at least what was asked for; nobody else is touched. */
  lemma TrimLive(g: Geometry, cs: seq<Cell>, i: nat, size: nat)
    requires Tiled(g, cs) && i < |cs| && cs[i].used && g.min <= size <= Room(g, cs, i)
    ensures var ds := TrimBlock(g, cs, i, size);
            && i < |ds| && ds[i] == cs[i] && size <= Room(g, ds, i) <= Room(g, cs, i)
            && Room(g, ds, i) == (if Separable(g, cs, i, size) then size else Room(g, cs, i))
            && Live(g, ds) == Live(g, cs) - {Region(g, cs, i)} + {Region(g, ds, i)}
  {
    hide Live, Tiled;
    var ds := TrimBlock(g, cs, i, size);
    if ds == cs {
      UsedIsLive(g, cs, i);
    } else if i + 1 < |cs| && !cs[i + 1].used {
      MoveLive(g, cs, i, size);
    } else {
      SplitLive(g, cs, i, size);
    }
  }

  /** Where `mem_trim` leaves `lfree`. */
  function TrimLow(g: Geometry, cs: seq<Cell>, i: nat, size: nat, lf: nat): nat
    requires i < |cs|
  {
    var cut := cs[i].start + g.header + size;
    if size == Room(g, cs, i) then lf
    else if i + 1 < |cs| && !cs[i + 1].used then (if lf == cs[i + 1].start then cut else lf)
    else if size + g.header + g.min <= Room(g, cs, i) && cut < lf then cut
    else lf
  }

  lemma LowestIsFree(g: Geometry, cs: seq<Cell>, lf: nat, i: nat)
    requires i < |cs| && cs[i].used
    ensures LowestFree(g, cs, lf) ==> cs[i].start != lf
  {
  }

  lemma TrimLowest(g: Geometry, cs: seq<Cell>, i: nat, size: nat, lf: nat)
    requires Tiled(g, cs) && i < |cs| && cs[i].used && g.min <= size <= Room(g, cs, i)
    requires NoFreeBelow(g, cs, lf)
    ensures var ds := TrimBlock(g, cs, i, size);
            var lf' := TrimLow(g, cs, i, size, lf);
            && NoFreeBelow(g, ds, lf')
            && (lf' != lf || LowestFree(g, cs, lf) ==> LowestFree(g, ds, lf'))
  {
    hide Tiled, NoFreeBelow, LowestFree;
    LowestIsFree(g, cs, lf, i);
    if size == Room(g, cs, i) {
    } else if i + 1 < |cs| && !cs[i + 1].used {
      MoveLowest(g, cs, i, size, lf);
    } else if size + g.header + g.min <= Room(g, cs, i) {
      SplitLowest(g, cs, i, size, lf);
    }
  }

  /** Block `i` is free and has `size` bytes of room. */
  predicate Fits(g: Geometry, cs: seq<Cell>, i: nat, size: nat)
    requires i < |cs|
  {
    !cs[i].used && size <= Room(g, cs, i)
  }

  /** No block below index `n` fits. */
  ghost predicate NoneFits(g: Geometry, cs: seq<Cell>, n: nat, size: nat)
    requires n <= |cs|
  {
    forall j :: 0 <= j < n ==> !Fits(g, cs, j, size)
  }

  /** Taking a block adds its region, with at least `size` bytes, and keeps the shape of the list. */
  lemma TakeKeeps(g: Geometry, cs: seq<Cell>, i: nat, size: nat)
    requires Tiled(g, cs) && Aligned(g, cs) && Coalesced(cs) && i < |cs| && Fits(g, cs, i, size)
    requires size % g.align == 0 && g.min <= size
    ensures var ds := TakeBlock(g, cs, i, size);
            && Aligned(g, ds) && Coalesced(ds)
            && i < |ds| && ds[i] == Cell(cs[i].start, true) && size <= Room(g, ds, i) < size + g.header + g.min
            && Room(g, ds, i) == (if size + g.header + g.min <= Room(g, cs, i) then size else Room(g, cs, i))
  {
    if Room(g, cs, i) >= size + g.header + g.min {
      SplitAligned(g, cs, i, size);
    }
  }

  lemma TakeLive(g: Geometry, cs: seq<Cell>, i: nat, size: nat)
    requires Tiled(g, cs) && i < |cs| && Fits(g, cs, i, size)
    ensures var ds := TakeBlock(g, cs, i, size);
            && i < |ds| && Live(g, ds) == Live(g, cs) + {Region(g, ds, i)}
            && Region(g, ds, i).0 !in Addresses(Live(g, cs))
  {
    var ds := TakeBlock(g, cs, i, size);
    forall x | x in Live(g, cs) ensures x.0 != cs[i].start + g.header {
      var k := LiveBlock(g, cs, x);
      assert cs[k].start != cs[i].start;
    }
    if Room(g, cs, i) >= size + g.header + g.min {
      SplitLive(g, cs, i, size);
    } else {
      MarkLive(g, cs, i);
    }
  }

  /** Taking the first block from `lf` on leaves no free block below `lf`. */
  lemma TakeLowest(g: Geometry, cs: seq<Cell>, i: nat, size: nat, lf: nat)
    requires Tiled(g, cs) && i < |cs| && Fits(g, cs, i, size) && NoFreeBelow(g, cs, lf)
    ensures var ds := TakeBlock(g, cs, i, size);
            && NoFreeBelow(g, ds, lf)
            && (LowestFree(g, cs, lf) && cs[i].start != lf ==> LowestFree(g, ds, lf))
  {
    if Room(g, cs, i) >= size + g.header + g.min {
      SplitLowest(g, cs, i, size, lf);
    } else {
      var ds := TakeBlock(g, cs, i, size);
      if lf != g.size {
        var k :| 0 <= k < |cs| && cs[k].start == lf;
        assert ds[k].start == lf;
      }
    }
  }

  /** When nothing is held, the heap is one free block again. */
  lemma NothingHeld(g: Geometry, cs: seq<Cell>)
    requires Tiled(g, cs) && Coalesced(cs) && Live(g, cs) == {}
    ensures cs == Initial()
  {
    assert 1 < |cs| ==> cs[0].used || cs[0 + 1].used;
    forall i: nat | i < |cs| ensures !cs[i].used {
      if cs[i].used {
        UsedIsLive(g, cs, i);
      }
    }
  }

  lemma UsedIsLive(g: Geometry, cs: seq<Cell>, i: nat)
    requires i < |cs| && cs[i].used
    ensures Region(g, cs, i) in Live(g, cs)
  {
  }

  lemma LiveUnique(g: Geometry, cs: seq<Cell>)
    requires Tiled(g, cs)
    ensures forall x, y :: x in Live(g, cs) && y in Live(g, cs) && x.0 == y.0 ==> x == y
  {
    forall x, y | x in Live(g, cs) && y in Live(g, cs) && x.0 == y.0 ensures x == y {
      if x != y {
        LiveRegionsDisjoint(g, cs, x, y);
        LiveRegionsDisjoint(g, cs, y, x);
      }
    }
  }

  lemma SameUse(g: Geometry, cs: seq<Cell>, ds: seq<Cell>, k: nat)
    requires Tiled(g, cs) && Tiled(g, ds) && Live(g, cs) == Live(g, ds)
    requires k < |cs| && k < |ds| && cs[k].start == ds[k].start
    ensures cs[k].used ==> ds[k].used
  {
    if cs[k].used {
      UsedIsLive(g, cs, k);
      var j := LiveBlock(g, ds, Region(g, cs, k));
      assert ds[j].start == ds[k].start;
    }
  }

  /** Behind a free block comes the next block that is held. */
  lemma AfterFree(g: Geometry, cs: seq<Cell>, ds: seq<Cell>, k: nat)
    requires Tiled(g, cs) && Tiled(g, ds) && Coalesced(cs) && Coalesced(ds) && Live(g, cs) == Live(g, ds)
    requires 0 < k < |cs| && k <= |ds| && cs[k - 1] == ds[k - 1] && !cs[k - 1].used
    ensures k < |ds| && cs[k].start == ds[k].start
  {
    assert cs[k - 1].used || cs[k - 1 + 1].used;
    UsedIsLive(g, cs, k);
    var j := LiveBlock(g, ds, Region(g, cs, k));
    assert ds[j].start == cs[k].start > ds[k - 1].start;
    assert j >= k;
    if j > k {
      assert ds[k - 1].used || ds[k - 1 + 1].used;
      UsedIsLive(g, ds, k);
      var m := LiveBlock(g, cs, Region(g, ds, k));
      assert cs[m].start == ds[k].start;
      assert cs[k - 1].start < cs[m].start < cs[k].start;
    }
  }

  lemma SameNext(g: Geometry, cs: seq<Cell>, ds: seq<Cell>, k: nat)
    requires Tiled(g, cs) && Tiled(g, ds) && Coalesced(cs) && Coalesced(ds) && Live(g, cs) == Live(g, ds)
    requires k < |cs| && k <= |ds| && cs[..k] == ds[..k]
    ensures k < |ds| && cs[k].start == ds[k].start
  {
    if k > 0 {
      assert cs[k - 1] == cs[..k][k - 1] == ds[..k][k - 1] == ds[k - 1];
      if cs[k - 1].used {
        UsedIsLive(g, cs, k - 1);
        UsedIsLive(g, ds, k - 1);
        LiveUnique(g, ds);
      } else {
        AfterFree(g, cs, ds, k);
      }
    }
  }

  /** The blocks before index `k` are those of every other list in which clients hold the same. */
  lemma {:induction false} SamePrefix(g: Geometry, cs: seq<Cell>, ds: seq<Cell>, k: nat)
    requires Tiled(g, cs) && Tiled(g, ds) && Coalesced(cs) && Coalesced(ds) && Live(g, cs) == Live(g, ds)
    requires k <= |cs|
    ensures k <= |ds| && cs[..k] == ds[..k]
    decreases k
  {
    if k > 0 {
      SamePrefix(g, cs, ds, k - 1);
      SameNext(g, cs, ds, k - 1);
      SameUse(g, cs, ds, k - 1);
      SameUse(g, ds, cs, k - 1);
      assert cs[..k] == cs[..k - 1] + [cs[k - 1]] && ds[..k] == ds[..k - 1] + [ds[k - 1]];
    }
  }

  /** Without free neighbours, what clients hold determines every block: the free ones are the gaps. */
  lemma LayoutIsDetermined(g: Geometry, cs: seq<Cell>, ds: seq<Cell>)
    requires Tiled(g, cs) && Tiled(g, ds) && Coalesced(cs) && Coalesced(ds) && Live(g, cs) == Live(g, ds)
    ensures cs == ds
  {
    SamePrefix(g, cs, ds, |cs|);
    SamePrefix(g, ds, cs, |ds|);
  }
}
