/** The pbuf functions that read, write, cut and search the bytes of one packet. */
module PbufBytes {
  import opened Octets
  import opened PbufFlat

  datatype Error = Ok | ErrArg | ErrMem | ErrVal

  /** Where pbuf `i` starts in the flat bytes. */
  function Position(bufs: seq<Buf>, i: nat): nat
    requires i <= |bufs|
  {
    |Flat(bufs[..i])|
  }

  lemma PositionNext(bufs: seq<Buf>, i: nat)
    requires i < |bufs|
    ensures Position(bufs, i + 1) == Position(bufs, i) + |bufs[i].data| <= |Flat(bufs)|
    ensures Flat(bufs)[Position(bufs, i)..Position(bufs, i + 1)] == bufs[i].data
    ensures |Flat(bufs[i..])| == |Flat(bufs)| - Position(bufs, i)
  {
    FlatSplit(bufs, i);
    FlatFrom(bufs, i);
    assert bufs[..i + 1] == bufs[..i] + [bufs[i]];
    FlatConcat(bufs[..i], [bufs[i]]);
    assert Flat([bufs[i]]) == bufs[i].data;
  }

  lemma PositionEnds(bufs: seq<Buf>)
    ensures Position(bufs, 0) == 0 && Position(bufs, |bufs|) == |Flat(bufs)|
  {
    assert bufs[..|bufs|] == bufs;
  }

  lemma ShapePosition(a: seq<Buf>, b: seq<Buf>, i: nat)
    requires SameShape(a, b) && i <= |a|
    ensures Position(a, i) == Position(b, i)
  {
    ShapeLength(a[..i], b[..i]);
  }

  lemma SubSlice(f: seq<Byte>, a: nat, b: nat, o: nat, k: nat)
    requires a <= b <= |f| && o + k <= b - a
    ensures f[a..b][o..o + k] == f[a + o..a + o + k]
  {
    var inner, outer := f[a..b][o..o + k], f[a + o..a + o + k];
    assert forall x :: 0 <= x < k ==> inner[x] == f[a + o + x] == outer[x];
  }

  lemma SliceOfData(bufs: seq<Buf>, i: nat, o: nat, k: nat)
    requires i < |bufs| && o + k <= |bufs[i].data|
    ensures Position(bufs, i) + o + k <= |Flat(bufs)|
    ensures bufs[i].data[o..o + k] == Flat(bufs)[Position(bufs, i) + o..Position(bufs, i) + o + k]
  {
    hide Flat, Position;
    PositionNext(bufs, i);
    var at := Position(bufs, i);
    assert bufs[i].data == Flat(bufs)[at..Position(bufs, i + 1)];
    SubSlice(Flat(bufs), at, Position(bufs, i + 1), o, k);
  }

  /** Bytes copied into the payload of pbuf `i`. */
  function Written(bufs: seq<Buf>, i: nat, o: nat, chunk: seq<Byte>): (r: seq<Buf>)
    requires i < |bufs| && o + |chunk| <= |bufs[i].data|
    ensures |r| == |bufs| && SameShape(bufs, r)
  {
    bufs[i := bufs[i].(data := Overwrite(bufs[i].data, o, chunk))]
  }

  lemma WrittenLength(bufs: seq<Buf>, i: nat, o: nat, chunk: seq<Byte>)
    requires i < |bufs| && o + |chunk| <= |bufs[i].data|
    ensures |Written(bufs, i, o, chunk)[i].data| == |bufs[i].data|
  {
  }

  /** Writing into one pbuf is overwriting the flat bytes. */
  lemma WrittenFlat(bufs: seq<Buf>, i: nat, o: nat, chunk: seq<Byte>)
    requires i < |bufs| && o + |chunk| <= |bufs[i].data|
    ensures Position(bufs, i) + o + |chunk| <= |Flat(bufs)|
    ensures Flat(Written(bufs, i, o, chunk)) == Overwrite(Flat(bufs), Position(bufs, i) + o, chunk)
  {
    hide Flat, Overwrite, SameShape;
    var after := Written(bufs, i, o, chunk);
    var head, d, rest := Flat(bufs[..i]), bufs[i].data, Flat(bufs[i + 1..]);
    FlatSplit(bufs, i);
    FlatFrom(bufs, i);
    FlatSplit(after, i);
    FlatFrom(after, i);
    assert after[..i] == bufs[..i] && after[i + 1..] == bufs[i + 1..];
    OverwriteInside(head, d, rest, o, chunk);
  }

  lemma OverwriteInside(head: seq<Byte>, d: seq<Byte>, rest: seq<Byte>, o: nat, chunk: seq<Byte>)
    requires o + |chunk| <= |d|
    ensures head + (Overwrite(d, o, chunk) + rest) == Overwrite(head + (d + rest), |head| + o, chunk)
  {
  }

  lemma OverwriteMore(f: seq<Byte>, o: nat, a: seq<Byte>, b: seq<Byte>)
    requires o + |a| + |b| <= |f|
    ensures Overwrite(Overwrite(f, o, a), o + |a|, b) == Overwrite(f, o, a + b)
  {
  }

  lemma OverwriteOne(f: seq<Byte>, o: nat, b: Byte)
    requires o < |f|
    ensures Overwrite(f, o, [b]) == f[o := b]
  {
  }

  lemma OverwriteNone(f: seq<Byte>, o: nat, data: seq<Byte>)
    requires o <= |f|
    ensures Overwrite(f, o, data[..0]) == f
  {
  }

  lemma ShapeSelf(bufs: seq<Buf>)
    ensures SameShape(bufs, bufs)
  {
  }

  /** One `MEMCPY` of the next `k` bytes of `data` into pbuf `p`. */
  lemma CopyIn(was: seq<Buf>, bufs: seq<Buf>, p: nat, o: nat, f: seq<Byte>, base: nat, data: seq<Byte>, copied: nat, k: nat)
    requires SameShape(was, bufs) && p < |bufs| && copied + k <= |data| && base + |data| <= |f|
    requires o + k <= |bufs[p].data| && Position(bufs, p) + o == base + copied
    requires Flat(bufs) == Overwrite(f, base, data[..copied])
    ensures var after := Written(bufs, p, o, data[copied..copied + k]);
      && SameShape(was, after) && Flat(after) == Overwrite(f, base, data[..copied + k])
      && Position(after, p) == Position(bufs, p) && Position(after, p + 1) == Position(bufs, p) + |bufs[p].data|
      && |after[p].data| == |bufs[p].data|
  {
    hide Flat, Position, Overwrite, SameShape, Written;
    WrittenLength(bufs, p, o, data[copied..copied + k]);
    var chunk := data[copied..copied + k];
    var after := Written(bufs, p, o, chunk);
    WrittenFlat(bufs, p, o, chunk);
    OverwriteMore(f, base, data[..copied], chunk);
    assert data[..copied] + chunk == data[..copied + k];
    PositionNext(bufs, p);
    ShapePosition(bufs, after, p + 1);
    ShapePosition(bufs, after, p);
    ShapeOn(was, bufs, after);
  }

  lemma TotalIsRest(bufs: seq<Buf>, i: nat)
    requires Totals(bufs) && i < |bufs|
    ensures bufs[i].total == |Flat(bufs)| - Position(bufs, i)
  {
    PositionNext(bufs, i);
  }

  /** The pbufs of a packet cut to `n` bytes. */
  function Shrunk(bufs: seq<Buf>, n: nat): seq<Buf> {
    if bufs == [] then []
    else if n > |bufs[0].data| then [Buf(bufs[0].data, n)] + Shrunk(bufs[1..], n - |bufs[0].data|)
    else [Buf(bufs[0].data[..n], n)]
  }

  /** They are as few as can hold the bytes, and at least one. */
  lemma {:induction false} ShrunkFewest(bufs: seq<Buf>, n: nat)
    requires bufs != [] && n <= |Flat(bufs)|
    ensures var k := |Shrunk(bufs, n)|; 1 <= k <= |bufs| && n <= Position(bufs, k) && (k > 1 ==> Position(bufs, k - 1) < n)
    decreases |bufs|
  {
    PositionEnds(bufs);
    FlatCons(bufs);
    PositionNext(bufs, 0);
    if n > |bufs[0].data| {
      var rest, m := bufs[1..], n - |bufs[0].data|;
      ShrunkFewest(rest, m);
      var k := |Shrunk(rest, m)|;
      PositionTail(bufs, k);
      PositionTail(bufs, k - 1);
    }
  }

  lemma PositionTail(bufs: seq<Buf>, i: nat)
    requires bufs != [] && i < |bufs|
    ensures Position(bufs, i + 1) == |bufs[0].data| + Position(bufs[1..], i)
  {
    assert bufs[..i + 1] == [bufs[0]] + bufs[1..][..i];
    assert bufs[..i + 1][1..] == bufs[1..][..i];
  }

  /** The leading pbufs have gone and `cut` bytes of the first that is left, `size` bytes in all but for `left` to go. Those
      that have gone had bytes to give up, and the first that is left keeps some of its own. */
  ghost predicate Beheaded(was: seq<Buf>, bufs: seq<Buf>, size: nat, cut: nat, left: nat) {
    && |bufs| <= |was|
    && var k := |was| - |bufs|;
       && Position(was, k) + cut + left == size && (forall j :: 0 <= j < k ==> Position(was, j) < size)
       && (bufs != [] ==> && (cut > 0 ==> cut < |was[k].data|) && cut <= |was[k].data|
                          && bufs[0].data == was[k].data[cut..] && bufs[1..] == was[k + 1..])
  }

  lemma BeheadedNot(bufs: seq<Buf>, size: nat)
    ensures Beheaded(bufs, bufs, size, 0, size)
  {
    PositionEnds(bufs);
  }

  lemma BeheadedWhole(was: seq<Buf>, bufs: seq<Buf>, size: nat, left: nat)
    requires bufs != [] && 0 < left && |bufs[0].data| <= left && Beheaded(was, bufs, size, 0, left)
    ensures Beheaded(was, bufs[1..], size, 0, left - |bufs[0].data|)
  {
    hide Flat;
    var k := |was| - |bufs|;
    PositionNext(was, k);
    hide Position;
    assert bufs[1..] == was[k + 1..];
    if bufs[1..] != [] {
      assert bufs[1..][0] == was[k + 1] && bufs[1..][1..] == was[k + 2..];
    }
  }

  lemma BeheadedPart(was: seq<Buf>, bufs: seq<Buf>, size: nat, left: nat, b: Buf)
    requires bufs != [] && left < |bufs[0].data| && Beheaded(was, bufs, size, 0, left) && b.data == bufs[0].data[left..]
    ensures Beheaded(was, [b] + bufs[1..], size, left, 0)
  {
    hide Position;
    assert ([b] + bufs[1..])[1..] == bufs[1..];
  }

  lemma TotalsNone()
    ensures Totals([])
  {
  }

  lemma {:induction false} ShrunkFlat(bufs: seq<Buf>, n: nat)
    requires n <= |Flat(bufs)| && bufs != []
    ensures Flat(Shrunk(bufs, n)) == Flat(bufs)[..n] && Totals(Shrunk(bufs, n)) && Shrunk(bufs, n) != []
    decreases |bufs|
  {
    hide Totals;
    var d := bufs[0].data;
    if n > |d| {
      ShrunkFlat(bufs[1..], n - |d|);
      var rest := Shrunk(bufs[1..], n - |d|);
      assert ([Buf(d, n)] + rest)[1..] == rest;
      TotalsCons(Buf(d, n), rest);
    } else {
      var b := Buf(d[..n], n);
      assert Flat([]) == [];
      TotalsNone();
      TotalsCons(b, []);
      assert [b] + [] == [b];
    }
  }

  lemma ShrunkStep(was: seq<Buf>, bufs: seq<Buf>, q: nat, rem: nat, shrink: nat)
    requires q < |bufs| == |was| && bufs[q..] == was[q..] && Totals(was) && rem > |bufs[q].data| && shrink > 0
    requires rem + shrink == |Flat(bufs[q..])|
    ensures q + 1 < |bufs| && bufs[q].total == rem + shrink
    ensures var after := bufs[q := bufs[q].(total := rem)];
      && after[q + 1..] == was[q + 1..]
      && rem - |bufs[q].data| + shrink == |Flat(after[q + 1..])|
      && after[..q + 1] + Shrunk(after[q + 1..], rem - |bufs[q].data|) == bufs[..q] + Shrunk(bufs[q..], rem)
  {
    var after := bufs[q := bufs[q].(total := rem)];
    assert bufs[q] == bufs[q..][0] == was[q];
    FlatFrom(bufs, q);
    assert after[q + 1..] == bufs[q + 1..] == bufs[q..][1..] == was[q + 1..];
    assert q + 1 < |bufs| by {
      FlatEnd(bufs);
    }
    assert after[..q + 1] == bufs[..q] + [Buf(bufs[q].data, rem)];
    hide Flat;
    var rest := Shrunk(after[q + 1..], rem - |bufs[q].data|);
    assert Shrunk(bufs[q..], rem) == [Buf(bufs[q].data, rem)] + rest;
    assert bufs[..q] + [Buf(bufs[q].data, rem)] + rest == bufs[..q] + ([Buf(bufs[q].data, rem)] + rest);
  }

  lemma ShrunkLast(bufs: seq<Buf>, q: nat, rem: nat)
    requires q < |bufs| && rem <= |bufs[q].data|
    ensures Shrunk(bufs[q..], rem) == [Buf(bufs[q].data[..rem], rem)]
  {
  }

  lemma FlatCons(bufs: seq<Buf>)
    requires bufs != []
    ensures Flat(bufs) == bufs[0].data + Flat(bufs[1..])
    ensures Totals(bufs) ==> bufs[0].total == |Flat(bufs)|
  {
    assert bufs[0..] == bufs;
  }

  /** Both packets are long enough for `len` bytes at `offset`. */
  ghost predicate Fits(from: seq<Buf>, to: seq<Buf>, len: nat, offset: nat) {
    from != [] && to != [] && len <= |Flat(from)| && offset + len <= |Flat(to)|
  }

  /** Where a walk along the chain stands after `n` bytes: it goes on to the next pbuf when it has used one up. */
  function Reached(bufs: seq<Buf>, n: nat): nat {
    if bufs == [] || n < |bufs[0].data| then 0
    else if n == |bufs[0].data| then 1
    else 1 + Reached(bufs[1..], n - |bufs[0].data|)
  }

  /** At byte `o` of pbuf `j` with `left` bytes to go, of `n` in all. */
  ghost predicate Standing(bufs: seq<Buf>, n: nat, j: nat, o: nat, left: nat) {
    j <= |bufs| && Reached(bufs, n) == j + Reached(bufs[j..], o + left)
  }

  lemma StandingAtFirst(bufs: seq<Buf>, o: nat, left: nat)
    ensures Standing(bufs, o + left, 0, o, left)
  {
    assert bufs[0..] == bufs;
  }

  /** A piece of `k` bytes has been used, and the walk goes on to the next pbuf if it was the rest of this one. */
  lemma WalksOn(bufs: seq<Buf>, n: nat, j: nat, o: nat, left: nat, k: nat)
    requires Standing(bufs, n, j, o, left) && j < |bufs| && o + k <= |bufs[j].data| && k <= left
    ensures var j' := if o + k == |bufs[j].data| then j + 1 else j; var o' := if o + k == |bufs[j].data| then 0 else o + k;
      && (if left == k then Reached(bufs, n) == j' else Standing(bufs, n, j', o', left - k))
      && j' <= Reached(bufs, n)
  {
    assert bufs[j..][1..] == bufs[j + 1..];
  }

  /** Behind pbuf `y` there are only empty ones: the code takes them for another packet. */
  predicate EndsAt(bufs: seq<Buf>, y: nat) {
    y + 1 < |bufs| && |bufs[y].data| == bufs[y].total
  }

  predicate Clear(bufs: seq<Buf>, a: nat, b: nat) {
    forall y {:trigger EndsAt(bufs, y)} :: a <= y <= b ==> !EndsAt(bufs, y)
  }

  lemma ShapeClear(a: seq<Buf>, b: seq<Buf>, y: nat)
    requires SameShape(a, b)
    ensures EndsAt(a, y) <==> EndsAt(b, y)
  {
  }

  lemma ClearMore(bufs: seq<Buf>, first: nat, was: nat, now: nat)
    requires now <= was + 1 && Clear(bufs, first, was) && !EndsAt(bufs, now)
    ensures Clear(bufs, first, now)
  {
  }

  lemma ClearOne(bufs: seq<Buf>, x: nat)
    requires !EndsAt(bufs, x)
    ensures Clear(bufs, x, x)
  {
  }

  lemma NotClear(bufs: seq<Buf>, a: nat, y: nat, b: nat)
    requires a <= y <= b && EndsAt(bufs, y)
    ensures !Clear(bufs, a, b)
  {
  }

  lemma ClearNone(bufs: seq<Buf>)
    ensures Clear(bufs, 1, 0)
  {
  }

  lemma EndsAtIs(bufs: seq<Buf>, y: nat)
    ensures EndsAt(bufs, y) <==> y + 1 < |bufs| && |bufs[y].data| == bufs[y].total
  {
  }

  /** One round further along the chain. */
  lemma ClearOn(bufs: seq<Buf>, a: nat, first: bool, was: nat, now: nat)
    requires was <= now <= was + 1 && !EndsAt(bufs, now)
    requires if first then a == now else Clear(bufs, a, was)
    ensures Clear(bufs, a, now)
  {
  }

  lemma ShapeAt(a: seq<Buf>, b: seq<Buf>, i: nat)
    requires SameShape(a, b) && i < |b|
    ensures |a| == |b| && |a[i].data| == |b[i].data|
  {
  }

  /** Where the two walks stand after the first piece is copied. */
  function FirstFrom(from: seq<Buf>, to: seq<Buf>, len: nat, offset: nat): nat {
    if from != [] && to != [] && |from[0].data| <= len && |from[0].data| + offset <= |to[0].data| then 1 else 0
  }

  function FirstTo(from: seq<Buf>, to: seq<Buf>, len: nat, offset: nat): nat {
    if from != [] && to != [] && |to[0].data| <= offset + len && |to[0].data| <= offset + |from[0].data| then 1 else 0
  }

  /** No pbuf that the copy comes to is followed by empty ones only. */
  predicate NoQueue(from: seq<Buf>, to: seq<Buf>, len: nat, offset: nat) {
    && Clear(from, FirstFrom(from, to, len, offset), Reached(from, len))
    && Clear(to, FirstTo(from, to, len, offset), Reached(to, offset + len))
  }

  /** How many empty pbufs there are in front. */
  function Leading(bufs: seq<Buf>): nat {
    if bufs == [] || bufs[0].data != [] then 0 else 1 + Leading(bufs[1..])
  }

  lemma LeadingStep(bufs: seq<Buf>, j: nat)
    requires j < |bufs|
    ensures Leading(bufs[j..]) == if bufs[j].data == [] then 1 + Leading(bufs[j + 1..]) else 0
  {
    assert bufs[j..][1..] == bufs[j + 1..];
  }

  /** The same for an offset behind the first pbuf of the destination: only the source is walked along, up to the first
      byte to copy. */
  predicate NoQueueAhead(from: seq<Buf>, len: nat) {
    if len == 0 then Clear(from, Reached(from, 0), Reached(from, 0)) else Clear(from, 1, Leading(from))
  }

  /** No empty pbufs at the end. */
  predicate EndsFull(bufs: seq<Buf>) {
    bufs != [] && (|bufs| == 1 || bufs[|bufs| - 1].data != [])
  }

  lemma FullIsClear(bufs: seq<Buf>, y: nat)
    requires Totals(bufs) && EndsFull(bufs)
    ensures !EndsAt(bufs, y)
  {
    if y + 1 < |bufs| {
      FlatFrom(bufs, y);
      var rest := bufs[y + 1..];
      FlatSplit(rest, |rest| - 1);
      FlatFrom(rest, |rest| - 1);
    }
  }

  /** Chains without empty pbufs at the end are never taken for queues. */
  lemma FullChainsCopy(from: seq<Buf>, to: seq<Buf>, len: nat, offset: nat)
    requires Totals(from) && Totals(to) && EndsFull(from) && EndsFull(to)
    ensures NoQueue(from, to, len, offset) && NoQueueAhead(from, len)
  {
    forall y: nat
      ensures !EndsAt(from, y) && !EndsAt(to, y)
    {
      FullIsClear(from, y);
      FullIsClear(to, y);
    }
  }

  lemma PrefixSlice(f: seq<Byte>, data: seq<Byte>, o: nat, k: nat)
    requires data <= f && o + k <= |data|
    ensures f[o..o + k] == data[o..o + k]
  {
    assert data == f[..|data|];
  }

  /** A pbuf with `n` added to its total, in 16 bits. */
  function Raised(b: Buf, n: nat): Buf {
    b.(total := (b.total + n) % (MAX16 + 1))
  }

  lemma {:induction false} SameDataFlat(a: seq<Buf>, b: seq<Buf>)
    requires |a| == |b| && forall i :: 0 <= i < |a| ==> a[i].data == b[i].data
    ensures Flat(a) == Flat(b)
    decreases |a|
  {
    if a != [] {
      SameDataFlat(a[1..], b[1..]);
    }
  }

  lemma RaisedIsExact(b: Buf, n: nat)
    ensures Raised(b, n).data == b.data
    ensures Raised(b, n).total == b.total + n <==> b.total + n <= MAX16
  {
  }

  lemma JoinedFrom(head: seq<Buf>, raised: seq<Buf>, tail: seq<Buf>, i: nat)
    requires |raised| == |head| && i <= |head| && forall j :: 0 <= j < |head| ==> raised[j].data == head[j].data
    ensures Flat((raised + tail)[i..]) == Flat(head[i..]) + Flat(tail)
  {
    assert (raised + tail)[i..] == raised[i..] + tail;
    FlatConcat(raised[i..], tail);
    SameDataFlat(head[i..], raised[i..]);
  }

  lemma JoinedAt(head: seq<Buf>, raised: seq<Buf>, tail: seq<Buf>, i: nat)
    requires Totals(head) && Totals(tail) && |Flat(head)| + |Flat(tail)| <= MAX16 && i < |raised + tail|
    requires |raised| == |head| && forall j :: 0 <= j < |head| ==> raised[j] == Raised(head[j], |Flat(tail)|)
    ensures (raised + tail)[i].total == |Flat((raised + tail)[i..])|
  {
    forall j | 0 <= j < |head|
      ensures raised[j].data == head[j].data
    {
      RaisedIsExact(head[j], |Flat(tail)|);
    }
    if i < |head| {
      JoinedFrom(head, raised, tail, i);
      FlatSplit(head, i);
      hide Flat, Raised;
      RaisedIsExact(head[i], |Flat(tail)|);
    } else {
      assert (raised + tail)[i..] == tail[i - |head|..];
    }
  }

  lemma Joined(head: seq<Buf>, raised: seq<Buf>, tail: seq<Buf>)
    requires Totals(head) && Totals(tail) && head != [] && |Flat(head)| <= MAX16 && |Flat(tail)| <= MAX16
    requires |raised| == |head| && forall i :: 0 <= i < |head| ==> raised[i] == Raised(head[i], |Flat(tail)|)
    ensures Flat(raised + tail) == Flat(head) + Flat(tail)
    ensures Totals(raised + tail) <==> |Flat(head)| + |Flat(tail)| <= MAX16
  {
    hide Flat, Raised;
    forall j | 0 <= j < |head|
      ensures raised[j].data == head[j].data
    {
      RaisedIsExact(head[j], |Flat(tail)|);
    }
    JoinedFrom(head, raised, tail, 0);
    assert (raised + tail)[0..] == raised + tail && head[0..] == head;
    if |Flat(head)| + |Flat(tail)| <= MAX16 {
      forall i | 0 <= i < |raised + tail|
        ensures (raised + tail)[i].total == |Flat((raised + tail)[i..])|
      {
        JoinedAt(head, raised, tail, i);
      }
    } else {
      RaisedIsExact(head[0], |Flat(tail)|);
      assert (raised + tail)[0].total != |Flat((raised + tail)[0..])|;
    }
  }

  lemma Total(bufs: seq<Buf>)
    requires Totals(bufs)
    ensures bufs != [] ==> bufs[0].total == |Flat(bufs)|
    ensures Position(bufs, 0) == 0
  {
    assert bufs[0..] == bufs;
  }

  class Packet {
    /** The pbufs of the packet, first to last; none stands for a null pointer. */
    var bufs: seq<Buf>

    ghost predicate Valid()
      reads this
    {
      Totals(bufs) && |Flat(bufs)| <= MAX16
    }

    ghost function Bytes(): seq<Byte>
      reads this
    {
      Flat(bufs)
    }

    constructor (bufs: seq<Buf>)
      ensures this.bufs == bufs
    {
      this.bufs := bufs;
    }

    /** `pbuf_copy_partial`. */
    method CopyPartial(len: nat, offset: nat) returns (out: seq<Byte>)
      ensures out == Slice(Bytes(), offset, len)
    {
      hide Flat, Slice;
      out := [];
      var i, left, skip := 0, len, offset;
      FlatEnd(bufs);
      while left != 0 && i < |bufs|
        invariant 0 <= i <= |bufs| && left >= 0 && skip >= 0
        invariant out + Slice(Flat(bufs[i..]), skip, left) == Slice(Bytes(), offset, len)
      {
        FlatFrom(bufs, i);
        var d := bufs[i].data;
        if skip != 0 && skip >= |d| {
          SliceSkips(d, Flat(bufs[i + 1..]), skip, left);
          skip := skip - |d|;
        } else {
          SliceTakes(d, Flat(bufs[i + 1..]), skip, left);
          var k := if |d| - skip > left then left else |d| - skip;
          Regroup(out, d[skip..skip + k], Slice(Flat(bufs[i + 1..]), 0, left - k));
          out := out + d[skip..skip + k];
          left := left - k;
          skip := 0;
        }
        i := i + 1;
      }
      SliceNone(Flat(bufs[i..]), skip, left);
    }

    /** `pbuf_skip` from pbuf `start` on. */
    method Skip(start: nat, offset: nat) returns (q: nat, rest: nat)
      requires start <= |bufs|
      ensures start <= q <= |bufs| && Position(bufs, q) + rest == Position(bufs, start) + offset
      ensures if q < |bufs| then rest < |bufs[q].data|
              else Position(bufs, start) + offset >= |Bytes()|
    {
      q, rest := start, offset;
      while q < |bufs| && |bufs[q].data| <= rest
        invariant start <= q <= |bufs| && Position(bufs, q) + rest == Position(bufs, start) + offset
      {
        PositionNext(bufs, q);
        rest := rest - |bufs[q].data|;
        q := q + 1;
      }
      PositionEnds(bufs);
    }

    /** `pbuf_try_get_at`: a byte, or -1 behind the end. */
    method TryGetAt(start: nat, offset: nat) returns (r: int)
      requires start <= |bufs|
      ensures var at := Position(bufs, start) + offset;
        r == if at < |Bytes()| then Bytes()[at] as int else -1
    {
      var q, rest := Skip(start, offset);
      if q < |bufs| && |bufs[q].data| > rest {
        SliceOfData(bufs, q, rest, 1);
        assert bufs[q].data[rest] == bufs[q].data[rest..rest + 1][0];
        return bufs[q].data[rest] as int;
      }
      return -1;
    }

    /** `pbuf_get_at`: a byte, or 0 behind the end. */
    method GetAt(start: nat, offset: nat) returns (r: Byte)
      requires start <= |bufs|
      ensures var at := Position(bufs, start) + offset;
        r == if at < |Bytes()| then Bytes()[at] else 0
    {
      var b := TryGetAt(start, offset);
      r := if b >= 0 then b as Byte else 0;
    }

    /** `pbuf_put_at`: one byte, or nothing behind the end. */
    method PutAt(offset: nat, b: Byte)
      requires Valid()
      modifies this
      ensures Valid() && SameShape(old(bufs), bufs)
      ensures Bytes() == if offset < |old(Bytes())| then old(Bytes())[offset := b] else old(Bytes())
    {
      hide Flat, Totals, Position, Written, Overwrite, SameShape;
      var q, rest := Skip(0, offset);
      PositionEnds(bufs);
      ShapeSelf(bufs);
      if q < |bufs| && |bufs[q].data| > rest {
        WrittenFlat(bufs, q, rest, [b]);
        ShapeTotals(bufs, Written(bufs, q, rest, [b]));
        ShapeLength(bufs, Written(bufs, q, rest, [b]));
        OverwriteOne(Bytes(), offset, b);
        bufs := Written(bufs, q, rest, [b]);
      }
    }

    /** `pbuf_take` on the pbufs from `start` on. */
    method Take(start: nat, data: seq<Byte>) returns (e: Error)
      requires Valid() && start <= |bufs|
      modifies this
      ensures Valid() && SameShape(old(bufs), bufs)
      ensures e == if start == |bufs| then ErrArg
                   else if Position(old(bufs), start) + |data| > |old(Bytes())| then ErrMem else Ok
      ensures e == Ok ==> Bytes() == Overwrite(old(Bytes()), Position(old(bufs), start), data)
      ensures e != Ok ==> bufs == old(bufs)
    {
      hide Flat, Totals, Position, Written, Overwrite, SameShape;
      ShapeSelf(bufs);
      if start == |bufs| {
        return ErrArg;
      }
      TotalIsRest(bufs, start);
      if bufs[start].total < |data| {
        return ErrMem;
      }
      ghost var f, base := Bytes(), Position(bufs, start);
      OverwriteNone(f, base, data);
      var p, copied := start, 0;
      while copied < |data|
        invariant start <= p <= |bufs| == |old(bufs)| && 0 <= copied <= |data|
        invariant SameShape(old(bufs), bufs) && Bytes() == Overwrite(f, base, data[..copied])
        invariant copied < |data| ==> Position(bufs, p) == base + copied
        decreases |bufs| - p
      {
        PositionEnds(bufs);
        ShapeLength(old(bufs), bufs);
        var k := if |data| - copied > |bufs[p].data| then |bufs[p].data| else |data| - copied;
        CopyIn(old(bufs), bufs, p, 0, f, base, data, copied, k);
        bufs := Written(bufs, p, 0, data[copied..copied + k]);
        copied := copied + k;
        p := p + 1;
      }
      ShapeTotals(old(bufs), bufs);
      ShapeLength(old(bufs), bufs);
      assert data[..copied] == data;
      e := Ok;
    }

    /** `pbuf_take_at`. */
    method TakeAt(data: seq<Byte>, offset: nat) returns (e: Error)
      requires Valid()
      modifies this
      ensures Valid() && SameShape(old(bufs), bufs)
      ensures e == if offset < |old(Bytes())| && offset + |data| <= |old(Bytes())| then Ok else ErrMem
      ensures e == Ok ==> Bytes() == Overwrite(old(Bytes()), offset, data)
      ensures e != Ok ==> bufs == old(bufs)
    {
      hide Flat, Totals, Position, Written, Overwrite, SameShape;
      ShapeSelf(bufs);
      PositionEnds(bufs);
      var q, rest := Skip(0, offset);
      if q < |bufs| {
        TotalIsRest(bufs, q);
        PositionNext(bufs, q);
        if bufs[q].total >= rest + |data| {
          var first := if |bufs[q].data| - rest < |data| then |bufs[q].data| - rest else |data|;
          ghost var f := Bytes();
          OverwriteNone(f, offset, data);
          CopyIn(bufs, bufs, q, rest, f, offset, data, 0, first);
          ghost var after := Written(bufs, q, rest, data[0..first]);
          ShapeTotals(bufs, after);
          ShapeLength(bufs, after);
          bufs := Written(bufs, q, rest, data[0..first]);
          if |data| - first > 0 {
            PositionEnds(bufs);
            e := Take(q + 1, data[first..]);
            ShapeOn(old(bufs), after, bufs);
            OverwriteMore(f, offset, data[..first], data[first..]);
            assert data[..first] + data[first..] == data;
            return;
          }
          assert data[..first] == data;
          return Ok;
        }
      }
      return ErrMem;
    }

    /** `pbuf_memcmp`: 0 if the bytes at `offset` are `s`, 0xFFFF if there are not enough, and otherwise
        one more than the index of the first that differs. */
    method Memcmp(offset: nat, s: seq<Byte>) returns (r: nat)
      requires Valid() && bufs != [] && |s| <= MAX16
      ensures r == 0 <==> Match(Bytes(), offset, s)
      ensures offset + |s| > |Bytes()| ==> r == 0xFFFF
      ensures offset + |s| <= |Bytes()| && r != 0 ==>
        r <= |s| && Bytes()[offset + r - 1] != s[r - 1] && Bytes()[offset..offset + r - 1] == s[..r - 1]
    {
      hide Flat, Totals, Position;
      TotalIsRest(bufs, 0);
      PositionEnds(bufs);
      if bufs[0].total < offset + |s| {
        return 0xFFFF;
      }
      var q, start := Skip(0, offset);
      var i := 0;
      while i < |s|
        invariant 0 <= i <= |s| && Bytes()[offset..offset + i] == s[..i]
      {
        var a := GetAt(q, start + i);
        if a != s[i] {
          assert Bytes()[offset..offset + |s|][i] == a;
          return if i + 1 < 0xFFFF then i + 1 else 0xFFFF;
        }
        assert Bytes()[offset..offset + i + 1] == Bytes()[offset..offset + i] + [Bytes()[offset + i]];
        assert s[..i + 1] == s[..i] + [s[i]];
        i := i + 1;
      }
      assert s[..i] == s;
      return 0;
    }

    /** `pbuf_memfind`: the leftmost place from `start` on, or 0xFFFF. */
    method Memfind(m: seq<Byte>, start: nat) returns (r: nat)
      requires Valid() && bufs != [] && |m| <= MAX16 && start <= MAX16
      ensures r <= 0xFFFF && (r < 0xFFFF ==> start <= r && Match(Bytes(), r, m))
      ensures forall j: nat :: start <= j < r ==> !Match(Bytes(), j, m)
    {
      hide Flat, Totals, Position;
      TotalIsRest(bufs, 0);
      PositionEnds(bufs);
      if bufs[0].total >= |m| + start {
        var last := bufs[0].total - |m|;
        var i := start;
        while i <= last
          invariant start <= i <= last + 1
          invariant forall j: nat :: start <= j < i ==> !Match(Bytes(), j, m)
        {
          var plus := Memcmp(i, m);
          if plus == 0 {
            return i;
          }
          assert |m| > 0;
          i := (i + 1) % 0x1_0000;
        }
      }
      return 0xFFFF;
    }

    /** `pbuf_realloc`: the first `newLen` bytes, in as few pbufs as hold them. */
    method Realloc(newLen: nat)
      requires Valid() && bufs != []
      modifies this
      ensures Valid() && bufs != [] && Bytes() == Slice(old(Bytes()), 0, newLen)
      ensures newLen >= |old(Bytes())| ==> bufs == old(bufs)
      ensures newLen < |old(Bytes())| ==> bufs == Shrunk(old(bufs), newLen)
    {
      hide Flat, Totals, Shrunk, Position;
      TotalIsRest(bufs, 0);
      PositionEnds(bufs);
      if newLen >= bufs[0].total {
        return;
      }
      var shrink := bufs[0].total - newLen;
      var rem, q := newLen, 0;
      ShrunkFlat(bufs, newLen);
      FlatEnd(bufs);
      assert bufs[..0] == [];
      while rem > |bufs[q].data|
        invariant 0 <= q < |bufs| == |old(bufs)| && rem >= 0 && bufs[q..] == old(bufs)[q..]
        invariant bufs[..q] + Shrunk(bufs[q..], rem) == Shrunk(old(bufs), newLen)
        invariant rem + shrink == |Flat(bufs[q..])|
        decreases |bufs| - q
      {
        ShrunkStep(old(bufs), bufs, q, rem, shrink);
        rem := rem - |bufs[q].data|;
        bufs := bufs[q := bufs[q].(total := bufs[q].total - shrink)];
        q := q + 1;
      }
      ShrunkLast(bufs, q, rem);
      bufs := bufs[..q] + [Buf(bufs[q].data[..rem], rem)];
    }

    /** `pbuf_free_header`: all but the first `size` bytes; pbufs that become empty go. */
    method FreeHeader(size: nat)
      requires Valid()
      modifies this
      ensures Valid() && Bytes() == old(Bytes())[Min(size, |old(Bytes())|)..]
      ensures exists cut, left :: 0 <= cut && 0 <= left && (left > 0 ==> bufs == []) && Beheaded(old(bufs), bufs, size, cut, left)
    {
      hide Flat, Totals, Beheaded;
      var left := size;
      ghost var cut := 0;
      BeheadedNot(bufs, size);
      while left != 0 && bufs != []
        invariant Valid() && left >= 0 && cut >= 0 && (left > 0 ==> cut == 0) && Beheaded(old(bufs), bufs, size, cut, left)
        invariant Bytes()[Min(left, |Bytes()|)..] == old(Bytes())[Min(size, |old(Bytes())|)..]
        decreases |bufs|, left
      {
        FlatCons(bufs);
        TotalsTail(bufs, 1);
        if left >= |bufs[0].data| {
          BeheadedWhole(old(bufs), bufs, size, left);
          left := left - |bufs[0].data|;
          bufs := bufs[1..];
        } else {
          var b := Buf(bufs[0].data[left..], bufs[0].total - left);
          TotalsCons(b, bufs[1..]);
          FlatCons([b] + bufs[1..]);
          BeheadedPart(old(bufs), bufs, size, left, b);
          bufs := [b] + bufs[1..];
          cut, left := left, 0;
        }
      }
      FlatEnd(bufs);
    }

    /** The next `k` bytes of `from` go to the next place in this packet. */
    method CopyChunk(from: Packet, i: nat, oi: nat, j: nat, oj: nat, k: nat,
                     ghost was: seq<Buf>, ghost f: seq<Byte>, ghost offset: nat, ghost data: seq<Byte>, ghost copied: nat)
      requires from != this && from.Valid() && SameShape(was, bufs) && Totals(was) && |f| == |Flat(was)|
      requires i < |bufs| && oi + k <= |bufs[i].data| && j < |from.bufs| && oj + k <= |from.bufs[j].data|
      requires data <= from.Bytes() && copied + k <= |data| && offset + |data| <= |f|
      requires Position(bufs, i) + oi == offset + copied && Position(from.bufs, j) + oj == copied
      requires Bytes() == Overwrite(f, offset, data[..copied])
      modifies this
      ensures |bufs| == |old(bufs)| && SameShape(was, bufs) && Totals(bufs) && |Bytes()| == |f|
      ensures Bytes() == Overwrite(f, offset, data[..copied + k])
      ensures |bufs[i].data| == |old(bufs)[i].data| && Position(bufs, i) == Position(old(bufs), i)
      ensures Position(bufs, i + 1) == Position(bufs, i) + |bufs[i].data|
      ensures Position(from.bufs, j + 1) == Position(from.bufs, j) + |from.bufs[j].data|
      ensures Position(from.bufs, |from.bufs|) == |from.Bytes()| && Position(bufs, |bufs|) == |Bytes()|
    {
      hide Flat, Totals, Position, Written, Overwrite, SameShape;
      SliceOfData(from.bufs, j, oj, k);
      PrefixSlice(from.Bytes(), data, copied, k);
      CopyIn(was, bufs, i, oi, f, offset, data, copied, k);
      bufs := Written(bufs, i, oi, from.bufs[j].data[oj..oj + k]);
      PositionNext(from.bufs, j);
      PositionEnds(from.bufs);
      PositionEnds(bufs);
      ShapeLength(was, bufs);
      ShapeTotals(was, bufs);
    }

    /** The loop of `pbuf_copy_partial_pbuf` for an offset behind the first pbuf. What is left of that pbuf is then
        counted as huge, so the first byte to be copied goes outside of it. */
    method CopyPastFirst(from: Packet, len: nat, offset: nat) returns (e: Error, outside: bool)
      requires Valid() && from.Valid() && Fits(from.bufs, bufs, len, offset) && offset > |bufs[0].data|
      ensures outside <==> len > 0 && NoQueueAhead(from.bufs, len)
      ensures !outside ==> e == if NoQueueAhead(from.bufs, len) then Ok else ErrVal
    {
      hide Flat, Totals, Position, Clear;
      Total(bufs);
      PositionEnds(from.bufs);
      if len == 0 {
        e := CopyNothing(from);
        return e, false;
      }
      var j := 0;
      ClearNone(from.bufs);
      assert from.bufs[0..] == from.bufs;
      while true
        invariant 0 <= j < |from.bufs| && Position(from.bufs, j) == 0 && Clear(from.bufs, 1, j)
        invariant Leading(from.bufs) == j + Leading(from.bufs[j..])
        decreases |from.bufs| - j
      {
        LeadingStep(from.bufs, j);
        var k := if len < |from.bufs[j].data| then len else |from.bufs[j].data|;
        if k > 0 {
          return Ok, true;
        }
        PositionNext(from.bufs, j);
        j := j + 1;
        if j == |from.bufs| {
          return ErrArg, false;
        }
        if |from.bufs[j].data| == from.bufs[j].total && j + 1 < |from.bufs| {
          NotClear(from.bufs, 1, j, Leading(from.bufs));
          return ErrVal, false;
        }
        ClearMore(from.bufs, 1, j - 1, j);
        if |bufs[0].data| == bufs[0].total && 1 < |bufs| {
          return ErrVal, false;
        }
      }
    }

    /** Its only round when there is nothing to copy. */
    method CopyNothing(from: Packet) returns (e: Error)
      requires from.bufs != [] && bufs != [] && |bufs[0].data| != bufs[0].total
      ensures e == if NoQueueAhead(from.bufs, 0) then Ok else ErrVal
    {
      var j := if |from.bufs[0].data| == 0 then 1 else 0;
      if j < |from.bufs| && |from.bufs[j].data| == from.bufs[j].total && j + 1 < |from.bufs| {
        NotClear(from.bufs, j, j, j);
        return ErrVal;
      }
      ClearOne(from.bufs, j);
      if |bufs[0].data| == bufs[0].total && 1 < |bufs| {
        return ErrVal;
      }
      return Ok;
    }

    /** One round of the loop: at byte `oi` of pbuf `i` here and byte `oj` of pbuf `j` of `from`, with `left` bytes to go
        of `|data|`. */
    method CopyRound(from: Packet, i: nat, oi: nat, j: nat, oj: nat, left: nat,
                     ghost was: seq<Buf>, ghost f: seq<Byte>, ghost offset: nat, ghost data: seq<Byte>)
      returns (i': nat, oi': nat, j': nat, oj': nat, left': nat, e: Error)
      requires from != this && from.Valid() && SameShape(was, bufs) && Totals(was) && |f| == |Flat(was)|
      requires i < |bufs| && oi <= |bufs[i].data| && j < |from.bufs| && oj <= |from.bufs[j].data| && left <= |data|
      requires data <= from.Bytes() && offset + |data| <= |f| && Bytes() == Overwrite(f, offset, data[..|data| - left])
      requires Position(bufs, i) + oi == offset + |data| - left && Position(from.bufs, j) + oj == |data| - left
      requires Standing(from.bufs, |data|, j, oj, left) && Standing(was, offset + |data|, i, oi, left)
      modifies this
      ensures |bufs| == |old(bufs)| && SameShape(was, bufs) && Totals(bufs) && |Bytes()| == |f|
      ensures left' <= left && Bytes() == Overwrite(f, offset, data[..|data| - left'])
      ensures i <= i' <= i + 1 && j <= j' <= j + 1
      ensures left' > 0 ==> i' < |bufs| && oi' <= |bufs[i'].data| && j' < |from.bufs| && oj' <= |from.bufs[j'].data|
      ensures left' > 0 ==>
        Position(bufs, i') + oi' == offset + |data| - left' && Position(from.bufs, j') + oj' == |data| - left'
      ensures left' > 0 ==>
        Standing(from.bufs, |data|, j', oj', left') && Standing(was, offset + |data|, i', oi', left')
        && left' + |bufs| - i' + |from.bufs| - j' < left + |bufs| - i + |from.bufs| - j
      ensures left' == 0 ==> Reached(from.bufs, |data|) == j' && Reached(was, offset + |data|) == i'
      ensures j' <= Reached(from.bufs, |data|) && i' <= Reached(was, offset + |data|)
      ensures e == if EndsAt(from.bufs, j') || EndsAt(was, i') then ErrVal else Ok
      ensures i == 0 && j == 0 && oj == 0 && oi == offset && left == |data| ==>
        j' == FirstFrom(from.bufs, was, left, offset) && i' == FirstTo(from.bufs, was, left, offset)
    {
      hide Flat, Totals, Position, Written, Overwrite, SameShape, EndsAt, Reached, Standing;
      ShapeAt(was, bufs, i);
      ShapeAt(was, bufs, 0);
      i', j', e := i, j, Ok;
      var toLeft, fromLeft := |bufs[i].data| - oi, |from.bufs[j].data| - oj;
      var k := if toLeft >= fromLeft then fromLeft else toLeft;
      k := if left < k then left else k;
      CopyChunk(from, i, oi, j, oj, k, was, f, offset, data, |data| - left);
      WalksOn(from.bufs, |data|, j, oj, left, k);
      WalksOn(was, offset + |data|, i, oi, left, k);
      oi', oj', left' := oi + k, oj + k, left - k;
      if oj' >= |from.bufs[j].data| {
        oj', j' := 0, j + 1;
        if j' == |from.bufs| && left' != 0 {
          e := ErrArg;
          return;
        }
      }
      if oi' == |bufs[i].data| {
        oi', i' := 0, i + 1;
        if i' == |bufs| && left' != 0 {
          e := ErrArg;
          return;
        }
      }
      ShapeClear(was, bufs, i');
      EndsAtIs(from.bufs, j');
      EndsAtIs(bufs, i');
      if j' < |from.bufs| && |from.bufs[j'].data| == from.bufs[j'].total && j' + 1 < |from.bufs| {
        e := ErrVal;
        return;
      }
      if i' < |bufs| && |bufs[i'].data| == bufs[i'].total && i' + 1 < |bufs| {
        e := ErrVal;
        return;
      }
    }

    /** The loop for an offset within the first pbuf. */
    method CopyInside(from: Packet, len: nat, offset: nat) returns (e: Error)
      requires Valid() && from.Valid() && from != this && Fits(from.bufs, bufs, len, offset) && offset <= |bufs[0].data|
      modifies this
      ensures Valid() && SameShape(old(bufs), bufs)
      ensures e == Ok ==> Bytes() == Overwrite(old(Bytes()), offset, from.Bytes()[..len])
      ensures e == if NoQueue(from.bufs, old(bufs), len, offset) then Ok else ErrVal
    {
      hide Flat, Totals, Position, Written, Overwrite, SameShape, Clear, EndsAt, Reached, Standing, FirstFrom, FirstTo;
      ShapeSelf(bufs);
      Total(from.bufs);
      Total(bufs);
      ghost var was, f, data := bufs, Bytes(), from.Bytes()[..len];
      OverwriteNone(f, offset, data);
      var i: nat, j: nat, oi: nat, oj: nat, left: nat, more := 0, 0, offset, 0, len, true;
      ghost var first := true;
      ghost var a, b := FirstFrom(from.bufs, bufs, len, offset), FirstTo(from.bufs, bufs, len, offset);
      StandingAtFirst(from.bufs, 0, len);
      StandingAtFirst(bufs, offset, len);
      while more
        invariant |bufs| == |was| && 0 <= left <= len && (!more ==> left == 0 && !first)
        invariant SameShape(was, bufs) && Totals(bufs) && |Bytes()| == |f|
        invariant Bytes() == Overwrite(f, offset, data[..len - left])
        invariant more ==> i < |bufs| && j < |from.bufs| && oi <= |bufs[i].data| && oj <= |from.bufs[j].data|
        invariant more ==> Position(bufs, i) + oi == offset + len - left && Position(from.bufs, j) + oj == len - left
        invariant more ==> Standing(from.bufs, len, j, oj, left) && Standing(was, offset + len, i, oi, left)
        invariant !more ==> Reached(from.bufs, len) == j && Reached(was, offset + len) == i
        invariant first ==> more && i == 0 && j == 0 && oi == offset && oj == 0 && left == len
        invariant !first ==> a <= j && b <= i && Clear(from.bufs, a, j) && Clear(was, b, i)
        decreases more, left + |bufs| - i + |from.bufs| - j
      {
        ghost var i0, j0 := i, j;
        i, oi, j, oj, left, e := CopyRound(from, i, oi, j, oj, left, was, f, offset, data);
        if e != Ok {
          if EndsAt(from.bufs, j) {
            NotClear(from.bufs, a, j, Reached(from.bufs, len));
          } else {
            NotClear(was, b, i, Reached(was, offset + len));
          }
          return;
        }
        ClearOn(from.bufs, a, first, j0, j);
        ClearOn(was, b, first, i0, i);
        first := false;
        more := left != 0;
      }
      assert data[..len - left] == data;
      e := Ok;
    }

    /** `pbuf_copy_partial_pbuf`; `pbuf_copy` is the case of the whole of `from` at offset 0. `outside` tells that the code
        would write outside of a pbuf, where it is not followed further. */
    method CopyFrom(from: Packet, len: nat, offset: nat) returns (e: Error, outside: bool)
      requires Valid() && from.Valid() && from != this
      modifies this
      ensures Valid() && SameShape(old(bufs), bufs)
      ensures !Fits(from.bufs, old(bufs), len, offset) ==> e == ErrArg && !outside && bufs == old(bufs)
      ensures Fits(from.bufs, old(bufs), len, offset) && offset <= |old(bufs)[0].data| ==>
        !outside && e == if NoQueue(from.bufs, old(bufs), len, offset) then Ok else ErrVal
      ensures Fits(from.bufs, old(bufs), len, offset) && offset > |old(bufs)[0].data| ==>
        && bufs == old(bufs) && (outside <==> len > 0 && NoQueueAhead(from.bufs, len))
        && (!outside ==> e == if NoQueueAhead(from.bufs, len) then Ok else ErrVal)
      ensures e == Ok && !outside ==> Bytes() == Overwrite(old(Bytes()), offset, from.Bytes()[..len])
    {
      hide Flat, Totals, Position, Written, Overwrite, SameShape, NoQueue, NoQueueAhead;
      ShapeSelf(bufs);
      outside := false;
      if from.bufs == [] || from.bufs[0].total < len {
        Total(from.bufs);
        return ErrArg, false;
      }
      if bufs == [] || bufs[0].total < offset + len {
        Total(bufs);
        return ErrArg, false;
      }
      Total(from.bufs);
      Total(bufs);
      if offset > |bufs[0].data| {
        OverwriteNone(Bytes(), offset, from.Bytes());
        e, outside := CopyPastFirst(from, len, offset);
      } else {
        e := CopyInside(from, len, offset);
      }
    }

    /** `pbuf_cat`, as far as bytes and totals go: the totals stay right exactly while the joined packet
        has a length of 16 bits. */
    method Append(tail: seq<Buf>)
      requires Valid() && Totals(tail) && bufs != [] && tail != [] && |Flat(tail)| <= MAX16
      modifies this
      ensures Bytes() == old(Bytes()) + Flat(tail)
      ensures Totals(bufs) <==> |old(Bytes())| + |Flat(tail)| <= MAX16
    {
      hide Flat, Totals;
      Total(tail);
      var i := 0;
      while i < |bufs|
        invariant 0 <= i <= |bufs| == |old(bufs)|
        invariant forall j :: 0 <= j < i ==> bufs[j] == Raised(old(bufs)[j], |Flat(tail)|)
        invariant forall j :: i <= j < |bufs| ==> bufs[j] == old(bufs)[j]
      {
        bufs := bufs[i := Raised(bufs[i], tail[0].total)];
        i := i + 1;
      }
      Joined(old(bufs), bufs, tail);
      bufs := bufs + tail;
    }
  }

  lemma OnePbuf(a: seq<Byte>)
    ensures var bufs := [Buf(a, |a|)]; Flat(bufs) == a && Totals(bufs)
  {
    assert [Buf(a, |a|)][1..] == [];
  }

  lemma TwoPbufs(a: seq<Byte>, b: seq<Byte>)
    ensures var bufs := [Buf(a, |a| + |b|), Buf(b, |b|)]; Flat(bufs) == a + b && Totals(bufs)
  {
    var bufs := [Buf(a, |a| + |b|), Buf(b, |b|)];
    assert bufs[1..] == [Buf(b, |b|)];
    OnePbuf(b);
    assert bufs[0..] == bufs;
  }

  /** Copying one byte behind the first of two pbufs goes outside. */
  method CopiesOutside() returns (p: Packet, outside: bool)
    ensures p.Valid() && p.bufs == [Buf([1], 3), Buf([2, 3], 2)] && outside
  {
    p := new Packet([Buf([1], 3), Buf([2, 3], 2)]);
    var from := new Packet([Buf([4], 1)]);
    TwoPbufs([1], [2, 3]);
    OnePbuf([4]);
    FullChainsCopy(from.bufs, p.bufs, 1, 2);
    var e;
    e, outside := p.CopyFrom(from, 1, 2);
  }
}
