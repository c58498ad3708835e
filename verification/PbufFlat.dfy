/** A chain of pbufs read as one flat string of bytes. */
module PbufFlat {
  import opened Octets

  const MAX16: nat := 0xFFFF

  /** One pbuf of a packet: its `len` bytes of payload, and `tot_len`. */
  datatype Buf = Buf(data: seq<Byte>, total: nat)

  /** The bytes of a packet. */
  function Flat(bufs: seq<Buf>): seq<Byte> {
    if bufs == [] then [] else bufs[0].data + Flat(bufs[1..])
  }

  /** Each `tot_len` is the length of its own pbuf and of all behind it. */
  ghost predicate Totals(bufs: seq<Buf>) {
    forall i :: 0 <= i < |bufs| ==> bufs[i].total == |Flat(bufs[i..])|
  }

  lemma FlatFrom(bufs: seq<Buf>, i: nat)
    requires i < |bufs|
    ensures Flat(bufs[i..]) == bufs[i].data + Flat(bufs[i + 1..])
  {
    assert bufs[i..][1..] == bufs[i + 1..];
  }

  lemma FlatEnd(bufs: seq<Buf>)
    ensures Flat(bufs[|bufs|..]) == [] && bufs[0..] == bufs
  {
  }

  lemma {:induction false} FlatConcat(a: seq<Buf>, b: seq<Buf>)
    ensures Flat(a + b) == Flat(a) + Flat(b)
    decreases |a|
  {
    if a == [] {
      assert a + b == b;
    } else {
      assert (a + b)[1..] == a[1..] + b;
      FlatConcat(a[1..], b);
    }
  }

  lemma FlatSplit(bufs: seq<Buf>, i: nat)
    requires i <= |bufs|
    ensures Flat(bufs) == Flat(bufs[..i]) + Flat(bufs[i..])
  {
    assert bufs == bufs[..i] + bufs[i..];
    FlatConcat(bufs[..i], bufs[i..]);
  }

  /** Totals of a packet whose tail has right totals. */
  lemma TotalsCons(b: Buf, rest: seq<Buf>)
    requires Totals(rest) && b.total == |b.data| + |Flat(rest)|
    ensures Totals([b] + rest)
  {
    var all := [b] + rest;
    forall i | 0 <= i < |all|
      ensures all[i].total == |Flat(all[i..])|
    {
      if i == 0 {
        assert all[1..] == rest && all[0..] == all;
      } else {
        assert all[i..] == rest[i - 1..];
      }
    }
  }

  lemma TotalsTail(bufs: seq<Buf>, i: nat)
    requires Totals(bufs) && i <= |bufs|
    ensures Totals(bufs[i..])
  {
    forall j | 0 <= j < |bufs[i..]|
      ensures bufs[i..][j].total == |Flat(bufs[i..][j..])|
    {
      assert bufs[i..][j..] == bufs[i + j..];
    }
  }

  /** Payload bytes may change in place, as long as lengths do not. */
  ghost predicate SameShape(a: seq<Buf>, b: seq<Buf>) {
    |a| == |b| && forall i :: 0 <= i < |a| ==> |a[i].data| == |b[i].data| && a[i].total == b[i].total
  }

  lemma {:induction false} ShapeLength(a: seq<Buf>, b: seq<Buf>)
    requires SameShape(a, b)
    ensures |Flat(a)| == |Flat(b)|
    decreases |a|
  {
    if a != [] {
      ShapeLength(a[1..], b[1..]);
    }
  }

  lemma ShapeOn(a: seq<Buf>, b: seq<Buf>, c: seq<Buf>)
    requires SameShape(a, b) && SameShape(b, c)
    ensures SameShape(a, c)
  {
  }

  lemma ShapeTotals(a: seq<Buf>, b: seq<Buf>)
    requires SameShape(a, b) && Totals(a)
    ensures Totals(b)
  {
    forall i | 0 <= i < |b|
      ensures b[i].total == |Flat(b[i..])|
    {
      ShapeLength(a[i..], b[i..]);
    }
  }

  // ---------------------------------------------------------------- what the operations mean on flat bytes

  function Min(a: nat, b: nat): nat {
    if a < b then a else b
  }

  /** At most `n` bytes from `o` on, as far as there are any. */
  function Slice(f: seq<Byte>, o: nat, n: nat): seq<Byte> {
    f[Min(o, |f|)..Min(o + n, |f|)]
  }

  /** `data` written over the bytes from `o` on. */
  function Overwrite(f: seq<Byte>, o: nat, data: seq<Byte>): seq<Byte>
    requires o + |data| <= |f|
  {
    f[..o] + data + f[o + |data|..]
  }

  /** `m` stands at `i`. */
  predicate Match(f: seq<Byte>, i: nat, m: seq<Byte>) {
    i + |m| <= |f| && f[i..i + |m|] == m
  }

  lemma SliceNone(f: seq<Byte>, o: nat, n: nat)
    requires f == [] || n == 0
    ensures Slice(f, o, n) == []
  {
  }

  lemma Regroup(a: seq<Byte>, b: seq<Byte>, c: seq<Byte>)
    ensures a + (b + c) == a + b + c
  {
  }

  lemma SliceSkips(d: seq<Byte>, rest: seq<Byte>, o: nat, n: nat)
    requires o >= |d|
    ensures Slice(d + rest, o, n) == Slice(rest, o - |d|, n)
  {
  }

  lemma SliceTakes(d: seq<Byte>, rest: seq<Byte>, o: nat, n: nat)
    requires o <= |d|
    ensures var k := Min(|d| - o, n);
      Slice(d + rest, o, n) == d[o..o + k] + Slice(rest, 0, n - k)
  {
  }

  // ---------------------------------------------------------------- reading and writing

  lemma SliceBytes(f: seq<Byte>, o: nat, n: nat)
    ensures |Slice(f, o, n)| == if o >= |f| then 0 else if o + n <= |f| then n else |f| - o
    ensures forall j :: 0 <= j < |Slice(f, o, n)| ==> Slice(f, o, n)[j] == f[o + j]
  {
  }

  /** What is written at an offset is what is read there, and nothing else changes. */
  lemma WrittenIsRead(f: seq<Byte>, o: nat, data: seq<Byte>)
    requires o + |data| <= |f|
    ensures Slice(Overwrite(f, o, data), o, |data|) == data
    ensures |Overwrite(f, o, data)| == |f|
    ensures forall j :: 0 <= j < |f| && !(o <= j < o + |data|) ==> Overwrite(f, o, data)[j] == f[j]
  {
    assert Slice(Overwrite(f, o, data), o, |data|) == data;
  }
}
