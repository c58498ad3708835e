/** The Internet checksum (RFC 1071) in the three versions of `inet_chksum.c`, on a little-endian host.
    All machine arithmetic is written out modulo its width. */
module Checksum {

  import opened Octets

  const TWO16 := 0x1_0000
  const TWO32 := 0x1_0000_0000
  const ONES := 0xFFFF

  // ---------------------------------------------------------------- the value that is wanted

  /** The sum of the little-endian 16-bit words of `s`; a last single byte is a low byte. */
  function Sum(s: seq<Byte>): nat {
    if s == [] then 0
    else if |s| == 1 then s[0] as nat
    else s[0] as nat + 256 * s[1] as nat + Sum(s[2..])
  }

  /** The ones' complement sum in 16 bits: 0 only for a sum of 0. */
  function Canon(n: nat): (c: nat)
    ensures c <= ONES && Same(c, n)
  {
    if n == 0 then 0 else (n - 1) % ONES + 1
  }

  /** The non-inverted Internet sum of a block of bytes. */
  function Value(s: seq<Byte>): nat {
    Canon(Sum(s))
  }

  /** Two sums stand for the same ones' complement number. */
  predicate Same(a: nat, b: nat) {
    a % ONES == b % ONES && (a == 0 <==> b == 0)
  }

  // ---------------------------------------------------------------- ones' complement arithmetic

  /** In 16 bits each number has one representation besides zero. */
  lemma SameSmall(a: nat, b: nat)
    requires Same(a, b) && a <= ONES && b <= ONES
    ensures a == b
  {
  }

  lemma SameBy(a: nat, b: nat, k: int)
    requires a - b == ONES * k && (a == 0 <==> b == 0)
    ensures Same(a, b)
  {
  }

  lemma SameWitness(a: nat, b: nat) returns (k: int)
    requires Same(a, b)
    ensures a - b == ONES * k
  {
    k := a / ONES - b / ONES;
  }

  lemma SameAdd(a: nat, b: nat, c: nat, d: nat)
    requires Same(a, b) && Same(c, d)
    ensures Same(a + c, b + d)
  {
    var k := SameWitness(a, b);
    var l := SameWitness(c, d);
    SameBy(a + c, b + d, k + l);
  }

  lemma SameScale(a: nat, b: nat)
    requires Same(a, b)
    ensures Same(256 * a, 256 * b)
  {
    var k := SameWitness(a, b);
    SameBy(256 * a, 256 * b, 256 * k);
  }

  /** Moving by two bytes is no change. */
  lemma SameShift(a: nat)
    ensures Same(TWO16 * a, a)
  {
    SameBy(TWO16 * a, a, a);
  }

  /** FOLD_U32T. */
  function Fold(n: nat): (f: nat)
    ensures Same(f, n)
    ensures n < TWO32 ==> f <= 2 * ONES
    ensures n <= 2 * ONES ==> f <= ONES
  {
    SameBy(n / TWO16 + n % TWO16, n, -(n / TWO16));
    n / TWO16 + n % TWO16
  }

  /** SWAP_BYTES_IN_WORD, and `lwip_htons`: bits above 16 are dropped. */
  function Swap(n: nat): (s: nat)
    ensures s <= ONES
    ensures n <= ONES ==> Same(s, 256 * n)
  {
    var lo, hi := n % 256, n / 256 % 256;
    if n <= ONES then
      assert n == hi * 256 + lo;
      SameBy(lo * 256 + hi, 256 * n, -hi);
      lo * 256 + hi
    else lo * 256 + hi
  }

  /** Folding a 32-bit sum twice gives the 16-bit value. */
  lemma FoldTwice(n: nat)
    requires n < TWO32
    ensures Fold(Fold(n)) == Canon(n)
  {
    assert Same(Fold(Fold(n)), Canon(n));
    SameSmall(Fold(Fold(n)), Canon(n));
  }

  // ---------------------------------------------------------------- sums of bytes

  /** The word at `i`, low byte first. */
  function Word(s: seq<Byte>, i: nat): (w: nat)
    requires i + 1 < |s|
    ensures w <= ONES
  {
    s[i] as nat + 256 * s[i + 1] as nat
  }

  lemma SumStep(s: seq<Byte>, i: nat)
    requires i + 1 < |s|
    ensures Sum(s[i..]) == Word(s, i) + Sum(s[i + 2..])
  {
    assert s[i..][2..] == s[i + 2..];
  }

  lemma {:induction false} SumBound(s: seq<Byte>)
    ensures Sum(s) <= ONES * ((|s| + 1) / 2)
    decreases |s|
  {
    if |s| >= 2 {
      SumBound(s[2..]);
    }
  }

  /** The same words, read high byte first. */
  function SumHighFirst(s: seq<Byte>): nat {
    if s == [] then 0
    else if |s| == 1 then 256 * s[0] as nat
    else 256 * s[0] as nat + s[1] as nat + SumHighFirst(s[2..])
  }

  lemma {:induction false} HighFirst(s: seq<Byte>)
    ensures Same(SumHighFirst(s), 256 * Sum(s))
    decreases |s|
  {
    if |s| >= 2 {
      HighFirst(s[2..]);
      var a, b: int := s[0] as nat, s[1] as nat;
      SameBy(256 * a + b, 256 * (a + 256 * b), 0 - b);
      SameAdd(256 * a + b, 256 * (a + 256 * b), SumHighFirst(s[2..]), 256 * Sum(s[2..]));
    }
  }

  lemma {:induction false} HighFirstBound(s: seq<Byte>)
    ensures SumHighFirst(s) <= ONES * ((|s| + 1) / 2)
    decreases |s|
  {
    if |s| >= 2 {
      HighFirstBound(s[2..]);
    }
  }

  /** Starting one byte later, with the first byte as a high byte, swaps all weights. */
  lemma {:induction false} OddStart(s: seq<Byte>)
    requires s != []
    ensures Same(256 * (256 * s[0] as nat + Sum(s[1..])), Sum(s))
    decreases |s|
  {
    var a := s[0] as nat;
    if |s| == 1 {
      SameShift(a);
    } else {
      var b, rest := s[1] as nat, s[2..];
      assert s[1..][1..] == rest;
      if rest == [] {
        SameBy(256 * (256 * a + b), a + 256 * b, a);
      } else {
        OddStart(rest);
        var c := rest[0] as nat;
        assert s[1..][2..] == rest[1..];
        assert Sum(s[1..]) == b + 256 * c + Sum(rest[1..]);
        SameBy(256 * (256 * a + b), a + 256 * b, a);
        SameAdd(256 * (256 * a + b), a + 256 * b, 256 * (256 * c + Sum(rest[1..])), Sum(rest));
      }
    }
  }

  lemma SumBehindOne(a: Byte, q: seq<Byte>)
    ensures Same(Sum([a] + q), a as nat + 256 * Sum(q))
  {
    if q == [] {
      assert [a] + q == [a];
    } else {
      var b := q[0] as nat;
      assert ([a] + q)[2..] == q[1..];
      assert Sum([a] + q) == a as nat + 256 * b + Sum(q[1..]);
      OddStart(q);
      var rest := 256 * b + Sum(q[1..]);
      hide Sum;
      SameScale(256 * rest, Sum(q));
      SameShift(rest);
      SameAdd(a as nat, a as nat, rest, 256 * Sum(q));
    }
  }

  /** What `q` adds when `n` bytes come before it. */
  function Behind(n: nat, q: seq<Byte>): nat {
    if n % 2 == 0 then Sum(q) else 256 * Sum(q)
  }

  lemma BehindTwo(n: nat, q: seq<Byte>)
    ensures Behind(n + 2, q) == Behind(n, q)
  {
  }

  /** Bytes behind an odd number of others have swapped weights. */
  lemma {:induction false} SumConcat(p: seq<Byte>, q: seq<Byte>)
    ensures Same(Sum(p + q), Sum(p) + Behind(|p|, q))
    decreases |p|
  {
    if p == [] {
      assert p + q == q;
    } else if |p| == 1 {
      SumBehindOne(p[0], q);
      assert p == [p[0]];
    } else {
      var rest := p[2..];
      assert (p + q)[2..] == rest + q;
      assert Sum(p + q) == Word(p, 0) + Sum(rest + q) && Sum(p) == Word(p, 0) + Sum(rest);
      SumConcat(rest, q);
      hide Sum;
      BehindTwo(|rest|, q);
      hide Behind;
      SameAdd(Word(p, 0), Word(p, 0), Sum(rest + q), Sum(rest) + Behind(|rest|, q));
    }
  }

  // ---------------------------------------------------------------- version 1

  /** The loop of version 1. */
  method Accumulate1(data: seq<Byte>) returns (acc: nat)
    ensures acc < TWO32
    ensures |data| <= 0x20000 ==> acc == SumHighFirst(data)
  {
    HighFirstBound(data);
    acc := 0;
    var i := 0;
    assert data[0..] == data;
    while |data| - i > 1
      invariant 0 <= i <= |data| && acc < TWO32
      invariant |data| <= 0x20000 ==> acc + SumHighFirst(data[i..]) == SumHighFirst(data)
    {
      assert data[i..][2..] == data[i + 2..];
      var src := data[i] as nat * 256 + data[i + 1] as nat;
      acc := (acc + src) % TWO32;
      i := i + 2;
    }
    if |data| - i > 0 {
      assert |data[i..]| == 1;
      acc := (acc + data[i] as nat * 256) % TWO32;
    } else {
      assert data[i..] == [];
    }
  }

  /** `lwip_standard_chksum`, version 1. */
  method Checksum1(data: seq<Byte>) returns (r: nat)
    ensures |data| <= 0x20000 ==> r == Value(data)
  {
    var acc := Accumulate1(data);
    if |data| <= 0x20000 {
      SwappedValue(data, acc);
    }
    hide Sum, SumHighFirst, Canon;
    ghost var total := acc;
    acc := Fold(acc);
    if acc >= TWO16 {
      acc := Fold(acc);
    } else {
      assert Fold(acc) == acc;
    }
    r := Swap(acc);
  }

  lemma SwappedValue(s: seq<Byte>, total: nat)
    requires total == SumHighFirst(s) && total < TWO32
    ensures Swap(Fold(Fold(total))) == Value(s)
  {
    HighFirst(s);
    hide Sum, SumHighFirst, Swap, Fold, Canon;
    var x := Fold(Fold(total));
    assert Same(x, total) && x <= ONES;
    SameScale(x, 256 * Sum(s));
    SameShift(Sum(s));
    SameSmall(Swap(x), Value(s));
  }

  // ---------------------------------------------------------------- versions 2 and 3

  /** The value to be swapped in the end when the block starts at an odd address: the first byte is a
      high byte, and the words start behind it. */
  function OddSum(s: seq<Byte>): nat {
    if s == [] then 0 else 256 * s[0] as nat + Sum(s[1..])
  }

  /** Either way the two folds, and the swap for an odd address, give the value. */
  lemma Finished(s: seq<Byte>, odd: bool, total: nat)
    requires total < TWO32 && Same(total, if odd then OddSum(s) else Sum(s))
    ensures odd ==> Swap(Fold(Fold(total))) == Value(s)
    ensures !odd ==> Fold(Fold(total)) == Value(s)
  {
    var x := Fold(Fold(total));
    assert Same(x, total) && x <= ONES;
    if odd {
      if s != [] {
        OddStart(s);
        SameScale(x, OddSum(s));
      } else {
        SameScale(x, 0);
      }
      SameSmall(Swap(x), Value(s));
    } else {
      SameSmall(x, Value(s));
    }
  }

  /** Add the words of `data` from `i` on, in 32 bits; `i` is where the last single byte would be. */
  method AddWords(data: seq<Byte>, from: nat, sum0: nat) returns (sum: nat, i: nat)
    requires from <= |data| && sum0 < TWO32
    ensures from <= i <= |data| && |data| - i <= 1 && sum < TWO32
    ensures sum0 + Sum(data[from..]) < TWO32 ==> sum + Sum(data[i..]) == sum0 + Sum(data[from..])
  {
    sum, i := sum0, from;
    while |data| - i > 1
      invariant from <= i <= |data| && sum < TWO32
      invariant sum0 + Sum(data[from..]) < TWO32 ==> sum + Sum(data[i..]) == sum0 + Sum(data[from..])
    {
      SumStep(data, i);
      sum := (sum + Word(data, i)) % TWO32;
      i := i + 2;
    }
  }

  lemma LastByte(data: seq<Byte>, i: nat)
    requires i <= |data| <= i + 1
    ensures Sum(data[i..]) == if i < |data| then data[i] as nat else 0
  {
    if i < |data| {
      assert data[i..] == [data[i]];
    } else {
      assert data[i..] == [];
    }
  }

  lemma TailBound(data: seq<Byte>, from: nat)
    requires from <= |data|
    ensures Sum(data[from..]) <= ONES * ((|data| - from + 1) / 2)
  {
    SumBound(data[from..]);
  }

  /** `lwip_standard_chksum`, version 2, for a block at an odd or an even address. */
  method Checksum2(data: seq<Byte>, odd: bool) returns (r: nat)
    ensures |data| <= 0x20000 ==> r == Value(data)
  {
    hide Sum, OddSum, Fold, Swap, Canon, Word;
    var t, from := 0, 0;
    if odd && |data| > 0 {
      t, from := 256 * data[0] as nat, 1;
    }
    ghost var first := t;
    TailBound(data, from);
    EndBytes(data, odd, Sum(data[from..]), Sum(data[from..]), from);
    var sum, i := AddWords(data, from, 0);
    LastByte(data, i);
    if i < |data| {
      t := t + data[i] as nat;
    }
    assert |data| <= 0x20000 ==> sum + t == Sum(data[from..]) + first < TWO32;
    sum := (sum + t) % TWO32;
    if |data| <= 0x20000 {
      Finished(data, odd, sum);
    }
    sum := Fold(sum);
    sum := Fold(sum);
    r := if odd then Swap(sum) else sum;
  }

  /** Add with end-around carry in 32 bits. */
  function AddBack(sum: nat, w: nat): (tmp: nat)
    requires sum < TWO32 && w < TWO32
    ensures tmp < TWO32 && Same(tmp, sum + w)
  {
    var tmp := (sum + w) % TWO32;
    if tmp < sum then
      SameBy(tmp + 1, sum + w, -(ONES + 2));
      tmp + 1
    else
      assert tmp == sum + w;
      tmp
  }

  /** The 32-bit word at `i`. */
  function Long(s: seq<Byte>, i: nat): (w: nat)
    requires i + 3 < |s|
    ensures w < TWO32 && Same(w, Word(s, i) + Word(s, i + 2))
  {
    SameBy(Word(s, i) + TWO16 * Word(s, i + 2), Word(s, i) + Word(s, i + 2), Word(s, i + 2));
    Word(s, i) + TWO16 * Word(s, i + 2)
  }

  lemma TwoLongs(s: seq<Byte>, i: nat, sum: nat, total: nat)
    requires i + 7 < |s| && sum < TWO32 && Same(sum + Sum(s[i..]), total)
    ensures Same(AddBack(AddBack(sum, Long(s, i)), Long(s, i + 4)) + Sum(s[i + 8..]), total)
  {
    SumStep(s, i);
    SumStep(s, i + 2);
    SumStep(s, i + 4);
    SumStep(s, i + 6);
    var rest := Sum(s[i + 8..]);
    hide Sum, AddBack, Long, Word;
    var a, b := Long(s, i), Long(s, i + 4);
    var wa, wb := Word(s, i) + Word(s, i + 2), Word(s, i + 4) + Word(s, i + 6);
    SameAdd(sum, sum, a, wa);
    SameAdd(AddBack(sum, a), sum + wa, b, wb);
    SameAdd(AddBack(AddBack(sum, a), b), sum + wa + wb, rest, rest);
  }

  /** The unrolled loop of version 3. */
  method AddLongs(data: seq<Byte>, from: nat, sum0: nat) returns (sum: nat, i: nat)
    requires from <= |data| && sum0 < TWO32
    ensures from <= i <= |data| && |data| - i <= 7 && sum < TWO32
    ensures Same(sum + Sum(data[i..]), sum0 + Sum(data[from..]))
  {
    sum, i := sum0, from;
    while |data| - i > 7
      invariant from <= i <= |data| && sum < TWO32
      invariant Same(sum + Sum(data[i..]), sum0 + Sum(data[from..]))
    {
      TwoLongs(data, i, sum, sum0 + Sum(data[from..]));
      sum := AddBack(sum, Long(data, i));
      sum := AddBack(sum, Long(data, i + 4));
      i := i + 8;
    }
  }

  /** `lwip_standard_chksum`, version 3, for a block at address `addr`. */
  method Checksum3(data: seq<Byte>, addr: nat) returns (r: nat)
    ensures r == Value(data)
  {
    hide Sum, OddSum, Fold, Swap, Canon, Word;
    var odd := addr % 2 == 1;
    var t, from, sum := 0, 0, 0;
    assert data[0..] == data;
    if odd && |data| > 0 {
      t, from := 256 * data[0] as nat, 1;
    }
    ghost var want := Sum(data[from..]);
    var i := from;
    if (addr + i) % 4 != 0 && |data| - i > 1 {
      SumStep(data, i);
      sum, i := Word(data, i), i + 2;
    }
    sum, i := AddLongs(data, i, sum);
    ghost var before := sum;
    sum := Fold(sum);
    TailBound(data, i);
    SameAdd(sum, before, Sum(data[i..]), Sum(data[i..]));
    sum, i := AddWords(data, i, sum);
    LastByte(data, i);
    if i < |data| {
      t := t + data[i] as nat;
    }
    assert sum + t < TWO32;
    EndBytes(data, odd, want, sum + Sum(data[i..]), from);
    sum := sum + t;
    Finished(data, odd, sum);
    sum := Fold(sum);
    sum := Fold(sum);
    r := if odd then Swap(sum) else sum;
  }

  lemma EndBytes(data: seq<Byte>, odd: bool, want: nat, got: nat, from: nat)
    requires from == (if odd && |data| > 0 then 1 else 0) && want == Sum(data[from..]) && Same(got, want)
    ensures Same(got + (if from == 1 then 256 * data[0] as nat else 0), if odd then OddSum(data) else Sum(data))
  {
    hide Sum, Same;
    assert data[0..] == data;
    NoBytes();
    if from == 1 {
      SameAdd(got, want, 256 * data[0] as nat, 256 * data[0] as nat);
      assert OddSum(data) == want + 256 * data[0] as nat;
    } else if odd {
      assert data == [];
    }
  }

  lemma NoBytes()
    ensures Sum([]) == 0 && OddSum([]) == 0
  {
  }

  /** The three versions give the same 16 bits for every block, at every address, up to 0x20000 bytes. */
  method AllVersionsAgree(data: seq<Byte>, addr: nat) returns (r1: nat, r2: nat, r3: nat)
    ensures |data| <= 0x20000 ==> r1 == r2 == r3 <= ONES
  {
    r1 := Checksum1(data);
    r2 := Checksum2(data, addr % 2 == 1);
    r3 := Checksum3(data, addr);
  }

  // ---------------------------------------------------------------- what it detects

  lemma {:induction false} SumChange(s: seq<Byte>, i: nat, b: Byte)
    requires i < |s|
    ensures Sum(s[i := b]) - Sum(s) == if i % 2 == 0 then b as int - s[i] as int else 256 * (b as int - s[i] as int)
    decreases |s|
  {
    var c := s[i := b];
    if |s| > 1 && i >= 2 {
      assert c[2..] == s[2..][i - 2 := b];
      SumChange(s[2..], i - 2, b);
    } else if |s| > 1 {
      assert c[2..] == s[2..];
    }
  }

  /** Every change of a single byte changes the sum. */
  lemma DetectsOneByte(s: seq<Byte>, i: nat, b: Byte)
    requires i < |s| && b != s[i]
    ensures Value(s[i := b]) != Value(s)
  {
    hide Sum, Canon, Same;
    SumChange(s, i, b);
    var x, y := Sum(s[i := b]), Sum(s);
    assert x != y && -ONES < x - y < ONES;
    CanonDiffers(x, y);
  }

  lemma CanonDiffers(x: nat, y: nat)
    requires x != y && -ONES < x - y < ONES
    ensures Canon(x) != Canon(y)
  {
    hide Canon, Same;
    if Canon(x) == Canon(y) {
      var _ := SameCanon(x, y);
    }
  }

  lemma SameCanon(x: nat, y: nat) returns (k: int)
    requires Canon(x) == Canon(y)
    ensures x - y == ONES * k
  {
    var a := SameWitness(Canon(x), x);
    var b := SameWitness(Canon(y), y);
    k := b - a;
  }
}
