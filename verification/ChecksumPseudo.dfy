/** The checksums of TCP and UDP, which cover a pseudo-header as well, and checking a stored checksum. */
module ChecksumPseudo {
  import opened Octets
  import opened PbufFlat
  import opened Checksum
  import opened ChecksumChain

  /** An IPv4 or IPv6 address in network byte order. */
  type Address = a: seq<Byte> | |a| == 4 || |a| == 16 witness [0, 0, 0, 0]

  /** The protocol and length fields that end the pseudo-header, high bytes first. */
  function ProtocolFields(proto: Byte, len: nat): (s: seq<Byte>)
    requires len <= ONES
    ensures |s| == 4
  {
    [0, proto, (len / 256) as Byte, (len % 256) as Byte]
  }

  function PseudoHeader(src: Address, dst: Address, proto: Byte, len: nat): seq<Byte>
    requires len <= ONES
  {
    src + dst + ProtocolFields(proto, len)
  }

  lemma FieldsSum(proto: Byte, len: nat)
    requires len <= ONES
    ensures Sum(ProtocolFields(proto, len)) == Swap(proto as nat) + Swap(len)
  {
    var s := ProtocolFields(proto, len);
    SumStep(s, 0);
    SumStep(s, 2);
    assert s[0..] == s && s[4..] == [] && Sum(s[4..]) == 0;
    hide Sum;
    assert Word(s, 0) == Swap(proto as nat) && Word(s, 2) == Swap(len);
  }

  /** Behind an even number of bytes, sums add up exactly. */
  lemma {:induction false} SumEven(p: seq<Byte>, q: seq<Byte>)
    requires |p| % 2 == 0
    ensures Sum(p + q) == Sum(p) + Sum(q)
    decreases |p|
  {
    if p == [] {
      assert p + q == q;
    } else {
      assert (p + q)[2..] == p[2..] + q;
      SumEven(p[2..], q);
    }
  }

  lemma SumEnds(s: seq<Byte>)
    ensures Sum(s[0..]) == Sum(s) && Sum(s[|s|..]) == 0
  {
    assert s[0..] == s;
  }

  lemma FoldedSame(n: nat)
    requires n < TWO32
    ensures Fold(Fold(n)) <= ONES && Same(Fold(Fold(n)), n)
  {
  }

  /** The addresses, 32 bits of each at a time, folded to 16 bits. */
  method AddressSum(src: Address, dst: Address) returns (acc: nat)
    requires |src| == |dst|
    ensures acc <= ONES && Same(acc, Sum(src + dst))
  {
    hide Sum, Long, Fold, Same;
    acc := 0;
    var i := 0;
    SumEnds(src);
    SumEnds(dst);
    while i < |src|
      invariant 0 <= i <= |src| && i % 4 == 0
      invariant acc <= i * ONES && acc + Sum(src[i..]) + Sum(dst[i..]) == Sum(src) + Sum(dst)
    {
      TwoWords(src, i);
      TwoWords(dst, i);
      var addr := Long(src, i);
      acc := acc + addr % TWO16 + addr / TWO16 % TWO16;
      addr := Long(dst, i);
      acc := acc + addr % TWO16 + addr / TWO16 % TWO16;
      i := i + 4;
    }
    SumEven(src, dst);
    FoldedSame(acc);
    acc := Fold(acc);
    acc := Fold(acc);
  }

  lemma TwoWords(s: seq<Byte>, i: nat)
    requires i + 3 < |s|
    ensures Sum(s[i..]) == Long(s, i) % TWO16 + Long(s, i) / TWO16 % TWO16 + Sum(s[i + 4..])
  {
    hide Sum, Word;
    SumStep(s, i);
    SumStep(s, i + 2);
    Halves(Word(s, i), Word(s, i + 2));
  }

  lemma Halves(lo: nat, hi: nat)
    requires lo <= ONES && hi <= ONES
    ensures (lo + TWO16 * hi) % TWO16 == lo && (lo + TWO16 * hi) / TWO16 % TWO16 == hi
  {
  }

  lemma SameSelf(n: nat)
    ensures Same(n, n)
  {
  }

  lemma FieldsAdded(acc: nat, proto: Byte, len: nat, addresses: seq<Byte>, data: seq<Byte>)
    requires len <= ONES && Same(acc, Sum(addresses) + Sum(data)) && |addresses| % 2 == 0
    ensures Same(acc + Swap(proto as nat) + Swap(len), Sum(addresses + ProtocolFields(proto, len) + data))
  {
    var fields := ProtocolFields(proto, len);
    assert |fields| == 4;
    hide Sum, ProtocolFields, Swap, Same;
    SumEven(addresses, fields);
    SumEven(addresses + fields, data);
    FieldsSum(proto, len);
    SameSelf(Sum(fields));
    SameAdd(acc, Sum(addresses) + Sum(data), Swap(proto as nat) + Swap(len), Sum(fields));
  }

  /** The end of the pseudo-header versions: the protocol fields are added last. */
  method AddFields(acc0: nat, proto: Byte, len: nat, ghost addresses: seq<Byte>, ghost data: seq<Byte>)
    returns (r: nat)
    requires len <= ONES && acc0 <= ONES && Same(acc0, Sum(addresses) + Sum(data)) && |addresses| % 2 == 0
    ensures r == ONES - Value(addresses + ProtocolFields(proto, len) + data)
  {
    hide Sum, ProtocolFields, Swap, Fold, Same, Canon;
    FieldsAdded(acc0, proto, len, addresses, data);
    var acc := acc0 + Swap(proto as nat);
    acc := acc + Swap(len);
    FoldTwice(acc);
    CanonSame(acc, Sum(addresses + ProtocolFields(proto, len) + data));
    acc := Fold(acc);
    acc := Fold(acc);
    r := ONES - acc;
  }

  lemma CanonSame(a: nat, b: nat)
    requires Same(a, b)
    ensures Canon(a) == Canon(b)
  {
    SameSmall(Canon(a), Canon(b));
  }

  /** `ip_chksum_pseudo` for a chain. */
  method ChksumPseudo(pieces: seq<Piece>, proto: Byte, len: nat, src: Address, dst: Address) returns (r: nat)
    requires |src| == |dst| && len <= ONES
    ensures r == ONES - Value(PseudoHeader(src, dst, proto, len) + Flat(pieces))
  {
    var acc := AddressSum(src, dst);
    ghost var start := acc;
    acc := AddPieces(pieces, acc);
    SameAdd(start, Sum(src + dst), Sum(Flat(pieces)), Sum(Flat(pieces)));
    hide Sum, Flat;
    r := AddFields(acc, proto, len, src + dst, Flat(pieces));
  }

  /** `ip_chksum_pseudo_partial`: only the first `cover` bytes of the chain count. */
  method ChksumPseudoPartial(pieces: seq<Piece>, proto: Byte, len: nat, cover: nat, src: Address, dst: Address)
    returns (r: nat)
    requires |src| == |dst| && len <= ONES && cover <= ONES
    ensures r == ONES - Value(PseudoHeader(src, dst, proto, len) + Covered(pieces, cover))
  {
    var acc := AddressSum(src, dst);
    ghost var start := acc;
    acc := AddPrefix(pieces, cover, acc);
    ghost var data := Covered(pieces, cover);
    SameAdd(start, Sum(src + dst), Sum(data), Sum(data));
    hide Sum, Flat;
    r := AddFields(acc, proto, len, src + dst, data);
  }

  // ---------------------------------------------------------------- checking a stored checksum

  /** The checksum `c` written into the two bytes at `k`. */
  function Stored(data: seq<Byte>, k: nat, c: nat): (s: seq<Byte>)
    requires k + 1 < |data| && c <= ONES
    ensures |s| == |data|
  {
    data[k := (c % 256) as Byte][k + 1 := (c / 256) as Byte]
  }

  lemma {:induction false} SumStored(data: seq<Byte>, k: nat, c: nat)
    requires k % 2 == 0 && k + 1 < |data| && c <= ONES && data[k] == data[k + 1] == 0
    ensures Sum(Stored(data, k, c)) == Sum(data) + c
    decreases k
  {
    var s := Stored(data, k, c);
    if k == 0 {
      assert s[2..] == data[2..];
    } else {
      assert s[2..] == Stored(data[2..], k - 2, c);
      SumStored(data[2..], k - 2, c);
    }
  }

  /** A checksum stored in a zeroed aligned field makes the check of the same bytes give 0. */
  lemma Recheck(data: seq<Byte>, k: nat)
    requires k % 2 == 0 && k + 1 < |data| && data[k] == data[k + 1] == 0
    ensures ONES - Value(Stored(data, k, ONES - Value(data))) == 0
  {
    var c := ONES - Value(data);
    SumStored(data, k, c);
    hide Sum, Stored;
    SameAdd(Sum(data), Value(data), c, c);
    CanonSame(Sum(data) + c, ONES);
  }

  /** The same when the bytes follow a pseudo-header. */
  lemma RecheckBehind(header: seq<Byte>, data: seq<Byte>, k: nat)
    requires |header| % 2 == 0 && k % 2 == 0 && k + 1 < |data| && data[k] == data[k + 1] == 0
    ensures ONES - Value(header + Stored(data, k, ONES - Value(header + data))) == 0
  {
    var all := header + data;
    var c := ONES - Value(all);
    assert Stored(all, |header| + k, c) == header + Stored(data, k, c);
    Recheck(all, |header| + k);
  }
}
