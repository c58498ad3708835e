/** The checksum of a chain of pbufs, with and without a pseudo-header, and over a prefix only. */
module ChecksumChain {
  import opened Octets
  import opened PbufFlat
  import opened Checksum

  /** One pbuf of a chain; its length has 16 bits. */
  type Piece = b: Buf | |b.data| <= 0xFFFF witness Buf([], 0)

  /** The first `len` bytes of a chain, or all if it has fewer. */
  function Covered(pieces: seq<Piece>, len: nat): seq<Byte> {
    Flat(pieces)[..if len < |Flat(pieces)| then len else |Flat(pieces)|]
  }

  lemma FlatLast(pieces: seq<Piece>, i: nat)
    requires i < |pieces|
    ensures Flat(pieces[..i + 1]) == Flat(pieces[..i]) + pieces[i].data
  {
    assert pieces[..i + 1] == pieces[..i] + [pieces[i]];
    FlatConcat(pieces[..i], [pieces[i]]);
    assert Flat([pieces[i]]) == pieces[i].data;
  }

  /** `acc` stands for `total`, with its bytes swapped if `swapped`. */
  predicate Stands(acc: nat, swapped: bool, total: nat) {
    Same(acc, if swapped then 256 * total else total)
  }

  predicate Odd(n: nat) {
    n % 2 == 1
  }

  lemma OddTogether(a: seq<Byte>, b: seq<Byte>)
    ensures Odd(|a + b|) == (Odd(|a|) != Odd(|b|))
  {
  }

  /** Swapping the accumulator and the flag together. */
  lemma SwapStands(acc: nat, swapped: bool, total: nat)
    requires acc <= ONES && Stands(acc, swapped, total)
    ensures Stands(Swap(acc), !swapped, total) && Swap(acc) <= ONES
  {
    if swapped {
      SameScale(acc, 256 * total);
      SameShift(total);
    } else {
      SameScale(acc, total);
    }
  }

  /** Adding the sum of the next piece, when the flag tells the parity of what came before. */
  lemma AddStands(acc: nat, swapped: bool, before: nat, done: seq<Byte>, q: seq<Byte>)
    requires acc <= ONES && Stands(acc, swapped, before + Sum(done)) && swapped == Odd(|done|)
    ensures Stands(acc + Value(q), swapped, before + Sum(done + q))
  {
    SumConcat(done, q);
    hide Sum, Same, Canon;
    var s := Sum(done);
    SameAdd(before, before, Sum(done + q), s + Behind(|done|, q));
    if swapped {
      SameScale(before + Sum(done + q), before + (s + 256 * Sum(q)));
      SameAdd(acc, 256 * (before + s), Value(q), Sum(q));
      SameShift(Sum(q));
      SameAdd(256 * (before + s), 256 * (before + s), TWO16 * Sum(q), Sum(q));
      Transitive(acc + Value(q), 256 * (before + s) + Sum(q), 256 * (before + s) + TWO16 * Sum(q));
      Transitive(acc + Value(q), 256 * (before + s) + TWO16 * Sum(q), 256 * (before + Sum(done + q)));
    } else {
      SameAdd(acc, before + s, Value(q), Sum(q));
      Transitive(acc + Value(q), before + s + Sum(q), before + Sum(done + q));
    }
  }

  lemma Transitive(a: nat, b: nat, c: nat)
    requires (Same(a, b) || Same(b, a)) && (Same(b, c) || Same(c, b))
    ensures Same(a, c)
  {
  }

  lemma FlatNone(pieces: seq<Piece>)
    ensures Flat(pieces[..0]) == []
  {
  }

  lemma StandsAtFirst(acc: nat)
    ensures Stands(acc, false, acc + Sum([])) && !Odd(0)
  {
  }

  /** One pbuf of `len` bytes: add the sum of those that are taken, fold, and swap if its length is odd. */
  method AddPiece(acc0: nat, swapped0: bool, len: nat, taken: seq<Byte>, ghost before: nat, ghost done: seq<Byte>)
    returns (acc: nat, swapped: bool)
    requires acc0 <= ONES && Stands(acc0, swapped0, before + Sum(done)) && swapped0 == Odd(|done|) && |taken| <= 0xFFFF
    ensures acc <= ONES && Stands(acc, swapped, before + Sum(done + taken))
    ensures swapped == (Odd(|done|) != Odd(len))
  {
    AddStands(acc0, swapped0, before, done, taken);
    hide Sum, Same, Canon, Stands, Fold, Swap, Odd;
    acc := Checksum1(taken);
    swapped := swapped0;
    ghost var total := before + Sum(done + taken);
    FoldStands(acc0 + acc, swapped, total);
    acc := Fold(acc0 + acc);
    if Odd(len) {
      SwapStands(acc, swapped, total);
      swapped := !swapped;
      acc := Swap(acc);
    }
  }

  lemma FoldStands(n: nat, swapped: bool, total: nat)
    requires Stands(n, swapped, total) && n <= 2 * ONES
    ensures Stands(Fold(n), swapped, total) && Fold(n) <= ONES
  {
  }

  method Unswap(acc0: nat, swapped: bool, ghost total: nat) returns (acc: nat)
    requires acc0 <= ONES && Stands(acc0, swapped, total)
    ensures acc <= ONES && Same(acc, total)
  {
    acc := acc0;
    if swapped {
      SwapStands(acc, swapped, total);
      acc := Swap(acc);
    }
  }

  /** The loop over all pieces. */
  method AddPieces(pieces: seq<Piece>, acc0: nat) returns (acc: nat)
    requires acc0 <= ONES
    ensures acc <= ONES && Same(acc, acc0 + Sum(Flat(pieces)))
  {
    hide Sum, Flat, Same, Odd, Stands;
    acc := acc0;
    var swapped := false;
    FlatNone(pieces);
    StandsAtFirst(acc0);
    var i := 0;
    while i < |pieces|
      invariant 0 <= i <= |pieces| && acc <= ONES
      invariant Stands(acc, swapped, acc0 + Sum(Flat(pieces[..i]))) && swapped == Odd(|Flat(pieces[..i])|)
    {
      FlatLast(pieces, i);
      OddTogether(Flat(pieces[..i]), pieces[i].data);
      acc, swapped := AddPiece(acc, swapped, |pieces[i].data|, pieces[i].data, acc0, Flat(pieces[..i]));
      i := i + 1;
    }
    assert pieces[..i] == pieces;
    acc := Unswap(acc, swapped, acc0 + Sum(Flat(pieces)));
  }

  /** The loop over the pieces that hold the first `len` bytes. The flag follows the length of the
      pbuf also when only a part of it is summed; that part is the last. */
  method AddPrefix(pieces: seq<Piece>, len: nat, acc0: nat) returns (acc: nat)
    requires acc0 <= ONES
    ensures acc <= ONES
    ensures Same(acc, acc0 + Sum(Covered(pieces, len)))
  {
    hide Sum, Flat, Same, Odd, Stands;
    acc := acc0;
    var swapped, left, i := false, len, 0;
    ghost var done: seq<Byte> := [];
    FlatNone(pieces);
    StandsAtFirst(acc0);
    while i < |pieces| && left > 0
      invariant 0 <= i <= |pieces| && acc <= ONES && left >= 0
      invariant Stands(acc, swapped, acc0 + Sum(done))
      invariant left > 0 ==> done == Flat(pieces[..i]) && swapped == Odd(|done|) && |done| + left == len
      invariant left == 0 ==> |done| == len && done <= Flat(pieces[..i])
    {
      FlatLast(pieces, i);
      var q := pieces[i].data;
      var chklen := if |q| > left then left else |q|;
      acc, swapped := AddPiece(acc, swapped, |q|, q[..chklen], acc0, done);
      OddTogether(done, q);
      done := done + q[..chklen];
      left := left - chklen;
      i := i + 1;
    }
    FlatPrefix(pieces, i);
    assert pieces[..|pieces|] == pieces;
    assert done <= Flat(pieces[..i]) <= Flat(pieces);
    PrefixTrans(done, Flat(pieces[..i]), Flat(pieces));
    PrefixIs(Flat(pieces), done, len, left == 0);
    acc := Unswap(acc, swapped, acc0 + Sum(done));
  }

  lemma {:induction false} FlatPrefix(pieces: seq<Piece>, i: nat)
    requires i <= |pieces|
    ensures Flat(pieces[..i]) <= Flat(pieces)
    decreases |pieces| - i
  {
    if i == |pieces| {
      assert pieces[..i] == pieces;
    } else {
      FlatPrefix(pieces, i + 1);
      FlatLast(pieces, i);
    }
  }

  lemma PrefixTrans(a: seq<Byte>, b: seq<Byte>, c: seq<Byte>)
    requires a <= b <= c
    ensures a <= c
  {
  }

  lemma PrefixIs(all: seq<Byte>, done: seq<Byte>, len: nat, full: bool)
    requires done <= all && (if full then |done| == len else done == all && |done| <= len)
    ensures done == all[..if len < |all| then len else |all|]
  {
  }

  /** `inet_chksum`. */
  method InetChksum(data: seq<Byte>) returns (r: nat)
    requires |data| <= 0xFFFF
    ensures r == ONES - Value(data)
  {
    var c := Checksum1(data);
    r := ONES - c;
  }

  /** `inet_chksum_pbuf`: the checksum of the flat bytes, however they are cut into pieces. */
  method InetChksumPbuf(pieces: seq<Piece>) returns (r: nat)
    ensures r == ONES - Value(Flat(pieces))
  {
    var acc := AddPieces(pieces, 0);
    SameSmall(acc, Value(Flat(pieces)));
    r := ONES - acc;
  }
}
