/** The upload cursor: which bytes of the file buffer are handed to TCP, driven by acknowledgements. */
module FtpUpload {
  import opened Octets

  /** The positions handed over so far are the first ones, each once and in order. */
  ghost predicate InOrder(sent: seq<nat>) {
    forall i :: 0 <= i < |sent| ==> sent[i] == i
  }

  function Positions(from: nat, n: nat): (s: seq<nat>)
    ensures |s| == n && forall i :: 0 <= i < n ==> s[i] == from + i
  {
    seq(n, i => from + i)
  }

  /** The bytes at the positions handed over. */
  function Bytes(file: seq<Byte>, sent: seq<nat>): (s: seq<Byte>)
    requires forall i :: 0 <= i < |sent| ==> sent[i] < |file|
  {
    seq(|sent|, i requires 0 <= i < |sent| => file[sent[i]])
  }

  /** Positions in order mean that the bytes are a prefix of the file. */
  lemma InOrderIsPrefix(file: seq<Byte>, sent: seq<nat>)
    requires InOrder(sent) && |sent| <= |file|
    ensures Bytes(file, sent) == file[..|sent|]
  {
  }

  /** How many chunks of at most `mss` bytes there are in `n` bytes. */
  function Chunks(n: nat, mss: nat): nat
    requires mss > 0
  {
    if n == 0 then 0 else 1 + Chunks(if n > mss then n - mss else 0, mss)
  }

  lemma {:induction false} ChunksIs(n: nat, mss: nat)
    requires mss > 0
    ensures var k := Chunks(n, mss); n <= k * mss && (k > 0 ==> (k - 1) * mss < n) && (k == 0 <==> n == 0)
  {
    if n > 0 {
      var rest := if n > mss then n - mss else 0;
      ChunksIs(rest, mss);
      var k := Chunks(rest, mss);
      assert (k + 1) * mss == k * mss + mss && k * mss == (k - 1) * mss + mss;
      assert k == 0 ==> k * mss == 0;
    }
  }

  class Upload {
    /** `txSize`, and the largest segment of the data connection. */
    const size: nat
    const mss: nat

    var txOffset: nat
    /** Positions handed to `tcp_write`, and how many of them are not acknowledged. */
    var sent: seq<nat>
    var unacked: nat
    /** The lengths of the writes. */
    var chunks: seq<nat>
    var open: bool

    /** One chunk is outstanding, and everything before it is acknowledged. */
    ghost predicate Valid()
      reads this
    {
      && mss > 0 && InOrder(sent) && |sent| == txOffset + unacked <= size
      && (open <==> txOffset < size) && (open ==> 0 < unacked <= mss)
      && (open ==> unacked == mss || |sent| == size)
      && (forall i :: 0 <= i < |chunks| ==> 0 < chunks[i] <= mss)
      && |chunks| + Chunks(size - |sent|, mss) == Chunks(size, mss)
    }

    /** Before the reply 150. */
    constructor (size: nat, mss: nat)
      ensures this.size == size && this.mss == mss && txOffset == 0 && sent == [] && unacked == 0 && chunks == [] && open
    {
      this.size, this.mss, txOffset, sent, unacked, chunks, open := size, mss, 0, [], 0, [], true;
    }

    /** `ftp_StorDataSource`; `fetch` tells whether it is asked for data. The data start at `txOffset`. */
    method DataSource(fetch: bool, maxlen: nat) returns (len: nat)
      modifies `txOffset
      ensures var moved := old(txOffset) + if fetch then 0 else maxlen;
        txOffset == if moved > size then size else moved
      ensures !fetch ==> len == 0
      ensures fetch ==> len <= maxlen && txOffset + len <= size
      ensures fetch && maxlen > 0 ==> (len == 0 <==> txOffset == size) && (len < maxlen ==> txOffset + len == size)
    {
      if !fetch {
        txOffset := txOffset + maxlen;
      }
      if txOffset > size {
        txOffset := size;
      }
      if !fetch || maxlen == 0 || txOffset == size {
        return 0;
      }
      len := size - txOffset;
      if len > maxlen {
        len := maxlen;
      }
    }

    /** `lwftp_send_next_data`, where the write succeeds. */
    method SendNext()
      requires txOffset <= size
      modifies `txOffset, `sent, `unacked, `chunks, `open
      ensures txOffset == old(txOffset)
      ensures var len := if size - txOffset > mss then mss else size - txOffset;
        && sent == old(sent) + Positions(txOffset, len) && unacked == old(unacked) + len
        && chunks == old(chunks) + (if len > 0 then [len] else []) && open == (old(open) && len > 0)
    {
      var len := DataSource(true, mss);
      if len > 0 {
        sent := sent + Positions(txOffset, len);
        unacked := unacked + len;
        chunks := chunks + [len];
      } else {
        open := false;
      }
    }

    /** The reply 150 arrives: `lwftp_data_sent` with nothing acknowledged. */
    method Begin()
      requires mss > 0 && txOffset == 0 && sent == [] && unacked == 0 && chunks == [] && open
      modifies `txOffset, `sent, `unacked, `chunks, `open
      ensures Valid() && txOffset == 0
    {
      var _ := DataSource(false, 0);
      SendNext();
    }

    /** `lwftp_data_sent`: an acknowledgement of `len` of the outstanding bytes. The order is kept exactly if it
        covers all of them. */
    method Acknowledge(len: nat)
      requires Valid() && open && 0 < len <= unacked
      modifies `txOffset, `sent, `unacked, `chunks, `open
      ensures InOrder(sent) <==> len == old(unacked)
      ensures len == old(unacked) ==> Valid() && txOffset == |old(sent)| && old(sent) <= sent
      ensures len == old(unacked) ==> (!open <==> txOffset == size)
    {
      ghost var before := |sent|;
      unacked := unacked - len;
      var _ := DataSource(false, len);
      SendNext();
      if len < old(unacked) {
        assert sent[before] == txOffset < before;
      }
    }

    /** An upload whose acknowledgements each cover the outstanding chunk hands over the whole file, in as many
        chunks as it has, and then closes. */
    method Complete() returns (acks: nat)
      requires mss > 0 && txOffset == 0 && sent == [] && unacked == 0 && chunks == [] && open
      modifies `txOffset, `sent, `unacked, `chunks, `open
      ensures InOrder(sent) && |sent| == size == txOffset && unacked == 0 && !open
      ensures |chunks| == acks == Chunks(size, mss)
    {
      Begin();
      acks := 0;
      while open
        invariant Valid() && acks == |chunks| - if open then 1 else 0
        decreases size - txOffset
      {
        Acknowledge(unacked);
        acks := acks + 1;
      }
    }
  }
}
