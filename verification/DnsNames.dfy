/** Names in DNS messages (sections 3.1 and 4.1.4 of RFC 1035): the encoder in `dns_send` and the two
    readers `dns_compare_name` and `dns_skip_name`. */
module DnsNames {

  import opened Octets

  /** A received message; the 16-bit total length of a pbuf bounds it. */
  type Message = m: seq<Byte> | |m| <= 0xFFFF witness []

  const DOT: Byte := 46
  /** DNS_MAX_NAME_LENGTH less the terminating zero. */
  const MAX_NAME: nat := 255
  /** The value of the readers for "no". */
  const BAD: nat := 0xFFFF

  // ---------------------------------------------------------------- the form of names

  /** A label that may stand in a name: 1 to 63 bytes, no dot. */
  predicate Good(part: seq<Byte>) {
    1 <= |part| <= 63 && DOT !in part
  }

  predicate AllGood(labels: seq<seq<Byte>>) {
    forall i :: 0 <= i < |labels| ==> Good(labels[i])
  }

  /** The labels joined by dots. */
  function Dotted(labels: seq<seq<Byte>>): seq<Byte> {
    if labels == [] then []
    else if |labels| == 1 then labels[0]
    else labels[0] + [DOT] + Dotted(labels[1..])
  }

  /** The labels, each behind its length. */
  function Prefixed(labels: seq<seq<Byte>>): seq<Byte>
    requires AllGood(labels)
  {
    if labels == [] then []
    else [|labels[0]| as Byte] + labels[0] + Prefixed(labels[1..])
  }

  /** The encoding of a name. */
  function Wire(labels: seq<seq<Byte>>): seq<Byte>
    requires AllGood(labels)
  {
    Prefixed(labels) + [0]
  }

  // ---------------------------------------------------------------- the encoder

  /** The length of the first label of a dotted name. */
  function FirstLabel(name: seq<Byte>): (n: nat)
    ensures n <= |name|
    ensures forall i :: 0 <= i < n ==> name[i] != DOT
    ensures n < |name| ==> name[n] == DOT
  {
    if name == [] || name[0] == DOT then 0 else 1 + FirstLabel(name[1..])
  }

  /** An 8-bit count. */
  function Count8(n: nat): Byte {
    (n % 256) as Byte
  }

  lemma SmallCount(n: nat)
    requires n < 256
    ensures Count8(n) == n as Byte
  {
  }

  /** The parts between the dots of a name. */
  function Parts(name: seq<Byte>): (parts: seq<seq<Byte>>)
    decreases |name|
  {
    var n := FirstLabel(name);
    if n == |name| then [name] else [name[..n]] + Parts(name[n + 1..])
  }

  /** The parts as the loop of `dns_send` writes them; the length byte is the count modulo 256. */
  function Packed(parts: seq<seq<Byte>>): seq<Byte> {
    if parts == [] then [0] else [Count8(|parts[0]|)] + parts[0] + Packed(parts[1..])
  }

  function Encode(name: seq<Byte>): seq<Byte> {
    Packed(Parts(name))
  }

  /** One turn of the loop, on the rest of the name from `at` on. */
  lemma PartsStep(name: seq<Byte>, at: nat, end: nat)
    requires at <= end <= |name| && (forall i :: at <= i < end ==> name[i] != DOT)
    requires end < |name| ==> name[end] == DOT
    ensures Parts(name[at..]) == if end < |name| then [name[at..end]] + Parts(name[end + 1..]) else [name[at..end]]
  {
    hide FirstLabel;
    var rest := name[at..];
    FirstLabelIs(rest, end - at);
    if end < |name| {
      assert rest[..end - at] == name[at..end] && rest[end - at + 1..] == name[end + 1..];
    } else {
      assert rest == name[at..end];
    }
  }

  lemma PackedStep(l: seq<Byte>, more: seq<seq<Byte>>)
    ensures Packed([l] + more) == [Count8(|l|)] + l + Packed(more)
    ensures Packed([l]) == [Count8(|l|)] + l + [0]
  {
    assert ([l] + more)[1..] == more && [l][1..] == [];
  }

  lemma Associates(w: seq<Byte>, a: seq<Byte>, b: seq<Byte>, c: seq<Byte>)
    ensures w + (a + b + c) == w + a + b + c == w + a + (b + c)
  {
  }

  /** The inner loop: where the label starting at `at` ends, and its length as an 8-bit count. */
  method LabelEnd(name: seq<Byte>, at: nat) returns (end: nat, n: nat)
    requires at <= |name|
    ensures at <= end <= |name| && n < 256 && n as Byte == Count8(end - at)
    ensures forall i :: at <= i < end ==> name[i] != DOT
    ensures end < |name| ==> name[end] == DOT
  {
    end, n := at, 0;
    while end < |name| && name[end] != DOT
      invariant at <= end <= |name| && n == (end - at) % 256
      invariant forall i :: at <= i < end ==> name[i] != DOT
    {
      n := (n + 1) % 256;
      end := end + 1;
    }
  }

  /** The encoding loop of `dns_send`. The table holds names of at most 255 bytes, so no label overruns its 8-bit count. */
  method EncodeName(name: seq<Byte>) returns (w: seq<Byte>)
    requires |name| <= MAX_NAME
    ensures w == Encode(name)
  {
    hide Parts, Packed, Count8;
    w := [];
    var at := 0;
    assert name[0..] == name && [] + Encode(name) == Encode(name);
    while true
      invariant 0 <= at <= |name|
      invariant Encode(name) == w + Encode(name[at..])
      decreases |name| - at
    {
      var end, n := LabelEnd(name, at);
      PartsStep(name, at, end);
      if end < |name| {
        PackedStep(name[at..end], Parts(name[end + 1..]));
        Associates(w, [n as Byte], name[at..end], Encode(name[end + 1..]));
      } else {
        PackedStep(name[at..end], []);
        Associates(w, [n as Byte], name[at..end], [0]);
      }
      w := w + [n as Byte] + name[at..end];
      if end == |name| {
        w := w + [0];
        return;
      }
      at := end + 1;
    }
  }

  lemma {:induction false} FirstLabelIs(name: seq<Byte>, n: nat)
    requires n <= |name| && (forall i :: 0 <= i < n ==> name[i] != DOT) && (n < |name| ==> name[n] == DOT)
    ensures FirstLabel(name) == n
  {
    var m := FirstLabel(name);
    assert m >= n || m < |name|;
  }

  /** Taking a joined name apart gives back its labels. */
  lemma {:induction false} PartsOfDotted(labels: seq<seq<Byte>>)
    requires labels != [] && AllGood(labels)
    ensures Parts(Dotted(labels)) == labels
  {
    hide Parts;
    var name, l, rest := Dotted(labels), labels[0], labels[1..];
    assert Good(l) && forall i :: 0 <= i < |l| ==> l[i] in l;
    assert name[0..] == name;
    if rest == [] {
      PartsStep(name, 0, |l|);
      assert name[0..|l|] == l && labels == [l];
    } else {
      assert forall i :: 0 <= i < |l| ==> name[i] == l[i];
      PartsStep(name, 0, |l|);
      assert name[0..|l|] == l && name[|l| + 1..] == Dotted(rest);
      PartsOfDotted(rest);
    }
  }

  lemma {:induction false} PackedIsWire(labels: seq<seq<Byte>>)
    requires AllGood(labels)
    ensures Packed(labels) == Wire(labels)
  {
    hide Count8;
    if labels != [] {
      assert Good(labels[0]);
      SmallCount(|labels[0]|);
      PackedIsWire(labels[1..]);
      WireMore(labels);
    }
  }

  /** The encoder writes the wire form of every dotted name of good labels. */
  lemma EncodeDotted(labels: seq<seq<Byte>>)
    requires labels != [] && AllGood(labels)
    ensures Encode(Dotted(labels)) == Wire(labels)
  {
    PartsOfDotted(labels);
    PackedIsWire(labels);
  }

  lemma WireMore(labels: seq<seq<Byte>>)
    requires labels != [] && AllGood(labels)
    ensures Wire(labels) == [|labels[0]| as Byte] + labels[0] + Wire(labels[1..])
  {
    Associates([|labels[0]| as Byte], labels[0], Prefixed(labels[1..]), [0]);
  }

  // ---------------------------------------------------------------- the readers

  /** `pbuf_try_get_at`. */
  function Get(m: Message, off: nat): int {
    if off < |m| then m[off] as int else -1
  }

  /** Byte `j` behind `off` is, up to case, byte `j` of the query behind `qi`. */
  predicate Agrees(query: nat -> Byte, qi: nat, m: Message, off: nat, j: nat) {
    off + j < |m| && Lower(query(qi + j)) == Lower(m[off + j])
  }

  /** The `n` bytes at `off` are, up to case, those of the query from `qi` on. */
  predicate LabelMatches(query: nat -> Byte, qi: nat, m: Message, off: nat, n: nat) {
    off + n <= |m| && forall j :: 0 <= j < n ==> Agrees(query, qi, m, off, j)
  }

  /** What `dns_compare_name` computes. `query` is the memory from the start of the name on. */
  function CompareFrom(query: nat -> Byte, qi: nat, m: Message, off: nat): nat
    decreases |m| - off
  {
    if off >= |m| || m[off] >= 192 then BAD
    else
      var n := m[off] as nat;
      if !LabelMatches(query, qi, m, off + 1, n) || off + 1 + n >= |m| then BAD
      else if m[off + 1 + n] == 0 then off + n + 2
      else CompareFrom(query, qi + n + 1, m, off + 1 + n)
  }

  /** `dns_compare_name`, with its 16-bit offset. */
  method CompareName(query: nat -> Byte, m: Message, start: nat) returns (r: nat)
    requires start <= 0xFFFF
    ensures r == CompareFrom(query, 0, m, start)
  {
    var off, qi := start, 0;
    while true
      invariant off <= 0xFFFF && CompareFrom(query, 0, m, start) == CompareFrom(query, qi, m, off)
      decreases |m| - off
    {
      var n := Get(m, off);
      if n < 0 || off == 0xFFFF {
        return BAD;
      }
      off := off + 1;
      if n >= 0xC0 {
        return BAD;
      }
      ghost var off0, qi0, n0 := off, qi, n;
      while n > 0
        invariant 0 <= n <= n0 && off == off0 + n0 - n <= |m| && qi == qi0 + n0 - n
        invariant forall j :: 0 <= j < n0 - n ==> Agrees(query, qi0, m, off0, j)
      {
        var c := Get(m, off);
        if c < 0 {
          return BAD;
        }
        if Lower(query(qi)) != Lower(c as Byte) {
          assert !Agrees(query, qi0, m, off0, n0 - n);
          return BAD;
        }
        off, qi, n := off + 1, qi + 1, n - 1;
      }
      qi := qi + 1;
      n := Get(m, off);
      if n < 0 {
        return BAD;
      }
      if n == 0 {
        return off + 1;
      }
    }
  }

  /** What `dns_skip_name` computes. */
  function SkipFrom(m: Message, off: nat): nat
    decreases |m| - off
  {
    if off >= |m| then BAD
    else if m[off] >= 192 then (if off + 1 == 0xFFFF then BAD else off + 2)
    else
      var next := off + 1 + m[off] as nat;
      if next >= |m| then BAD else if m[next] == 0 then next + 1 else SkipFrom(m, next)
  }

  /** `dns_skip_name`. */
  method SkipName(m: Message, start: nat) returns (r: nat)
    requires start <= 0xFFFF
    ensures r == SkipFrom(m, start)
  {
    var off := start;
    while true
      invariant off <= 0xFFFF && SkipFrom(m, start) == SkipFrom(m, off)
      decreases |m| - off
    {
      var n := Get(m, off);
      off := (off + 1) % 0x10000;
      if n < 0 || off == 0 {
        return BAD;
      }
      if n >= 0xC0 {
        break;
      }
      if off + n >= |m| {
        return BAD;
      }
      off := off + n;
      n := Get(m, off);
      if n < 0 {
        return BAD;
      }
      if n == 0 {
        break;
      }
    }
    if off == 0xFFFF {
      return BAD;
    }
    return off + 1;
  }

  // ---------------------------------------------------------------- round trips

  /** The bytes are equal, or the two cases of a letter. */
  predicate SameLetter(a: Byte, b: Byte): (same: bool)
    ensures same <==> a == b || (65 <= a <= 90 && b == a + 32) || (65 <= b <= 90 && a == b + 32)
  {
    Lower(a) == Lower(b)
  }

  /** The message has `w` at `off`, up to the case of letters. */
  ghost predicate SpelledAt(m: Message, off: nat, w: seq<Byte>) {
    off + |w| <= |m| && forall j :: 0 <= j < |w| ==> SameLetter(m[off + j], w[j])
  }

  /** The memory holds `name` at `qi`. */
  ghost predicate Holds(query: nat -> Byte, qi: nat, name: seq<Byte>) {
    forall j :: 0 <= j < |name| ==> query(qi + j) == name[j]
  }

  lemma SpelledSplit(m: Message, off: nat, a: seq<Byte>, b: seq<Byte>)
    requires SpelledAt(m, off, a + b)
    ensures SpelledAt(m, off, a) && SpelledAt(m, off + |a|, b)
  {
    forall j | 0 <= j < |a| ensures SameLetter(m[off + j], a[j]) {
      assert (a + b)[j] == a[j];
    }
    forall j | 0 <= j < |b| ensures SameLetter(m[off + |a| + j], b[j]) {
      assert (a + b)[|a| + j] == b[j];
      assert SameLetter(m[off + (|a| + j)], (a + b)[|a| + j]);
    }
  }

  lemma HoldsSplit(query: nat -> Byte, qi: nat, a: seq<Byte>, b: seq<Byte>)
    requires Holds(query, qi, a + b)
    ensures Holds(query, qi, a) && Holds(query, qi + |a|, b)
  {
    forall j | 0 <= j < |a| ensures query(qi + j) == a[j] {
      assert (a + b)[j] == a[j];
    }
    forall j | 0 <= j < |b| ensures query(qi + |a| + j) == b[j] {
      assert (a + b)[|a| + j] == b[j];
      assert query(qi + (|a| + j)) == (a + b)[|a| + j];
    }
  }

  lemma HeldMatches(query: nat -> Byte, qi: nat, m: Message, off: nat, l: seq<Byte>)
    requires Holds(query, qi, l) && SpelledAt(m, off, l)
    ensures LabelMatches(query, qi, m, off, |l|)
  {
    forall j | 0 <= j < |l| ensures Agrees(query, qi, m, off, j) {
      assert SameLetter(m[off + j], l[j]);
    }
  }

  /** Bytes below 65 have no case. */
  lemma ByteAt(m: Message, off: nat, b: Byte)
    requires SpelledAt(m, off, [b]) && b < 65
    ensures off < |m| && m[off] == b
  {
    assert SameLetter(m[off + 0], [b][0]);
  }

  lemma Regroup(a: seq<Byte>, b: seq<Byte>, c: seq<Byte>, d: seq<Byte>)
    ensures a + b + c + d == a + (b + (c + d))
  {
  }

  /** The first label and what follows it, in the message. */
  lemma WireLayout(labels: seq<seq<Byte>>, m: Message, off: nat, end: seq<Byte>)
    requires labels != [] && AllGood(labels) && SpelledAt(m, off, Prefixed(labels) + end)
    ensures var l := labels[0];
            && 1 <= |l| <= 63 && off < |m| && m[off] == |l| as Byte && SpelledAt(m, off + 1, l)
            && SpelledAt(m, off + 1 + |l|, Prefixed(labels[1..]) + end)
  {
    var l, rest := labels[0], labels[1..];
    assert Good(l);
    var head := [|l| as Byte];
    assert Prefixed(labels) == head + l + Prefixed(rest);
    hide SpelledAt, Prefixed;
    Regroup(head, l, Prefixed(rest), end);
    SpelledSplit(m, off, head, l + (Prefixed(rest) + end));
    SpelledSplit(m, off + 1, l, Prefixed(rest) + end);
    ByteAt(m, off, |l| as Byte);
  }

  /** The first label and what follows it, in the dotted name. */
  lemma DottedLayout(labels: seq<seq<Byte>>, query: nat -> Byte, qi: nat)
    requires labels != [] && Holds(query, qi, Dotted(labels))
    ensures Holds(query, qi, labels[0])
    ensures labels[1..] != [] ==> Holds(query, qi + |labels[0]| + 1, Dotted(labels[1..]))
  {
    var l, rest := labels[0], labels[1..];
    if rest != [] {
      HoldsSplit(query, qi, l + [DOT], Dotted(rest));
      HoldsSplit(query, qi, l, [DOT]);
    }
  }

  /** Comparing a name with its own encoding, in any case, gives the offset behind the encoding. */
  lemma {:induction false} CompareRoundTrip(labels: seq<seq<Byte>>, query: nat -> Byte, qi: nat, m: Message, off: nat)
    requires labels != [] && AllGood(labels)
    requires Holds(query, qi, Dotted(labels)) && SpelledAt(m, off, Wire(labels))
    ensures CompareFrom(query, qi, m, off) == off + |Wire(labels)|
    decreases |labels|
  {
    hide Prefixed, Holds, Dotted, SpelledAt, LabelMatches;
    WireLayout(labels, m, off, [0]);
    DottedLayout(labels, query, qi);
    WireMore(labels);
    var l, rest := labels[0], labels[1..];
    HeldMatches(query, qi, m, off + 1, l);
    if rest == [] {
      RootAt(m, off + 1 + |l|);
    } else {
      WireLayout(rest, m, off + 1 + |l|, [0]);
      CompareRoundTrip(rest, query, qi + |l| + 1, m, off + 1 + |l|);
    }
  }

  lemma RootAt(m: Message, off: nat)
    requires SpelledAt(m, off, Prefixed([]) + [0])
    ensures off < |m| && m[off] == 0 && |Wire([])| == 1
  {
    var w: seq<Byte> := Prefixed([]) + [0];
    assert w == [0];
    ByteAt(m, off, 0);
  }

  /** Skipping an encoded name gives the same offset. */
  lemma {:induction false} SkipRoundTrip(labels: seq<seq<Byte>>, m: Message, off: nat)
    requires labels != [] && AllGood(labels) && SpelledAt(m, off, Wire(labels))
    ensures SkipFrom(m, off) == off + |Wire(labels)|
    decreases |labels|
  {
    hide Prefixed, SpelledAt;
    WireLayout(labels, m, off, [0]);
    WireMore(labels);
    var l, rest := labels[0], labels[1..];
    if rest == [] {
      RootAt(m, off + 1 + |l|);
    } else {
      WireLayout(rest, m, off + 1 + |l|, [0]);
      SkipRoundTrip(rest, m, off + 1 + |l|);
    }
  }

  /** Skipping a name that ends in a compression pointer gives the offset behind the two bytes of the
      pointer; there may be no label before it. */
  lemma {:induction false} SkipPointer(labels: seq<seq<Byte>>, m: Message, off: nat, hi: Byte, lo: Byte)
    requires AllGood(labels) && 192 <= hi && SpelledAt(m, off, Prefixed(labels) + [hi, lo])
    ensures SkipFrom(m, off) == off + |Prefixed(labels)| + 2
    decreases |labels|
  {
    hide SpelledAt;
    if labels == [] {
      PointerAt(m, off, hi, lo);
    } else {
      var l, rest := labels[0], labels[1..];
      WireLayout(labels, m, off, [hi, lo]);
      assert |Prefixed(labels)| == 1 + |l| + |Prefixed(rest)|;
      if rest == [] {
        PointerAt(m, off + 1 + |l|, hi, lo);
      } else {
        WireLayout(rest, m, off + 1 + |l|, [hi, lo]);
      }
      hide Prefixed;
      SkipPointer(rest, m, off + 1 + |l|, hi, lo);
    }
  }

  lemma PointerAt(m: Message, off: nat, hi: Byte, lo: Byte)
    requires SpelledAt(m, off, Prefixed([]) + [hi, lo]) && 192 <= hi
    ensures off + 1 < |m| && 192 <= m[off]
  {
    var w: seq<Byte> := Prefixed([]) + [hi, lo];
    assert w == [hi, lo];
    assert SameLetter(m[off + 0], w[0]);
  }

  /** What the encoder writes for a good name is read back by both readers, whatever the server did to
      the case of the letters. */
  lemma NameRoundTrip(labels: seq<seq<Byte>>, query: nat -> Byte, m: Message, off: nat)
    requires labels != [] && AllGood(labels) && Holds(query, 0, Dotted(labels))
    requires SpelledAt(m, off, Encode(Dotted(labels)))
    ensures CompareFrom(query, 0, m, off) == off + |Encode(Dotted(labels))| == SkipFrom(m, off)
  {
    EncodeDotted(labels);
    CompareRoundTrip(labels, query, 0, m, off);
    SkipRoundTrip(labels, m, off);
  }

  // ---------------------------------------------------------------- what a comparison shows

  /** The names are equal up to the case of letters. */
  ghost predicate Alike(a: seq<Byte>, b: seq<Byte>) {
    |a| == |b| && forall j :: 0 <= j < |a| ==> SameLetter(a[j], b[j])
  }

  /** The message has these labels at `off`, each behind its length, with a zero behind the last one only. */
  ghost predicate NameAt(m: Message, off: nat, labels: seq<seq<Byte>>)
    decreases |labels|
  {
    && labels != [] && |labels[0]| < 192 && off + 1 + |labels[0]| < |m|
    && m[off] as nat == |labels[0]| && m[off + 1..off + 1 + |labels[0]|] == labels[0]
    && (|labels| == 1 <==> m[off + 1 + |labels[0]|] == 0)
    && (|labels| > 1 ==> NameAt(m, off + 1 + |labels[0]|, labels[1..]))
  }

  /** Where they end. */
  function NameEnd(off: nat, labels: seq<seq<Byte>>): nat
    decreases |labels|
  {
    if labels == [] then off + 1 else NameEnd(off + 1 + |labels[0]|, labels[1..])
  }

  /** The memory from `qi` on has, up to case, the bytes of the labels, with any byte between one label and the next. */
  ghost predicate Fits(query: nat -> Byte, qi: nat, labels: seq<seq<Byte>>)
    decreases |labels|
  {
    labels != [] ==>
      && (forall j :: 0 <= j < |labels[0]| ==> SameLetter(query(qi + j), labels[0][j]))
      && Fits(query, qi + |labels[0]| + 1, labels[1..])
  }

  lemma LabelFits(query: nat -> Byte, qi: nat, m: Message, off: nat, l: seq<Byte>)
    requires off + |l| <= |m| && m[off..off + |l|] == l
    ensures LabelMatches(query, qi, m, off, |l|) <==> forall j :: 0 <= j < |l| ==> SameLetter(query(qi + j), l[j])
  {
    forall j | 0 <= j < |l|
      ensures Agrees(query, qi, m, off, j) <==> SameLetter(query(qi + j), l[j])
    {
      assert m[off + j] == m[off..off + |l|][j];
    }
    if forall j :: 0 <= j < |l| ==> SameLetter(query(qi + j), l[j]) {
      forall j | 0 <= j < |l|
        ensures Agrees(query, qi, m, off, j)
      {
        assert SameLetter(query(qi + j), l[j]);
      }
    }
  }

  /** A comparison that succeeds has found a name whose labels fit, and ends behind it. */
  lemma {:induction false} CompareFinds(query: nat -> Byte, qi: nat, m: Message, off: nat) returns (labels: seq<seq<Byte>>)
    requires CompareFrom(query, qi, m, off) != BAD
    ensures NameAt(m, off, labels) && Fits(query, qi, labels) && NameEnd(off, labels) == CompareFrom(query, qi, m, off)
    decreases |m| - off
  {
    hide LabelMatches, SameLetter;
    var n := m[off] as nat;
    var l := m[off + 1..off + 1 + n];
    LabelFits(query, qi, m, off + 1, l);
    if m[off + 1 + n] == 0 {
      labels := [l];
    } else {
      var rest := CompareFinds(query, qi + n + 1, m, off + 1 + n);
      labels := [l] + rest;
      assert labels[1..] == rest;
    }
  }

  /** Every name whose labels fit is found. */
  lemma {:induction false} CompareFits(query: nat -> Byte, qi: nat, m: Message, off: nat, labels: seq<seq<Byte>>)
    requires NameAt(m, off, labels) && Fits(query, qi, labels)
    ensures CompareFrom(query, qi, m, off) == NameEnd(off, labels)
    decreases |labels|
  {
    hide LabelMatches, SameLetter;
    var l := labels[0];
    LabelFits(query, qi, m, off + 1, l);
    if |labels| > 1 {
      CompareFits(query, qi + |l| + 1, m, off + 1 + |l|, labels[1..]);
    }
  }

  ghost predicate SameLengths(a: seq<seq<Byte>>, b: seq<seq<Byte>>) {
    |a| == |b| && forall i :: 0 <= i < |a| ==> |a[i]| == |b[i]|
  }

  lemma DotAlone(a: seq<Byte>, b: seq<Byte>, j: nat)
    requires j < |a| && j < |b| && (a[j] == DOT) != (b[j] == DOT)
    ensures !Alike(a, b)
  {
    assert !SameLetter(a[j], b[j]);
  }

  lemma DottedAt(labels: seq<seq<Byte>>)
    requires labels != [] && AllGood(labels)
    ensures var d, l := Dotted(labels), labels[0];
      && |l| <= |d| && d[..|l|] == l && (forall j :: 0 <= j < |l| ==> d[j] == l[j] != DOT)
      && if |labels| == 1 then d == l
         else |l| + 1 < |d| && d[|l|] == DOT && d[|l| + 1..] == Dotted(labels[1..]) && Dotted(labels[1..]) != []
  {
    assert Good(labels[0]);
    if |labels| > 1 {
      assert Good(labels[1..][0]);
    }
  }

  /** Names whose labels fit need not be equal: they are exactly if their labels have the same lengths. */
  lemma {:induction false} FittingNames(query: nat -> Byte, qi: nat, own: seq<seq<Byte>>, labels: seq<seq<Byte>>)
    requires own != [] && AllGood(own) && labels != [] && AllGood(labels)
    requires Holds(query, qi, Dotted(own)) && Fits(query, qi, labels)
    ensures Alike(Dotted(own), Dotted(labels)) <==> SameLengths(own, labels)
    decreases |own|
  {
    hide Dotted, Holds, SameLetter, Good;
    DottedAt(own);
    DottedAt(labels);
    DottedLayout(own, query, qi);
    var a, b := own[0], labels[0];
    if |a| < |b| {
      if |own| > 1 {
        DotAlone(Dotted(own), Dotted(labels), |a|);
      }
    } else if |b| < |a| {
      if |labels| > 1 {
        DotAlone(Dotted(own), Dotted(labels), |b|);
      }
    } else {
      FirstAlike(query, qi, a, b);
      if |own| > 1 && |labels| > 1 {
        FittingNames(query, qi + |a| + 1, own[1..], labels[1..]);
        LaterLengths(own, labels);
        LaterAlike(Dotted(own), Dotted(labels), |a|);
      }
    }
  }

  lemma FirstAlike(query: nat -> Byte, qi: nat, a: seq<Byte>, b: seq<Byte>)
    requires |a| == |b| && Holds(query, qi, a) && forall j :: 0 <= j < |b| ==> SameLetter(query(qi + j), b[j])
    ensures Alike(a, b)
  {
    forall j | 0 <= j < |a|
      ensures SameLetter(a[j], b[j])
    {
      assert SameLetter(query(qi + j), b[j]);
    }
  }

  lemma LaterLengths(a: seq<seq<Byte>>, b: seq<seq<Byte>>)
    requires a != [] && b != [] && |a[0]| == |b[0]|
    ensures SameLengths(a, b) <==> SameLengths(a[1..], b[1..])
  {
    if SameLengths(a[1..], b[1..]) {
      forall i | 0 <= i < |a|
        ensures |a[i]| == |b[i]|
      {
        if i > 0 {
          assert |a[1..][i - 1]| == |b[1..][i - 1]|;
        }
      }
    }
  }

  lemma LaterAlike(d: seq<Byte>, e: seq<Byte>, n: nat)
    requires n < |d| && n < |e| && d[n] == e[n] == DOT && Alike(d[..n], e[..n])
    ensures Alike(d, e) <==> Alike(d[n + 1..], e[n + 1..])
  {
    if Alike(d[n + 1..], e[n + 1..]) {
      forall j | 0 <= j < |d|
        ensures SameLetter(d[j], e[j])
      {
        if j < n {
          assert SameLetter(d[..n][j], e[..n][j]);
        } else if j > n {
          assert SameLetter(d[n + 1..][j - n - 1], e[n + 1..][j - n - 1]);
        }
      }
    }
    if Alike(d, e) {
      var later, more := d[n + 1..], e[n + 1..];
      forall j | 0 <= j < |later|
        ensures SameLetter(later[j], more[j])
      {
        assert SameLetter(d[n + 1 + j], e[n + 1 + j]);
      }
    }
  }

  /** A name in a message that is not the one compared with it, and is taken for it: `a.c` for `abc`, where the byte between
      the labels is not looked at, and `a` for `a.c`, where the comparison ends with the message. */
  lemma OtherNamesCompare()
    ensures CompareFrom((i: nat) => if i < 3 then [97, 98, 99][i] else 0, 0, [1, 97, 1, 99, 0], 0) == 5
    ensures CompareFrom((i: nat) => if i < 3 then [97, 46, 99][i] else 0, 0, [1, 97, 0], 0) == 3
  {
    var abc: nat -> Byte := (i: nat) => if i < 3 then [97, 98, 99][i] else 0;
    var adc: nat -> Byte := (i: nat) => if i < 3 then [97, 46, 99][i] else 0;
    var long: Message, short: Message := [1, 97, 1, 99, 0], [1, 97, 0];
    assert NameAt(long, 2, [[99]]);
    assert [[97], [99]][1..] == [[99]];
    assert NameAt(long, 0, [[97], [99]]) && Fits(abc, 0, [[97], [99]]);
    CompareFits(abc, 0, long, 0, [[97], [99]]);
    assert NameAt(short, 0, [[97]]) && Fits(adc, 0, [[97]]);
    CompareFits(adc, 0, short, 0, [[97]]);
  }
}
