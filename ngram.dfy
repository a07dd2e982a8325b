/** The n-gram splitter: cuts what a byte source delivers into consecutive,
    non-overlapping groups of exactly `ngram` bytes, padding the last short
    group with a padding byte. */
module NGram {
  import opened Bytes
  import opened ByteSource

  datatype Option<T> = None | Some(value: T)

  /** The group built from one read of `|chunk|` bytes: the chunk itself,
      then padding up to `ngram` bytes. */
  function Pad(chunk: seq<byte>, ngram: nat, padding: byte): (r: seq<byte>)
    requires |chunk| <= ngram
    ensures |r| == ngram
    ensures r[..|chunk|] == chunk
    ensures forall i :: |chunk| <= i < ngram ==> r[i] == padding
  {
    chunk + Repeat(padding, ngram - |chunk|)
  }

  /** The groups a splitter yields, call after call, from a reader whose
      remaining bytes are `rest`: each call reads up to `ngram` bytes and
      stops the sequence when it gets none. */
  function Groups(rest: seq<byte>, ngram: nat, padding: byte): (r: seq<seq<byte>>)
    ensures forall i :: 0 <= i < |r| ==> |r[i]| == ngram
    ensures r == [] <==> rest == [] || ngram == 0
    decreases |rest|
  {
    var k := Min(ngram, |rest|);
    if k == 0 then []
    else [Pad(rest[..k], ngram, padding)] + Groups(rest[k..], ngram, padding)
  }

  /** A read that fills the whole buffer yields the bytes read, unpadded. */
  lemma GroupsFull(rest: seq<byte>, ngram: nat, padding: byte)
    requires 0 < ngram <= |rest|
    ensures Groups(rest, ngram, padding) == [rest[..ngram]] + Groups(rest[ngram..], ngram, padding)
  {
    assert Pad(rest[..ngram], ngram, padding) == rest[..ngram];
  }

  /** A short read of what is left yields the last group, padded. */
  lemma GroupsShort(rest: seq<byte>, ngram: nat, padding: byte)
    requires 0 < |rest| < ngram
    ensures Groups(rest, ngram, padding) == [Pad(rest, ngram, padding)]
  {
    assert rest[..|rest|] == rest;
    assert Groups(rest[|rest|..], ngram, padding) == [];
  }

  /** Groups of one byte are the input bytes one by one, unpadded. */
  lemma {:induction false} GroupsOfOne(rest: seq<byte>, padding: byte)
    ensures Groups(rest, 1, padding) == seq(|rest|, i requires 0 <= i < |rest| => [rest[i]])
    decreases |rest|
  {
    if |rest| > 0 {
      GroupsFull(rest, 1, padding);
      GroupsOfOne(rest[1..], padding);
      assert rest[..1] == [rest[0]];
    }
  }

  /** `a / n` rounded up. */
  function CeilDiv(a: nat, n: nat): nat
    requires n > 0
  {
    (a + n - 1) / n
  }

  /** How many padding bytes complete the last group of `len` bytes. */
  function PadLength(len: nat, n: nat): nat
    requires n > 0
  {
    (n - len % n) % n
  }

  /** Quotient and remainder are determined by `a == q * n + r`. */
  lemma DivUnique(a: int, n: int, q: int, r: int)
    requires n > 0 && 0 <= r < n && a == q * n + r
    ensures a / n == q && a % n == r
  {
    var q', r' := a / n, a % n;
    if q > q' {
      MulAtLeast(q - q', n);
      assert false;
    } else if q < q' {
      MulAtLeast(q' - q, n);
      assert false;
    }
  }

  lemma MulAtLeast(d: int, n: int)
    requires d >= 1 && n > 0
    ensures d * n >= n
  {
    assert d * n == (d - 1) * n + n;
  }

  lemma DivStep(x: nat, n: nat)
    requires n > 0
    ensures (x + n) / n == x / n + 1
    ensures (x + n) % n == x % n
  {
    var q, r := x / n, x % n;
    assert x + n == (q + 1) * n + r;
    DivUnique(x + n, n, q + 1, r);
  }

  lemma PadLengthShort(len: nat, n: nat)
    requires 0 <= len < n
    ensures PadLength(len, n) == if len == 0 then 0 else n - len
  {
    DivUnique(len, n, 0, len);
    if len == 0 {
      DivUnique(n, n, 1, 0);
    } else {
      DivUnique(n - len, n, 0, n - len);
    }
  }

  lemma PadLengthStep(len: nat, n: nat)
    requires n > 0
    ensures PadLength(len + n, n) == PadLength(len, n)
  {
    DivStep(len, n);
  }

  lemma CeilDivOne(a: nat, n: nat)
    requires 0 < a <= n
    ensures CeilDiv(a, n) == 1
  {
    DivUnique(a + n - 1, n, 1, a - 1);
  }

  lemma CeilDivStep(a: nat, n: nat)
    requires n > 0
    ensures CeilDiv(a + n, n) == CeilDiv(a, n) + 1
  {
    DivStep(a + n - 1, n);
  }

  /** A full drain of `L` bytes yields `ceil(L / ngram)` groups. */
  lemma {:induction false} GroupsCount(rest: seq<byte>, ngram: nat, padding: byte)
    requires ngram > 0
    ensures |Groups(rest, ngram, padding)| == CeilDiv(|rest|, ngram)
    decreases |rest|
  {
    if |rest| == 0 {
      DivUnique(ngram - 1, ngram, 0, ngram - 1);
    } else if |rest| < ngram {
      GroupsShort(rest, ngram, padding);
      CeilDivOne(|rest|, ngram);
    } else {
      GroupsFull(rest, ngram, padding);
      GroupsCount(rest[ngram..], ngram, padding);
      CeilDivStep(|rest[ngram..]|, ngram);
      assert |rest[ngram..]| + ngram == |rest|;
    }
  }

  /** A full drain hands out the input followed by just enough padding
      bytes to complete the last group. */
  lemma {:induction false} GroupsFlatten(rest: seq<byte>, ngram: nat, padding: byte)
    requires ngram > 0
    ensures Flatten(Groups(rest, ngram, padding)) == rest + Repeat(padding, PadLength(|rest|, ngram))
    decreases |rest|
  {
    var n := ngram;
    var gs := Groups(rest, n, padding);
    if |rest| == 0 {
      PadLengthShort(0, n);
    } else if |rest| < n {
      PadLengthShort(|rest|, n);
      assert rest[..|rest|] == rest;
      assert Groups(rest[|rest|..], n, padding) == [];
      assert gs == [Pad(rest, n, padding)];
      assert Flatten(gs) == Pad(rest, n, padding) + Flatten([]);
    } else {
      var tail := rest[n..];
      GroupsFlatten(tail, n, padding);
      PadLengthStep(|tail|, n);
      assert rest[..n] == Pad(rest[..n], n, padding);
      assert gs == [rest[..n]] + Groups(tail, n, padding);
      assert Flatten(gs) == rest[..n] + Flatten(Groups(tail, n, padding));
      assert rest == rest[..n] + tail;
    }
  }

  lemma MulShift(i: nat, n: nat, j: nat)
    requires i > 0
    ensures (i - 1) * n + j + n == i * n + j
  {
  }

  /** Byte `j` of group `i` is input byte `i * ngram + j` when there is
      one, and the padding byte otherwise: stale scratch bytes never show. */
  lemma {:induction false} GroupAt(rest: seq<byte>, ngram: nat, padding: byte, i: nat, j: nat)
    requires i < |Groups(rest, ngram, padding)| && j < ngram
    ensures Groups(rest, ngram, padding)[i][j] ==
              if i * ngram + j < |rest| then rest[i * ngram + j] else padding
    decreases i
  {
    if ngram <= |rest| {
      GroupsFull(rest, ngram, padding);
      if i > 0 {
        GroupAt(rest[ngram..], ngram, padding, i - 1, j);
        MulShift(i, ngram, j);
      }
    } else {
      GroupsShort(rest, ngram, padding);
    }
  }

  /** Splits what `reader` delivers into groups of `ngram` bytes, reusing
      one scratch buffer `buf` for every read. */
  class NGramSpliter {
    const reader: BytesReader
    const ngram: nat
    const buf: array<byte>
    const padding: byte

    ghost predicate Valid()
      reads this, reader
    {
      reader.Valid() && buf.Length == ngram
    }

    /** The groups the splitter will still hand out. */
    ghost function Pending(): seq<seq<byte>>
      reads this, reader
      requires Valid()
    {
      Groups(reader.Remaining(), ngram, padding)
    }

    /** A splitter over `reader` whose scratch buffer holds `ngram` zeros
        and whose short last group is completed with `padding`. */
    constructor WithPadding(reader: BytesReader, ngram: nat, padding: byte)
      requires reader.Valid()
      ensures Valid() && fresh(buf)
      ensures this.reader == reader && this.ngram == ngram && this.padding == padding
      ensures buf[..] == Repeat(0, ngram)
    {
      this.reader := reader;
      this.ngram := ngram;
      this.padding := padding;
      var a := new byte[ngram];
      for i := 0 to ngram
        invariant forall j :: 0 <= j < i ==> a[j] == 0
      {
        a[i] := 0;
      }
      this.buf := a;
    }

    /** Reads up to `ngram` bytes into the scratch buffer; none stops the
        sequence, a short read has the rest of the buffer overwritten with
        the padding byte, and the caller gets a copy of the buffer. */
    method Next() returns (g: Option<seq<byte>>)
      requires Valid()
      modifies reader`index, buf
      ensures Valid()
      ensures var rest := old(reader.Remaining());
              var k := Min(ngram, |rest|);
              && reader.index == old(reader.index) + k
              && (g.None? <==> k == 0)
              && (g.Some? ==> g.value == Pad(rest[..k], ngram, padding) && g.value == buf[..])
      ensures old(Pending()) == (if g.Some? then [g.value] else []) + Pending()
    {
      ghost var rest := reader.Remaining();
      var r := reader.Read(buf);
      match r
      case Ok(n) =>
        if n == 0 {
          g := None;
        } else {
          var s := n;
          ghost var after := reader.index;
          while s < ngram
            invariant n <= s <= ngram
            invariant reader.index == after
            invariant buf[..n] == rest[..n]
            invariant forall i :: n <= i < s ==> buf[i] == padding
            decreases ngram - s
          {
            buf[s] := padding;
            s := s + 1;
          }
          g := Some(buf[..]);
          assert buf[..] == Pad(rest[..n], ngram, padding);
          assert rest[n..] == reader.Remaining();
        }
      case Err =>
        g := None;
    }
  }

  /** `NGramSpliter::new`: a splitter that pads with 0. */
  method NewSpliter(reader: BytesReader, ngram: nat) returns (s: NGramSpliter)
    requires reader.Valid()
    ensures s.Valid() && fresh(s) && fresh(s.buf)
    ensures s.reader == reader && s.ngram == ngram && s.padding == 0
    ensures s.buf[..] == Repeat(0, ngram)
  {
    s := new NGramSpliter.WithPadding(reader, ngram, 0);
  }

  /** Iterates the splitter to exhaustion and collects every group it yields. */
  method Drain(s: NGramSpliter) returns (groups: seq<seq<byte>>)
    requires s.Valid()
    modifies s.reader`index, s.buf
    ensures s.Valid()
    ensures groups == old(s.Pending())
    ensures s.Pending() == []
  {
    groups := [];
    var done := false;
    while !done
      invariant s.Valid()
      invariant old(s.Pending()) == groups + s.Pending()
      invariant done ==> s.Pending() == []
      decreases !done, |s.reader.bytes| - s.reader.index
    {
      var g := s.Next();
      match g
      case Some(v) =>
        groups := groups + [v];
      case None =>
        done := true;
    }
  }
}
