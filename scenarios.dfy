/** The repository's unit tests, restated as client methods whose
    postconditions are the tests' expected values; each is proved from the
    contracts of the reader, the splitter and the counter alone. */
module Scenarios {
  import opened Bytes
  import opened ByteSource
  import opened NGram
  import opened NGramCounting

  /** A buffer exactly as long as the input receives all of it. */
  method ReadWholeSlice() returns (n: nat, buf: seq<byte>)
    ensures n == 5 && buf == [1, 2, 3, 4, 5]
  {
    var reader := new BytesReader([1, 2, 3, 4, 5]);
    var b := new byte[5](_ => 0);
    var r := reader.Read(b);
    n, buf := r.count, b[..];
    assert buf == buf[..n];
  }

  /** An empty reader returns 0 and leaves the buffer as it was. */
  method ReadEmptySlice() returns (n: nat, buf: seq<byte>)
    ensures n == 0 && buf == [0, 0, 0, 0, 0]
  {
    var reader := new BytesReader([]);
    var b := new byte[5](_ => 0);
    var r := reader.Read(b);
    n, buf := r.count, b[..];
    assert buf == buf[n..];
  }

  /** Three reads into a two-byte buffer: the last one copies the final
      byte and leaves the stale second byte in place. */
  method ReadInPairs() returns (n1: nat, b1: seq<byte>, n2: nat, b2: seq<byte>, n3: nat, b3: seq<byte>)
    ensures n1 == 2 && b1 == [1, 2]
    ensures n2 == 2 && b2 == [3, 4]
    ensures n3 == 1 && b3 == [5, 4]
  {
    var reader := new BytesReader([1, 2, 3, 4, 5]);
    var b := new byte[2](_ => 0);
    var r := reader.Read(b);
    n1, b1 := r.count, b[..];
    assert b1 == b1[..n1];
    r := reader.Read(b);
    n2, b2 := r.count, b[..];
    assert b2 == b2[..n2];
    r := reader.Read(b);
    n3, b3 := r.count, b[..];
    assert b3 == b3[..n3] + b3[n3..];
  }

  /** Drains a fresh zero-padded splitter over `text`. */
  method SplitAll(text: seq<byte>, ngram: nat) returns (groups: seq<seq<byte>>)
    ensures groups == Groups(text, ngram, 0)
  {
    var reader := new BytesReader(text);
    var spliter := NewSpliter(reader, ngram);
    assert reader.Remaining() == text;
    groups := Drain(spliter);
  }

  /** Groups of one byte are the input bytes one by one. */
  method SplitByOne() returns (groups: seq<seq<byte>>)
    ensures groups == [[1], [1], [2], [2], [3], [3], [4], [4]]
  {
    var text: seq<byte> := [1, 1, 2, 2, 3, 3, 4, 4];
    groups := SplitAll(text, 1);
    GroupsOfOne(text, 0);
  }

  /** Groups of two bytes over an input of even length need no padding. */
  method SplitByTwo() returns (groups: seq<seq<byte>>)
    ensures groups == [[1, 1], [2, 2], [3, 3], [4, 4]]
  {
    var t0: seq<byte> := [1, 1, 2, 2, 3, 3, 4, 4];
    groups := SplitAll(t0, 2);
    GroupsFull(t0, 2, 0);
    assert t0[..2] == [1, 1];
    ghost var t1 := t0[2..];
    assert t1 == [2, 2, 3, 3, 4, 4];
    GroupsFull(t1, 2, 0);
    assert t1[..2] == [2, 2];
    ghost var t2 := t1[2..];
    assert t2 == [3, 3, 4, 4];
    GroupsFull(t2, 2, 0);
    assert t2[..2] == [3, 3];
    ghost var t3 := t2[2..];
    assert t3 == [4, 4];
    GroupsFull(t3, 2, 0);
    assert t3[..2] == [4, 4];
    ghost var t4 := t3[2..];
    assert t4 == [];
  }

  /** Groups of three bytes over eight bytes: the third group is padded. */
  method SplitByThree() returns (groups: seq<seq<byte>>)
    ensures groups == [[1, 1, 2], [2, 3, 3], [4, 4, 0]]
  {
    var t0: seq<byte> := [1, 1, 2, 2, 3, 3, 4, 4];
    groups := SplitAll(t0, 3);
    GroupsFull(t0, 3, 0);
    assert t0[..3] == [1, 1, 2];
    ghost var t1 := t0[3..];
    assert t1 == [2, 3, 3, 4, 4];
    GroupsFull(t1, 3, 0);
    assert t1[..3] == [2, 3, 3];
    ghost var t2 := t1[3..];
    assert t2 == [4, 4];
    GroupsShort(t2, 3, 0);
    assert Pad(t2, 3, 0) == [4, 4, 0];
  }

  /** A splitter over an empty input yields nothing on its first call. */
  method SplitEmpty() returns (g: Option<seq<byte>>)
    ensures g == None
  {
    var reader := new BytesReader([]);
    var spliter := NewSpliter(reader, 2);
    g := spliter.Next();
  }

  /** A splitter with a group size of 0 reads into an empty buffer, gets
      0 bytes and so yields nothing, whatever the input. */
  method SplitZeroSize() returns (g: Option<seq<byte>>)
    ensures g == None
  {
    var reader := new BytesReader([1, 2, 3]);
    var spliter := NewSpliter(reader, 0);
    g := spliter.Next();
  }

  /** Calling `Next` by hand: each call overwrites the scratch buffer, yet
      the groups handed out earlier keep their values. */
  method SplitStepwise() returns (g1: Option<seq<byte>>, g2: Option<seq<byte>>, g3: Option<seq<byte>>, g4: Option<seq<byte>>)
    ensures g1 == Some([1, 1, 2]) && g2 == Some([2, 3, 3]) && g3 == Some([4, 4, 0]) && g4 == None
  {
    var text: seq<byte> := [1, 1, 2, 2, 3, 3, 4, 4];
    var reader := new BytesReader(text);
    var spliter := NewSpliter(reader, 3);
    assert reader.Remaining() == text && text[..3] == [1, 1, 2];
    g1 := spliter.Next();
    assert Pad([1, 1, 2], 3, 0) == [1, 1, 2];
    ghost var rest := reader.Remaining();
    assert rest == text[3..] && rest[..3] == [2, 3, 3];
    g2 := spliter.Next();
    assert Pad([2, 3, 3], 3, 0) == [2, 3, 3];
    rest := reader.Remaining();
    assert rest == text[6..] && rest[..2] == [4, 4];
    g3 := spliter.Next();
    assert Pad([4, 4], 3, 0) == [4, 4, 0];
    g4 := spliter.Next();
  }

  /** A tally that agrees with the multiset `ms` and has no zero entries is
      the map that lists exactly the elements of `ms`, each with its
      multiplicity. */
  lemma SameCounts(m: Counts, expected: Counts, ms: multiset<seq<byte>>)
    requires forall g :: Get(m, g) == ms[g]
    requires forall g :: g in m ==> m[g] >= 1
    requires forall g :: g in expected <==> g in ms
    requires forall g :: g in expected ==> expected[g] == ms[g]
    ensures m == expected
  {
    assert forall g :: g in m <==> g in expected;
  }

  lemma GroupsOfCountByOne()
    ensures |Groups([1, 1, 2, 2, 2, 3], 1, 0)| == 6
    ensures multiset(Groups([1, 1, 2, 2, 2, 3], 1, 0)) ==
              multiset{[1 as byte], [1 as byte], [2 as byte], [2 as byte], [2 as byte], [3 as byte]}
  {
    var text: seq<byte> := [1, 1, 2, 2, 2, 3];
    GroupsOfOne(text, 0);
    assert Groups(text, 1, 0) == [[1], [1], [2], [2], [2], [3]];
  }

  lemma TallyOfCountByOne(m: Counts)
    requires forall g :: Get(m, g) ==
               multiset{[1 as byte], [1 as byte], [2 as byte], [2 as byte], [2 as byte], [3 as byte]}[g]
    requires forall g :: g in m ==> m[g] >= 1
    ensures m == map[[1] := 2, [2] := 3, [3] := 1]
  {
    var a: seq<byte>, b: seq<byte>, c: seq<byte> := [1], [2], [3];
    assert a != b && a != c && b != c by { assert a[0] != b[0] && a[0] != c[0] && b[0] != c[0]; }
    var ms := multiset{a, a, b, b, b, c};
    assert ms[a] == 2 && ms[b] == 3 && ms[c] == 1;
    SameCounts(m, map[a := 2, b := 3, c := 1], ms);
  }

  /** Counts single bytes. */
  method CountByOne() returns (count: Counts, size: nat)
    ensures size == 6
    ensures count == map[[1] := 2, [2] := 3, [3] := 1]
  {
    var text: seq<byte> := [1, 1, 2, 2, 2, 3];
    var counter := new NgramCounter.FromBytes(text, 1);
    count, size := counter.Count(), counter.Size();
    GroupsOfCountByOne();
    TallyOfCountByOne(count);
  }

  lemma GroupsOfCountByTwo()
    ensures Groups([1, 1, 2, 2, 2, 2], 2, 0) == [[1, 1], [2, 2], [2, 2]]
    ensures multiset(Groups([1, 1, 2, 2, 2, 2], 2, 0)) == multiset{[1 as byte, 1], [2 as byte, 2], [2 as byte, 2]}
  {
    var t0: seq<byte> := [1, 1, 2, 2, 2, 2];
    GroupsFull(t0, 2, 0);
    assert t0[..2] == [1, 1];
    var t1 := t0[2..];
    assert t1 == [2, 2, 2, 2];
    GroupsFull(t1, 2, 0);
    assert t1[..2] == [2, 2];
    var t2 := t1[2..];
    assert t2 == [2, 2];
    GroupsFull(t2, 2, 0);
    assert t2[..2] == [2, 2];
    var t3 := t2[2..];
    assert t3 == [];
  }

  lemma TallyOfCountByTwo(m: Counts)
    requires forall g :: Get(m, g) == multiset{[1 as byte, 1], [2 as byte, 2], [2 as byte, 2]}[g]
    requires forall g :: g in m ==> m[g] >= 1
    ensures m == map[[1, 1] := 1, [2, 2] := 2]
  {
    var a: seq<byte>, b: seq<byte> := [1, 1], [2, 2];
    assert a != b by { assert a[0] != b[0]; }
    var ms := multiset{a, b, b};
    assert ms[a] == 1 && ms[b] == 2;
    SameCounts(m, map[a := 1, b := 2], ms);
  }

  /** Counts pairs of bytes. */
  method CountByTwo() returns (count: Counts, size: nat)
    ensures size == 3
    ensures count == map[[1, 1] := 1, [2, 2] := 2]
  {
    var counter := new NgramCounter.FromBytes([1, 1, 2, 2, 2, 2], 2);
    count, size := counter.Count(), counter.Size();
    GroupsOfCountByTwo();
    TallyOfCountByTwo(count);
  }

  lemma GroupsOfCountByThree()
    ensures Groups([1, 1, 1, 2, 2], 3, 0) == [[1, 1, 1], [2, 2, 0]]
    ensures multiset(Groups([1, 1, 1, 2, 2], 3, 0)) == multiset{[1 as byte, 1, 1], [2 as byte, 2, 0]}
  {
    var t0: seq<byte> := [1, 1, 1, 2, 2];
    GroupsFull(t0, 3, 0);
    assert t0[..3] == [1, 1, 1];
    var t1 := t0[3..];
    assert t1 == [2, 2];
    GroupsShort(t1, 3, 0);
    assert Pad(t1, 3, 0) == [2, 2, 0];
  }

  lemma TallyOfCountByThree(m: Counts)
    requires forall g :: Get(m, g) == multiset{[1 as byte, 1, 1], [2 as byte, 2, 0]}[g]
    requires forall g :: g in m ==> m[g] >= 1
    ensures m == map[[1, 1, 1] := 1, [2, 2, 0] := 1]
  {
    var a: seq<byte>, b: seq<byte> := [1, 1, 1], [2, 2, 0];
    assert a != b by { assert a[0] != b[0]; }
    var ms := multiset{a, b};
    assert ms[a] == 1 && ms[b] == 1;
    SameCounts(m, map[a := 1, b := 1], ms);
  }

  /** Counts triples of bytes; the short last triple is padded with 0. */
  method CountByThree() returns (count: Counts, size: nat)
    ensures size == 2
    ensures count == map[[1, 1, 1] := 1, [2, 2, 0] := 1]
  {
    var counter := new NgramCounter.FromBytes([1, 1, 1, 2, 2], 3);
    count, size := counter.Count(), counter.Size();
    GroupsOfCountByThree();
    TallyOfCountByThree(count);
  }

  /** An empty input counts nothing. */
  method CountEmpty() returns (count: Counts, size: nat)
    ensures size == 0 && count == map[]
  {
    var counter := new NgramCounter.FromBytes([], 2);
    count, size := counter.Count(), counter.Size();
  }

  lemma GroupsOfCountTwice()
    ensures var gs := Groups([1, 1, 1, 2, 2], 3, 0);
            multiset(gs + gs) == multiset{[1 as byte, 1, 1], [2 as byte, 2, 0], [1 as byte, 1, 1], [2 as byte, 2, 0]}
  {
    GroupsOfCountByThree();
  }

  lemma TallyOfCountTwice(m: Counts)
    requires forall g :: Get(m, g) == multiset{[1 as byte, 1, 1], [2 as byte, 2, 0], [1 as byte, 1, 1], [2 as byte, 2, 0]}[g]
    requires forall g :: g in m ==> m[g] >= 1
    ensures m == map[[1, 1, 1] := 2, [2, 2, 0] := 2]
  {
    var a: seq<byte>, b: seq<byte> := [1, 1, 1], [2, 2, 0];
    assert a != b by { assert a[0] != b[0]; }
    var ms := multiset{a, b, a, b};
    assert ms[a] == 2 && ms[b] == 2;
    SameCounts(m, map[a := 2, b := 2], ms);
  }

  /** Appending the same input a second time doubles every count. */
  method CountTwice() returns (count: Counts, size: nat)
    ensures size == 4
    ensures count == map[[1, 1, 1] := 2, [2, 2, 0] := 2]
  {
    var text: seq<byte> := [1, 1, 1, 2, 2];
    var counter := new NgramCounter.FromBytes(text, 3);
    counter.AppendBytes(text);
    count, size := counter.Count(), counter.Size();
    GroupsOfCountByThree();
    GroupsOfCountTwice();
    TallyOfCountTwice(count);
  }
}
