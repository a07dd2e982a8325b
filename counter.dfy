/** The n-gram counter: a tally of the groups a splitter yields, kept
    together with the number of groups counted so far. */
module NGramCounting {
  import opened Bytes
  import opened ByteSource
  import opened NGram

  /** Occurrences per group; a group that never occurred has no entry. */
  type Counts = map<seq<byte>, nat>

  /** The number of times `g` was counted in `m`. */
  function Get(m: Counts, g: seq<byte>): nat
  {
    if g in m then m[g] else 0
  }

  /** `m` with one more occurrence of `g` and every other entry as it was. */
  function Inc(m: Counts, g: seq<byte>): (r: Counts)
    ensures Get(r, g) == Get(m, g) + 1
    ensures forall h :: h != g ==> Get(r, h) == Get(m, h)
    ensures r.Keys == m.Keys + {g}
  {
    m[g := Get(m, g) + 1]
  }

  /** The counts after counting every group of `gs`, in order, on top of `m`. */
  function Tally(m: Counts, gs: seq<seq<byte>>): Counts
  {
    if gs == [] then m else Inc(Tally(m, gs[..|gs| - 1]), gs[|gs| - 1])
  }

  lemma TallySnoc(m: Counts, gs: seq<seq<byte>>, g: seq<byte>)
    ensures Tally(m, gs + [g]) == Inc(Tally(m, gs), g)
  {
    assert (gs + [g])[..|gs|] == gs;
  }

  /** Counting `a` and then `b` is counting `a` followed by `b`. */
  lemma {:induction false} TallyConcat(m: Counts, a: seq<seq<byte>>, b: seq<seq<byte>>)
    ensures Tally(m, a + b) == Tally(Tally(m, a), b)
  {
    if b == [] {
      assert a + b == a;
    } else {
      var init, last := b[..|b| - 1], b[|b| - 1];
      assert b == init + [last];
      assert a + b == (a + init) + [last];
      TallyConcat(m, a, init);
      TallySnoc(m, a + init, last);
      TallySnoc(Tally(m, a), init, last);
    }
  }

  /** Counting a sequence of groups adds each group's multiplicity in it. */
  lemma {:induction false} TallyIsMultiset(m: Counts, gs: seq<seq<byte>>, g: seq<byte>)
    ensures Get(Tally(m, gs), g) == Get(m, g) + multiset(gs)[g]
    ensures g in Tally(m, gs) <==> g in m || g in gs
  {
    if gs != [] {
      var init, last := gs[..|gs| - 1], gs[|gs| - 1];
      assert gs == init + [last];
      TallyIsMultiset(m, init, g);
    }
  }

  /** The sum of all counts in `m`. */
  ghost function Total(m: Counts): nat
    decreases |m|
  {
    if |m| == 0 then 0
    else
      var k :| k in m;
      assert (m - {k}).Keys == m.Keys - {k};
      m[k] + Total(m - {k})
  }

  /** Some entry `k` whose count the sum starts from. */
  lemma PickEntry(m: Counts) returns (k: seq<byte>)
    requires |m| > 0
    ensures k in m && Total(m) == m[k] + Total(m - {k})
  {
    k :| k in m && Total(m) == m[k] + Total(m - {k});
  }

  lemma RemoveOne(m: Counts, k: seq<byte>)
    requires k in m
    ensures |m - {k}| == |m| - 1
  {
    assert (m - {k}).Keys == m.Keys - {k};
  }

  /** Any entry can be taken out of the sum first. */
  lemma {:induction false} TotalRemove(m: Counts, k: seq<byte>)
    requires k in m
    ensures Total(m) == m[k] + Total(m - {k})
    decreases |m|
  {
    var k' := PickEntry(m);
    if k' != k {
      RemoveOne(m, k');
      RemoveOne(m, k);
      TotalRemove(m - {k'}, k);
      TotalRemove(m - {k}, k');
      assert m - {k'} - {k} == m - {k} - {k'};
    }
  }

  /** Counting one more group raises the sum of counts by one. */
  lemma TotalInc(m: Counts, g: seq<byte>)
    ensures Total(Inc(m, g)) == Total(m) + 1
  {
    var r := Inc(m, g);
    TotalRemove(r, g);
    if g in m {
      TotalRemove(m, g);
      assert r - {g} == m - {g};
    } else {
      assert r - {g} == m;
    }
  }

  /** The sum of the counts grows by exactly the number of groups counted. */
  lemma {:induction false} TallyTotal(m: Counts, gs: seq<seq<byte>>)
    ensures Total(Tally(m, gs)) == Total(m) + |gs|
  {
    if gs != [] {
      TallyTotal(m, gs[..|gs| - 1]);
      TotalInc(Tally(m, gs[..|gs| - 1]), gs[|gs| - 1]);
    }
  }

  /** Counting the same groups a second time doubles every count. */
  lemma CountTwiceDoubles(gs: seq<seq<byte>>, g: seq<byte>)
    ensures Get(Tally(Tally(map[], gs), gs), g) == 2 * Get(Tally(map[], gs), g)
    ensures g in Tally(Tally(map[], gs), gs) <==> g in Tally(map[], gs)
  {
    TallyIsMultiset(map[], gs, g);
    TallyIsMultiset(Tally(map[], gs), gs, g);
  }

  /** A tally from scratch holds exactly the multiplicities of the groups
      counted, each of which has the common length `n`. */
  lemma CountIsMultiset(gs: seq<seq<byte>>, n: nat)
    requires forall i :: 0 <= i < |gs| ==> |gs[i]| == n
    ensures forall g :: Get(Tally(map[], gs), g) == multiset(gs)[g]
    ensures forall g :: g in Tally(map[], gs) ==> |g| == n && Tally(map[], gs)[g] >= 1
  {
    forall g
      ensures Get(Tally(map[], gs), g) == multiset(gs)[g]
      ensures g in Tally(map[], gs) ==> |g| == n && Tally(map[], gs)[g] >= 1
    {
      TallyIsMultiset(map[], gs, g);
    }
  }

  /** A tally of `ngram`-byte groups built from one or more byte inputs. */
  class NgramCounter {
    const ngram: nat
    var count: Counts
    var size: nat
    /** Every group counted so far, in the order it was counted. */
    ghost var counted: seq<seq<byte>>

    ghost predicate Valid()
      reads this
    {
      && count == Tally(map[], counted)
      && size == |counted|
      && forall i :: 0 <= i < |counted| ==> |counted[i]| == ngram
    }

    /** `NgramCounter::from_bytes`: the tally of every group of `bytes`. */
    constructor FromBytes(bytes: seq<byte>, ngram: nat)
      ensures Valid() && this.ngram == ngram
      ensures counted == Groups(bytes, ngram, 0)
      ensures count == Tally(map[], Groups(bytes, ngram, 0))
      ensures size == |Groups(bytes, ngram, 0)|
    {
      this.ngram := ngram;
      count := map[];
      size := 0;
      counted := [];
      new;
      AppendBytes(bytes);
    }

    /** Splits `bytes` into groups of the counter's own size, padded with 0,
        and counts each of them. */
    method AppendBytes(bytes: seq<byte>)
      requires Valid()
      modifies this`count, this`size, this`counted
      ensures Valid()
      ensures counted == old(counted) + Groups(bytes, ngram, 0)
      ensures count == Tally(old(count), Groups(bytes, ngram, 0))
      ensures size == old(size) + |Groups(bytes, ngram, 0)|
    {
      var reader := new BytesReader(bytes);
      var spliter := NewSpliter(reader, ngram);
      assert reader.Remaining() == bytes;
      Append(spliter);
    }

    /** Drains `spliter` and counts every group it yields. A splitter of a
        different group size is skipped silently: nothing is counted and it
        is left as it was. */
    method Append(spliter: NGramSpliter)
      requires Valid() && spliter.Valid()
      modifies this`count, this`size, this`counted, spliter.reader`index, spliter.buf
      ensures Valid() && spliter.Valid()
      ensures spliter.ngram == ngram ==>
                && counted == old(counted) + old(spliter.Pending())
                && count == Tally(old(count), old(spliter.Pending()))
                && size == old(size) + |old(spliter.Pending())|
                && spliter.Pending() == []
      ensures spliter.ngram != ngram ==>
                && counted == old(counted) && count == old(count) && size == old(size)
                && spliter.reader.index == old(spliter.reader.index)
    {
      if spliter.ngram != ngram {
        return;
      }
      var groups := Drain(spliter);
      CountAll(groups);
      TallyConcat(map[], old(counted), groups);
    }

    /** Counts every group of `gs`, each of the counter's own length, in order. */
    method CountAll(gs: seq<seq<byte>>)
      requires Valid() && forall i :: 0 <= i < |gs| ==> |gs[i]| == ngram
      modifies this`count, this`size, this`counted
      ensures Valid()
      ensures counted == old(counted) + gs
    {
      for i := 0 to |gs|
        invariant Valid()
        invariant counted == old(counted) + gs[..i]
      {
        Record(gs[i]);
        assert gs[..i + 1] == gs[..i] + [gs[i]];
      }
      assert gs[..|gs|] == gs;
    }

    /** Counts one more occurrence of the group `g`. */
    method Record(g: seq<byte>)
      requires Valid() && |g| == ngram
      modifies this`count, this`size, this`counted
      ensures Valid()
      ensures counted == old(counted) + [g]
      ensures count == Inc(old(count), g) && size == old(size) + 1
    {
      TallySnoc(map[], counted, g);
      count := count[g := (if g in count then count[g] else 0) + 1];
      size := size + 1;
      counted := counted + [g];
    }

    /** The number of groups counted: the sum of all counts. */
    function Size(): (n: nat)
      reads this
      requires Valid()
      ensures n == Total(count)
    {
      TallyTotal(map[], counted);
      size
    }

    /** The counts: each group's number of occurrences among the groups
        counted so far, and no entry for a group never counted. */
    function Count(): (m: Counts)
      reads this
      requires Valid()
      ensures forall g :: Get(m, g) == multiset(counted)[g]
      ensures forall g :: g in m ==> |g| == ngram && m[g] >= 1
    {
      CountIsMultiset(counted, ngram);
      count
    }
  }
}
