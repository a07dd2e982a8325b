/** An in-memory byte source: a forward-only cursor over a borrowed byte
    slice that fills a caller's buffer on each read. */
module ByteSource {
  import opened Bytes

  /** What a `read` hands back: the number of bytes written, or an I/O error.
      `BytesReader` never produces `Err`; the splitter still handles it. */
  datatype ReadResult = Ok(count: nat) | Err

  class BytesReader {
    /** The borrowed slice; a reader never changes it. */
    const bytes: seq<byte>
    /** The cursor: how many bytes have been handed out so far. */
    var index: nat

    ghost predicate Valid()
      reads this
    {
      index <= |bytes|
    }

    /** The bytes not yet handed out. */
    ghost function Remaining(): (r: seq<byte>)
      reads this
      requires Valid()
      ensures bytes == bytes[..index] + r
    {
      bytes[index..]
    }

    /** A reader over `bytes`, positioned at its start. */
    constructor (bytes: seq<byte>)
      ensures Valid()
      ensures this.bytes == bytes && index == 0
    {
      this.bytes := bytes;
      index := 0;
    }

    /** Copies as many of the remaining bytes as fit into `buf`, moves the
        cursor past them and returns how many were copied; the positions of
        `buf` past that count keep what they held. */
    method Read(buf: array<byte>) returns (r: ReadResult)
      requires Valid()
      modifies this`index, buf
      ensures Valid()
      ensures r.Ok? && r.count == Min(buf.Length, |bytes| - old(index))
      ensures index == old(index) + r.count
      ensures buf[..r.count] == bytes[old(index)..index]
      ensures buf[r.count..] == old(buf[r.count..])
    {
      var i: nat := 0;
      while i < buf.Length && index < |bytes|
        invariant index == old(index) + i <= |bytes|
        invariant i <= buf.Length
        invariant buf[..i] == bytes[old(index)..index]
        invariant buf[i..] == old(buf[i..])
        decreases buf.Length - i
      {
        buf[i] := bytes[index];
        i := i + 1;
        index := index + 1;
      }
      r := Ok(i);
    }
  }

  /** Where the cursor stands after reads into the first `i` buffers. */
  function Reach(sizes: seq<nat>, i: nat, len: nat): nat
    requires i <= |sizes|
  {
    Min(Sum(sizes[..i]), len)
  }

  /** How many bytes read `j` delivers out of `len`. */
  function ChunkLength(sizes: seq<nat>, j: nat, len: nat): nat
    requires j < |sizes|
  {
    Min(sizes[j], len - Reach(sizes, j, len))
  }

  /** One more read moves the cursor by what that read delivers. */
  lemma ReachStep(sizes: seq<nat>, i: nat, len: nat)
    requires i < |sizes|
    ensures Reach(sizes, i + 1, len) == Reach(sizes, i, len) + ChunkLength(sizes, i, len)
  {
    assert sizes[..i + 1][..i] == sizes[..i];
  }

  /** One read into a fresh buffer of `size` bytes; what it delivered. */
  method ReadChunk(reader: BytesReader, size: nat) returns (chunk: seq<byte>)
    requires reader.Valid()
    modifies reader`index
    ensures reader.Valid()
    ensures reader.index == old(reader.index) + Min(size, |reader.bytes| - old(reader.index))
    ensures chunk == reader.bytes[old(reader.index)..reader.index]
  {
    var buf := new byte[size];
    var r := reader.Read(buf);
    chunk := buf[..r.count];
  }

  /** Reads a fresh reader over `bytes` once per entry of `sizes`, each time
      into a buffer of that size, and returns what each read delivered: the
      reads hand out consecutive, non-overlapping slices of `bytes`, each as
      long as its buffer allows, until the bytes run out. */
  method ReadInChunks(bytes: seq<byte>, sizes: seq<nat>) returns (chunks: seq<seq<byte>>)
    ensures |chunks| == |sizes|
    ensures Flatten(chunks) == bytes[..Min(Sum(sizes), |bytes|)]
    ensures forall i :: 0 <= i < |sizes| ==>
              |chunks[i]| == Min(sizes[i], |bytes| - Min(Sum(sizes[..i]), |bytes|))
  {
    var reader := new BytesReader(bytes);
    chunks := [];
    for i := 0 to |sizes|
      invariant reader.Valid() && reader.bytes == bytes
      invariant |chunks| == i
      invariant reader.index == Reach(sizes, i, |bytes|)
      invariant Flatten(chunks) == bytes[..reader.index]
      invariant forall j :: 0 <= j < i ==> |chunks[j]| == ChunkLength(sizes, j, |bytes|)
    {
      ghost var before := reader.index;
      var chunk := ReadChunk(reader, sizes[i]);
      FlattenSnoc(chunks, chunk);
      ReachStep(sizes, i, |bytes|);
      chunks := chunks + [chunk];
      assert bytes[..reader.index] == bytes[..before] + bytes[before..reader.index];
    }
    assert sizes[..|sizes|] == sizes;
  }
}
