# crypta-rs n-gram splitter, in Dafny

This project models the byte-group ("n-gram") splitter of crypta-rs and the
in-memory byte source that feeds it, and proves what they do.

- `BytesReader` (`bytesreader.dfy`, module `ByteSource`) is a cursor over a
  borrowed byte slice. Each `Read` copies as many remaining bytes as fit into
  the caller's buffer, moves the cursor `index` past them and returns the
  count. Buffer positions past the count keep what they held.
- `NGramSpliter` (`ngram.dfy`, module `NGram`) turns a reader into a sequence
  of groups of exactly `ngram` bytes. It reuses one scratch array `buf` for
  every read. After a short read it overwrites the rest of `buf` with the
  padding byte, and each call hands out a copy of `buf`. A read of 0 bytes
  ends the sequence. The pure function `NGram.Groups` says which groups the
  remaining bytes of a reader produce. `Next` and `Drain` are proved against
  it. The lemmas prove the whole-drain facts about `Groups`: the number of
  groups, their concatenation, and byte `j` of group `i`.
- `NgramCounter` (`counter.dfy`, module `NGramCounting`) tallies the groups
  of one or more inputs. Its Rust implementation is not part of this model;
  only its tests are. It is modelled as a fold of the splitter's output into
  a map from group to count, plus a running size. The class keeps a ghost
  sequence `counted` of every group counted so far, and `Valid()` ties the
  map and the size to it.
- `scenarios.dfy` (module `Scenarios`) restates each unit test as a client
  method. Each method's postcondition is the test's expected value, and it is
  proved from the contracts above.

Bytes are `bv8` (`Bytes.byte`). Rust's `usize` is modelled as `nat`. The
cursor never passes the slice length and counts only grow by one, so no
wrap-around can occur in the modelled code.

Where the design documentation and the code disagree, the model follows the
code. The documentation says a group size of 0 is rejected at construction.
The code accepts it: the scratch buffer is empty, every read returns 0, and
the splitter yields nothing (`NGram.Groups`, `Scenarios.SplitZeroSize`).

## Model

| member | source | states |
|---|---|---|
| `ByteSource.BytesReader.constructor` | src/utils/bytesreader.rs:10-15 | The new reader holds the given slice unchanged with its cursor at 0. |
| `ByteSource.BytesReader.Read` | src/utils/bytesreader.rs:19-30 | Always `Ok`; the count is `min(buf.len(), bytes.len() - old index)`. The cursor advances by exactly the count and stays within the slice. `buf[..count]` is the slice from the old cursor. Every later position of `buf` is unchanged. The slice itself is a constant. |
| `ByteSource.ReadInChunks` | src/tests/utils/bytesreader.rs:30-58 | Successive reads into buffers of the given sizes hand out consecutive, non-overlapping slices. Read `i` delivers `min(size_i, what is left)` bytes, and their concatenation is the input's prefix of length `min(sum of sizes, len)`. |
| `NGram.Pad` | src/utils/ngram.rs:41-46 | The group made from a short read has length `ngram`: it starts with the bytes read and every later byte is the padding byte. |
| `NGram.Groups` | src/utils/ngram.rs:38-51 | Every group the splitter yields has length exactly `ngram`. The sequence is empty exactly when nothing is left to read or `ngram` is 0. |
| `NGram.GroupsFull` | src/utils/ngram.rs:39-47 | A read that fills the whole buffer yields those bytes unpadded, and splitting goes on from the next byte. |
| `NGram.GroupsShort` | src/utils/ngram.rs:41-47 | When fewer than `ngram` bytes are left, they make the last group, padded. |
| `NGram.GroupsOfOne` | src/tests/utils/ngram.rs:6-19 | With a group size of 1, group `i` is exactly `[text[i]]` for every input, with no padding. |
| `NGram.GroupsCount` | src/tests/utils/ngram.rs:36-54 | For `ngram >= 1`, a full drain of `L` bytes yields `ceil(L / ngram)` groups. |
| `NGram.GroupsFlatten` | src/tests/utils/ngram.rs:36-54 | For `ngram >= 1`, the concatenated groups are the input followed by `(ngram - L mod ngram) mod ngram` padding bytes. |
| `NGram.GroupAt` | src/utils/ngram.rs:41-47 | Byte `j` of group `i` is input byte `i * ngram + j` when it exists, and the padding byte otherwise. Stale scratch bytes never leak into a group. |
| `NGram.NGramSpliter.WithPadding` | src/utils/ngram.rs:20-32 | The scratch buffer is fresh, has length `ngram` and is filled with 0. The splitter keeps the given reader, size and padding byte. |
| `NGram.NewSpliter` | src/utils/ngram.rs:15-17 | It builds the same splitter as `WithPadding` with padding byte 0. |
| `NGram.NGramSpliter.Next` | src/utils/ngram.rs:38-51 | It reads `k = min(ngram, bytes left)` bytes and advances the reader by `k`. It returns `None` exactly when `k = 0`, and on a read error. Otherwise it returns the padded group, which equals the scratch buffer at that moment. The groups still pending before the call are the returned group followed by the groups pending after it. |
| `NGram.Drain` | src/tests/utils/ngram.rs:14-18 | Iterating a splitter to exhaustion yields exactly `Groups` of the reader's remaining bytes, and nothing is pending afterwards. |
| `NGramCounting.Inc` | src/tests/utils/ngram.rs:66-78 | Counting one group raises its count by one, leaves every other count alone, and adds it as a key. |
| `NGramCounting.TallyConcat` | src/tests/utils/ngram.rs:117-129 | Counting `a` and then `b` gives the same tally as counting `a + b`. |
| `NGramCounting.TallyIsMultiset` | src/tests/utils/ngram.rs:66-115 | Each group's count after a tally is its old count plus its multiplicity among the groups counted. A group has an entry exactly when it had one before or was counted. |
| `NGramCounting.TotalInc` | src/tests/utils/ngram.rs:66-78 | Counting one group raises the sum of all counts by one. |
| `NGramCounting.TotalRemove` | src/tests/utils/ngram.rs:66-78 | The sum of counts is any one entry's count plus the sum over the other entries. |
| `NGramCounting.TallyTotal` | src/tests/utils/ngram.rs:66-115 | The sum of all counts grows by exactly the number of groups counted. |
| `NGramCounting.CountTwiceDoubles` | src/tests/utils/ngram.rs:117-129 | Counting the same groups a second time doubles every count, with the same set of groups. |
| `NGramCounting.CountIsMultiset` | src/tests/utils/ngram.rs:66-115 | A tally from scratch gives each group its multiplicity among the groups counted. Every key has the common length and a count of at least 1. |
| `NGramCounting.NgramCounter.FromBytes` | src/tests/utils/ngram.rs:66-115 | `from_bytes` counts exactly the groups of the input, padded with 0. Its size is their number. |
| `NGramCounting.NgramCounter.AppendBytes` | src/tests/utils/ngram.rs:117-129 | `append_bytes` adds the input's groups to the counts and their number to the size. |
| `NGramCounting.NgramCounter.Append` | src/tests/utils/ngram.rs:117-129 | Draining a splitter of the counter's own group size counts every pending group and leaves the splitter exhausted. A splitter of another size is skipped: counts, size and the reader's cursor are unchanged. |
| `NGramCounting.NgramCounter.CountAll` | src/tests/utils/ngram.rs:117-129 | Counting a list of groups, each of the counter's length, appends them in order to what was counted and keeps the map and the size in step. |
| `NGramCounting.NgramCounter.Record` | src/tests/utils/ngram.rs:66-78 | Counting one group of the counter's length raises its count and the size by one. |
| `NGramCounting.NgramCounter.Size` | src/tests/utils/ngram.rs:76-77 | `size()` equals the sum of all counts. |
| `NGramCounting.NgramCounter.Count` | src/tests/utils/ngram.rs:76-77 | `count()` gives each group its multiplicity among the groups counted. Every key has the counter's group length and a count of at least 1. |
| `Scenarios.ReadWholeSlice` | src/tests/utils/bytesreader.rs:4-15 | A five-byte buffer receives all five bytes; the count is 5. |
| `Scenarios.ReadEmptySlice` | src/tests/utils/bytesreader.rs:17-28 | An empty reader returns 0 and leaves the buffer all zeros. |
| `Scenarios.ReadInPairs` | src/tests/utils/bytesreader.rs:30-58 | Three reads into a two-byte buffer return 2, 2, 1 and leave `[1, 2]`, `[3, 4]`, `[5, 4]`. |
| `Scenarios.SplitAll` | src/tests/utils/ngram.rs:9-14 | A fresh zero-padded splitter over a slice yields exactly `Groups` of the slice. |
| `Scenarios.SplitByOne` | src/tests/utils/ngram.rs:6-19 | Groups of 1 over `[1,1,2,2,3,3,4,4]` are the bytes one by one. |
| `Scenarios.SplitByTwo` | src/tests/utils/ngram.rs:21-34 | Groups of 2 over the same input are the consecutive pairs. |
| `Scenarios.SplitByThree` | src/tests/utils/ngram.rs:36-54 | Groups of 3 are `[1,1,2]`, `[2,3,3]` and the padded `[4,4,0]`. |
| `Scenarios.SplitEmpty` | src/tests/utils/ngram.rs:56-63 | The first `next` over an empty input is `None`. |
| `Scenarios.SplitZeroSize` | src/utils/ngram.rs:21-24 | With a group size of 0, the first `next` over a non-empty input is `None`. |
| `Scenarios.SplitStepwise` | src/utils/ngram.rs:38-51 | Calling `next` by hand yields `[1,1,2]`, `[2,3,3]`, `[4,4,0]`, then `None`. Each group keeps its value after later calls overwrite the scratch buffer. |
| `Scenarios.CountByOne` | src/tests/utils/ngram.rs:66-78 | `{[1]:2, [2]:3, [3]:1}`, size 6. |
| `Scenarios.CountByTwo` | src/tests/utils/ngram.rs:80-91 | `{[1,1]:1, [2,2]:2}`, size 3. |
| `Scenarios.CountByThree` | src/tests/utils/ngram.rs:93-104 | `{[1,1,1]:1, [2,2,0]:1}`, size 2. |
| `Scenarios.CountEmpty` | src/tests/utils/ngram.rs:106-115 | An empty input gives an empty map and size 0. |
| `Scenarios.CountTwice` | src/tests/utils/ngram.rs:117-129 | Appending the same input again gives `{[1,1,1]:2, [2,2,0]:2}`, size 4. |

## Left out

- Readers other than `BytesReader`: the splitter is generic over any `Read`, but only `BytesReader` is modelled. `ReadResult.Err` keeps the splitter's error arm (it maps to `None`), but no modelled reader produces it.
- `std::io::Error` details are not modelled; an error is a bare `Err`.
- Ownership: in Rust the splitter owns its reader. In the model the caller may keep a reference to the same `BytesReader`. That aliasing is harmless because only the splitter calls `Read` on it.
- `Vec::with_capacity` and the `Vec` type: the scratch buffer is a fixed-size `array`. The clone handed out is a `seq` value, which is what makes groups independent of the buffer.
- The `NgramCounter` implementation is not part of this model. The counter is built from its tests' oracles alone. Its map is a Dafny `map` with no iteration order. No `new(ngram)` constructor and no `ngram()` accessor are modelled. `Append` first drains the splitter, then counts the groups; whether the implementation counts while it drains cannot be seen from outside. The silent skip of a splitter with a different group size follows the design documentation, since no test exercises it.
- Frequency views (count divided by total, as `f64`): floating point, and not in the shown code.
- `src/bin/frequency.rs` (argument parsing, file and text input with `unwrap`) and `src/utils/cli.rs` (`usize::from_str_radix` validators and a clap argument builder): I/O and foreign library calls with no logic of their own. `frequency` itself ignores its inputs.
- `NGramCounting.Total` (the sum of counts) is a ghost function. The source never computes it; it exists to state the size invariant.
