# Verified models of the kfl library

kfl is a C library of small in-memory building blocks. This project models five of its cores in Dafny and
proves what they are for:

- the **bitmap extent allocator** (`src/map.c`): searching, counting, setting and clearing runs of bits in a
  byte buffer, and whole runs of claims and frees on top of it;
- the **hash table** (`src/dict.c`) on **intrusive circular lists** (`src/list.h`) over the **tracked
  allocator** (`src/ta.c`), on the heap, with every allocation free to fail;
- **CRC-32C** (`src/crc32c.c`), table driven and with CRC instructions;
- the **hashes** `xxh32` and `hash_b79` (`src/hash.c`);
- the **configuration reader** (`src/cfg_parser.c`, with the part of `src/var.c` that it uses).

Code that works step by step is a method over arrays or classes, proved against functions that say what it
means; the properties of whole runs, of all inputs and of all files are lemmas about those functions.

## The pieces

| files | what they hold |
|---|---|
| `Machine` | bytes, integer limits, optional values |
| `Bits`, `BitStrings`, `GapSizes`, `Bitmap`, `ExtentRuns` | bits of a byte; bit strings and their runs of zeros; what a search finds once its size has passed through an int; the loops of map.c; runs of claims and frees |
| `CrcTable`, `CrcSteps`, `Words`, `Crc32c`, `CrcPaths` | the lookup table as it is in the source; the bit-serial division; words and bytes; the register, the residue and bursts; the software and hardware loops |
| `CrcParity`, `Mersenne`, `CrcOrder`, `CrcTwoBits`, `CrcDrift`, `CrcValues` | the parity of a register; a prime number; after how many steps the powers of x repeat; changes of two bits; what the misprinted entries add up to; published values |
| `Mod32`, `Xxh32`, `Xxh32Back`, `Xxh32Values`, `HashB79` | invertible steps modulo 2^32; xxh32; its inverse; published values; hash_b79 |
| `Seqs`, `Lists`, `Ta`, `TaRuns` | sequence facts; circular lists; the tracked allocator; the whole life of a context |
| `Buckets`, `DictSpec`, `DictRuns`, `DictTables`, `DictHeap` | bucket numbers; chains and association lists; runs of operations; the rings of a table and the walk of a rehash; the dictionary on the heap |
| `DictTraces`, `DictCalls`, `DictPairs`, `DictVisits` | sequences of calls and the values that they free; such sequences on the heap; two dictionaries on one context; iteration with a callback that deletes |
| `CfgLex`, `CfgEval`, `CfgLoad`, `CfgHeap`, `CfgRun` | tokens; the value of a line; files and includes; shared value nodes and buffers; contexts |
| `CfgText`, `CfgLiterals`, `CfgLines` | numbers, strings and words as they are written; literals and what they print as; lines, includes and files that move together |

### How the dictionary is read

`Lists.Ring(head, s)` says that `head` and the links `s` form one closed ring in both directions. A `Rings` map
holds all rings in use; the ghost field `home` of a link names its ring, which is what separates the bucket
rings from one another and from the allocator's ring. A dictionary's meaning is `View()`: its bucket count and
its entries in order of their latest fresh insertion. The chain of a bucket is the entries of that bucket in
this order, a rehash concatenates the old chains, and a doubling leaves the order as it is
(`DictSpec.DoublingKeepsOrder`). Each method on the heap equates the new `View()` with a step of `DictRuns`,
whose runs are then compared with a plain map; `DictCalls.Perform` draws both together for whole runs of calls
on the heap. `Foreign()` is the set of live allocations that are not the
dictionary's own: it is what operations must leave alone, but for the values that `dict_set_owned` replaces.
The ghost field `log` of an allocator context lists its allocations and whether each succeeded, so that a
contract can tell "the table did not grow" from "it could not" and say which failure makes a call fail.

Memory may be read as long as it has not been freed: the links of rings are followed by `Ta.Next`, and nodes
and entries are reached by `Ta.NodeOf` and `DictTables.EntryOf`, which demand that the block they lie in has
not been freed. The ghost constant `store` of a link names that block. So every walk that frees nodes on its
way is proved to save the successor of a node before it is freed.

### How the configuration reader is read

`CfgEval` gives every text a value. `CfgHeap` runs the same grammar over nodes that are shared by pointer. A
method that evaluates may change only the position in the line, so that no node that existed before ever
changes; the array that is being built is outside the pool of nodes that anything else can reach. That is why
the sharing which `B = A` or `[A, A]` creates cannot be observed.

What a text means is told a second time, by how it is written: `CfgText`, `CfgLiterals` and `CfgLines` write numbers,
strings, lists, lines and includes out and say what reading them gives.

## Findings

- Entries 190 and 191 of the CRC table differ from what the polynomial gives, each in bit 2
  (`CrcTable.ShownIsBasis`). Composition, the residue theorem and the detection of bursts hold for the table as
  it is. The software and the hardware path agree on a buffer exactly when the errors that the lookups of the
  two entries leave cancel out (`CrcDrift.PathsAgree`), which depends only on where those lookups are. A buffer
  that meets the two entries never is safe (`NoHitNoDrift`), one that meets them an odd number of times always
  differs (`OddHitsDisagree`), one that meets them twice differs unless the two are a multiple of 2^31 - 1 bytes apart
  (`TwoHits`), and `"A"` is a buffer that differs (`Disagreement`).
- `hash_b79` is described as collision free for words with `_`; `_`, `^` and the back quote share a class. It
  is also said to sort words: it orders two words like strcmp exactly if the first difference of their classes is
  among the first ten and has the sign of the first difference of their characters (`HashB79.OrderedIffSeen`).
  `":z"` and `";a"` are hashed in the wrong order (`SharedClassMisorders`).
- The comment on `bm_extent_can_grow` promises -1 for every failure. The code answers -2, -3 or -5, and the
  contract says which is which. It also answers 0 for a range without leading ones.
- `bm_count` passes what is left of its range through an `int` at the byte in which the stretch ends. For ranges
  of up to 2^32 bits the count is right unless more than `INT_MAX` bits are left there, and then the bits of that
  byte are lost (`Bitmap.CountedIs`): of a range of 2^31 bits that starts with a single one, no one is counted
  (`CountLosesBits`). `bm_extent_can_grow` then answers -4, or -5 for a range that can grow; when it is right is
  `AnswerIsVerdict`.
- `bm_find` passes the gap size through an `int`. It finds the first gap on every bitmap exactly if the size fits an
  `int` (`GapSizes.RightIffFits`). What it finds for any other size is `GapSizes.FoundGap`: nothing, unless the low
  32 bits of a size above 2^32 come to 1 up to 8; then a run of so few zeros inside one byte passes for the whole gap
  (`OneForMany`), and a run over the end of a byte hides what starts in the byte behind it. The answer can be a range
  that is not free exactly if such a run could lie in the window with room for the whole gap
  (`OccupiedIffMisled`). A claim of that kind can overlap a live extent: for each there is a run from an empty bitmap
  on that makes it (`ExtentRuns.OthersOverlap`), and no other claim ever does (`ExtentRuns.HonestIff`).
- `KEY += R` and `KEY = KEY + R` agree exactly if KEY is defined (`CfgLoad.AppendLineIsConcatLine`): an
  undefined variable is empty for the one and `null` for the other.
- A file name in an include is cut behind 511 characters, and the file of the shorter name is loaded without an error
  (`CfgLines.IncludeIsCut`).
- A list that is not closed before the end of its line is accepted (`CfgLiterals.OpenListReads`), and so are a plus
  with nothing behind it (`LonePlusReads`) and a sign in the place of a value, which is read as null (`SignIsNull`).
- A character that begins no token is not skipped, as the comment beside it has it: it ends the line
  (`CfgText.OtherCharacters`). A line that begins with one is passed over without an error (`CfgLines.StrayLine`).
- `dict_each` casts the bucket count to `int`: a table of 2^31 buckets is not visited at all.
- A failing `ta_realloc` moves the node to the front of its context.
- The header says of the mark that `ta_sweep` frees the nodes in which it is clear (`src/ta.h:29`). The code frees those
  in which `ta_mark` has set it, and so does the model (`Ta.TaSweep`).

## Domain

Sizes and addresses are natural numbers. Where the source stores them in narrower types the model narrows them
too (`Machine.ToInt`, the 32-bit size of a node, 64-bit sums). For map.c a range test that wraps around in 64 bits
does not accept a range outside the buffer (`Bitmap.NoWrap`), bit counts are below 2^63, and flags are 0 or 1.
Words are loaded in little-endian order. Keys of a dictionary are hashed by an arbitrary function. Floats of a
configuration keep their text, and how a text prints again is an arbitrary function; characters are ASCII and
lines contain no NUL. `dirname` is an arbitrary function, and a file system maps paths to lines.

## Model

| member | source | states |
|---|---|---|
| Bitmap.ByteSetBits | src/map.c:18-45 | exactly the addressed bits of the byte take the value, cut off at the byte's end; no other bit moves |
| Bitmap.ByteCountBits | src/map.c:61-94 | the counted bits all match, the next bit inside the limit does not |
| Bitmap.ByteFindGap | src/map.c:106-140 | three answers: the first fitting run; a tail of zeros that may go on in the next byte, and no earlier start; nothing, and the last bit is set |
| Bitmap.BmSetBit | src/map.c:148-179 | one bit of the bit string changes, or none and -1 out of range |
| Bitmap.BmGetBit | src/map.c:182-210 | the bit of the bit string, or -1 out of range |
| Bitmap.SetHead | src/map.c:245-288 | the unaligned first byte: exactly the bits up to the byte boundary are painted |
| Bitmap.SetBytes | src/map.c:290-307 | the whole bytes: painting goes on to the last byte boundary, fewer than eight bits remain |
| Bitmap.BmSetExtent | src/map.c:216-324 | for any alignment and length every bit of the extent takes the value and every other bit, padding included, stays; 0 for every request in range, so -2 is unreachable |
| BitStrings.FillIsSetEach | src/map.c:212-215 | filling an extent is the same as that many successive single-bit assignments |
| BitStrings.CountFill | src/map.c:212-215 | the number of ones changes by exactly the number of bits flipped |
| Bitmap.BmCount | src/map.c:334-425 | the longest matching prefix of the range, across bytes, as far as the narrowed length lets it be counted; never -2 |
| Bitmap.CountedIs | src/map.c:395-406 | when that is the whole prefix: up to 2^32 bits, exactly unless the prefix ends inside a byte behind the first one with more than `INT_MAX` bits of the range left there; then the matching bits of that byte are lost |
| Bitmap.CountLosesBits | src/map.c:395-406 | a range of 2^31 bits that starts with a single one: the answer is 0 instead of 1 |
| BitStrings.PrefixLenIs | src/map.c:326-333 | that length is characterised: all its bits match, and the range ends or the next bit does not match |
| BitStrings.FirstGapLocal | src/map.c:427-434 | bits outside the window, before it or behind it, do not matter |
| BitStrings.FirstGapIs | src/map.c:427-434 | the search result is the least address whose gap bits are all zero and inside the window, and there is none exactly when it says so |
| Bitmap.ScanByte | src/map.c:475-511 | one byte of the search, with the rescan: a run pending from earlier bytes is continued, completed or abandoned without losing the first possible start |
| Bitmap.BmFind | src/map.c:435-577 | for every size a found gap lies in the window and in the bitmap; up to `INT_MAX` it is free and no earlier one is, and -1 with 0 means that there is none; above `INT_MAX` the answer is exactly what `FoundGap` says; the scan goes up from the byte of the first window bit and the buffer need only reach to that of the last, so that only bytes with a window bit are read; it terminates |
| GapSizes.RightIffFits | src/map.c:477-480 | the answer is the first gap on all bitmaps exactly if the size fits an int |
| GapSizes.WrongOnBlind | src/map.c:477-480 | for every size above `INT_MAX` that fits the window there are bits on which it is not |
| GapSizes.OccupiedIffMisled | src/map.c:477-480 | which searches can answer with a range that is not free: those for a size above 2^32 whose low bits fit one byte, in a window that could hold the gap from there |
| GapSizes.TooLongForByte | src/map.c:477-480 | a size above 2^32 whose low bits come to more than 8 is never found |
| GapSizes.OneForMany | src/map.c:477-480 | of 2^32 + 1 bits asked for, a single zero is found |
| Bitmap.BmExtentCanGrow | src/map.c:588-680 | 0, -2, -3 and -5 each exactly for one shape of the range, as long as the first stretch is counted in full; -4 exactly if nothing of it is counted, -5 if a stretch of ones is counted in part; -1 exactly for invalid arguments; -100 to -102 never |
| Bitmap.AnswerIsVerdict | src/map.c:580-587 | exactly when the answer is right: always up to `INT_MAX` bits, and beyond if the first stretch is counted in full or the answer does not depend on the rest of it |
| Bitmap.BmZero | src/map.c:686-689 | every bit of the bitmap's bytes is clear, nothing behind them changes |
| Bitmap.BmFill | src/map.c:692-702 | every bit below the size is set and every padding bit of the last byte is clear |
| Bitmap.BmPopcount | src/map.c:705-738 | the number of ones among the first bits, padding excluded |
| ExtentRuns.RunKeeps | src/map.h:13-20 | from an empty bitmap, after any sequence of honest claims and of frees the live extents are disjoint, in range, and their union is exactly the set bits; a claim is honest unless its size is above 2^32 and a short run in its window can pass for it |
| ExtentRuns.HonestIff | src/map.h:13-20 | the honest claims are exactly those that keep every consistent bitmap consistent |
| ExtentRuns.OthersOverlap | src/map.c:477-480 | for each of the others a run from an empty bitmap on that ends in overlapping live extents |
| ExtentRuns.ClaimThenFree | src/map.h:13-20 | freeing what was honestly claimed last gives back every bit and the list of live extents |
| ExtentRuns.SameBytes | src/map.c:216-324 | buffers with the same bits are the same bytes, so that restored bits are restored bytes |
| ExtentRuns.Apply | src/map.c:435-577 | one claim, of any size, or free on a byte buffer: bm_find and bm_set_extent together do what the step on bit strings does |
| ExtentRuns.ClaimAndFree | src/map.c:216-324 | on the byte buffer, an honest claim that is freed at once restores every byte |
| ExtentRuns.Perform | src/map.c:686-738 | a whole run on a byte buffer, from bm_zero on, ends in the buffer and live list of the specification and leaves the bytes behind the bitmap alone; if its claims are honest, bm_popcount is the sum of the live lengths |
| Lists.InitListHead | src/list.h:16-19 | an empty ring |
| Lists.ListAdd | src/list.h:38-43 | the ring with the new link first, all links closed in both directions |
| Lists.ListAddTail | src/list.h:45-50 | the ring with the new link last |
| Lists.ListDel | src/list.h:52-55 | the ring without that link, the others in order |
| Lists.DelIn | src/list.h:52-55 | unlinking from one ring leaves every other ring as it was |
| Lists.AddTailIn | src/list.h:45-50 | appending to one ring leaves every other ring as it was |
| Ta.TaListInit | src/ta.c:62-68 | a context without nodes |
| Ta.TaMalloc | src/ta.c:29-48 | a fresh node at the front of the context, with room for the bytes asked for, its size cut to 32 bits and its mark clear, or null and no change; the log says which |
| Ta.TaCalloc | src/ta.c:184-192 | the same for a product of sizes, which wraps |
| Ta.TaFree | src/ta.c:50-59 | the node is freed and off the ring, the others keep their order; null does nothing |
| Ta.TaRealloc | src/ta.c:93-116 | the node, or on success a new one of the new size, moves to the front; on failure the old node is still live |
| Ta.TaListDestroy | src/ta.c:70-79 | every node is freed and the context is empty; no freed node is read on the way |
| Ta.TaListTotalMem | src/ta.c:118-128 | the sum of the sizes of the live nodes, modulo 2^64 |
| Ta.TaMark | src/ta.c:196-201 | the mark is set, and the context stays well formed |
| Ta.SweepBody | src/ta.c:216-221 | one turn of the sweep keeps the ring well formed and the successor saved in advance valid |
| Ta.TaSweep | src/ta.c:211-222 | exactly the marked nodes are freed, the others stay in order; no freed node is read |
| TaRuns.Perform | src/ta.c:29-222 | the whole life of a context, from ta_list_init on, with any of its allocations failing: which nodes are left, in which order, with which sizes and marks; every node ever made is live or freed, never both and never lost; ta_list_total_mem is what has been gained and not lost |
| TaRuns.RunBalances | src/ta.c:29-222 | in bytes: what a context holds is what it has gained and not lost |
| Buckets.PowerOfTwoIs | src/dict.c:23-25 | the bit trick accepts only powers of two |
| Buckets.Pow2IsPower | src/dict.c:23-25 | and all of them |
| Buckets.BucketIsMod | src/dict.c:17-20 | for such a count the mask is the remainder, so that every key has a bucket |
| Buckets.DoublingSplits | src/dict.c:17-20 | doubling sends a key of bucket b to b or to b + n |
| DictSpec.SelectWithout | src/dict.c:213-220 | taking one entry out takes it out of its own chain and leaves all other chains alone |
| DictSpec.DoublingKeepsOrder | src/dict.c:105-113 | concatenating the old chains loses nothing of the order inside any chain of the doubled table |
| DictSpec.RehashKeepsMap | src/dict.c:74-120 | redistributing to any size keeps the key-to-value map, the uniqueness of keys and the number of entries |
| DictSpec.LookupInChain | src/dict.c:184-201 | looking a key up in the chain of its bucket is looking it up among all entries |
| DictRuns.StepIsMapStep | src/dict.c:125-245 | one set, delete or rehash, with any allocation failing, is one step of a plain map and keeps the table's invariant |
| DictRuns.RunRefinesMap | src/dict.c:125-245 | after any run the dictionary holds the keys and values of a plain map, counted by its entries; keys stay unique and the bucket count a power of two of at least 4 |
| DictRuns.LargestPower | src/dict.c:160-171 | no bucket count exceeds 2^31, so the 32-bit field never overflows |
| DictRuns.GrowthBound | src/dict.c:160-171 | while allocations succeed and the table stays below 2^31 buckets, it is less than three quarters full after every operation, and all doublings together move fewer than two entries per fresh insertion |
| DictRuns.OrderOfInsertion | src/dict.c:105-171 | without explicit rehashes the entries stay in order of their latest fresh insertion |
| DictRuns.ChainsInOrder | src/dict.c:105-171 | so every chain lists its keys in that order |
| DictTables.MoveOne | src/dict.c:110-111 | moving one node from its old ring to the end of its new one leaves every ring closed and every other ring alone |
| DictTables.MovingStep | src/dict.c:105-113 | what is in which ring in the middle of a rehash, one node later |
| DictTables.MoveNode | src/dict.c:106-112 | one turn of the walk: the node goes to the ring of its new bucket, and the successor saved in advance is still the next node of the old chain, in memory that is not freed |
| DictTables.MoveChain | src/dict.c:106-112 | the walk over one old bucket empties it |
| DictTables.MoveAll | src/dict.c:105-113 | the walk over all old buckets: every node sits in the ring of hash and mask, no ring outside the two tables changes |
| DictTables.Transfer | src/dict.c:105-113 | the same beside the allocator's ring, which stays as it was |
| DictHeap.DictNewSized | src/dict.c:35-65 | an empty dictionary whose two blocks are live; null exactly for an invalid count or when one of its two allocations fails, and then nothing stays allocated |
| DictHeap.Dict.Walk | src/dict.c:137-146 | the walk along one ring finds the entry of the key, or there is none in the whole dictionary |
| DictHeap.Dict.Get | src/dict.c:184-201 | the value that the map has for the key, or null |
| DictHeap.Dict.Has | src/dict.c:228-245 | whether the key is in the map, also when its value is null |
| DictHeap.Dict.Count | src/dict.c:247-253 | the size of the map |
| DictHeap.Dict.Each | src/dict.c:260-274 | every entry exactly once, chain after chain; nothing when the bucket count does not fit an int |
| DictHeap.Dict.Rehash | src/dict.c:74-120 | an invalid size or a failed allocation changes nothing; otherwise the new table holds all entries in their new buckets, the old bucket array is freed and nothing foreign is touched |
| DictHeap.Dict.Del | src/dict.c:203-223 | the entry leaves its ring and its memory is freed, nothing else; -1 and no change for an unknown key |
| DictHeap.CopyKey | src/dict.c:148-156 | the bytes written are the key and its terminator, and the block has room for them |
| DictHeap.Dict.NewEntry | src/dict.c:148-159 | the key and its terminator lie inside the block of the entry, behind its fields |
| DictRuns.SetGrows | src/dict.c:163-171 | a set doubles the bucket count exactly if it has inserted an entry, the count is then at least three quarters of the buckets, there are fewer than 2^31 of them and the allocation succeeds |
| DictHeap.Dict.SetImpl | src/dict.c:125-174 | replaces the value of a known key, freeing the old value exactly if it is owned and differs; otherwise appends an entry and doubles the table exactly if four times the new count is at least three times the buckets, they are below 2^31 and it can; the log shows which allocations were asked for, and the call fails exactly if the first one, for the entry, failed: a failed growth leaves the insertion in place |
| DictHeap.FailsForEntry | src/dict.c:163-167 | what a set returns, told from the log alone |
| DictTraces.FreedOnce | src/dict.h:76-90 | if no owned set meets a value that is not live, the run frees live values only, each of them once |
| DictTraces.NothingFreed | src/dict.h:64-69 | without dict_set_owned every sequence is safe and nothing foreign is freed |
| DictTraces.KeepsHolding | src/dict.h:80-86 | whoever hands over live values, each of them once, may mix all calls: whatever allocations fail, what is stored stays live and is stored once |
| DictTraces.HandedOverIsSafe | src/dict.h:80-86 | so such a sequence never frees a value that is not live |
| DictCalls.Do | src/dict.c:74-223 | one call on the heap, owned sets included: the step of the table, the result, the log and what is freed |
| DictCalls.Perform | src/dict.c:74-245 | after any safe sequence of sets, owned sets, deletes and rehashes on the heap, with every allocation free to fail, the dictionary is valid, holds exactly the keys and values of a plain map and counts them; every call has returned what the map says; exactly the values that owned sets have replaced are freed, each once, and nothing else foreign is touched |
| DictCalls.PerformOwned | src/dict.h:76-90 | the same for values that are handed over once each; at the end all stored values are live and distinct |
| DictCalls.BuildUp | src/dict.c:35-223 | a new dictionary after any sets and deletes: every chain lists its keys in order of their latest fresh insertion, and when no allocation has failed and the table is below 2^31 buckets it is less than three quarters full and growing it has moved fewer than two entries per fresh insertion |
| DictPairs.PerformBeside | src/dict.c:74-245 | any run of calls on one dictionary leaves another one on the same context valid and with all its entries |
| DictPairs.NewBeside | src/dict.c:35-65 | a further dictionary on the context of another one: both are valid, they are apart, and the first holds what it held |
| DictVisits.VisitBucket | src/dict.c:269-272 | the loop over one bucket with a callback that deletes: the saved successor stays the next entry, in memory that is not freed |
| DictVisits.EachDeleting | src/dict.c:258-274 | a callback that deletes the keys it is told is still told every entry once, and exactly the entries that it does not delete are left, in order |
| DictHeap.Conservation | src/dict.c:35-223 | the context holds the foreign allocations, one header, one bucket array and one block per entry, and nothing else |
| CrcTable.ShownIsBasis | src/crc32c.c:14-79 | the table as shown is the linear table of the polynomial, but for bit 2 of entries 190 and 191 |
| CrcSteps.BasisIsSteps | src/crc32c.c:10-13 | the linear table is eight steps of the bit-serial division for every byte |
| Crc32c.TopByteTells | src/crc32c.c:14-79 | no two entries share their top byte, on either path |
| Crc32c.StepInjective | src/crc32c.c:100 | for a fixed byte the step is a bijection of the 32-bit states, on either path |
| Crc32c.WordInjective | src/crc32c.c:94-103 | from one state, different four-byte words lead to different states |
| Crc32c.RegisterConcat | src/crc32c.c:94-103 | the register over a concatenation |
| Crc32c.CrcComposes | src/crc32c.c:179-203 | chaining buffers is hashing their concatenation, on either path |
| Crc32c.VerifyIsResidue | src/crc32c.c:211-233 | a buffer is valid exactly when the register over all of it ends in one fixed residue |
| Crc32c.DetectsBurst | src/crc32c.c:205-233 | changing any content within four consecutive bytes of a valid buffer of any length makes it invalid, also across payload and stored CRC |
| Crc32c.SealedVerifies | src/crc32c.c:205-233 | storing the CRC of a payload behind it makes a valid buffer |
| CrcPaths.CrcByteIsStep | src/crc32c.c:133-137 | the 8-bit instruction is one step of the byte-wise register |
| CrcPaths.CrcWordIsRegister | src/crc32c.c:124-131 | the 32-bit instruction does what four byte steps do |
| CrcPaths.CrcDoubleIsRegister | src/crc32c.c:114-123 | the 64-bit instruction does what eight byte steps do |
| CrcPaths.SwCrc32c | src/crc32c.c:94-103 | the table loop computes the register |
| CrcPaths.HwCrc32c | src/crc32c.c:110-139 | the 8-, 4- and 1-byte loops compute the register for every length |
| CrcPaths.KflCrc32c | src/crc32c.c:187-203 | either build computes the CRC with the convention of section 12.1 of RFC 3720 |
| CrcPaths.KflCrc32cVerify | src/crc32c.c:211-233 | 1 exactly for valid buffers; 0 for null and for fewer than four bytes |
| CrcParity.DetectsOddChange | src/crc32c.c:205-233 | on the hardware path a change of an odd number of bits, anywhere in a valid buffer of any length, makes it invalid |
| Mersenne.Prime | src/crc32c.c:10-13 | 2^31 - 1, the number of steps after which the powers of x modulo the polynomial repeat, is prime |
| CrcOrder.Order | src/crc32c.c:10-13 | the bit-serial division comes back to where it started exactly after the multiples of 2^31 - 1 steps |
| CrcTwoBits.DetectsTwoBits | src/crc32c.c:205-233 | on the hardware path a change of two bits of a valid buffer of any length, wherever they are, is detected exactly if they are not a multiple of 2^31 - 1 bits apart |
| CrcDrift.DriftIs | src/crc32c.c:14-103 | the table-driven register is the polynomial one plus the accumulated error of the misprinted entries |
| CrcDrift.DriftOfHits | src/crc32c.c:94-103 | that error is the sum, over the lookups that meet the two entries, of bit 2 moved on by eight bit steps for every byte that follows |
| CrcDrift.PathsAgree | src/crc32c.c:187-203 | both builds give one CRC exactly when that sum is zero |
| CrcDrift.SameHitsSameFate | src/crc32c.c:187-203 | so whether they agree depends only on which lookups meet the two entries |
| CrcDrift.NoHitNoDrift | src/crc32c.c:94-103 | they agree when no lookup meets the two entries |
| CrcDrift.OddHitsDisagree | src/crc32c.c:94-103 | they never do when an odd number of lookups meets them |
| CrcDrift.TwoHits | src/crc32c.c:94-103 | when exactly two do, they agree exactly if the two are a multiple of 2^31 - 1 bytes apart |
| CrcDrift.Disagreement | src/crc32c.c:62 | a one-byte buffer on which the builds differ |
| CrcValues.OfNothing | src/testcrc32c.c:24-37 | the CRC of no bytes, on either path: 0 |
| CrcValues.OfZero | src/testcrc32c.c:24-37 | of one zero byte: 0x527D5351 |
| CrcValues.OfDigits | src/testcrc32c.c:24-37 | of the digits 1 to 9: 0xE3069283 |
| Xxh32.Stripes | src/hash.c:235-254 | the four interleaved lanes, one word each per 16 bytes, and their merge |
| Xxh32.Xxh32 | src/hash.c:230-280 | the pointer loops compute, for every length, the hash of the byte string, the one that the inverse and the values below are about |
| Xxh32Back.AvalancheBackIs | src/hash.c:273-277 | the inverses of the primes and the shifts, in reverse order, undo the final mixing |
| Xxh32Back.RoundBackIs | src/hash.c:223-228 | a right rotation and the inverses undo a round: accumulator and word come back |
| Xxh32Back.MergeBackIs | src/hash.c:253-254 | each lane comes out of the merged value and the other three |
| Xxh32Back.WordRecovered | src/hash.c:230-280 | for every seed, length and place an aligned word is computed back from the hash, the seed, the length and the other bytes, with the inverse primes and right rotations |
| Xxh32Back.ByteRecovered | src/hash.c:267-271 | so is a trailing byte |
| Xxh32Values.OfNothing | src/hash.c:256-280 | the published value of no bytes, 0x02CC5D05 |
| Xxh32Values.OfA | src/hash.c:256-280 | of "a": 0x550D7456 |
| Xxh32Values.OfASeeded | src/hash.c:256-280 | of "a" with seed 1: 0xF514706F |
| Xxh32Values.OfNobody | src/hash.c:230-280 | of 39 bytes that take every branch: 0xE2293B2F |
| Xxh32Values.OfNobodySeeded | src/hash.c:230-280 | the same with seed 1: 0x534469EA |
| Xxh32.RoundOfInput | src/hash.c:223-228 | a round tells different input words apart |
| Xxh32.RoundOfAcc | src/hash.c:223-228 | a round tells different accumulators apart |
| Xxh32.MergeInjective | src/hash.c:253-254 | one differing lane shows in the merged value |
| Xxh32.AvalancheInjective | src/hash.c:273-277 | the final mixing is a bijection |
| Xxh32.LaneSeparates | src/hash.c:230-280 | inputs of one length that differ only inside one aligned lane of four bytes hash differently, for any seed and length |
| Xxh32.ByteSeparates | src/hash.c:267-271 | so do inputs that differ only in one trailing byte |
| HashB79.Ascii2Mx79 | src/hash.c:57-73 | the range table yields a class for every character, below 79 |
| HashB79.SharedIffTogether | src/hash.c:37-54 | two characters share a class exactly if both lie in one of nine listed ranges |
| HashB79.ClassMonotone | src/hash.c:37-54 | classes are in the order of the characters, and a class of one character tells it apart |
| HashB79.EveryClass | src/hash.c:37-54 | every class below 79 is that of some character |
| HashB79.HashB79 | src/hash.c:81-104 | the positional value of ten classes in base 79, with no overflow of 64 bits; 0 for null |
| HashB79.ValueOrder | src/hash.c:92-101 | numbers of equal length compare like their digits, and are equal only if the digits are |
| HashB79.OrderOfClasses | src/hash.c:75-80 | words hash in the order of their padded classes |
| HashB79.ClassesRecovered | src/hash.c:92-101 | repeated division by 79 gives the classes back |
| HashB79.OfLetters | src/hash.c:81-104 | the hashes of "a" and "ABCDEFGHIJ" |
| HashB79.CatDogDuck | README.md:82 | cat, dog and duck are hashed in this order |
| HashB79.OrdersLikeStrcmp | src/hash.c:75-80 | on words of at most ten characters with classes of their own the hash is injective and orders like strcmp |
| HashB79.SeenDecides | src/hash.c:75-80 | any two words, of any length and characters, are ordered like strcmp when their first difference is within ten characters and not inside one class |
| HashB79.OrderedIffSeen | src/hash.c:75-80 | any two different words are told apart and ordered like strcmp exactly if the first difference of their classes is among the first ten and has the sign of the first difference of their characters |
| HashB79.SharedClassMisorders | src/hash.c:37-54 | any two characters of one class, behind up to eight others, go on to words whose order the hash reverses |
| HashB79.OrderedIffTold | src/hash.c:37-54 | behind any prefix, two characters are ordered rightly in front of every continuation exactly if the prefix is shorter than ten characters and their classes differ |
| CfgLex.TokenAdvances | src/cfg_parser.c:57-182 | next_tok stays within the text, stops at a terminator and consumes at least one character of anything else |
| CfgLex.Lexer.ReadString | src/cfg_parser.c:76-101 | the loop decodes escapes, stops at 511 characters and flags a missing quote |
| CfgLex.Lexer.ReadNumber | src/cfg_parser.c:136-164 | sign, digits and dots, at most 63 characters; two dots are an error; integers are cut to 64 bits |
| CfgText.IntegerReads | src/cfg_parser.c:136-164 | a run of digits with or without a minus reads as the sum of its digits by their places, cut to the nearest 64-bit integer |
| CfgText.LongIntegerIsCut | src/cfg_parser.c:136-164 | the same for the first 63 characters of a longer run, and the rest is the next token |
| CfgText.FloatReads | src/cfg_parser.c:136-164 | digits with one dot are a float with this text |
| CfgText.TwoDotsFail | src/cfg_parser.c:151-154 | a second dot is a mistake |
| CfgText.IntReadsBack | src/cfg_parser.c:136-164 | every 64-bit integer, as it prints, reads back, whatever follows that is no digit and no dot |
| CfgText.StringReadsBack | src/cfg_parser.c:76-101 | every string of at most 511 characters, quoted, with newline, tab, quote and backslash escaped, reads back |
| CfgText.OtherEscapes | src/cfg_parser.c:82-86 | a backslash before any other character stands for it |
| CfgText.OpenStringReads | src/cfg_parser.c:76-101 | a string without its closing quote is read to the end of the line, and is a mistake |
| CfgText.StringIsCut | src/cfg_parser.c:76-101 | a longer string is cut behind 511 characters, and is a mistake |
| CfgText.WordReads | src/cfg_parser.c:167-176 | a word of at most 511 letters, digits and underscores |
| CfgText.LongWordIsCut | src/cfg_parser.c:167-176 | a longer word is cut, and the rest is the next token |
| CfgText.OtherCharacters | src/cfg_parser.c:178-181 | a character that begins no token ends what is read |
| CfgLex.Lexer.ReadIdent | src/cfg_parser.c:167-176 | the longest word of at most 511 characters |
| CfgLex.Lexer.NextTok | src/cfg_parser.c:57-182 | the cursor and the error flag move as the token function says, for every text |
| CfgLex.Lexer.PeekTok | src/cfg_parser.c:184-189 | the position is restored, the error flag is not |
| CfgLiterals.LiteralReads | src/cfg_parser.c:197-298 | every value without floats, written as null, true, false, an integer, a quoted string or a bracketed list, to any depth, is the value that is read, and the text behind it is left |
| CfgLiterals.ItemsRead | src/cfg_parser.c:257-293 | the items of a written list are read in order, up to the bracket |
| CfgLiterals.ItemsThen | src/cfg_parser.c:257-293 | behind written items the list goes on as it would without them, mistakes included |
| CfgLiterals.RhsOfLiteral | src/cfg_parser.c:302-314 | a literal is the value of a right-hand side, whatever follows but a plus |
| CfgLiterals.ChainReads | src/cfg_parser.c:302-382 | literals with a plus between them give the string of what they print as, from left to right |
| CfgLiterals.LonePlusReads | src/cfg_parser.c:342-347 | with nothing behind the plus, the string that the value prints as |
| CfgLiterals.FloatPrints | src/cfg_parser.c:197-209 | a float keeps its text and prints as the format of this text |
| CfgLiterals.VariableReads | src/cfg_parser.c:211-255 | a variable is its value, and null if it is not defined |
| CfgLiterals.ElementReads | src/cfg_parser.c:226-247 | with an index, the item of its list at this place counted from zero, and null outside the list |
| CfgLiterals.NoElement | src/cfg_parser.c:226-247 | what is no list, or is not defined, has no elements: null, and no mistake |
| CfgLiterals.IndexMustClose | src/cfg_parser.c:232-236 | an index without its bracket is a mistake |
| CfgLiterals.IndexMustBeInt | src/cfg_parser.c:237-241 | and so is a string as an index |
| CfgLiterals.SignIsNull | src/cfg_parser.c:295-297 | a sign in the place of a value is null, and no mistake |
| CfgLiterals.StraySign | src/cfg_parser.c:275-282 | an equals sign among the items of a list is passed over, and is a mistake |
| CfgLiterals.OpenListReads | src/cfg_parser.c:265-292 | a list may end with the line |
| CfgLiterals.OpenStrings | src/cfg_parser.c:302-382 | a string without its closing quote is a mistake as a value, as an item and behind a plus |
| CfgLiterals.MistakeInside | src/cfg_parser.c:257-293 | a mistake in a list is one of every list around it |
| CfgEval.ConcatReads | src/cfg_parser.c:302-382 | KEY + RHS reads as the old value of KEY followed by what RHS reads |
| CfgEval.AppendIsConcat | src/cfg_parser.c:470-502 | for a right-hand side that starts with a value the two ways to append agree exactly if the key is defined |
| CfgLoad.AppendLineIsConcatLine | src/cfg_parser.c:389-506 | the same for whole lines, result code included |
| CfgLines.LiteralLine | src/cfg_parser.c:470-474 | KEY = literal, with or without a comment: the key has this value, nothing else changes, and the result is 0 |
| CfgLines.AppendedLine | src/cfg_parser.c:476-502 | KEY += literal: the key is the string of what it printed as, nothing if it was not defined, and of what the literal prints as |
| CfgLines.NoValue | src/cfg_parser.c:302-307 | a key with nothing behind its equals sign becomes null |
| CfgLines.DisplayLine | src/cfg_parser.c:448-461 | showing a literal changes nothing |
| CfgLines.CommentLine | src/cfg_parser.c:405-408 | comments and empty lines change nothing |
| CfgLines.BlanksAround | src/cfg_parser.c:395-398 | blanks before and behind a line do not count |
| CfgLines.LoneName | src/cfg_parser.c:504-505 | a name with nothing behind it is a mistake |
| CfgLines.NoWordFirst | src/cfg_parser.c:410-413 | a line that begins with a sign, a quote or a digit is a mistake |
| CfgLines.StrayLine | src/cfg_parser.c:405-408 | one that begins with a character of no token is none |
| CfgLines.LongLine | src/cfg_parser.c:556-569 | a line of more than 1022 characters is a mistake, whatever it holds |
| CfgLines.LinesInOrder | src/cfg_parser.c:553-579 | lines are read in order, each with the variables that those before it leave |
| CfgLines.NestingDepth | src/cfg_parser.c:529-545 | of n + 1 files that include each other in a row the last is read, at depth n, exactly if it is there and n is at most 16; otherwise nothing changes and the result is -1 |
| CfgLines.NoFileName | src/cfg_parser.c:431-434 | an include without a name is a mistake |
| CfgLines.AbsoluteInclude | src/cfg_parser.c:436-445 | an include of an absolute name of at most 511 characters loads this path, whatever the directory is |
| CfgLines.RelativeInclude | src/cfg_parser.c:436-445 | one of a relative name loads the file of this name in the directory |
| CfgLines.QuotedInclude | src/cfg_parser.c:425-429 | quotes around the name do not count, blanks inside them do |
| CfgLines.IncludeIsCut | src/cfg_parser.c:420-423 | a longer name is cut behind 511 characters and another file is loaded |
| CfgLines.Relocated | src/cfg_parser.c:436-445 | files that include each other by relative names only, moved under another directory, load to the same variables and the same result |
| CfgLoad.FailsIffLineFails | src/cfg_parser.c:553-579 | a file fails exactly if one of its lines does, and the lines behind it still count |
| CfgLoad.CyclesFail | src/cfg_parser.c:529-580 | loading any file of an include cycle, of whatever shape, ends and reports an error |
| CfgHeap.Var.Push | src/var.c:91-111 | the array is longer by the item; a full array doubles its capacity, any other keeps it |
| CfgHeap.NodesDenote | src/var.h:18-31 | walking the pointers from a node reads exactly the value it stands for |
| CfgHeap.NoCycles | src/cfg_parser.c:257-293 | no path through arrays comes back: the graph of values is acyclic |
| CfgHeap.GetElement | src/var.c:113-121 | the element itself, shared, or a null outside the array |
| CfgHeap.EvalVariable | src/cfg_parser.c:211-255 | a variable or an element of one, shared by pointer, with the errors of a malformed index |
| CfgHeap.EvalArray | src/cfg_parser.c:257-293 | the loop ends on every text, also with bad tokens, and the array stands for the items read; nothing that existed before changes |
| CfgHeap.EvalAtom | src/cfg_parser.c:197-298 | the node stands for the value of the text, and only new nodes are written |
| CfgHeap.VarToStr | src/var.c:181-207 | the string form of what the node stands for |
| CfgHeap.AddText | src/cfg_parser.c:353-371 | the buffer, doubled until it fits, holds the old text and the new one with its terminator |
| CfgHeap.EvalChain | src/cfg_parser.c:316-381 | the buffer is the left-to-right concatenation of the string forms, and always has room for its terminator |
| CfgHeap.EvalRhs | src/cfg_parser.c:302-382 | the node stands for the value of the right-hand side |
| CfgRun.RunAssign | src/cfg_parser.c:470-474 | the key stands for the value, all other variables as before |
| CfgRun.RunAppend | src/cfg_parser.c:476-502 | the key stands for the old string followed by the new one |
| CfgRun.ParseLine | src/cfg_parser.c:389-506 | every kind of line has its effect and its result code |
| CfgRun.LoadFile | src/cfg_parser.c:529-580 | loading ends for every file system, agrees with the value-level reading, goes on after errors, and never changes a stored value |

## Left out

- BmSetExtent, BmCount, BmFind and BmExtentCanGrow: a range whose end wraps around in 64 bits so that the range test accepts it is not modelled; the source reads or writes outside its buffer there.
- SetImpl: which allocation fails is not determined; the log says what has happened. A value that is freed on replacement must be a live allocation of the dictionary's context and not one of its own blocks.
- Cfg.Store: the variables of a configuration are a plain map, the one that the dictionary refines.
- EachDeleting: the callback may delete the key it is told; what happens when it inserts, deletes other keys or rehashes is not promised by the source and not modelled.
- TaRuns.Perform: a client that uses a pointer after it has been freed; in a run a call for a pointer that the client does not hold is made with null, or not made.
- TaRealloc: a successful reallocation always yields a new node, as section 7.22.3.5 of ISO C11 has it; that it may lie at the address of the old one is not visible.
- NULL dictionaries and keys, which return at once with -1, NULL or 0, and the byte contents of allocated memory, but for the keys of entries.
- Configuration values are built with allocations that succeed; the paths for a failing allocation are not modelled there.
- Output of the display directive and of all printing functions, dumps and traces.
- Values of type dictionary inside configurations, which the reader never creates, and the coercions to int, float and bool.
- `xxh64`, `list_reparent`, the string helpers of the allocator, `kfs_config`, `globals`, `krand64` and `utils` apart from `trim`.
- `fopen`, `fgets` and `dirname`: a file system is a map from paths to lines, and dirname an arbitrary function.
- Concurrent callers: locking is the caller's task by design.
