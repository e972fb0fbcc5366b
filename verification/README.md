# Verified models from a small i386 kernel

The repository is a teaching kernel with a boot-time decompressor and a C runtime
library. This project models its most intricate parts in Dafny and proves what they are
for:

- **Decompression** (`boot/zBoot`). A bit stream, canonical prefix codes and the format of
  RFC 1951 (sections 3.2.2 to 3.2.7) are defined by themselves, in `Stream`, `Canonical` and
  `DeflateSpec`. The decoder's procedures work on heap arrays and fields: the table builder
  `huft_build` (`HuftPrepare`, `HuftInvariant`, `HuftGrow`, `HuftFill`, `HuftLevels`,
  `HuftBuild`), table walks (`Lookup`), the bit buffer (`Input`), the circular window
  (`Output`), and one module per block type. They are proved to compute exactly what the
  format says, for every input and any mix of blocks, exactly unless a block has more than
  thirty distance codes (`DeflateWalk`, `DeflateCases`); `Unzip` accepts a gzip member exactly
  when its CRC-32 (`Crc`) and length match.
- **What the format means.** The format's tables are derived from arithmetic (`DeflateLaws`),
  and a compressor's side is written down by itself (`Deflater`, `DeflateTrip`): bytes and
  matches, code lengths and runs, three kinds of blocks, bit by bit. Decoding gives back what
  was compressed (`DeflateTrip.RoundTrip`), and nothing else is accepted
  (`DeflateWritten.ExactlyWritten`); the same for whole gzip members (`GzipTrip`). `CrcLaws` has
  the CRC-32 by its known constants, `PrintLaws` fields and numbers by their characters.
- **Sorting** (`lib/libxc/qsort.c`): the quicksort on blocks of bytes, with its sliding pivot
  block, sorts a permutation for every total preorder, with nesting at most log2 n.
- **Signals** (`c/disp.c`, `c/signal.c`): masks and stack frames of one process over all runs
  of kills, deliveries, returns and its own steps.
- **Scheduling** (`c/disp.c`, `c/sleep.c`, `c/create.c`): the ready list and the delta-coded
  sleep list as linked lists in the heap refine a scheduler of functions, over whose runs
  conservation, bounded waiting and wake-up times are proved.
- **Numbers as text** (`lib/libxc/doprnt.c`, `doscan.c`): scanning undoes printing, exactly
  unless zeros were filled in on the right.

## How to read it

Words of 32 bits are natural numbers with C's operators defined bit by bit (`Words`).
Objects whose fields the source updates are classes; what their methods do is stated by
pure functions (`DeflateSpec`, `Schedule`, `Signals`, `Print`, `Scan`), and the promises are
lemmas about those functions over all inputs and runs.

In the decoder's outcomes, `Returned(code)` is a return, `Halted` is the endless loop
of `error()`, and `Undefined` is an access that C leaves undefined: a null table (a code set
without codes that is walked all the same), or an entry made from memory that was never
written. The decoder is *excused* from success only when the data is not valid, when a block
has too many distance codes, or when it halts for lack of input less than 16 bits after the
end of the data.

Points at which the code differs from the standard or from its own comments, kept as the
code has them:

- The format lets a block have up to 32 distance code lengths; the decoder rejects 31 and 32.
  `Inflate.Accepts` gives the exact condition, and `DeflateCases.ManyDistancesRejected` an input.
- Distances are not checked against the bytes produced so far. The decoder's specification
  therefore starts with what the window held before. Data that is valid by itself decodes
  alike after any bytes (`DeflateHistory.InflatedAfter`); data that is accepted is valid by
  itself exactly when no reference reaches before its first byte (`DeflateWalk.ValidByItself`),
  and `DeflateCases.FarBackAccepted` is an input for which one does.
- A code set with a single one-bit code, or with none, is accepted for literals too. A repeat
  code 16 that comes first repeats length zero.
- `huft_build` says that code 2 is also for all-zero lengths; it returns 0 and a null table.
  A table below the first can come out one bit too wide when its lengths are ill-suited;
  `HuftBuild.Suits` excludes that, and every call in the file satisfies it.
- `validsignal` compares the process number, not the signal number, with the signal range,
  and `validpid` never rejects.
- Taking away the handler of a signal that is pending lets a lesser signal start the null
  handler (`SignalRuns.NullStarts`); in runs without that no null handler starts
  (`SignalRuns.StartsLatest`).
- Signal 30's priority mask does not decode to 30 (`Signals.MaskSaysSignal`).
- A sleep of 2^32 / 100 milliseconds or more overflows before the division
  (`ScheduleRuns.TicksExact`, `ScheduleRuns.TicksLost`).
- A left-justified field with zero fill gets its zeros on the right (`PrintScan.ZerosOnTheRight`).

## Model

| member | source | states |
|---|---|---|
| `Inflate.Inflater.Inflate` | boot/zBoot/inflate.c:769-810 | For every input and window: when 16 bits follow a data set that the format allows, returns 0 exactly if no block has more than thirty distance codes, and never returns 0 for other data; on return 0 the output has grown by exactly the specified bytes, the CRC register and byte count cover them, and the input pointer is the position in bits over eight, rounded up. What is specified is exactly what a compressor can write (`DeflateWritten.DecodedExactly`) |
| `Inflate.Inflater.InflateBlock` | boot/zBoot/inflate.c:722-765 | One block of any type leaves the history, the stream position and the last-block flag that the specification gives for it |
| `Inflate.Inflater.InflatedStep` | boot/zBoot/inflate.c:783-791 | Block after block, the outcome of a block is the outcome of the whole data set |
| `Inflate.Inflater.Finish` | boot/zBoot/inflate.c:793-802 | Gives back whole unused bytes and sends the rest of the window, so that everything decoded is in the output |
| `DeflateTrip.RoundTrip` | boot/zBoot/inflate.c:769-810 | Inflating undoes deflating: any blocks that a compressor may write, from any bit on and after any bytes, are read as what was compressed, up to their last bit |
| `DeflateWritten.Written` | boot/zBoot/inflate.c:769-810 | Whatever is accepted, some blocks of a compressor stand for it |
| `DeflateWritten.ExactlyWritten` | boot/zBoot/inflate.c:769-810 | For all streams: accepted is exactly what a compressor can write, and it is read as what was compressed |
| `DeflateWritten.DecodedExactly` | boot/zBoot/inflate.c:584-590 | What the decoder reads is exactly what can be written with at most 30 distance codes in each block |
| `DeflateWritten.FormatExactly` | boot/zBoot/inflate.c:584-590 | The format, in turn, allows exactly what can be written with at most 32 |
| `DeflateTrip.HeaderRead` | boot/zBoot/inflate.c:574-660 | The three counts, the lengths of the code length codes in the order they are sent, and the runs are read as the code lengths that were written |
| `DeflateTrip.RunsRead` | boot/zBoot/inflate.c:616-660 | Lengths, repetitions and runs of zeros are read as the lengths they stand for |
| `DeflateTrip.PlainRead` | boot/zBoot/inflate.c:434-486 | A stored block is read as its bytes, whatever bits are skipped before it |
| `Deflater.TokensRead` | boot/zBoot/inflate.c:346-420 | The codes of a block are read as the bytes and matches that were compressed |
| `Deflater.FixedIs` | boot/zBoot/inflate.c:504-518 | The way codes are assigned gives the table of section 3.2.6 of RFC 1951: from 0x30, 0x190, 0 and 0xc0 on |
| `DeflateLaws.LengthTable` | boot/zBoot/inflate.c:51-57 | Length symbol i from 4 to 27 has (i - 4) / 4 extra bits and starts at 3 + (4 + i mod 4) 2^((i - 4) / 4); the first four stand for 3 to 6, the last for 258 |
| `DeflateLaws.DistanceTable` | boot/zBoot/inflate.c:58-65 | Distance symbol i from 2 to 29 has (i - 2) / 2 extra bits and starts at 1 + (2 + i mod 2) 2^((i - 2) / 2); the first two stand for 1 and 2 |
| `DeflateLaws.ReferenceIs` | boot/zBoot/inflate.c:378-396 | For every length from 3 to 258 and every distance from 1 to 32768: the symbols and extra bits that arithmetic gives are read as exactly that length and that distance |
| `DeflateLaws.ReferenceRange` | boot/zBoot/inflate.c:378-396 | No other lengths and distances are ever read |
| `DeflateLaws.CopyRound` | boot/zBoot/inflate.c:398-418 | A copy repeats the last bytes round and round: its i-th byte is the one at i modulo the distance |
| `DeflateLaws.OrderIs` | boot/zBoot/inflate.c:49-50 | Lengths of code length codes are sent for 16, 17, 18, 0, and then from 8 outwards, up and down in turn |
| `DeflateWalk.InflatedFew` | boot/zBoot/inflate.c:584-590 | With the decoder's limit a data set decodes exactly when it does under the format's and no block has too many distance codes |
| `DeflateCases.ManyDistancesRejected` | boot/zBoot/inflate.c:584-590 | An input with 31 distance code lengths that the format allows and the decoder rejects |
| `DeflateWalk.InflatedAgrees` | boot/zBoot/inflate.c:346-420 | A data set is valid exactly when its structure is and no reference goes back beyond the bytes before it and those produced so far |
| `DeflateWalk.LengthDecides` | boot/zBoot/inflate.c:396-418 | Whether a data set is valid depends on how many bytes came before it, not on which |
| `DeflateWalk.ValidByItself` | boot/zBoot/inflate.c:396-418 | What is valid after other bytes is valid by itself exactly when every distance is within the bytes produced so far |
| `DeflateCases.FarBackAccepted` | boot/zBoot/inflate.c:396-418 | An input whose reference reaches before its first byte: decoded after any byte, and not valid by itself |
| `DeflateHistory.InflatedAfter` | boot/zBoot/inflate.c:396-418 | A data set that is valid from an empty history decodes to the same bytes after any earlier bytes, so what the window held does not matter |
| `DeflateHistory.CompressedAfter` | boot/zBoot/inflate.c:346-420 | The same for the codes of one block |
| `InflateCodes.InflateCodes` | boot/zBoot/inflate.c:328-430 | With tables that decode both code sets, a block extends the history exactly as the codes specify, or its failure is excused |
| `InflateCodes.OneCode` | boot/zBoot/inflate.c:346-420 | One turn of the loop: a literal, the end of the block, or a reference, each as specified |
| `InflateCodes.DecodeReference` | boot/zBoot/inflate.c:378-396 | The length and distance read are those of the specification, which are those of arithmetic (`DeflateLaws.ReferenceIs`), and the offset computed modulo 2^32 is that distance behind the window position |
| `InflateCodes.DecodeDistance` | boot/zBoot/inflate.c:383-396 | The same for the distance alone, including its failures |
| `InflateCodes.OffsetBehind` | boot/zBoot/inflate.c:395-401 | The wrapped unsigned difference, cut to 15 bits, is the distance back on the circle |
| `Lookup.DecodeSymbol` | boot/zBoot/inflate.c:353-362 | Walking the tables finds exactly the symbol whose canonical code the stream starts with and drops exactly its bits; invalid, undefined and short input are told apart correctly |
| `Lookup.DirectEntry` | boot/zBoot/inflate.c:622-625 | When the first table is as wide as the longest code, one lookup without a walk gives the symbol and its length |
| `Lookup.NothingBeyond` | boot/zBoot/inflate.c:207-259 | No table lies beyond the longest code |
| `HuftBuild.Build` | boot/zBoot/inflate.c:99-303 | Returns 2 exactly when the Kraft sum exceeds one, 1 exactly when it is below one and the longest length is not one, else 0, with a null table for all-zero lengths; for every suited list the tables decode the code set |
| `HuftBuild.ReturnMeans` | boot/zBoot/inflate.c:301-303 | The return code by the Kraft sum in units of 2^-16: 2 above 65536, 1 below it when some length exceeds 1, else 0 |
| `HuftBuild.MakeTables` | boot/zBoot/inflate.c:196-297 | The main loop fills every slot of every table, from the shortest code to the longest, for all points of the code space |
| `HuftBuild.PlaceLength` | boot/zBoot/inflate.c:207-297 | The codes of one length advance the filled part of the code space to where the next length starts |
| `HuftBuild.PlaceCode` | boot/zBoot/inflate.c:211-295 | One code: tables down to it, its entry replicated, the counter moved on, and the way back up keep the invariant |
| `HuftBuild.SortAndMake` | boot/zBoot/inflate.c:178-297 | Offsets, the sort by length and the tables together |
| `HuftGrow.TableBits` | boot/zBoot/inflate.c:222-237 | The size chosen for a new table is within its bounds and leaves room for all codes that lead to it |
| `HuftGrow.AddTable` | boot/zBoot/inflate.c:217-258 | A new table joins the tower of tables and is linked from the slot its codes lead to |
| `HuftGrow.PushKeeps` | boot/zBoot/inflate.c:239-257 | Adding and linking a table keeps the invariant on all tables |
| `HuftLevels.Descend` | boot/zBoot/inflate.c:215-259 | The inner loop stops with the table in which the current code ends |
| `HuftLevels.BackUp` | boot/zBoot/inflate.c:288-293 | Going back up stops at the table on the next code's path, leaving only finished tables behind |
| `HuftFill.MakeEntry` | boot/zBoot/inflate.c:262-275 | The entry is that of the next symbol in order of length, or the invalid marker when no symbol is left |
| `HuftFill.FillEntries` | boot/zBoot/inflate.c:278-281 | Writes the entry to exactly the slots whose low bits are the code, and to no other |
| `HuftFill.FillKeeps` | boot/zBoot/inflate.c:278-281 | After the fill all tables are right up to the end of the code's interval |
| `Geometry.BackwardIncrement` | boot/zBoot/inflate.c:283-286 | The bit-reversed counter goes to the next code, or to zero after the last |
| `Geometry.NextCounts` | boot/zBoot/inflate.c:283-286 | Counting backwards on patterns is counting forwards on codes |
| `HuftInvariant.SlotOfCode` | boot/zBoot/inflate.c:278-281 | A slot is written for a code exactly when its points lie in the code's interval |
| `HuftInvariant.SlotOwner` | boot/zBoot/inflate.c:278-281 | In a completed code set each slot of a table belongs to a code |
| `HuftInvariant.OwnerWrites` | boot/zBoot/inflate.c:278-281 | Of all codes that end in the table, exactly the slot's owner writes it; none does when the owner is longer, and the slot is left to a link |
| `Canonical.OwnerUnique` | boot/zBoot/inflate.c:187-192 | No point of the code space belongs to two codes |
| `Canonical.DecodeUnique` | boot/zBoot/inflate.c:353-362 | At most one symbol's code can start a stream |
| `Canonical.NextCodeStart` | boot/zBoot/inflate.c:196-212 | The standard's smallest code of each length, left-aligned, is where the shorter codes end |
| `Canonical.MatchesPoint` | boot/zBoot/inflate.c:353-362 | A symbol's code starts the stream exactly when the stream's next 16 bits fall into its interval |
| `Tables.ReadLeaf` | boot/zBoot/inflate.c:353-362 | A table entry that ends a code names the symbol whose code the stream starts with, or shows that there is none |
| `HuftPrepare.CountLengths` | boot/zBoot/inflate.c:135-140 | Counts how many symbols have each length |
| `HuftPrepare.FindBounds` | boot/zBoot/inflate.c:150-164 | Finds the least and greatest length in use and bounds the table size by them |
| `HuftPrepare.FillOut` | boot/zBoot/inflate.c:168-174 | Negative exactly for an oversubscribed set; otherwise the number of codes that complete the set |
| `HuftPrepare.Offsets` | boot/zBoot/inflate.c:178-183 | Running totals of the counts |
| `HuftPrepare.SortSymbols` | boot/zBoot/inflate.c:187-192 | Each symbol ends up at the place of its length and rank |
| `InflateDynamic.InflateDynamic` | boot/zBoot/inflate.c:544-718 | A block with its own codes is decoded as specified, including every rejection |
| `InflateDynamic.ReadCodeLengths` | boot/zBoot/inflate.c:574-660 | Reads exactly the two lists of code lengths of section 3.2.7 of RFC 1951, or fails for a reason |
| `InflateDynamic.ExpandLengths` | boot/zBoot/inflate.c:616-660 | The run-length expansion equals the specified one, across the boundary of the lists, within the array, and ends |
| `InflateDynamic.ExpandSymbol` | boot/zBoot/inflate.c:620-660 | One symbol appends one length or a run, or is rejected when the run is too long |
| `InflateDynamic.LengthSymbol` | boot/zBoot/inflate.c:622-626 | The symbol found by a single lookup is the one the stream starts with |
| `InflateDynamic.ReadLengthCodes` | boot/zBoot/inflate.c:593-601 | The lengths stored in the permuted order are the specified list, with zeros for those not present |
| `InflateDynamic.OrderOnto` | boot/zBoot/inflate.c:593-601 | The storage order is a permutation of the nineteen symbols |
| `InflateDynamic.BuildTables` | boot/zBoot/inflate.c:675-703 | Both codes are accepted exactly when both are complete, or have at most one-bit codes |
| `InflateFixed.InflateFixed` | boot/zBoot/inflate.c:490-540 | A block with the fixed codes is decoded as specified, with 32 distance codes |
| `InflateFixed.FixedComplete` | boot/zBoot/inflate.c:504-518 | The fixed literal code is complete |
| `InflateFixed.ThirtyDistances` | boot/zBoot/inflate.c:521-525 | The thirty distance codes are incomplete, with return code 1 |
| `InflateFixed.SameCodes` | boot/zBoot/inflate.c:521-525 | Thirty or thirty-two distance codes decode every block alike |
| `InflateStored.InflateStored` | boot/zBoot/inflate.c:434-486 | A stored block is copied byte by byte after its length was checked, as specified |
| `InflateStored.StoredLength` | boot/zBoot/inflate.c:448-463 | Realigns to a byte and accepts a length exactly when its complement follows |
| `Input.Input.NeedBits` | boot/zBoot/inflate.c:84-84 | Fetches bytes until n bits are there: the buffer holds exactly the next k bits with zeros above, never more than 23 |
| `Input.Input.DumpBits` | boot/zBoot/inflate.c:85-85 | Drops n bits |
| `Input.Input.TakeField` | boot/zBoot/inflate.c:84-85 | The field read is the number in the next n bits |
| `Input.FeedByte` | boot/zBoot/inflate.c:84-84 | A byte shifted in above k bits extends the buffer by the stream's next eight bits without loss |
| `Input.Input.GiveBack` | boot/zBoot/inflate.c:793-799 | The input pointer becomes the consumed bits over eight, rounded up |
| `Output.Output.CopyMatch` | boot/zBoot/inflate.c:398-418 | The chunked copy in the circular window equals appending byte by byte from that distance back in an unbounded history |
| `Output.Output.CopyChunk` | boot/zBoot/inflate.c:400-417 | One chunk, by memcpy or by the byte loop, and the flush of a full window |
| `Output.MirrorCopy` | boot/zBoot/misc.c:172-179 | A forward copy of overlapping bytes in the window is the specified copy |
| `Output.Output.MemCpy` | boot/zBoot/misc.c:172-179 | Copies upwards one byte at a time |
| `Output.Output.Emit` | boot/zBoot/inflate.c:365-370 | A byte joins history and window; a full window is sent |
| `Output.Output.FlushOutput` | boot/zBoot/misc.c:261-271 | Everything but the live part of the window has been written, counted modulo 2^32 and fed to the CRC |
| `Output.Output.FlushWindow` | boot/zBoot/misc.c:261-271 | Appends the window's first bytes to the output, CRC and count |
| `Crc.Register.UpdCrc` | boot/zBoot/misc.c:199-217 | The table-driven register equals the bit-at-a-time one on every byte string, and the complement is returned; a null pointer leaves 0xffffffff in the register and returns 0 |
| `Crc.Register.MakeCrc` | boot/zBoot/misc.c:281-311 | Builds the table: each entry is the eight-step remainder of its index |
| `Crc.TableEntry` | boot/zBoot/misc.c:302-309 | The loop over a sentinel bit gives the eight-step remainder |
| `Crc.MakePattern` | boot/zBoot/misc.c:295-298 | The exponents give the reflected polynomial 0xedb88320 |
| `Crc.TableStep` | boot/zBoot/misc.c:212-213 | One table lookup is eight shifts of the register |
| `Crc.FeedConcat` | boot/zBoot/misc.c:199-217 | Feeding pieces one after the other is feeding their concatenation |
| `CrcLaws.Residue` | boot/zBoot/misc.c:206-217 | For every byte string: feeding it and then the four bytes of its CRC-32, from 0xffffffff, leaves 0xdebb20e3 |
| `CrcLaws.OneZero` | boot/zBoot/misc.c:206-217 | The CRC-32 of one zero byte is 0xd202ef8d |
| `CrcLaws.FeedLittle` | boot/zBoot/misc.c:206-217 | Feeding the n bytes of a number makes 8 n steps from the exclusive or with it |
| `Unzip.Unzip` | boot/zBoot/unzip.c:86-178 | Accepts exactly the members whose compressed data the decoder accepts after what its window holds, and whose stored CRC-32 and length match all its bytes, which are then in the output |
| `Unzip.CheckTrailer` | boot/zBoot/unzip.c:143-173 | Reads eight bytes and compares both words; a missing byte, a wrong CRC and then a wrong length give their own endings |
| `Unzip.ValidMemberIsGood` | boot/zBoot/unzip.c:143-173 | Data valid by itself, without too many distance codes and with the right trailer, is accepted whatever the window held |
| `Unzip.GoodMemberValid` | boot/zBoot/unzip.c:143-173 | What is accepted is valid by itself exactly when no reference reaches before its first byte |
| `GzipTrip.MemberRestored` | boot/zBoot/unzip.c:86-178 | Whatever blocks gzip writes, with at most thirty distance codes each, packed into bytes and with their trailer, after any bytes, before any others and with any window: the member is accepted, and gives the bytes that were compressed |
| `GzipTrip.AcceptedExactly` | boot/zBoot/unzip.c:86-178 | Exactly the members are accepted that a compressor can write after what the window holds, followed by the right trailer |
| `GzipTrip.TrailerIs` | boot/zBoot/unzip.c:143-173 | The trailer is the four bytes of the CRC-32, least significant first, and then those of the length, and nothing else |
| `Unzip.LgIsWord` | boot/zBoot/gzip.h:216-217 | The macros read a little-endian word |
| `Qsort.Qsort` | lib/libxc/qsort.c:14-17 | The elements are sorted and a permutation of what they were; the first call has room for log2 n nested ones |
| `Qsort.Qs1` | lib/libxc/qsort.c:19-86 | Sorts its range and leaves the rest; recurs on the part that is no larger, which takes one from the room for nested calls, at least the logarithm of the range's size |
| `Qsort.Partition` | lib/libxc/qsort.c:37-85 | Ends with smaller, equal and greater elements around the pivot, through all paths, for every total preorder |
| `Qsort.FromRight` | lib/libxc/qsort.c:50-69 | The code at the inner label keeps the regions and makes progress |
| `Qsort.LeftStep` | lib/libxc/qsort.c:38-47 | What each comparison on the left allows |
| `Qsort.CrossStep` | lib/libxc/qsort.c:55-66 | Both ways a smaller element crosses: the sliding block, and the exchange of two |
| `Qsort.SlideStep` | lib/libxc/qsort.c:83-84 | The pivot block slides left for a greater element |
| `Qsort.SmallerPart` | lib/libxc/qsort.c:72-79 | A part no larger than the other needs one level of calls less |
| `Words.Log2Is` | lib/libxc/qsort.c:72-79 | The bound is the logarithm rounded down |
| `Qsort.Qsexc` | lib/libxc/qsort.c:88-101 | Exchanges the bytes of two blocks, also when they are the same, and leaves all others |
| `Qsort.Qstexc` | lib/libxc/qsort.c:103-119 | The first block gets the third, the third the second, the second the first, also when the last two are the same |
| `Qsort.SwapElements` | lib/libxc/qsort.c:88-101 | On the elements that the bytes stand for, two of them change places |
| `Qsort.RotateElements` | lib/libxc/qsort.c:103-119 | On the elements, three of them change places |
| `Qsort.FromRange` | lib/libxc/qsort.c:19-86 | What a permutation of a range puts there was in the range |
| `Signals.Process.DeliverSignalsIfAny` | c/disp.c:217-241 | When some signal is pending, allowed and acceptable, and only then: 68 bytes below the old stack pointer is a frame that continues in sigtramp with the handler of the greatest pending signal and the old stack pointer, exactly the greater signals are accepted, and memory, masks and handlers are otherwise unchanged |
| `Signals.Process.ModifyProcessStack` | c/signal.c:152-179 | By their offsets: sigtramp at 32, the code segment at 36, flags 0x3200 at 40, the handler at 48, the old stack pointer at 52 and 56, the mask at 60 and the return value at 64; no other memory changes |
| `Signals.Process.SigReturn` | c/disp.c:451-485 | Takes the mask and the return value from 8 and 4 bytes below the stack pointer it goes to, and clears exactly the completed signal; with nothing pending it returns -128, or ends a wait with the signal |
| `Signals.Process.Signal` | c/signal.c:99-110 | Returns 0 and makes exactly this signal pending when the process number is 0 to 31 and the signal allowed, else returns -1 and changes nothing |
| `Signals.Process.SigHandler` | c/disp.c:418-449 | Installs exactly this handler, gives back the old one, and allows exactly this signal, or no longer when the handler is null; numbers outside 0 to 31 give -1 |
| `Signals.GetNextSignal` | c/disp.c:194-203 | Finds the highest bit |
| `Signals.HighestPending` | c/disp.c:194-203 | That bit is a member of the mask with none above, and there is none exactly for zero |
| `Signals.PrMaskToSignum` | c/signal.c:64-81 | Computes what the mask decodes to |
| `Signals.MaskSaysSignal` | c/signal.c:64-93 | A signal's priority mask decodes to that signal exactly unless it is signal 30 |
| `Signals.PriorityMembers` | c/signal.c:86-93 | The priority mask accepts exactly the signals above |
| `Signals.DeliverableMeans` | c/disp.c:217-222 | The test in the masks means that some signal is pending, allowed and acceptable |
| `SignalRuns.RunFromStart` | c/create.c:75-75 | In every run of a new process active signals strictly increase up the stack and are pending, their frames in memory hold what was saved, and the mask is the top signal's |
| `SignalRuns.StartsLatest` | c/signal.c:163-168 | In every run of a new process the handler in the frame of a delivery is the one that was installed last for the delivered signal, and not null |
| `SignalRuns.HandlerIs` | c/disp.c:433-444 | After every run a signal has the handler installed last, and is allowed exactly when that is not null; before any was, it is as at the start |
| `SignalRuns.NullStarts` | c/disp.c:222-224 | After the handler of a pending signal was taken away, another pending signal makes the null handler start |
| `SignalRuns.CreatedInitial` | c/create.c:75-75 | The process that the constructor makes is a new one |
| `SignalRuns.RunValid` | c/disp.c:217-241 | The same in every legal run from any configuration of that kind |
| `SignalRuns.ApplyValid` | c/disp.c:217-241 | Each kind of move keeps that |
| `SignalRuns.DeliverValid` | c/disp.c:217-241 | A delivery pushes a handler above all active ones |
| `SignalRuns.DeliverableIff` | c/disp.c:217-222 | A signal is delivered exactly when the highest pending one is above the active ones |
| `SignalRuns.ReturnRestores` | c/disp.c:451-485 | The stack pointer that a return finds in its frame's memory is the one that the delivery saved, and so are the mask and the return value; exactly its signal is cleared, and a wait ends exactly when nothing is pending any more |
| `SignalRuns.Bracket` | c/disp.c:451-485 | Whatever happens while a handler is active, the return through its frame in memory brings back the stack pointer, mask and active handlers of before |
| `SignalRuns.ClearedByReturn` | c/disp.c:471-471 | A pending bit is cleared only by its own handler's return |
| `SignalRuns.DrainBound` | c/disp.c:217-241 | Without new kills there are at most twice the pending signals less the active ones deliveries and returns |
| `SignalRuns.Drained` | c/disp.c:217-222 | When nothing is left to deliver or to return from, nothing is pending |
| `SignalRuns.DeliveriesDecrease` | c/disp.c:194-241 | Without new kills handlers start in strictly decreasing order of their signals |
| `Scheduler.Kernel.constructor` | c/init.c:48-55 | After boot the root process, number 1, runs, the idle process, number 2, is in the ready queue, and all other slots are free |
| `Scheduler.Kernel.Ready` | c/disp.c:650-669 | Links the process in at the tail, and only marks the idle process |
| `Scheduler.Kernel.Next` | c/disp.c:679-722 | Takes the first ready process, passing over the idle process when there is another |
| `Scheduler.Kernel.Switch` | c/disp.c:283-286 | The process that next gives becomes the running one; lists and states stay in agreement |
| `Scheduler.Kernel.Yield` | c/disp.c:281-286 | Does what the function Yielded says and keeps lists, states, head and tail in agreement |
| `Scheduler.Kernel.Timer` | c/disp.c:397-404 | A yield followed by a tick |
| `Scheduler.Kernel.SysSleep` | c/disp.c:406-416 | The running process sleeps for its ticks and another runs |
| `Scheduler.Kernel.Create` | c/create.c:34-130 | The least free slot i becomes ready. Its number is i when its old one was not congruent to i modulo 64; else it is the old one plus 64, or i again when that reaches the largest int |
| `Scheduler.Kernel.NumberFinds` | c/disp.c:654-654 | A process that has not stopped is found in the table by its number modulo 64, and no other has its number |
| `Scheduler.Kernel.FreeSlot` | c/create.c:46-52 | Finds the first slot that is free |
| `Scheduler.Kernel.Sleep` | c/sleep.c:42-79 | Links the sleeper in at its place in the relative list |
| `Scheduler.Kernel.FindPlace` | c/sleep.c:58-68 | Finds the place before the first sleeper that does not wake earlier, and the time of the one before |
| `Scheduler.Kernel.Tick` | c/sleep.c:83-102 | Readies, in order, the sleepers whose time is up and counts down for the others |
| `SleepQueue.PutSleepFine` | c/sleep.c:42-79 | Inserting keeps every list and every other sleeper's remaining time |
| `SleepQueue.RelativeInsert` | c/sleep.c:69-75 | The relative times around the new sleeper still add up to the absolute ones |
| `SleepQueue.PutSleepAbs` | c/sleep.c:42-79 | In absolute times the sleeper was inserted and nothing else changed |
| `Queues.OnePlace` | c/disp.c:650-722 | Each process but the idle one is in exactly one place, and its state says which |
| `Queues.PutReadyFine` | c/disp.c:650-669 | Readying a process that is in no list leaves all lists well |
| `Queues.TakenFine` | c/disp.c:679-722 | Taking the next process off leaves it in no list and all lists well |
| `Queues.SwitchAbs` | c/disp.c:679-722 | On abstract queues it is the switch of the specification |
| `ScheduleRuns.RunKeepsPlaces` | c/disp.c:281-286 | In every run no process is lost or duplicated |
| `ScheduleRuns.RunFromBoot` | c/disp.c:281-286 | In every run since boot a created process is in exactly one place, and no other process in any |
| `ScheduleRuns.StepSane` | c/disp.c:281-286 | Each step keeps everyone in one place and the sleepers in order |
| `ScheduleRuns.RunsWithin` | c/disp.c:679-722 | A process with k others ahead of it runs within k + 1 calls of next |
| `ScheduleRuns.IdleAlone` | c/disp.c:690-705 | The idle process is given the processor only when no other is ready |
| `ScheduleRuns.WakeTime` | c/sleep.c:83-102 | A sleeper with T ticks is readied by tick k with T less the ticks that woke others, at the least, and T + 1 at the most |
| `ScheduleRuns.LeftAfter` | c/sleep.c:83-102 | Each tick takes one off a sleeper's time, and one more only when it wakes another |
| `ScheduleRuns.WakeOrder` | c/sleep.c:83-102 | Shorter remaining times wake first and equal ones together |
| `ScheduleRuns.TickExact` | c/sleep.c:83-102 | With a the least time left, a tick wakes exactly those with that time when a is at most 1; everyone else then has two ticks less when a was 1, and one less otherwise |
| `ScheduleRuns.NewcomerFirst` | c/sleep.c:58-77 | A new sleeper is put after all with less time left and before all with as much |
| `ScheduleRuns.OthersSleepOn` | c/sleep.c:42-79 | Other steps, and other sleepers' insertion, leave a sleeper's time alone |
| `ScheduleRuns.SleepStarts` | c/sleep.c:42-47 | A sleep starts with the ticks of its milliseconds |
| `ScheduleRuns.TicksExact` | c/sleep.c:29-31 | The conversion is exact exactly when the product does not overflow |
| `ScheduleRuns.TicksLost` | c/sleep.c:29-31 | A sleep of almost twelve hours that makes no tick at all |
| `ScheduleRuns.RunShort` | c/sleep.c:53-68 | No absolute time in any run exceeds the longest sleep, so 32-bit sums are exact |
| `Print.PrintField` | lib/libxc/doprnt.c:119-228 | Writes the field of the specification: sign, fill and digits in their order and number (`PrintLaws.FieldLaid`) |
| `Print.Convert` | lib/libxc/doprnt.c:119-181 | The digits are the numeral, in the letter's base, of the magnitude or of the bits, also for the most negative number and for capital letters |
| `Print.PrintDecimal` | lib/libxc/doprnt.c:138-154 | Billions taken off before signed division are added back to the first digit |
| `Print.AddBack` | lib/libxc/doprnt.c:138-151 | The corrected text is the numeral of the unsigned number |
| `Print.Prtl10` | lib/libxc/doprnt.c:250-265 | Ten digits without leading zeros are the numeral |
| `Print.Prtl8` | lib/libxc/doprnt.c:285-301 | Eleven octal digits of a possibly negative long, the last one masked, are the numeral of its bits |
| `Print.Prtl16` | lib/libxc/doprnt.c:320-335 | Eight hexadecimal digits of a possibly negative long are the numeral of its bits |
| `PrintLaws.CapitalsAlike` | lib/libxc/doprnt.c:119-181 | For all flags, widths and values D, U, O and X print what d, u, o and x print |
| `PrintLaws.FieldLaid` | lib/libxc/doprnt.c:200-228 | The length of a field is that of sign and digits, or a greater width up to 80; digits are decimal, octal or hexadecimal by the letter; fill stands after the digits, between sign and digits, or before the sign |
| `PrintLaws.DigitChars` | lib/libxc/doprnt.c:320-335 | Digits are 0 to 9 and a to f; capitals A to F are scanned as the same values |
| `Numerals.NumeralFromDigits` | lib/libxc/doprnt.c:254-264 | Low digits, trimmed and turned around, are the numeral |
| `Scan.Innum` | lib/libxc/doscan.c:119-205 | Stores the value modulo 2^32 of the number the input starts with, uses up exactly its characters, and reports the end of the input |
| `Scan.ScanDigits` | lib/libxc/doscan.c:155-182 | The accumulated word is the digits' value modulo 2^32 |
| `Scan.SkipBlanks` | lib/libxc/doscan.c:147-147 | Stops at the first character that is not blank |
| `PrintLaws.CapitalsScanAlike` | lib/libxc/doscan.c:155-175 | Numbers that differ in capital and small hexadecimal letters only are scanned alike |
| `PrintLaws.BlankBefore` | lib/libxc/doscan.c:147-147 | A space, tab or line feed before a number is skipped |
| `PrintLaws.SignBefore` | lib/libxc/doscan.c:148-156 | A plus sign before a number changes nothing and a minus sign negates it modulo 2^32, also when no digit follows; both count against the width |
| `PrintLaws.LengthLimits` | lib/libxc/doscan.c:157-180 | No more digits are taken than the width allows |
| `PrintScan.RoundTrip` | lib/libxc/doprnt.c:119-228 | For every conversion letter, small or capital, every 32-bit value, width and fill, scanning the printed field with the small letter gives the value back, exactly unless zeros were filled in on the right of a nonzero number; right-justified, it uses up exactly the field; the scanner's buffer holds it exactly unless it is filled with zeros to 64 to 80 places |
| `PrintScan.ScaledDiffers` | lib/libxc/doprnt.c:226-228 | Zeros on the right always change a nonzero number, modulo 2^32 |
| `PrintScan.NumeralValue` | lib/libxc/doscan.c:155-182 | A numeral stands for its number |
| `PrintScan.ZerosOnTheRight` | lib/libxc/doprnt.c:226-228 | The input that shows the failure: one, left-justified in three places, is printed as 100 |

## Left out

- Hardware: assembly, context switches, interrupt controller, timer chip, ports, screen, boot sectors, and the build tools.
- gzip header parsing and the PKZIP branches of unzip; the input is one byte sequence, so `fill_inbuf` and its buffer boundary are not modelled.
- A compressor's choices: which matches, codes and blocks it picks; only what it may write is modelled.
- Memory: `malloc` succeeds, so return code 3 does not occur; `huft_free`, its list through the tables, and the count `hufts` are not modelled.
- HuftBuild.Build: says nothing about what the tables decode for code lengths outside `Suits`, or about returned tables when the code is oversubscribed, because the source's tables are then wrong or missing; its return code is exact for all lists.
- InflateDynamic.LengthSymbol: an entry whose value the source left over from an earlier one counts as undefined, because the source does not look at its invalid marker there; no accepted code has such an entry.
- Qsort.Qsort: requires a total preorder and elements of at least one byte, as the library does; pointers are indices of elements, and sizes do not wrap at 32 bits.
- Signals.Process.Signal: models the masks of the target only, because waking blocked and sleeping targets breaks the process lists in the source. Signal numbers below 0 or above 31, which the source does not reject because it compares the process number, are excluded: C leaves the shift by them undefined.
- Signals.Process.DeliverSignalsIfAny: a pending signal 31 is excluded, because the source has no handler slot for it, and so is a stack pointer below the frame's size, because the source then wraps around the address space.
- Scheduler.Kernel.FreeSlot: a free slot is required, because the source otherwise goes on with the entry behind its table.
- Signals.Process.SigHandler: signal 31 is excluded, because the source then writes past its handler table.
- SignalRuns.Legal: signals 0 to 29, handlers that stay installed while their signal is pending, and returns from active handlers only, with a process that does not overwrite the frames of its handlers.
- Process death, blocked and dead lists, message passing, waiting for signals as a scheduling step, and the keyboard: the lists lose members there, so there is no invariant to keep.
- Scheduler.Kernel.Create: memory for the new stack and its first frame are not modelled; a free slot is required, because the source otherwise indexes past its table.
- Scheduler.Kernel.FindPlace: the two reads and the write through a null link at the end of the sleep list are guarded; the reads cancel in the source.
- Scheduler.Kernel.Next: a running process is required, because the source reads its number.
- Print.PrintField: starts after the format string was parsed; strings, single characters and binary output are not modelled.
- Scan.Innum: stores into a variable of 32 bits, with the stream's pushback as the only stream operation; `_doscan`'s format loop and `_instr` are not modelled. Fewer than 64 characters per number are required, the size of its buffer.
- Input.Input.GiveBack: gives back whole bytes, but does not model an input buffer whose start this would cross.
- The allocator `kmalloc`, `scanf` wrappers, floating-point conversion, string helpers, user programs, and deprecated copies.
