# Verified models of the libraries under headcrab

headcrab's server rests on three vendored C libraries: zlib, jansson and
libwebsockets. This project models their hardest code in Dafny and proves what
each is for. Code that works by updating state stays imperative: classes with the
source's fields, arrays changed in place, and loops with invariants. Each such
method is proved against a specification written separately.

| modules | what they model |
|---|---|
| `RollingHash`, `HashChains`, `Lz77`, `WindowExtent`, `Deflate`, `WindowRun` | zlib's LZ77 matcher: sliding window, hash chains modulo the window size, lazy, greedy and literal-only compression, over whole runs of `deflate` |
| `BitReverse`, `Canonical`, `SymbolSort`, `PrefixCode`, `TableSize`, `TableSlots`, `InfTrees` | `inflate_table`: canonical Huffman lengths to a two-level table, its size and the purpose of every entry |
| `InflateSpec`, `BitInput`, `CodeTables`, `BlockHeaders`, `InflateStandard`, `InfBack`, `BeyondWindow` | the decoding that RFC 1951 defines, and `inflateBack` with `inflate_fast` against it |
| `Crc32`, `Adler32`, `Sha1` | checksums and the digest, against their bit-at-a-time, byte-at-a-time and 80-word definitions |
| `Utf8`, `JsonString`, `JsonText`, `JsonParse`, `JsonRoundTrip`, `JsonLoad`, `JsonDump`, `JsonWhole` | jansson's printer, lexer and parser, and dumping over graphs of values with visited flags |
| `Hashtable` | jansson's hashtable: buckets as segments of one circular doubly linked list |
| `WsFrame` | WebSocket framing: the in-place writer and the byte-at-a-time receiver |
| `Arith`, `Bits` | division facts and bit strings as numbers |

Integers are unbounded in Dafny; where the source's width matters the bound is part
of a type or written out (`% 2^64` counters, 32-bit words, bytes). Bytes are
unsigned. In the compression and decompression models input is split arbitrarily,
and whether output space runs out (or `out()` fails) is nondeterministic.

## Results about the code that differ from its documentation

* The comment at WIN_INIT in deflate.c promises that all bytes a match comparison
  can look at were written. A slide may copy bytes that were not yet written into
  the lower half, and `high_water` then covers them. FillWindow states
  exactly when the promise holds; `WindowRun.Unwritten` is a run of two calls for which it fails.
  No output depends on those bytes: LongestMatch is proved whatever they are.
* `adler32` on a single byte subtracts BASE at most once from each half. The result
  is the checksum if and only if the second half needs no second subtraction, which
  is so whenever the starting value is reduced.
* `inflate_table` refuses codes whose tables need exactly the maximum number of
  entries (`>= ENOUGH`), and `inflateBack` then reports a data error for a valid
  stream. The number of entries is a function of the lengths (`TableSize.SizeNeeded`),
  the result is 1 if and only if the lengths are not refused and that number reaches
  the limit (`InfTrees.Crowded`), and `FullDistancesRefused` gives distance lengths for
  which it does. The decoding has the outcome `NoRoom` for such streams.
* A distance beyond the window is refused by `inflateBack` itself, but `inflate_fast`
  copies a match whose distance is at most the bytes written in this lap plus those
  kept from the last, whatever `sane` is. Beyond the window, such a match finds what
  is one window size less far back, and the stream can end in Z_STREAM_END with wrong bytes:
  `BeyondWindow.AnyRun` and `Reached` give a stream of 721 bytes. FastStep states exactly
  when the fast step does what the slow one does. The field `sane`, which `inflateBack` never
  initialises, decides only about distances that reach beyond all that is in the window.

## Model

| member | source | states |
|---|---|---|
| `Deflate.Session` | lib/libwebsockets/win32port/zlib/deflate.c:582-892 | a whole run: for any sequence of deflate calls (any split of the input, any flushes, any shortage of output space, any window size, level 1-9 and strategy but rle), refused calls included, the flushed blocks decode, block by block, as LZ77 to a prefix of what was taken, with every length in 3..258 and every distance at most MAX_DIST, and to all of it whenever the last call reports a completed flush or finish |
| `Deflate.ValidIsFaithful` | lib/libwebsockets/win32port/zlib/deflate.c:1520-1733 | what the invariant of any of the three compression functions means for the emitted blocks at any moment |
| `Deflate.DeflateState.DeflateSlow` | lib/libwebsockets/win32port/zlib/deflate.c:1616-1733 | keeps the invariant: tokens tallied expand to the input up to strstart but for the one held byte, the carried match is a true one; done means all input tallied and flushed |
| `Deflate.DeflateState.StepSlow` | lib/libwebsockets/win32port/zlib/deflate.c:1638-1723 | one lazy-matching decision keeps that invariant and uses up lookahead |
| `Deflate.DeflateState.EmitCarried` | lib/libwebsockets/win32port/zlib/deflate.c:1673-1701 | the carried match is emitted with a distance that is right even when match_start went negative in a slide; the bytes passed over are covered and the dictionary stays true |
| `Deflate.DeflateState.EmitHeld` | lib/libwebsockets/win32port/zlib/deflate.c:1703-1715 | the held byte becomes a literal and the next byte is held |
| `Deflate.DeflateState.DeflateFast` | lib/libwebsockets/win32port/zlib/deflate.c:1520-1608 | the same invariant without a held byte for greedy matching |
| `Deflate.DeflateState.EmitFast` | lib/libwebsockets/win32port/zlib/deflate.c:1560-1596 | a greedy match is emitted, inserted or skipped with the hash re-primed, and covers exactly its bytes |
| `Deflate.DeflateState.DeflateHuff` | lib/libwebsockets/win32port/zlib/deflate.c:1807-1834 | the same with literals only |
| `Deflate.DeflateState.LongestMatch` | lib/libwebsockets/win32port/zlib/deflate.c:1063-1204 | a result above prev_length is a true match at match_start within MAX_DIST, no longer than the lookahead, although its third byte is never compared |
| `Deflate.DeflateState.MatchEnd` | lib/libwebsockets/win32port/zlib/deflate.c:1168-1184 | the eight-step comparison, which checks its limit every eighth step only, finds the exact end of the match up to 258 |
| `Deflate.DeflateState.Compare` | lib/libwebsockets/win32port/zlib/deflate.c:1157-1187 | candidates that pass the four quick checks and equal hashes are matches of at least three bytes |
| `Deflate.DeflateState.Older` | lib/libwebsockets/win32port/zlib/deflate.c:1199-1200 | following prev within MAX_DIST gives NIL or an older position with the same hash |
| `Deflate.ThirdByteFollows` | lib/libwebsockets/win32port/zlib/deflate.c:1157-1169 | equal hashes and two equal bytes give a match of three bytes in the window |
| `Deflate.DeflateState.InsertString` | lib/libwebsockets/win32port/zlib/deflate.c:183-186 | the new string heads its chain and the old head is a candidate with the same hash |
| `Deflate.DeflateState.FillWindow` | lib/libwebsockets/win32port/zlib/deflate.c:1305-1430 | afterwards the window holds the latest input at shifted positions, the dictionary is intact, strstart is at most window_size - MIN_LOOKAHEAD, and lookahead is enough or input is used up; with or without input, the new end of the data, the input left, high_water and the start of the unwritten gap are a function of the same before the call and strstart, and when input was read all bytes a comparison can look at were written if and only if that function says so |
| `Deflate.DeflateState.ReadMore` | lib/libwebsockets/win32port/zlib/deflate.c:1366-1401 | each read has at least two free bytes and only appends behind the lookahead |
| `Deflate.DeflateState.SlideWindow` | lib/libwebsockets/win32port/zlib/deflate.c:1332-1361 | a slide moves window, positions and both tables together: every chain link stays true, garbage links become NIL or stay harmless |
| `Deflate.DeflateState.ReadBuf` | lib/libwebsockets/win32port/zlib/deflate.c:992-1017 | takes as much as fits, in order, and leaves the rest |
| `Deflate.DeflateState.PrimeHash` | lib/libwebsockets/win32port/zlib/deflate.c:1388-1397 | ins_h is the hash of the next two window bytes again |
| `Deflate.DeflateState.ZeroTail` | lib/libwebsockets/win32port/zlib/deflate.c:1404-1429 | high_water reaches window_size or WIN_INIT bytes behind the data; data, hash key and the copied gap are untouched |
| `WindowExtent.SlideTraced` | lib/libwebsockets/win32port/zlib/deflate.c:1332-1334 | a slide copies unwritten bytes down: exactly those between high_water - w_size and w_size |
| `WindowExtent.CleanIff` | lib/libwebsockets/win32port/zlib/deflate.c:1404-1411 | after zeroing, the bytes in reach are all written if and only if the copied gap is out of reach or covered |
| `WindowRun.Unwritten` | lib/libwebsockets/win32port/zlib/deflate.c:1332-1429 | two calls of deflate with a 512-byte window, any level, strategy and bytes: 762 bytes and a sync flush, one more byte and a sync flush. Unless output space runs out, byte 508 is then within reach of a comparison although it was never written: the promise of the comment at WIN_INIT fails |
| `Deflate.DeflateState.TallyLit` | lib/libwebsockets/win32port/zlib/deflate.h:319-325 | a literal of the next byte extends what the tokens expand to by one byte |
| `Deflate.DeflateState.TallyDist` | lib/libwebsockets/win32port/zlib/deflate.h:326-335 | a true match extends it by its length and stays encodable |
| `Deflate.DeflateState.FlushBlockOnly` | lib/libwebsockets/win32port/zlib/deflate.c:1436-1445 | the tallied tokens become one block that decodes to the text since block_start |
| `Deflate.DeflateState.ForgetHistory` | lib/libwebsockets/win32port/zlib/deflate.c:848-853 | clearing the hash and restarting at position 0 keeps the invariant |
| `Deflate.DeflateState.Deflate` | lib/libwebsockets/win32port/zlib/deflate.c:582-862 | one call: exactly when it is refused (input after a finish, no output space, a repeated flush with nothing to read or write) and when it only waits for output space, what becomes of last_flush, and that input is neither lost nor repeated |
| `RollingHash.ThirdByteEqual` | lib/libwebsockets/win32port/zlib/deflate.c:1129-1169 | same key and same first two bytes force the same third byte, for every hash size |
| `RollingHash.RollKeepsPrimed` | lib/libwebsockets/win32port/zlib/deflate.c:164-164 | rolling the key is hashing the next three bytes |
| `RollingHash.OldestByteLeaves` | lib/libwebsockets/win32port/zlib/deflate.c:164-164 | after three updates the oldest byte no longer matters |
| `HashChains.InsertKeepsChains` | lib/libwebsockets/win32port/zlib/deflate.c:178-187 | INSERT_STRING keeps every reachable position's hash true across prev index wraparound |
| `HashChains.SlideKeepsChains` | lib/libwebsockets/win32port/zlib/deflate.c:1338-1359 | so does sliding both tables |
| `Lz77.MatchCovers` | lib/libwebsockets/win32port/zlib/deflate.c:1682-1688 | appending a true match to tokens that expand to a prefix expands to the longer prefix, overlap included |
| `Crc32.CombineIsConcat` | lib/libwebsockets/win32port/zlib/crc32.c:372-425 | what crc32_combine_ computes from crc(A) and crc(B) is crc(A+B), for all byte strings |
| `Crc32.CombineChecksums` | lib/libwebsockets/win32port/zlib/crc32.c:428-434 | crc32_combine called on the checksums of two texts returns the checksum of both, an empty second one included |
| `Crc32.Crc32Combine` | lib/libwebsockets/win32port/zlib/crc32.c:372-425 | the alternating squarings apply the zeros operator for len2 bytes; a non-positive length returns crc1 |
| `Crc32.SquareAndApply` | lib/libwebsockets/win32port/zlib/crc32.c:401-419 | each squaring holds the operator of the next power of two, applied where the bit of len2 is set |
| `Crc32.MatrixSquare` | lib/libwebsockets/win32port/zlib/crc32.c:361-369 | squaring a matrix doubles the number of zero bits it stands for |
| `Crc32.MatrixTimes` | lib/libwebsockets/win32port/zlib/crc32.c:344-358 | the product is the operator that the matrix represents, applied |
| `Crc32.OneZeroBit` | lib/libwebsockets/win32port/zlib/crc32.c:386-393 | the first matrix is the operator for one zero bit |
| `Crc32.MakeCrcTable` | lib/libwebsockets/win32port/zlib/crc32.c:108-148 | all eight tables hold the bit-at-a-time register's effect, plain and byte-reversed |
| `Crc32.Crc32Little` | lib/libwebsockets/win32port/zlib/crc32.c:264-295 | equals the bit-at-a-time CRC for every buffer, starting crc and alignment |
| `Crc32.Crc32Big` | lib/libwebsockets/win32port/zlib/crc32.c:304-337 | the same with the register byte-reversed throughout |
| `Crc32.Crc32Bytes` | lib/libwebsockets/win32port/zlib/crc32.c:221-253 | the same for the plain loop |
| `Crc32.RegisterWord` | lib/libwebsockets/win32port/zlib/crc32.c:258-261 | four bytes through four tables are thirty-two register steps |
| `Crc32.RevWordStep` | lib/libwebsockets/win32port/zlib/crc32.c:298-301 | the big-endian tables do the same on a reversed register |
| `Crc32.RegisterAffine` | lib/libwebsockets/win32port/zlib/crc32.c:344-369 | the register is affine over GF(2): what it held and what is fed act independently |
| `Crc32.ZerosAdd` | lib/libwebsockets/win32port/zlib/crc32.c:361-369 | zeros operators compose by adding their lengths |
| `Crc32.CrcContinues` | lib/libwebsockets/win32port/zlib/crc32.c:221-253 | a checksum can be continued over pieces |
| `InfTrees.InflateTable` | lib/libwebsockets/win32port/zlib/inftrees.c:32-330 | -1 exactly for over-subscribed or refused incomplete lengths; 1 exactly for other lengths whose tables need ENOUGH entries or more; otherwise 0 with a table that decodes every code, in exactly the number of entries that the lengths determine, each of a complete code's entries written for exactly one purpose; all-zero lengths give the two-entry error table |
| `InfTrees.FullDistancesRefused` | lib/libwebsockets/win32port/zlib/inftrees.c:278-282 | 30 distance lengths that form a complete code and for which the result is 1: their tables need 592 entries, exactly ENOUGH_DISTS |
| `TableSize.FullSize` | lib/libwebsockets/win32port/zlib/inftrees.c:215-290 | the same lengths against the size function: sorted, complete, 592 entries for a 6-bit root |
| `InfTrees.TableDecodes` | lib/libwebsockets/win32port/zlib/inftrees.c:215-324 | looking up any bit string by root index and at most one sub-table gives the symbol whose code it begins with, root and sub-table bits summing to the code length |
| `InfTrees.CompleteTable` | lib/libwebsockets/win32port/zlib/inftrees.c:137-138 | for a complete code no slot is left over: every bit string decodes to a symbol |
| `InfTrees.LoneTable` | lib/libwebsockets/win32port/zlib/inftrees.c:292-324 | for the single 1-bit code the other slot is the invalid marker |
| `InfTrees.EmptyTable` | lib/libwebsockets/win32port/zlib/inftrees.c:117-125 | with no codes at all both slots are invalid markers |
| `InfTrees.CheckLengths` | lib/libwebsockets/win32port/zlib/inftrees.c:130-138 | the running count is negative exactly for over-subscribed lengths, else it is the code space left |
| `InfTrees.EnterCodes` | lib/libwebsockets/win32port/zlib/inftrees.c:215-290 | the whole entering loop, stopping exactly when root table and sub-tables together reach the limit, and taking exactly their entries otherwise |
| `InfTrees.PlaceCode` | lib/libwebsockets/win32port/zlib/inftrees.c:217-253 | one code fills all and only its slots and writes nowhere else; the backward increment gives the next code |
| `InfTrees.OpenSubtable` | lib/libwebsockets/win32port/zlib/inftrees.c:259-289 | a new sub-table is linked, writing the link and nothing else, unless the entries run out |
| `InfTrees.SubtableBits` | lib/libwebsockets/win32port/zlib/inftrees.c:268-276 | the look-ahead in the counts gives a sub-table in which all codes with that root prefix fit, and no larger than the longest of them needs |
| `InfTrees.Replicate` | lib/libwebsockets/win32port/zlib/inftrees.c:232-239 | an entry is written to exactly the slots with the same low bits |
| `InfTrees.FillRest` | lib/libwebsockets/win32port/zlib/inftrees.c:292-324 | the last loop completes the table; its branch that leaves a sub-table is never taken |
| `PrefixCode.CodesApart` | lib/libwebsockets/win32port/zlib/inftrees.c:232-239 | no bit string begins with two codes, so no slot of the root table belongs to two codes |
| `TableSlots.IndexesApart` | lib/libwebsockets/win32port/zlib/inftrees.c:232-239 | nor one of a sub-table |
| `InfTrees.CompleteIsClosed` | lib/libwebsockets/win32port/zlib/inftrees.c:259-290 | in the table of a complete code every link stays inside, and before any sub-table there is none |
| `InfTrees.CompletePartition` | lib/libwebsockets/win32port/zlib/inftrees.c:215-290 | when all codes of a complete code are entered, every one of the used entries is an entry of one code in the root table, the link of one sub-table, or an entry of one code in one sub-table, and holds what that purpose asks for |
| `TableSlots.Purpose` | lib/libwebsockets/win32port/zlib/inftrees.c:215-290 | each index below the size has exactly one of these three purposes, for exactly one code or prefix |
| `BitReverse.BackwardIncrement` | lib/libwebsockets/win32port/zlib/inftrees.c:241-250 | the loop over bits is increment on the bit-reversed code, wrapping to 0 |
| `Canonical.HuffIsCode` | lib/libwebsockets/win32port/zlib/inftrees.c:199-253 | huff is the bit-reversed canonical code of its length throughout |
| `Canonical.PrefixFree` | lib/libwebsockets/win32port/zlib/inftrees.c:199-253 | no code is a prefix of a later one |
| `Canonical.CompleteCovers` | lib/libwebsockets/win32port/zlib/inftrees.c:199-253 | in a complete code every bit string begins with some code |
| `SymbolSort.HuffIsRfcCode` | lib/libwebsockets/win32port/zlib/inftrees.c:140-147 | the code in sorted order is the code that section 3.2.2 of RFC 1951 assigns to the symbol, bit-reversed |
| `SymbolSort.SortSymbols` | lib/libwebsockets/win32port/zlib/inftrees.c:140-147 | the counting sort orders symbols by length and by symbol within a length |
| `PrefixCode.SymbolIsUnique` | lib/libwebsockets/win32port/zlib/inftrees.c:130-138 | no bit string begins with two symbols' codes unless over-subscribed |
| `PrefixCode.CompleteDecodes` | lib/libwebsockets/win32port/zlib/inftrees.c:130-138 | with complete lengths every bit string decodes |
| `InfBack.Inflater.InflateBack` | lib/libwebsockets/win32port/zlib/infback.c:241-621 | for every split of the input and every window size: if it returns Z_STREAM_END the buffers given to out() concatenate to the section 3.2.3 decoding and the input is used up to the end of the stream, unless a distance reaches before the first byte or beyond the window; for those streams too the result is that of the decoding in which the recorded matches out of reach are let through and the others refused; Z_DATA_ERROR only for invalid streams, refused distances, or codes whose tables would be full; Z_BUF_ERROR only if out() failed or the stream is cut short or invalid; nothing is promised only where a match that was let through copies what is not defined, which with sane set happens only within the first lap |
| `InflateStandard.StandardOrNot` | lib/libwebsockets/win32port/zlib/infback.c:570-576 | a decoder with a window decodes as the standard says for every stream without a distance out of reach and without codes that do not fit |
| `InflateStandard.NoneBeyond` | lib/libwebsockets/win32port/zlib/inffast.c:186-201 | if no distance is out of reach it does not matter which would be let through |
| `BeyondWindow.AnyRun` | lib/libwebsockets/win32port/zlib/infback.c:241-621 | a 721-byte stream with one distance beyond its 512-byte window: in any chunking, Z_STREAM_END comes with other bytes than the standard decoding |
| `BeyondWindow.Reached` | lib/libwebsockets/win32port/zlib/inffast.c:186-201 | and it does come: the turns of inflateBack for that stream in one piece, whatever sane is, end in Z_STREAM_END with the wrong bytes unless out() fails |
| `BeyondWindow.StandardIs` | lib/libwebsockets/win32port/zlib/infback.c:241-621 | what the standard makes of that stream |
| `BeyondWindow.WindowedIs` | lib/libwebsockets/win32port/zlib/inffast.c:186-201 | what a decoder with the window makes of it: the wrong bytes if the match is let through, else a refusal |
| `InfBack.Inflater.InflateFast` | lib/libwebsockets/win32port/zlib/inffast.c:67-324 | leaves output, bit position and mode so that the stream's outcome is unchanged for every way of treating matches out of reach that agrees with what was copied and refused, with unused bytes given back |
| `InfBack.Inflater.FastStep` | lib/libwebsockets/win32port/zlib/inffast.c:120-307 | one iteration reads at most 6 bytes, writes at most 258, holds at most 29 bits between iterations, and does exactly what the decoding does; a match out of reach is refused exactly if sane is set and it reaches beyond all that is in the window, and one still in the window is copied from one window size less far back; so it leaves what the slow step leaves if and only if the distance is in reach, or sane is set and it exceeds the bytes written in this lap plus those kept from the last |
| `InfBack.Inflater.Refill` | lib/libwebsockets/win32port/zlib/inffast.c:121-126 | two bytes are enough for any code and never overflow the accumulator |
| `InfBack.Inflater.DecodeFast` | lib/libwebsockets/win32port/zlib/inffast.c:127-132 | one or two table lookups decode the next code |
| `InfBack.Inflater.ReadDistance` | lib/libwebsockets/win32port/zlib/inffast.c:152-185 | six bytes suffice for length, distance and their extra bits |
| `InfBack.Inflater.CopyFast` | lib/libwebsockets/win32port/zlib/inffast.c:186-281 | refuses exactly if sane is set and the distance exceeds what is in the window; copying by threes, partly from the window's end, equals the LZ77 copy, overlaps included; a distance beyond the window that is still in it copies from one window size less far back |
| `InfBack.Inflater.GiveBack` | lib/libwebsockets/win32port/zlib/inffast.c:309-313 | whole unused bytes go back without moving the bit position |
| `InfBack.Inflater.LenSlow` | lib/libwebsockets/win32port/zlib/infback.c:484-596 | one code at a time, pulling bytes as needed, is exactly one step of the decoding, for every split of the input, and every match out of reach is refused |
| `InfBack.Inflater.DecodeSlow` | lib/libwebsockets/win32port/zlib/infback.c:485-502 | decoding never asks for more bytes than the code needs |
| `InfBack.Inflater.DistanceSlow` | lib/libwebsockets/win32port/zlib/infback.c:538-576 | distance code, extra bits, reach test and copy in terms of the decoding |
| `InfBack.Inflater.CopyMatch` | lib/libwebsockets/win32port/zlib/infback.c:577-595 | the circular copy equals the LZ77 copy however often the window wraps, with offset equal to the window size |
| `InfBack.Inflater.StoredMode` | lib/libwebsockets/win32port/zlib/infback.c:317-347 | a stored block is copied exactly, or refused exactly when length and complement disagree |
| `InfBack.Inflater.TableMode` | lib/libwebsockets/win32port/zlib/infback.c:349-471 | a dynamic block header yields exactly the two codes the stream describes, and is refused exactly if they are invalid or their tables would be full |
| `InfBack.Inflater.ReadAllLens` | lib/libwebsockets/win32port/zlib/infback.c:388-439 | repeat codes 16, 17 and 18 expand as section 3.2.7 says, or the header is invalid |
| `InfBack.Inflater.ReadLengthCodeLengths` | lib/libwebsockets/win32port/zlib/infback.c:367-375 | the permuted code length code lengths, missing ones zero |
| `InfBack.Inflater.BuildTables` | lib/libwebsockets/win32port/zlib/infback.c:441-471 | both tables are good for the lengths read, or the block is refused: because the lengths are invalid, or because one of the two tables would be full, and in no other case |
| `InfBack.Inflater.FixedTables` | lib/libwebsockets/win32port/zlib/infback.c:73-114 | the fixed codes of section 3.2.6 |
| `InfBack.Inflater.TypeMode` | lib/libwebsockets/win32port/zlib/infback.c:283-315 | block dispatch and the end after the last block |
| `InfBack.Inflater.LenMode` | lib/libwebsockets/win32port/zlib/infback.c:473-482 | switching between fast and slow decoding shows in the result only through matches beyond the window, each of which is recorded as copied or refused |
| `InfBack.Inflater.NeedBits` | lib/libwebsockets/win32port/zlib/infback.c:174-178 | holds n bits, at the same bit position, or the stream has no n more bits |
| `InfBack.Inflater.Pull` | lib/libwebsockets/win32port/zlib/infback.c:149-159 | fails only when the input is used up |
| `BlockHeaders.FixedLensComplete` | lib/libwebsockets/win32port/zlib/infback.c:86-95 | the fixed literal/length code is complete |
| `BlockHeaders.FixedDistancesComplete` | lib/libwebsockets/win32port/zlib/infback.c:97-102 | so is the fixed distance code |
| `BlockHeaders.LengthCodeLengthsAt` | lib/libwebsockets/win32port/zlib/infback.c:260-261 | the i-th 3-bit length belongs to symbol order[i] |
| `BlockHeaders.BuiltIsGood` | lib/libwebsockets/win32port/zlib/infback.c:454-468 | a table that inflate_table returned decodes the lengths it was built from |
| `CodeTables.EnoughBits` | lib/libwebsockets/win32port/zlib/infback.c:485-499 | looking up too few bits, zeros above them, goes unnoticed only if it does no harm |
| `CodeTables.LengthMeans` | lib/libwebsockets/win32port/zlib/infback.c:503-536 | what an entry of the literal/length table says is the step of the decoding |
| `CodeTables.DistanceMeans` | lib/libwebsockets/win32port/zlib/infback.c:554-573 | the same for a distance entry |
| `CodeTables.LensMeans` | lib/libwebsockets/win32port/zlib/infback.c:391-400 | the same for a code length entry |
| `Adler32.Adler32` | lib/libwebsockets/win32port/zlib/adler32.c:60-128 | equals the modulo-at-every-byte checksum of section 2.2 of RFC 1950, for every starting value and length, if and only if the single-byte path is not taken with an unreduced half; with and without NO_DIVIDE |
| `Adler32.OneByteOnly` | lib/libwebsockets/win32port/zlib/adler32.c:72-81 | the single-byte path: right exactly where no second subtraction is missing, and congruent always |
| `Adler32.NmaxIsTight` | lib/libwebsockets/win32port/zlib/adler32.c:14-16 | NMAX is exactly the largest block for which no 32-bit overflow is possible |
| `Adler32.NoOverflow` | lib/libwebsockets/win32port/zlib/adler32.c:99-109 | nor does one occur when the halves of the starting value are not reduced |
| `Adler32.Deferred` | lib/libwebsockets/win32port/zlib/adler32.c:107-108 | reducing at the end of a block equals reducing at every byte |
| `Adler32.ChainIsMod` | lib/libwebsockets/win32port/zlib/adler32.c:26-53 | the chain of conditional subtractions is the remainder exactly for arguments below twice its first step |
| `Adler32.Block` | lib/libwebsockets/win32port/zlib/adler32.c:99-106 | 347 rounds of DO16 are the plain sums of 5552 bytes |
| `Adler32.Rest` | lib/libwebsockets/win32port/zlib/adler32.c:112-121 | the rest of the bytes likewise |
| `Adler32.CombineIsWhole` | lib/libwebsockets/win32port/zlib/adler32.c:131-152 | combining the checksums of A and B gives the checksum of A+B, both halves reduced, whatever the starting value |
| `Adler32.Combine` | lib/libwebsockets/win32port/zlib/adler32.c:131-152 | its result is reduced for reduced arguments; for others the OR of overlapping halves is modelled as it is |
| `Adler32.UnreducedExample` | lib/libwebsockets/win32port/zlib/adler32.c:72-81 | the exception does occur, and only for values whose second half is not reduced |
| `Sha1.Sha1` | lib/libwebsockets/lib/sha-1.c:314-324 | equals the digest of sections 4 and 7 of FIPS PUB 180-1 for every message |
| `Sha1.Context.Loop` | lib/libwebsockets/lib/sha-1.c:262-285 | after any number of calls the context stands for all bytes put in, however they were split |
| `Sha1.Context.Pad` | lib/libwebsockets/lib/sha-1.c:228-260 | the padding of every length is the standard's, in one or two blocks |
| `Sha1.Context.Step` | lib/libwebsockets/lib/sha-1.c:129-213 | one block through 80 rounds with a circular schedule equals the compression over the 80-word schedule |
| `Sha1.Context.TwentyRounds` | lib/libwebsockets/lib/sha-1.c:175-204 | the 16 words hold the last sixteen of the schedule at every round |
| `Sha1.CircularNext` | lib/libwebsockets/lib/sha-1.c:178-179 | replacing one word moves the sixteen on by one |
| `Sha1.ScheduleStep` | lib/libwebsockets/lib/sha-1.c:178-179 | offsets 13, 8, 2 and 0 modulo 16 are the words 3, 8, 14 and 16 back |
| `Sha1.Context.Result` | lib/libwebsockets/lib/sha-1.c:287-308 | the digest bytes, highest first |
| `Sha1.GapIsLeast` | lib/libwebsockets/lib/sha-1.c:236-248 | the padded length is a multiple of 64 and the padding is the shortest possible |
| `Sha1.PaddedInjective` | lib/libwebsockets/lib/sha-1.c:228-260 | different messages shorter than 2^64 bits have different paddings |
| `JsonRoundTrip.RoundTrip` | lib/jansson-2.4/src/dump.c:171-404 | for every value without reals, valid UTF-8 and NUL-free, and every combination of dump flags, loading the dumped text succeeds, uses all of it, and gives an equal value |
| `JsonRoundTrip.ValueBack` | lib/jansson-2.4/src/load.c:770-823 | parsing what was printed stops exactly behind it, at any nesting depth and indentation |
| `JsonRoundTrip.CanonEqual` | lib/jansson-2.4/src/value.c:851-879 | reordering an object's pairs does not show to json_equal |
| `JsonRoundTrip.CleanText` | lib/jansson-2.4/src/dump.c:171-404 | the printed text is itself valid UTF-8 without NUL bytes |
| `JsonRoundTrip.ScanStringText` | lib/jansson-2.4/src/load.c:554-622 | the scanner reads a dumped string back as its token |
| `JsonWhole.DumpAndLoad` | lib/jansson-2.4/src/dump.c:406-450 | json_dumps then json_loads on a linked value graph: dumping fails exactly on cycles or on a leaf without JSON_ENCODE_ANY, loading the text then fails exactly on a leaf without JSON_DECODE_ANY, and else gives an equal value |
| `JsonDump.DumpCallback` | lib/jansson-2.4/src/dump.c:442-450 | the check of the root in front of the dump |
| `JsonDump.DumpRoot` | lib/jansson-2.4/src/dump.c:171-404 | fails exactly when a cycle is reachable, accepts shared sub-values, prints the text of the unfolded tree, and leaves every visited flag clear |
| `JsonDump.DoDump` | lib/jansson-2.4/src/dump.c:171-404 | terminates by the unvisited containers and restores the flags; a failure means a reachable cycle |
| `JsonDump.DumpObject` | lib/jansson-2.4/src/dump.c:263-398 | the pairs in the order that the flags ask for, errors clearing the flag |
| `JsonDump.DumpArray` | lib/jansson-2.4/src/dump.c:214-261 | the items in order, errors clearing the flag |
| `JsonDump.TreeIsAcyclic` | lib/jansson-2.4/src/dump.c:221-224 | a value that looks like a tree reaches no cycle |
| `JsonDump.OneTree` | lib/jansson-2.4/src/dump.c:171-404 | and looks like one tree only |
| `JsonDump.MetAgain` | lib/jansson-2.4/src/dump.c:221-224 | meeting a flagged container means a cycle |
| `JsonDump.DumpIndent` | lib/jansson-2.4/src/dump.c:43-63 | indentation blocks add up to the wanted width |
| `JsonText.OrderIsPermutation` | lib/jansson-2.4/src/dump.c:286-371 | every pair of an object is printed exactly once, whichever order is chosen |
| `JsonText.SortedInOrder` | lib/jansson-2.4/src/dump.c:157-169 | the sorting flags give the order of keys or of insertion |
| `JsonString.DumpString` | lib/jansson-2.4/src/dump.c:65-155 | fails exactly on invalid UTF-8, and otherwise writes the escaped text |
| `JsonString.BodyBack` | lib/jansson-2.4/src/load.c:294-447 | decoding what was escaped gives the same bytes back, whatever follows, and the closing quote is found where it is |
| `JsonString.EscapeBack` | lib/jansson-2.4/src/load.c:337-415 | an escape or surrogate pair decodes to its code point's encoding |
| `JsonString.BodyIsText` | lib/jansson-2.4/src/dump.c:65-155 | the escaped text is valid UTF-8 |
| `JsonLoad.Lexer.ReadJson` | lib/jansson-2.4/src/load.c:825-856 | the lexer and parser over the buffered stream return exactly what the specification of parsing gives, for every C string |
| `JsonLoad.Lexer.ReadValue` | lib/jansson-2.4/src/load.c:770-823 | recursive descent with the remaining text as the measure |
| `JsonLoad.Lexer.ReadObject` | lib/jansson-2.4/src/load.c:657-728 | objects, duplicate keys and missing colons or braces included |
| `JsonLoad.Lexer.ReadArray` | lib/jansson-2.4/src/load.c:730-768 | arrays, including their error cases |
| `JsonLoad.Lexer.LexScan` | lib/jansson-2.4/src/load.c:554-622 | the next token, blanks skipped, and what is left |
| `JsonLoad.Lexer.LexNumber` | lib/jansson-2.4/src/load.c:459-552 | the longest number, its sign, fraction and exponent, or an invalid token |
| `JsonLoad.Lexer.CollectString` | lib/jansson-2.4/src/load.c:294-352 | collects up to the first unescaped quote, or fails exactly where a control character or bad escape comes first |
| `JsonLoad.DecodeSaved` | lib/jansson-2.4/src/load.c:354-440 | decodes into a buffer of source length + 1 without overrunning it |
| `JsonLoad.Lexer.Get` | lib/jansson-2.4/src/load.c:145-206 | the next byte of the text through the five-byte UTF-8 buffer, checked character by character |
| `JsonLoad.Lexer.Unget` | lib/jansson-2.4/src/load.c:208-224 | one byte back |
| `JsonLoad.Lexer.FillBuffer` | lib/jansson-2.4/src/load.c:160-190 | a multi-byte character is read whole, also at the end of the input |
| `JsonWhole.LoadText` | lib/jansson-2.4/src/load.c:878-901 | json_loads on a whole C string |
| `Utf8.CheckString` | lib/jansson-2.4/src/utf.c:165-190 | accepts exactly the valid texts |
| `Utf8.EncodedIsValid` | lib/jansson-2.4/src/utf.c:11-45 | encodings of scalar values are valid |
| `Utf8.ValidIsEncoded` | lib/jansson-2.4/src/utf.c:165-190 | and nothing else is: every valid text is such an encoding |
| `Utf8.CharOfEncode` | lib/jansson-2.4/src/utf.c:83-137 | decoding undoes encoding, whatever follows |
| `Utf8.EncodeOfChar` | lib/jansson-2.4/src/utf.c:11-45 | encoding undoes decoding: overlong forms and surrogates are out |
| `Utf8.CheckFull` | lib/jansson-2.4/src/utf.c:83-137 | the code point of a sequence, and when it is refused |
| `Utf8.Iterate` | lib/jansson-2.4/src/utf.c:139-163 | steps over one character or reports a bad one |
| `Hashtable.Table.Set` | lib/jansson-2.4/src/hashtable.c:224-267 | the table behaves as a finite map, growing included |
| `Hashtable.Table.Get` | lib/jansson-2.4/src/hashtable.c:269-283 | found exactly if in the map, with its value |
| `Hashtable.Table.Del` | lib/jansson-2.4/src/hashtable.c:116-146 | removes exactly the key, -1 exactly if absent |
| `Hashtable.Table.Clear` | lib/jansson-2.4/src/hashtable.c:291-305 | the empty map |
| `Hashtable.Table.Rehash` | lib/jansson-2.4/src/hashtable.c:162-194 | relinking every node into the larger table keeps map and nodes, each bucket again one contiguous segment |
| `Hashtable.Table.InsertToBucket` | lib/jansson-2.4/src/hashtable.c:62-75 | a node enters the front of its bucket's segment, or the end of the list, and all other segments stay segments |
| `Hashtable.Table.RemovePair` | lib/jansson-2.4/src/hashtable.c:128-142 | unlinking updates first and last in all four cases |
| `Hashtable.Table.FindPair` | lib/jansson-2.4/src/hashtable.c:90-113 | walking the segment finds exactly the key |
| `Hashtable.Table.Keys` | lib/jansson-2.4/src/hashtable.c:307-334 | iteration visits each key exactly once |
| `Hashtable.Table.IterNext` | lib/jansson-2.4/src/hashtable.c:328-334 | the next node in list order, NULL at the end |
| `Hashtable.ListInsert` | lib/jansson-2.4/src/hashtable.c:43-49 | the circle of pointers, both ways, with the node inserted |
| `Hashtable.ListRemove` | lib/jansson-2.4/src/hashtable.c:51-55 | and without it |
| `Hashtable.SegmentsInsert` | lib/jansson-2.4/src/hashtable.c:62-75 | inserting moves later segments by one and keeps them contiguous |
| `Hashtable.HeadsRemove` | lib/jansson-2.4/src/hashtable.c:128-139 | after a removal first and last delimit the bucket's segment again |
| `Hashtable.HashStr` | lib/jansson-2.4/src/hashtable.c:21-35 | the string hash with 64-bit wraparound |
| `WsFrame.RoundTrip` | lib/libwebsockets/lib/parsers.c:299-836 | any number of client TEXT and BINARY frames of 1..2^31-1 bytes, in any chunking, for revisions 4 to 8 and 13: the server stays alive and calls back frame by frame with the pieces of the payload, its opcode and its FIN |
| `WsFrame.Exchange` | lib/libwebsockets/lib/parsers.c:299-836 | the same between the two state machines: what the client writes in place, cut into packets anyhow, is what the server hands to its callback, and it is ready for more |
| `WsFrame.PiecesAreData` | lib/libwebsockets/lib/parsers.c:708-724 | the pieces of a frame are 1 to 4096 bytes long and concatenate to its payload |
| `WsFrame.AllData` | lib/libwebsockets/lib/parsers.c:708-724 | over all frames the pieces hold all payloads in order |
| `WsFrame.FrameRun` | lib/libwebsockets/lib/parsers.c:299-826 | one frame, masked as its revision wants, is undone |
| `WsFrame.ChunksDoNotMatter` | lib/libwebsockets/lib/parsers.c:1307-1327 | feeding packets is feeding the stream |
| `WsFrame.HeaderMeans` | lib/libwebsockets/lib/parsers.c:438-635 | the three length encodings and the opcode are read back from the header |
| `WsFrame.MaskedHeader` | lib/libwebsockets/lib/parsers.c:457-466 | before revision 7 a masked header is read as the plain one |
| `WsFrame.PayloadRun` | lib/libwebsockets/lib/parsers.c:708-724 | unmasking, spilling at 4096 bytes and the end of the frame |
| `WsFrame.IndexIsPosition` | lib/libwebsockets/lib/parsers.c:280-294 | the wrap of frame_mask_index at 256 (or 20) is harmless |
| `WsFrame.MaskedTwice` | lib/libwebsockets/lib/parsers.c:280-294 | masking is its own inverse |
| `WsFrame.Sender.Write` | lib/libwebsockets/lib/parsers.c:1573-1847 | the payload becomes the frame where it stands, using at most 14 bytes of the padding in front and nothing else of the buffer |
| `WsFrame.Sender.MaskInPlace` | lib/libwebsockets/lib/parsers.c:1799-1812 | the masking loops, in place |
| `WsFrame.Sender.WriteHeader` | lib/libwebsockets/lib/parsers.c:1738-1774 | opcode, FIN, mask bit and the three length forms |
| `WsFrame.Receiver.RxSm` | lib/libwebsockets/lib/parsers.c:299-836 | the state machine over its fields and rx_user_buffer does one step of the specification for every byte, error returns included |
| `WsFrame.Receiver.SpillBuffer` | lib/libwebsockets/lib/parsers.c:724-826 | what a full buffer does for each opcode |
| `WsFrame.Receiver.Interpret` | lib/libwebsockets/lib/parsers.c:1307-1327 | a packet, stopped at the first error |

## Left out

deflate:

- The emission of Huffman codes: a flushed block is the tallied tokens. Stored blocks (level 0), `deflate_rle`, `deflateParams`, `deflateTune`, preset dictionaries and stream headers and trailers. Whether output is pending and fits is a parameter of each call.
- `& w_mask` is written as `% wSize`; `longest_match` writes `match_start` once at its end instead of at every improvement.
- Deflate.DeflateState.FillWindow: for a call that does not slide, the condition needs one number besides the fields, the start of the bytes that an earlier slide left unwritten; every fill, with or without input, states how it changes it.

inflate:

- InfBack.Inflater.InflateBack: promises nothing once `inflate_fast` lets through a match that reaches before the first output byte or beyond all that is in the window (within the first lap, or later because `sane` was not set): what it copies is undefined. An in() that returns an empty buffer ends the run with Z_BUF_ERROR, for which nothing is promised.
- Branches of `inflate_fast` with a window write index other than 0, which only `inflate` uses. `inflate`, zutil and the gz file functions.
- The fixed tables are built as under BUILDFIXED, at every fixed block rather than once; inffixed.h is not modelled. The decoder keeps its tables as snapshots of the array that they were built in. `left` is counted down byte by byte in the copies.

Checksums:

- The loop that assembles the CRC polynomial is replaced by its constant, and the null-buffer call of `crc32` is left out. The concurrent construction of the tables is too.
- SHA-1 on a little-endian machine swaps bytes in a union; the model reads words highest byte first, and the 64-bit counter as eight bytes.

JSON:

- Reals (`strtod`, locale), line and column numbers, error texts, packing and unpacking, `json_deep_copy` and the mutators of value.c, reference counts and allocation failure.
- Inputs are C strings without NUL. The `l_isxdigit` test that is always true, and failing assertions behind it, appear as an invalid token.
- `qsort` is an insertion sort on distinct keys; the two loops of `do_dump` over an object are one loop over the chosen order; the callback never fails.
- JsonDump.DumpRoot: keys and strings in the graph are valid UTF-8, as the value constructors check.

Hashtable:

- Hashtable.Table.Set: growing beyond the last of the primes is excluded; the source would read past its table of primes. Reference counts and allocation failure are left out.

WebSocket:

- The client's receiver, frames written by a server, control frames other than what the server's receiver does with them, zero-length and continuation frames, revision 0, extensions, and the options that disable masking.
- The SHA-1 frame key of revision 4, which is computed but never used by the masking.
- WsFrame.Sender.Write: payloads of 2^31 bytes or more, for which the masking loop's int counter is too small.
- WsFrame.Sender.WriteHeader: the same bound on the length.
