# Delta compression, modelled and proved

This project models the delta-compression stack of the repository in Dafny and proves what it is for:
a chunk encoded against a base chunk is restored from the delta and the base, whatever the two chunks
hold. Where the code falls short of that, the exact condition is proved and listed under Findings.

| part | modules |
|---|---|
| numbers, bytes, bits | `Bytes`, `Integers`, `BitLayer` |
| the VCDIFF format (RFC 3284), one window | `AddressCache`, `CodeTable`, `WindowFormat`, `Instructions` |
| the encoder of xdelta3, from matches to a file | `Matcher`, `Optimizer`, `WindowEncoder`, `StreamEncoder`, `Adler` |
| the decoder, fed in pieces of any size | `WindowDecoder`, `StreamFormat`, `StreamDecoder` |
| the encoder and decoder of the project | `XDelta` |
| merging two deltas | `Merge` |
| adaptive Huffman coding (FGK) | `Fgk`, `FgkUpdate`, `FgkCoder`, `FgkBits`, `FgkLockstep`, `FgkStream` |
| static Huffman coding with groups (DJW) | `DjwHeap`, `DjwPrefix`, `DjwCodes`, `DjwMtf`, `DjwDecode`, `DjwStream`, `DjwGroups`, `DjwSection` |
| when sections are sent coded | `Secondary` |
| the rolling fingerprint | `Gf2`, `Rabin` |
| SHA-1 (FIPS 180-4) | `Sha1` |
| the five workers and their queues | `Pipeline` |

What the source updates in place is a class or an array here (decoder, encoder, matcher, address cache,
code table, heap, tables, move-to-front list, bit writer and reader, merged delta, rolling window, hash
context), and each method is proved against a function on values. What the source promises is then
proved of those functions, for all inputs. `hide` statements in proofs keep each obligation small and
have no other meaning.

## Findings

Where the code does not do what it is for, the exact condition is proved and an instance given.

- **The decode buffer of the project's encoder (encoder/xdelta.h:21-38).** Deltas and decoded chunks share a
  buffer of 32768 bytes, but only the delta has to fit when encoding. The delta of a chunk decodes to it
  if and only if the chunk itself is no longer than 32768 bytes (`XDelta.EncodeThenDecode`). For every base,
  32769 times a byte that the base does not begin with is such a chunk: encoding succeeds, as one run is found
  and written in at most 114 bytes, and decoding fails for lack of room (`XDelta.BufferTooSmall`). The caller's
  test is the length of the chunk.
- **Sections the adaptive coder throws away (3party/xdelta3/xdelta3-second.h:296-319).** The tree of the
  encoder lives as long as the stream and has already been updated when a section that saves too little
  is discarded; the decoder never sees that section. The trees agree after a run of sections if and only
  if no section met the guard of the discard (`Secondary.InStepExactly`), and then every section is
  restored. The ten bytes 0, 1, 2, 3, 4, 0, 0, 0, 0, 0 as the first section meet it, and for one of them, repeated
  sixteen times, the next section is sent coded and not restored (`Secondary.OutOfStep`). The static coder keeps
  nothing between sections and is not affected (`Secondary.CodeSectionsDjw`).
- **Zero code lengths with several DJW groups (3party/xdelta3/xdelta3-djw.h:1556).** The encoder leaves out the
  zeros of a group, and the decoder puts them where the group before has zeros. The lengths are restored, and
  reading goes on at the right place, if and only if all groups have their zeros in the same places
  (`DjwSection.DecodeGroups`). They have with one group; with several, unless the flattening of frequencies in
  djw_build_prefix (which makes zeros nonzero) took place in one group and not in another, and that needs at
  least 28657 - 257 bytes of input (`DjwGroups.AgreeUnlessFlattened`, `DjwPrefix.BuildPrefix`). So the caller's
  test is one group or fewer than 28400 bytes (`DjwSection.EncodeThenDecode`). `DjwSection.GroupsDisagree` has
  two complete codes that are not restored.
- **Lengths in utils/sha1.cpp and 3party/xdelta3/xdelta3.c:1030-1038.** sha1_hash takes a 64-bit length, but its
  index has 32 bits and reaches the length if and only if that is below 2^32 (`Sha1.IndexReaches`). SHA1Update
  decides with a 32-bit sum whether a block is complete, which is right if and only if the sum does not wrap
  (`Sha1.PlaceSum`). The loop of xd3_pow2_roundup ends if and only if its argument is at most 2^63
  (`XDelta.RoundupEnds`). `Sha1.LengthsTooLong` has the first two at their smallest lengths, 2^32, and 2^32 - 1
  bytes after 63. No chunk of this program is as long.
- **Copies past the end in a merge (3party/xdelta3/xdelta3-merge.h:427-432).** A copy of the second delta that begins
  at or past the end of the first one's output is reported as invalid; one that begins within it and ends past it
  is not, and the loop goes on behind the last instruction. All is merged if and only if every copy from outside the
  target is from the source, begins within the first output and ends within it (`Merge.DoneIff`);
  `Merge.RunsPastEnd` has a pair of deltas, of one byte and of two.

## Model

| member | source | states |
|---|---|---|
| XDelta.EncodeThenDecode | encoder/xdelta.h:9-42 | a chunk encoded against a base decodes from delta and base to itself if it has at most 32768 bytes, and to a failure otherwise; encoding fails only if a valid delta, no longer than the proved bound, does not fit the buffer, and never for a long run of a byte the base does not begin with |
| XDelta.BufferTooSmall | encoder/xdelta.h:32-38 | for every base there is a chunk of 32769 bytes that encoding accepts, with a delta of at most 93 bytes that decodes to it given room, and fails with room for 32768 bytes |
| XDelta.EncodeMemory | 3party/xdelta3/xdelta3.c:3375-3506 | the output is a delta of the input against the source, that is, it decodes to the input; it fails exactly if that delta does not fit, never if the bound fits |
| XDelta.DecodeMemory | 3party/xdelta3/xdelta3.c:3375-3475 | decoding in memory gives what the format says the file stands for, in the space given, with any secondary decompressors |
| XDelta.Pow2Roundup | 3party/xdelta3/xdelta3.c:1030-1038 | for every argument it ends for, the loop in 64 bits computes the doubling function, which is the least power of two not below its argument |
| XDelta.RoundupEnds | 3party/xdelta3/xdelta3.c:1030-1038 | the loop ends if and only if the argument is at most 2^63 |
| XDelta.Doubled | 3party/xdelta3/xdelta3.c:1030-1038 | the result is a power of two, not below the argument and less than twice it unless it is where doubling started |
| StreamEncoder.EncodeStream | 3party/xdelta3/xdelta3.c:3300-3372 | for every input, window size, source, checksum setting and hash table contents, the output is a delta of the input of bounded length, refused only if it does not fit; a long run of a byte the source does not begin with takes at most 114 bytes |
| StreamEncoder.FileDecoded | 3party/xdelta3/xdelta3.c:2681-2842 | a file header followed by written windows decodes to the windows' targets in order, whatever pieces it is fed in |
| StreamEncoder.WindowsDecoded | 3party/xdelta3/xdelta3-decode.h:809-1217 | a decoder between windows that is fed written windows and anything after them stands between windows again, with exactly their targets added and the rest unread |
| StreamEncoder.EmitHdr | 3party/xdelta3/xdelta3.c:2681-2842 | the bytes of the window header, preceded by the file header for the first window only, with the delta length the decoder checks |
| StreamEncoder.WindowLength | 3party/xdelta3/xdelta3.c:2681-2842 | a window takes at most 76 bytes more than its three sections |
| StreamEncoder.Encoder.EncodeWindow | 3party/xdelta3/xdelta3.c:3071-3292 | one window of input, searched and encoded, means that input: its sections decode under its copy window to it; state is kept for the next window |
| WindowEncoder.Encoder.EncodeWindow | 3party/xdelta3/xdelta3.c:2110-2306 | from any ordered, truthful queue, flush and finalize write three sections that decode through table, cache and emit loop to exactly the window's input, all used up, within 22 bytes per input byte and 11, and within 33 bytes for a queue of one run |
| WindowEncoder.Encoder.FlushInstructions | 3party/xdelta3/xdelta3.c:2313-2493 | compaction and encoding of the whole queue keep the invariant that what is written decodes to the input encoded so far; the queue is left empty |
| WindowEncoder.Encoder.AddEncoding | 3party/xdelta3/xdelta3.c:2275-2287 | the first of the queue, after an ADD for the gap before it, moves the invariant on to its end |
| WindowEncoder.Encoder.FinishEncoding | 3party/xdelta3/xdelta3.c:2111-2249 | one more instruction: the invariant moves on to its end, with at most 21 bytes and its size written |
| WindowEncoder.Encoder.EmitCopy | 3party/xdelta3/xdelta3.c:2120-2186 | address bytes and mode of a copy make the decoder's step from the input before it to the input after it, with equal caches |
| WindowEncoder.Encoder.EmitDouble | 3party/xdelta3/xdelta3.c:2616-2640 | one opcode for two instructions keeps the invariant |
| WindowEncoder.Encoder.EmitSingle | 3party/xdelta3/xdelta3.c:2588-2613 | the opcode, followed by the size exactly if the table entry does not hold it |
| WindowEncoder.Encoder.IoptAdd | 3party/xdelta3/xdelta3.c:2255-2270 | an ADD for the bytes up to a position keeps the invariant up to there |
| WindowEncoder.Encoder.AddFinalize | 3party/xdelta3/xdelta3.c:2290-2306 | the tail is added and the pending opcode written: everything is encoded |
| WindowEncoder.Encoder.SrcwinSetup | 3party/xdelta3/xdelta3.c:3611-3679 | the copy window is decided once and covers the addresses the queue can hold |
| Instructions.SingleEmit | 3party/xdelta3/xdelta3.c:2588-2613 | the bytes of one instruction, run by the decoder, take it from the state before to the state after |
| Instructions.DoubleEmit | 3party/xdelta3/xdelta3.c:2616-2640 | a double opcode with the address and data bytes of its two instructions takes the decoder through both steps |
| Instructions.EmitShift | 3party/xdelta3/xdelta3.c:2111-2249 | sections without addresses decode the same under any copy window, so opcodes written before it is decided stay right |
| Optimizer.TrimCompacts | 3party/xdelta3/xdelta3.c:2331-2454 | from an ordered queue of sized matches, compaction leaves pairwise disjoint instructions of at least MIN_MATCH bytes, each part of a queued one |
| Optimizer.TrimTruthful | 3party/xdelta3/xdelta3.c:2391-2452 | each that is left still copies the input's bytes, after its position and address were shifted |
| Optimizer.TrimIdle | 3party/xdelta3/xdelta3.c:2331-2341 | a queue without overlaps is left as it is |
| Optimizer.TrimInRange | 3party/xdelta3/xdelta3.c:2391-2452 | compaction leaves source addresses within the range recorded for the copy window |
| Optimizer.Compact | 3party/xdelta3/xdelta3.c:2331-2454 | the loop over the list computes that compaction |
| Optimizer.Cut | 3party/xdelta3/xdelta3.c:2391-2450 | the arithmetic of a cut never goes below zero or outside either match, and makes the first end where the second starts |
| Matcher.Scanner.Search | 3party/xdelta3/xdelta3.c:4549-4816 | whatever the hash tables hold, the queue ends ordered, of sized matches, each agreeing byte for byte with source or earlier target, addresses in range; for a first window that is one long run of a byte the source does not begin with it is that run alone |
| Matcher.Scanner.StringMatch | 3party/xdelta3/xdelta3.c:4549-4816 | the match loop with its two labels keeps that invariant and terminates |
| Matcher.Scanner.ScanOn | 3party/xdelta3/xdelta3.c:4588-4816 | from its label restartloop on, lazy matching keeps the invariant and moves on, and finds a window that is one long run |
| Matcher.Scanner.SourceExtendMatch | 3party/xdelta3/xdelta3.c:3889-4116 | extending a source candidate both ways, erasing what it covers and queueing it keep the queue good; if nothing is queued the search goes on at the same place |
| Matcher.Scanner.SourceMatchSetup | 3party/xdelta3/xdelta3.c:3688-3842 | how far a match may be extended backward and forward: to the start of window or source and to the end of either |
| Matcher.Scanner.SMatch | 3party/xdelta3/xdelta3.c:4170-4287 | a match found on a chain of earlier positions starts before the input position and is the longest agreement there |
| Matcher.Scanner.ScksumInsert | 3party/xdelta3/xdelta3.c:4121-4138 | inserting a position keeps every table entry and chain link at earlier positions |
| Matcher.Scanner.FoundMatch | 3party/xdelta3/xdelta3.c:2645-2678 | a truthful match queued leaves a good queue |
| Matcher.ForwardMatch | 3party/xdelta3/xdelta3.c:3845-3877 | comparing words, then bytes, gives the length of the longest common prefix |
| Matcher.ExtendBackward | 3party/xdelta3/xdelta3.c:3908-3970 | across source blocks, the longest agreement that ends at the two positions, up to the limit |
| Matcher.ExtendForward | 3party/xdelta3/xdelta3.c:3975-4028 | across source blocks, the longest agreement that starts at them |
| Matcher.IoptErase | 3party/xdelta3/xdelta3.c:2539-2565 | exactly the queued instructions at or after the position go |
| Matcher.CompRun | 3party/xdelta3/xdelta3.c:1125-1139 | the run length is that of equal bytes up to the position, and the byte is theirs |
| CodeTable.BuildCodeTable | 3party/xdelta3/xdelta3.c:837-902 | the loops fill all 256 entries with the table of section 5.6 of RFC 3284 |
| CodeTable.SingleCodeMeans | 3party/xdelta3/xdelta3.c:922-986 | the entry of a chosen single opcode is that instruction, with its size or none |
| CodeTable.DoubleCodeMeans | 3party/xdelta3/xdelta3.c:922-986 | a nonzero double opcode's entry is exactly the two instructions |
| AddressCache.AddrCache.EncodeAddress | 3party/xdelta3/xdelta3.c:1276-1351 | the bytes decode to the address in the chosen mode, no encoding in any mode is shorter, and the cache is updated |
| AddressCache.AddrCache.DecodeAddress | 3party/xdelta3/xdelta3.c:1355-1396 | decodes what the modes of section 5.3 of RFC 3284 say, with the cache updated exactly on success, as the encoder's is |
| AddressCache.AddrCache.Init | 3party/xdelta3/xdelta3.c:1244-1256 | before each window both caches are zero |
| AddressCache.AddrCache.Update | 3party/xdelta3/xdelta3.c:1259-1271 | the near slots go round and the same slot is set |
| Integers.EmitInteger | 3party/xdelta3/xdelta3-internal.h:215-231 | the buffer filled from its end holds the base-128 digits, highest first, with continuation bits |
| Integers.ReadInteger | 3party/xdelta3/xdelta3-internal.h:186-213 | reads the value and stops after it; says it was too large exactly if a byte comes when seven more bits do not fit 64 |
| Integers.ReadEncoded | 3party/xdelta3/xdelta3-internal.h:186-231 | reading the bytes emitted for any 64-bit number gives it and their count, whatever follows |
| Integers.ResumableAgrees | 3party/xdelta3/xdelta3-internal.h:160-213 | the resumable reader finishes exactly when the other succeeds, with the same value, and refuses exactly when the value does not fit 64 bits |
| Integers.FeedSplit | 3party/xdelta3/xdelta3-internal.h:160-184 | feeding it in two pieces is feeding it whole |
| Integers.SizeOfIsLength | 3party/xdelta3/xdelta3-internal.h:264-278 | the size predicted is the number of bytes emitted |
| Integers.EncodedShortest | 3party/xdelta3/xdelta3-internal.h:215-231 | no byte string that reads as the number is shorter |
| WindowDecoder.Decoder.DecodeEmit | 3party/xdelta3/xdelta3-decode.h:727-806 | the emit loop, with source copies split at blocks, target copies byte by byte and all checks in 64 bits, decodes any window to what the format says, or fails as it says, leaving no section bytes over on success: sizes that make a sum of the checks wrap are refused in the end |
| WindowDecoder.Decoder.DecodeInstruction | 3party/xdelta3/xdelta3-decode.h:363-396 | one opcode: both halves parsed, sections, cache and decoder position moved on in 64 bits |
| WindowDecoder.Decoder.ParseHalfinst | 3party/xdelta3/xdelta3-decode.h:270-359 | size and address of a half, with the checks in 64 bits, where a sum can wrap |
| WindowDecoder.ParseAgrees | 3party/xdelta3/xdelta3-decode.h:314-356 | at a position that has not wrapped, those checks let through exactly what fits, and besides only what is longer than the rest of the window |
| WindowDecoder.BothAgree | 3party/xdelta3/xdelta3-decode.h:363-396 | so for both halves of an opcode: what is let through and does not fit is longer than the rest of the window |
| WindowDecoder.Decoder.OutputHalfinst | 3party/xdelta3/xdelta3-decode.h:401-595 | after the check of the output space one step of a half makes progress and, if the half fits, keeps what the whole half comes to; one that does not fit still reads what is written and stays within the space |
| WindowDecoder.Decoder.OutputHalf | 3party/xdelta3/xdelta3-decode.h:753-769 | repeating steps until a half is done gives what it stands for, or fails as it does |
| WindowDecoder.Decoder.OutputHalves | 3party/xdelta3/xdelta3-decode.h:727-806 | both halves, one after the other, give what the instruction stands for |
| WindowFormat.CopySourceIsSlice | 3party/xdelta3/xdelta3-decode.h:463-557 | a source copy split at block boundaries is the slice of the source, and fails exactly if it runs past the end |
| WindowFormat.CopyTargetRepeats | 3party/xdelta3/xdelta3-decode.h:558-590 | a target copy, overlapping itself or not, repeats the bytes at its distance |
| WindowFormat.CopyTargetUnique | 3party/xdelta3/xdelta3-decode.h:558-590 | only one sequence continues the output and repeats the bytes at that distance |
| WindowFormat.EmitJoin | 3party/xdelta3/xdelta3-decode.h:727-806 | decoding two instruction streams joined is decoding one and then the other |
| StreamFormat.CutAnywhere | 3party/xdelta3/xdelta3-decode.h:809-1217 | for every input, with secondary compression or without, and every way to cut it into pieces, the state machine ends in the same state with the same windows as on the whole |
| StreamFormat.RunSound | 3party/xdelta3/xdelta3-decode.h:809-1217 | every reachable state keeps the bounds each phase relies on |
| StreamDecoder.DecodeStream | 3party/xdelta3/xdelta3.c:3300-3372 | fed in windows of any size, with any secondary decompressors, the decoder returns what the whole file stands for, or fails if that is malformed, incomplete or does not fit |
| StreamDecoder.ProcessPiece | 3party/xdelta3/xdelta3.c:3308-3360 | one piece of input: windows are appended until more is needed; fails only if the whole is rejected or too long |
| StreamDecoder.Decoder.DecodeInput | 3party/xdelta3/xdelta3-decode.h:809-1217 | the resumable machine, from any state and on any input, returns with the state, the unread input and the window the format says |
| StreamDecoder.Decoder.DecodeSections | 3party/xdelta3/xdelta3-decode.h:633-724 | the three sections, used in place or copied as they come in, are those of the format, however they are split |
| StreamDecoder.Decoder.DecodeSecondarySections | 3party/xdelta3/xdelta3-decode.h:610-631 | the sections the delta indicator names are replaced by what the decompressor makes of them and of those it had before |
| StreamDecoder.Decoder.DecodeSection | 3party/xdelta3/xdelta3-decode.h:185-262 | one section is taken as far as the input goes, with the count of window bytes kept right |
| StreamDecoder.Decoder.DecodeInteger | 3party/xdelta3/xdelta3-internal.h:160-184 | a header integer resumed from its partial value is the whole one |
| StreamDecoder.Decoder.DecodeBytes | 3party/xdelta3/xdelta3-decode.h:27-68 | header bytes are collected up to their number across calls |
| StreamDecoder.EmitTarget | 3party/xdelta3/xdelta3-decode.h:1148-1183 | a window's target, or a failure if it does not decode or its checksum does not agree |
| Adler.WindowChecksum | 3party/xdelta3/xdelta3.c:1074-1117 | started at 1, the checksum is the definition of section 8.2 of RFC 1950, reduced at every byte, for all lengths |
| Adler.Checksum | 3party/xdelta3/xdelta3.c:1084-1117 | the same from any 32-bit start value, block by block |
| Adler.NoOverflow | 3party/xdelta3/xdelta3.c:1074-1078 | within 5552 bytes no unreduced 32-bit sum overflows, whatever the two halves it starts from |
| Adler.Block | 3party/xdelta3/xdelta3.c:1091-1113 | sixteen bytes at a time without reduction, in 32-bit arithmetic, gives the unreduced sums |
| Adler.Deferred | 3party/xdelta3/xdelta3.c:1091-1113 | reducing once at the end is reducing at every byte |
| Merge.MergePreservesMeaning | 3party/xdelta3/xdelta3-merge.h:409-581 | for every base, applying the merged delta is applying the second to what the first makes of the base, self-overlapping copies included |
| Merge.Stream.MergeInputs | 3party/xdelta3/xdelta3-merge.h:530-581 | for any two deltas, how the merge ends: merged, invalid or running past the end, as the first instruction that is not merged decides; if merged, windows and length are the second's and each byte's origin is the second's followed through the first |
| Merge.DoneIff | 3party/xdelta3/xdelta3-merge.h:530-581 | all is merged if and only if every copy from outside the target is from the source, begins within the first output and ends within it |
| Merge.RunsPastEnd | 3party/xdelta3/xdelta3-merge.h:427-432 | a pair of deltas whose merge runs past the first one's instructions |
| Merge.Stream.MergeSourceCopy | 3party/xdelta3/xdelta3-merge.h:409-526 | for any copy: it is invalid, runs past the end or is merged, exactly as its range lies; it terminates because each recursive copy ends earlier, and if merged tiles exactly the copy's range and gives each byte its origin in the first delta |
| Merge.Stream.MergePiece | 3party/xdelta3/xdelta3-merge.h:427-523 | one turn of its loop takes what one instruction of the first delta covers |
| Merge.Stream.MergePieces | 3party/xdelta3/xdelta3-merge.h:427-523 | the loop ends early exactly if the copy runs past the first output |
| Merge.Stream.CopyPiece | 3party/xdelta3/xdelta3-merge.h:460-517 | run, add and base copy pieces give the bytes of that part of the first delta |
| Merge.FindPosition | 3party/xdelta3/xdelta3-merge.h:362-406 | the binary search finds the instruction that covers the address, and fails exactly past the end |
| Merge.Stream.MergeLiteral | 3party/xdelta3/xdelta3-merge.h:283-341 | runs and adds are copied over with their literal bytes |
| Merge.Stream.MergeTargetCopy | 3party/xdelta3/xdelta3-merge.h:344-359 | a copy within the target means the same in the merged delta |
| Merge.Stream.MergeInst | 3party/xdelta3/xdelta3-merge.h:547-579 | one instruction of the second delta keeps the origins followed through the first, or ends the merge as its range says |
| Merge.Stream.CopyInfo | 3party/xdelta3/xdelta3-merge.h:538-545 | window information is the second delta's |
| Merge.ApplyIsRender | 3party/xdelta3/xdelta3-merge.h:258-280 | applying a delta byte by byte is looking up the origin of each byte |
| Secondary.InStepExactly | 3party/xdelta3/xdelta3-second.h:244-319 | from equal trees, a run of sections the decoder gets through ends with equal trees if and only if none was thrown away |
| Secondary.RunInStep | 3party/xdelta3/xdelta3-second.h:118-319 | while none is thrown away every section is restored |
| Secondary.RunTotals | 3party/xdelta3/xdelta3-second.h:244-319 | the encoder's symbol count gets ahead of the decoder's by the sections thrown away, whatever bits the decoder reads |
| Secondary.CodeSections | 3party/xdelta3/xdelta3-second.h:118-319 | encoder and decoder of one section kind over a whole stream: all sections restored if none is thrown away, in step exactly then |
| Secondary.EncodeSecondary | 3party/xdelta3/xdelta3-second.h:244-319 | what is sent: plain if shorter than 10 bytes or if the code saves too little, else size and code; the tree is updated whenever the section went through the coder, sent coded or not |
| Secondary.DecodeSecondary | 3party/xdelta3/xdelta3-second.h:118-172 | what is received, with the checks on size and on input used up |
| Secondary.ReceivesCoded | 3party/xdelta3/xdelta3-second.h:118-172 | a coded section of the decoder's own tree is restored and leaves equal trees |
| Secondary.FgkRestores | 3party/xdelta3/xdelta3-second.h:118-172 | as the decompressor of a stream, given the coded sections before it, the adaptive decoder restores each section sent coded while none is thrown away |
| Secondary.FirstDiscarded | 3party/xdelta3/xdelta3-second.h:298-309 | a first section of ten bytes, five of them distinct, is thrown away |
| Secondary.OutOfStep | 3party/xdelta3/xdelta3-second.h:298-309 | after it, a section is sent coded that the decoder does not restore |
| Secondary.EncodeSecondaryDjw | 3party/xdelta3/xdelta3-second.h:244-319 | with the static coder: plain or the code of a section, failing exactly on a wrong configuration |
| Secondary.DecodeSecondaryDjw | 3party/xdelta3/xdelta3-second.h:118-172 | such a section is restored if zeros agree |
| Secondary.CodeSectionsDjw | 3party/xdelta3/xdelta3-second.h:118-319 | every run of safe sections is restored, whatever is thrown away |
| FgkLockstep.Lockstep | 3party/xdelta3/xdelta3-fgk.h:234-765 | for every byte sequence, a decoder with the encoder's tree restores it from its code and any bits after it, reads no further, and ends with the encoder's tree |
| FgkLockstep.EncodesOnce | 3party/xdelta3/xdelta3-fgk.h:234-290 | a section has exactly one code |
| FgkLockstep.CodeOnce | 3party/xdelta3/xdelta3-fgk.h:234-290 | a symbol has no more than one code in a proper tree |
| FgkLockstep.CodeExists | 3party/xdelta3/xdelta3-fgk.h:234-290 | every symbol has a code in a proper tree |
| FgkLockstep.UpdateKeeps | 3party/xdelta3/xdelta3-fgk.h:304-326 | every update terminates and keeps a proper tree, with one more count for the symbol and none for others |
| FgkLockstep.UpdatedOnce | 3party/xdelta3/xdelta3-fgk.h:304-326 | the update of a tree for a symbol leaves only one tree, so encoder and decoder that start alike stay alike |
| FgkLockstep.WeightsCount | 3party/xdelta3/xdelta3-fgk.h:304-326 | the weight of a leaf is the number of its symbols so far |
| FgkLockstep.DecodedTree | 3party/xdelta3/xdelta3-fgk.h:663-765 | on any bits, a decoder that gets to the end took as many symbols as asked for and has the tree they leave |
| FgkLockstep.InitialProper | 3party/xdelta3/xdelta3-fgk.h:188-223 | the tree at the start, with no symbol seen, is proper |
| FgkCoder.TreeNode | 3party/xdelta3/xdelta3-fgk.h:304-587 | of a proper tree: links agree both ways, a node weighs what its children do, only the head of the zero list weighs nothing |
| FgkCoder.UpdateKnown | 3party/xdelta3/xdelta3-fgk.h:304-326 | the update for a symbol seen before ends, keeps a proper tree and counts that symbol once more |
| FgkCoder.UpdateFirst | 3party/xdelta3/xdelta3-fgk.h:461-542 | the update for the first symbol of all does the same |
| FgkCoder.UpdateNew | 3party/xdelta3/xdelta3-fgk.h:461-587 | the update for a symbol not seen before, with others left, does the same |
| FgkCoder.UpdateLast | 3party/xdelta3/xdelta3-fgk.h:461-587 | the update for the last symbol not seen does the same |
| FgkCoder.InsertZeros | 3party/xdelta3/xdelta3-fgk.h:461-587 | taking a symbol out of the list of unseen symbols leaves the others in their order, with the right head |
| Fgk.StepKeeps | 3party/xdelta3/xdelta3-fgk.h:317-323 | one turn of the climb, moving and promoting a node, keeps list, tree, weights and blocks |
| Fgk.StepNearer | 3party/xdelta3/xdelta3-fgk.h:317-323 | each turn of the climb comes strictly nearer to the root, so it ends |
| Fgk.MoveKeeps | 3party/xdelta3/xdelta3-fgk.h:328-397 | exchanging a node with its block's leader, in list and tree by pointer assignments, keeps list, tree, weights and blocks |
| Fgk.PromoteKeeps | 3party/xdelta3/xdelta3-fgk.h:400-457 | moving the leader of a block to the next block, by pointer assignments, keeps list, tree, weights and blocks |
| Fgk.SwapInListKeeps | 3party/xdelta3/xdelta3-fgk.h:342-375 | the pointer assignments exchange two places of the list and nothing else |
| FgkUpdate.IncreaseStructure | 3party/xdelta3/xdelta3-fgk.h:461-542 | inserting a new symbol keeps list, tree and blocks |
| FgkUpdate.ClimbRests | 3party/xdelta3/xdelta3-fgk.h:304-326 | the climb ends with the tree at rest |
| FgkBits.NthZeroIs | 3party/xdelta3/xdelta3-fgk.h:714-728 | walking the zero list gives the element at that distance, or the last |
| FgkBits.ReadsCode | 3party/xdelta3/xdelta3-fgk.h:663-765 | a symbol's code is complete at its last bit and no sooner, and gives the symbol |
| FgkStream.Coder.constructor | 3party/xdelta3/xdelta3-fgk.h:159-223 | a new coder has the initial tree |
| FgkStream.Coder.UpdateTree | 3party/xdelta3/xdelta3-fgk.h:304-326 | the loop reaches the one updated tree |
| FgkStream.Coder.EncodeData | 3party/xdelta3/xdelta3-fgk.h:234-290 | the bits left in the buffer, last first, are the symbol's code in the tree before; they always fit |
| FgkStream.Coder.DecodeBit | 3party/xdelta3/xdelta3-fgk.h:663-712 | one bit moves the position as the tree says and tells whether a code is complete |
| FgkStream.Coder.DecodeData | 3party/xdelta3/xdelta3-fgk.h:734-765 | the symbol at the position, and the tree updated for it |
| FgkStream.Coder.FindNthZero | 3party/xdelta3/xdelta3-fgk.h:548-561 | the index of an unseen symbol, from which the decoder's walk finds it |
| FgkStream.Coder.FindZero | 3party/xdelta3/xdelta3-fgk.h:714-728 | walking the list of unseen symbols gives the one at that distance |
| FgkStream.Coder.EncodeSection | 3party/xdelta3/xdelta3-fgk.h:784-808 | the section's code packed into bytes, and the tree after it |
| FgkStream.Coder.DecodeSection | 3party/xdelta3/xdelta3-fgk.h:811-855 | for any input: the section decoded, the tree, and the number of bytes used, or a failure for lack of input |
| DjwSection.EncodeThenDecode | 3party/xdelta3/xdelta3-djw.h:856-1833 | for every input and configuration, a section that is coded is restored with all its bytes used if zeros agree in its groups, which holds for one group and below 28400 bytes; if inefficient coding is allowed it is always coded |
| DjwSection.EncodeHuff | 3party/xdelta3/xdelta3-djw.h:856-1331 | the code is that of a section of the input, with one group fewer while there are too many; refused exactly if the data, or the data, choices and whole bytes before it, save less than the margin |
| DjwSection.EncodeOne | 3party/xdelta3/xdelta3-djw.h:898-954 | with one group: the section's code, refused exactly if it saves less than the margin |
| DjwSection.EncodeMany | 3party/xdelta3/xdelta3-djw.h:956-1310 | with several groups: the section's code, refused exactly if it saves less than the margin, or the wish for fewer groups, which never comes if inefficient coding is allowed |
| DjwSection.DecodeHuff | 3party/xdelta3/xdelta3-djw.h:1630-1833 | from the bits of any section whose zeros agree, and anything after them, the data, and no byte beyond |
| DjwSection.DecodeGroups | 3party/xdelta3/xdelta3-djw.h:1480-1627 | code lengths are restored and the bits after them left if and only if zeros agree in all groups |
| DjwSection.GroupsDisagree | 3party/xdelta3/xdelta3-djw.h:1535-1562 | two complete codes for the same data whose lengths cannot be restored |
| DjwSection.RestorableIff | 3party/xdelta3/xdelta3-djw.h:640-661 | lengths with zeros left out determine the lengths if and only if zeros agree from each group to the next |
| DjwSection.ComputeMultiPrefix | 3party/xdelta3/xdelta3-djw.h:640-661 | the first group whole, then what is not zero |
| DjwSection.SelectorCode | 3party/xdelta3/xdelta3-djw.h:735-746 | move-to-front and lengths of the selectors, and what their code costs |
| DjwSection.DecodeSelectors | 3party/xdelta3/xdelta3-djw.h:1723-1763 | the selectors back from their bits, with nothing read after them |
| DjwSection.DecodeSectors | 3party/xdelta3/xdelta3-djw.h:1766-1820 | the data back from its bits, each sector with its group's table |
| DjwSection.HowManyGroups | 3party/xdelta3/xdelta3-djw.h:749-853 | group number and sector size that the header can hold, and failure exactly for a configuration out of range |
| DjwGroups.SelectGroups | 3party/xdelta3/xdelta3-djw.h:1046-1118 | each sector goes to a group with the least cost, the first of them, and the frequencies are those of each group's sectors |
| DjwGroups.Evolve | 3party/xdelta3/xdelta3-djw.h:1046-1183 | the search ends with lengths for all groups that can code every sector, and the exact size of the data in them |
| DjwGroups.InitialLengths | 3party/xdelta3/xdelta3-djw.h:1004-1044 | the alphabet is cut without running past it; too many groups are noticed unless inefficient coding is allowed |
| DjwGroups.GroupCode | 3party/xdelta3/xdelta3-djw.h:1120-1166 | a code for every symbol of the input, at a cost that counts only the group's own |
| DjwGroups.AgreeUnlessFlattened | 3party/xdelta3/xdelta3-djw.h:1120-1166 | groups built over the same input have zeros in the same places unless frequencies were flattened |
| DjwGroups.SumCostIsSize | 3party/xdelta3/xdelta3-djw.h:1120-1166 | costs counted from the frequencies of the groups sum to the sizes of their data |
| DjwGroups.SumIsAll | 3party/xdelta3/xdelta3-djw.h:1265-1307 | the sizes of the data of all groups sum to the size of all data |
| DjwGroups.PartsCount | 3party/xdelta3/xdelta3-djw.h:968 | the number of selectors allocated is the number of sectors |
| DjwPrefix.BuildPrefix | 3party/xdelta3/xdelta3-djw.h:379-504 | terminates for every alphabet and limit used, with no length above the limit, a Kraft sum of exactly one, a code for every symbol that occurs, zero for the others unless flattened, and the cost it returns |
| DjwPrefix.OverflowHeavy | 3party/xdelta3/xdelta3-djw.h:463-504 | a code is too long only if the frequencies sum to a Fibonacci number, more than twice the alphabet |
| DjwPrefix.FlatTotal | 3party/xdelta3/xdelta3-djw.h:496-504 | flattening makes such a sum smaller, so it is repeated only so often |
| DjwPrefix.MergeKeeps | 3party/xdelta3/xdelta3-djw.h:446-460 | joining the two least trees keeps the weights, the shares that sum to one and the Fibonacci bound on depth |
| DjwHeap.HeapInsert | 3party/xdelta3/xdelta3-djw.h:256-269 | sifting up in place computes the function proved to keep the heap and add the element |
| DjwHeap.HeapExtract | 3party/xdelta3/xdelta3-djw.h:272-303 | sifting down in place computes the function proved to take the first out and keep the heap |
| DjwHeap.LeastFirst | 3party/xdelta3/xdelta3-djw.h:247-303 | the first of a heap is no heavier than any in it |
| DjwHeap.InsertOk | 3party/xdelta3/xdelta3-djw.h:256-269 | what insertion makes is a heap of the elements and the new one |
| DjwHeap.ExtractOk | 3party/xdelta3/xdelta3-djw.h:272-303 | what extraction makes is a heap of the rest |
| DjwCodes.BuildCodes | 3party/xdelta3/xdelta3-djw.h:507-547 | the loops assign the canonical codes, in order of length and symbol |
| DjwCodes.CodeFits | 3party/xdelta3/xdelta3-djw.h:507-547 | with a Kraft sum of at most one every code has no more bits than its length |
| DjwCodes.BuildDecoder | 3party/xdelta3/xdelta3-djw.h:1339-1408 | base, limit and inorder are those the lengths call for |
| DjwCodes.DecodesCode | 3party/xdelta3/xdelta3-djw.h:1411-1477 | for any lengths with a Kraft sum of at most one, the tables read every symbol's code, whatever follows, as that symbol |
| DjwCodes.ScanSound | 3party/xdelta3/xdelta3-djw.h:1411-1477 | whatever the bits, a symbol read from them is one whose code they begin with: the codes are prefix-free |
| DjwMtf.ComputeMtf12 | 3party/xdelta3/xdelta3-djw.h:553-603 | move-to-front with run codes, and frequencies that count what is sent |
| DjwMtf.UpdateMtf | 3party/xdelta3/xdelta3-djw.h:325-334 | the element at the place comes to the front, the others keep their order |
| DjwMtf.UpdateRun | 3party/xdelta3/xdelta3-djw.h:337-356 | a run is written in bijective base two |
| DjwDecode.ReadsEncoded | 3party/xdelta3/xdelta3-djw.h:1535-1607 | for every symbol sequence over the list, reading the code of its move-to-front and run form restores it with no repeat pending |
| DjwDecode.DecodeOneTwo | 3party/xdelta3/xdelta3-djw.h:1535-1607 | on any bits the loop gives what reading says, with the skipped places set to zero; it restores what was sent exactly if those were zero |
| DjwDecode.DecodeSymbol | 3party/xdelta3/xdelta3-djw.h:1411-1477 | on any bits: the symbol the tables give and the bits after its code, or a failure |
| DjwStream.DecodePrefix | 3party/xdelta3/xdelta3-djw.h:1480-1627 | the lengths of all groups from their coded form, exactly if what was left out can be restored |
| DjwStream.EncodePrefix | 3party/xdelta3/xdelta3-djw.h:675-733 | writes lengths of lengths and lengths so that they can be read back |
| DjwStream.DecodeClclen | 3party/xdelta3/xdelta3-djw.h:1480-1532 | on any bits: lengths of lengths and the table for them |
| DjwStream.ReadsClclen | 3party/xdelta3/xdelta3-djw.h:1480-1532 | the lengths of the code lengths, written, are read back, with what follows left |
| DjwStream.ReadsData | 3party/xdelta3/xdelta3-djw.h:1766-1820 | data written with a code is read back, whatever follows |
| DjwStream.CostIsSize | 3party/xdelta3/xdelta3-djw.h:463-482 | frequency times length, summed, is the size of the data's code |
| DjwStream.CountFreqs | 3party/xdelta3/xdelta3-djw.h:607-637 | each frequency is the number of occurrences |
| BitLayer.BitWriter.EncodeBits | 3party/xdelta3/xdelta3-second.h:214-241 | appends the bits of a number, highest first |
| BitLayer.BitWriter.EncodeBit | 3party/xdelta3/xdelta3-second.h:175-204 | appends one bit, into bytes from the lowest bit up |
| BitLayer.BitWriter.FlushBits | 3party/xdelta3/xdelta3-second.h:206-212 | the output is the bits packed, the last byte filled with zeros |
| BitLayer.BitReader.DecodeBits | 3party/xdelta3/xdelta3-second.h:25-72 | takes a number of so many bits from the front, or fails if there are not as many |
| BitLayer.Unpacked | 3party/xdelta3/xdelta3-second.h:25-241 | unpacking packed bits gives them and fewer than eight zeros |
| Rabin.RabinCDC.Slide | chunk/rabin_cdc.cpp:88-94 | the window loses its oldest byte and gains the new one, and the digest is again the remainder, below 2^53, of the 48 window bytes read from the oldest on |
| Rabin.RabinCDC.Append | chunk/rabin_cdc.cpp:96-101 | one table lookup is one reduction |
| Rabin.RabinCDC.Reset | chunk/rabin_cdc.cpp:79-86 | the window is 47 zeros and a one, the digest its remainder |
| Rabin.RabinCDC.constructor | chunk/rabin_cdc.cpp:42-77 | the tables are filled as the digest needs them |
| Rabin.RabinCDC.GetNextChunk | chunk/rabin_cdc.cpp:116-146 | whatever the window holds, the chunk ends at the first place that cuts; without one none is returned and the bytes have slid through the window |
| Rabin.ContentDefined | chunk/rabin_cdc.cpp:129-136 | between the size limits, whether a place cuts depends only on the 48 bytes before it, not on what the window held at first |
| Rabin.SlideOut | chunk/rabin_cdc.cpp:44-63 | adding a byte's own fingerprint takes it out of the window's |
| Rabin.ReduceByTable | chunk/rabin_cdc.cpp:64-101 | the table entry of the eight bits below the degree reduces the shifted digest |
| Rabin.Mod | chunk/rabin_cdc.cpp:26-32 | long division in 64 bits gives the remainder |
| Rabin.Deg | chunk/rabin_cdc.cpp:15-24 | the loop over mask bits gives the degree |
| Rabin.AppendByte | chunk/rabin_cdc.cpp:34-38 | one byte more, one remainder, for any hash, whose eight highest bits are shifted out |
| Gf2.RemIsRemainder | chunk/rabin_cdc.cpp:26-32 | what long division leaves is of smaller degree and congruent |
| Gf2.RemainderUnique | chunk/rabin_cdc.cpp:26-32 | there is only one remainder |
| Sha1.Hash | utils/sha1.cpp:291-301 | hashing byte by byte gives the digest of FIPS 180-4: padding of section 5.1.1, schedule, rounds and sums of section 6.1.2 |
| Sha1.Context.Update | utils/sha1.cpp:207-235 | the context has taken the message followed by the data, whole blocks processed, the rest in the buffer, the bit count kept modulo 2^64 |
| Sha1.Context.Final | utils/sha1.cpp:240-289 | padding byte by byte gives the digest of the message taken |
| Sha1.Context.constructor | utils/sha1.cpp:193-202 | a context that has taken nothing |
| Sha1.Transform | utils/sha1.cpp:62-186 | eighty unrolled operations with names turned round, on sixteen words overwritten in place, are the eighty rounds on the schedule of eighty words |
| Sha1.OneRound | utils/sha1.cpp:54-58 | one operation is one round |
| Sha1.ScheduledNext | utils/sha1.cpp:50-51 | a word overwritten is the next of the schedule, and the others still needed are there |
| Sha1.ChIs | utils/sha1.cpp:54-55 | the selection written with two exclusive ors is the standard's |
| Sha1.MajIs | utils/sha1.cpp:57 | the majority written with ors is the standard's |
| Sha1.CountAdds | utils/sha1.cpp:217-221 | two 32-bit words with a carry count bits modulo 2^64 |
| Sha1.CountWritten | utils/sha1.cpp:267-270 | the eight bytes written are the count, highest first |
| Sha1.PlaceSum | utils/sha1.cpp:222-224 | the test for a whole block is right if and only if the 32-bit sum does not wrap |
| Sha1.IndexReaches | utils/sha1.cpp:294-298 | the 32-bit index reaches the length if and only if it is below 2^32 |
| Pipeline.WriterSeesSequentialRun | pipeline_delta_compression.cpp:3-134 | under every interleaving and at any moment, what is written is what a sequential run writes first, queues hold at most 128, and a worker that stopped has nothing left and a stopped producer |
| Pipeline.JoinedRun | pipeline_delta_compression.cpp:136-162 | when all workers have stopped, output, types, base ids and tables are those of the sequential run, none lost or repeated |
| Pipeline.Completes | pipeline_delta_compression.cpp:3-162 | from any reachable state the workers can go on until all have stopped |
| Pipeline.NoDeadlock | pipeline_delta_compression.cpp:3-29 | while one has not stopped, one is not waiting |
| Pipeline.StepMeasure | pipeline_delta_compression.cpp:32-134 | every step not waiting brings the end nearer, so no schedule goes on forever |
| Pipeline.StepInv | pipeline_delta_compression.cpp:32-134 | every step of every worker keeps the invariant |
| Pipeline.DeltaNamesEarlierBase | pipeline_delta_compression.cpp:75-95 | the base of every delta chunk is a base chunk written before it or known from an earlier file |
| Pipeline.FilesJoin | pipeline_delta_compression.cpp:136-162 | files added one after another are the sequential run over all |

## Left out

- DjwSection.EncodeThenDecode: that a real input reaches flattening in one group and not in another is not shown; the condition on the groups is exact, the one on the length is sufficient.
- Sha1.Context.Update: data whose length wraps the 32-bit sum is left out, as the source then copies past its buffer; lengths of 2^32 bytes and more do not end in sha1_hash.
- Sha1.Transform: only the little-endian form of the source; wiping of variables is not modelled.
- Pipeline.Completes: a wait is a guard on its predicate and memory is sequentially consistent; lost wake-ups and scheduling fairness are not modelled. Counters, file metadata and storage are left out.
- Pipeline.DeltaNamesEarlierBase: deduplication, features and the similarity index are arbitrary functions; the index is required to name only ids it was given.
- Rabin.RabinCDC.GetNextChunk: no claim that chunks cover a file, as an uncut tail yields no chunk; reading the file is left out.
- Merge.Stream.MergeInputs: what the source reads behind its instruction list is not modelled, only that it does; xd3_whole_append_inst and xd3_whole_append_window are not modelled.
- StreamDecoder.DecodeStream: the two secondary decompressors are one arbitrary function of the coded sections had so far, and their streams are those sections; that the adaptive decoder is such a function is `Secondary.FgkRestores`, and the static one is modelled on sections. VCD_TARGET and VCD_CODETABLE are rejected, as the source does not implement them.
- StreamEncoder.EncodeStream: error codes are one failure; space is checked once at the end; the source of a block is always available.
- Matcher.Scanner.Search: hash values, table contents and the choice of source offsets are arbitrary, so nothing is said of how good the matches are. The pacing of insertions (xd3_srcwin_move_point) is left out.
- WindowEncoder.Encoder.FlushInstructions: only the forced flush with an unlimited queue, as the project uses it; the queue is a list value, not linked nodes.
- FgkStream.Coder.UpdateTree: the tree is a value of pointer sequences with node numbers, assigned in the source's order; sharing of nodes is not modelled. The list of nodes is not claimed to be sorted by weight: once every symbol has occurred, fgk_promote returns early for the leftmost node.
- DjwDecode.DecodeSymbol: where the source would read its inorder table past the end it fails; ScanSound shows that this does not happen with the tables built.
- DjwSection.EncodeHuff: frequencies and sums are unbounded, pages are one sequence, and the position in the output page is an offset given; a selector that names no group fails where the source asserts.
- Allocation never fails, and the allocated sizes of pages are not modelled.
- Decoding on after an error was reported is not modelled.
- utils/rabin.cpp has the same fingerprint as chunk/rabin_cdc.cpp and is not modelled twice.
- File access, configuration, logging, caches, the other encoders and indexes, FastCDC, LZMA and the command line are not part of this model.
