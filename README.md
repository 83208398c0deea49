# A verified model of the Zstandard 0.7.4 compressor core

This project models, in Dafny, the integer and byte logic of the Zstandard
0.7.4 compressor that c-blosc bundles
(`c-blosc/internal-complibs/zstd-0.7.4/compress/zstd_compress.c`), and proves
what that code promises. The model covers the 64-bit build:

- **Compression parameters** (`Params.dfy`, module `ZstdParams`):
  - `ZSTD_checkCParams` and `ZSTD_checkCParams_advanced`;
  - `ZSTD_highbit32` and `ZSTD_adjustCParams`;
  - the 4 x 23 default level table and `ZSTD_getCParams`.
- **The sequence store** (`SeqStore.dfy`, module `ZstdSeqStore`):
  - a `SeqStore` class over arrays, with `ZSTD_resetSeqStore`,
    `ZSTD_storeSeq` and `ZSTD_seqToCodes`;
  - the single "long length" side slot;
  - the length and offset codes, proved to read back the lengths and
    offsets they encode.
- **Match counting** (`MatchCount.dfy`, module `ZstdMatch`):
  - `ZSTD_count` and `ZSTD_count_2segments`, as loops over one byte arena,
    proved equal to a longest-common-prefix reference function;
  - the resolver that maps a logical window index to the dictionary segment
    or the prefix segment;
  - the wrap-around guard on repeat indices of the extDict parsers.
- **Window bookkeeping** (`Window.dfy`, module `ZstdWindow`):
  - the cut points `lowLimit`, `dictLimit`, `nextToUpdate` and
    `loadedDictEnd`, and how `ZSTD_compressContinue_internal`,
    `ZSTD_loadDictionaryContent` and the maximum-distance rule of
    `ZSTD_compress_generic` move them;
  - the overflow correction.
- **The byte formats** (`Format.dfy`, module `ZstdFormat`):
  - block headers and the frame epilogue;
  - raw, RLE and Huffman literal headers, and the `ZSTD_minGain` fallback;
  - the sequence-count header;
  - the frame header of `ZSTD_writeFrameHeader`.

  Each writer is paired with a reader of the Zstandard 0.7 format, taken
  from the format description at the top of the block section of the
  source. It is proved to read back what was written.
- **The hashes** (`Hash.dfy`, module `ZstdHash`):
  - `ZSTD_hash3` to `ZSTD_hash8` and `ZSTD_hashPtr`, with explicit
    modulo-2^32 and modulo-2^64 arithmetic;
  - a proof that a hash depends only on the first `mls` bytes.
- **The compression context** (`Context.dfy`, module `ZstdContext`):
  - a `CCtx` class with its stage machine (0 created, 1 ready, 2 inside a
    frame), its three U32 tables, its window, its repeat offsets and its
    dictionary ID;
  - `ZSTD_resetCCtx_advanced`, `ZSTD_copyCCtx`, `ZSTD_reduceTable`,
    `ZSTD_reduceIndex`, `ZSTD_compressContinue_internal`, the block loop
    of `ZSTD_compress_generic` (its control and window, with the block
    compressor's results as a parameter),
    `ZSTD_compressEnd`, `ZSTD_loadDictionaryContent`,
    `ZSTD_loadDictEntropyStats`, `ZSTD_compress_insertDictionary` and
    `ZSTD_compressBegin_internal`.

Shared definitions are in `Types.dfy` (module `ZstdTypes`):

- machine integers as subset types of `int`;
- casts to 32 and 64 bits written out as remainders;
- error kinds with their `ERROR(e)` size_t codes;
- little-endian reads and writes.

Pointers are integer addresses into one byte arena, and NULL is address 0.

Where this model relies on values the source takes from headers that are not
part of it (`zstd_internal.h`, `zstd_static.h`, `error_public.h`), it uses
the values of the 0.7 series:

- the parameter bounds (`ZSTD_WINDOWLOG_MAX` 27, `ZSTD_WINDOWLOG_MIN` 18,
  `ZSTD_WINDOWLOG_ABSOLUTEMIN` 12, and so on);
- the `LL_bits` and `ML_bits` tables and their bases;
- `MaxLL` 35, `MaxML` 52 and `LONGNBSEQ` 0x7F00;
- the error numbers, `ZSTD_DICT_MAGIC` and `repStartValue`.

The format comment in the source says the number of sequences takes "2
bytes, little endian". The code writes 1, 2 or 3 bytes. The model follows
the code.

## Model

| member | source | states |
|---|---|---|
| ZstdTypes.ErrorCode | c-blosc/internal-complibs/zstd-0.7.4/compress/zstd_compress.c:205-206 | `ERROR(e)` is a size_t that `ERR_isError` classifies as an error and that decodes back to `e` |
| ZstdTypes.ReturnCode | c-blosc/internal-complibs/zstd-0.7.4/compress/zstd_compress.c:2686-2688 | a result travels as one size_t: it is an error code exactly when the result is an error, and it carries either the value or the error kind |
| ZstdTypes.LE32 | c-blosc/internal-complibs/zstd-0.7.4/compress/zstd_compress.c:2470 | `MEM_writeLE32` writes four bytes that `MEM_readLE32` reads back as the value |
| ZstdTypes.LE64 | c-blosc/internal-complibs/zstd-0.7.4/compress/zstd_compress.c:2487 | `MEM_writeLE64` writes eight bytes that `MEM_readLE64` reads back as the value |
| ZstdParams.CheckCParams | c-blosc/internal-complibs/zstd-0.7.4/compress/zstd_compress.c:195-207 | returns 0 exactly when each log, the target length and the strategy lie in their authorized ranges and the search length lies in the strategy's range; otherwise compressionParameter_unsupported |
| ZstdParams.CheckCParamsAdvancedAsWritten | c-blosc/internal-complibs/zstd-0.7.4/compress/zstd_compress.c:212-220 | the work-around as written: a source above 2^18 bytes gets the ordinary check; below that, a window log under 12 fails; whatever it accepts has window log at least 12 and the search fields in range |
| ZstdParams.AsWrittenAcceptsOversizedLogs | c-blosc/internal-complibs/zstd-0.7.4/compress/zstd_compress.c:215-218 | for an unknown source size, the check as written accepts window log 40 and chain and hash logs 31, which `ZSTD_checkCParams` refuses and the corrected check refuses too |
| ZstdParams.CheckCParamsAdvanced | c-blosc/internal-complibs/zstd-0.7.4/compress/zstd_compress.c:212-220 | the corrected check accepts exactly the parameters whose logs are in range or, below their minimum, still cover the source; all upper bounds are kept |
| ZstdParams.AsWrittenAgreesInRange | c-blosc/internal-complibs/zstd-0.7.4/compress/zstd_compress.c:212-220 | within the upper bounds of the logs, the check as written and the corrected check give the same verdict on every input |
| ZstdParams.CheckAdvancedRelaxes | c-blosc/internal-complibs/zstd-0.7.4/compress/zstd_compress.c:212-220 | what `ZSTD_checkCParams` accepts, `ZSTD_checkCParams_advanced` accepts for every source size |
| ZstdParams.HighBit32 | c-blosc/internal-complibs/zstd-0.7.4/compress/zstd_compress.c:76-96 | the result r is the floor of log2: 2^r <= v < 2^(r+1), and r <= 31 |
| ZstdParams.HighBit32Portable | c-blosc/internal-complibs/zstd-0.7.4/compress/zstd_compress.c:84-94 | the table-based variant: floor of log2 for a positive argument, and at most 31 for every argument, including 0 |
| ZstdParams.SrcLog | c-blosc/internal-complibs/zstd-0.7.4/compress/zstd_compress.c:238 | `highbit32(rSize-1)+1` lies in 1..32, and 2^result covers rSize for every rSize below 2^32 |
| ZstdParams.ShrunkWindowLog | c-blosc/internal-complibs/zstd-0.7.4/compress/zstd_compress.c:236-240 | the window log never grows, and when it shrinks its power of two still covers rSize |
| ZstdParams.BoundLogs | c-blosc/internal-complibs/zstd-0.7.4/compress/zstd_compress.c:241-248 | window log at least 12; chain log at most window log plus 1 for the tree strategies; chain log never raised; hash log raised only to 12 for the tree strategies; search fields unchanged |
| ZstdParams.AdjustCParams | c-blosc/internal-complibs/zstd-0.7.4/compress/zstd_compress.c:229-249 | returns its input unchanged when srcSize+dictSize is 0; otherwise window log at least 12 and raised only up to 12, chain log at most window log (+1 for btlazy2/btopt) and never raised, search fields unchanged |
| ZstdParams.AdjustKeepsCoverage | c-blosc/internal-complibs/zstd-0.7.4/compress/zstd_compress.c:229-249 | every log the adjustment lowers still covers the declared source and dictionary (500 bytes when the source size is unknown), and the hash log of a non-tree strategy ends at most at the window log |
| ZstdParams.DefaultRowsWellFormed | c-blosc/internal-complibs/zstd-0.7.4/compress/zstd_compress.c:2937-3042 | every entry of the four default tables has search fields in range, the window log of its size class, a hash log from 12 to 25 and a chain log from 12 up to the window log (+1 for the tree strategies) |
| ZstdParams.TableWellFormed0 | c-blosc/internal-complibs/zstd-0.7.4/compress/zstd_compress.c:2938-2963 | the same, for the table of large or unknown sources |
| ZstdParams.TableWellFormed1 | c-blosc/internal-complibs/zstd-0.7.4/compress/zstd_compress.c:2964-2989 | the same, for the table of sources up to 256 KB (window log 18) |
| ZstdParams.TableWellFormed2 | c-blosc/internal-complibs/zstd-0.7.4/compress/zstd_compress.c:2990-3015 | the same, for the table of sources up to 128 KB (window log 17) |
| ZstdParams.TableWellFormed3 | c-blosc/internal-complibs/zstd-0.7.4/compress/zstd_compress.c:3016-3041 | the same, for the table of sources up to 16 KB (window log 14) |
| ZstdParams.TableID | c-blosc/internal-complibs/zstd-0.7.4/compress/zstd_compress.c:3052 | table 0 exactly for sizes above 256 KB, table 3 exactly for sizes up to 16 KB |
| ZstdParams.ClampLevel | c-blosc/internal-complibs/zstd-0.7.4/compress/zstd_compress.c:3053-3054 | the level looked up lies in 1..22 and equals the requested level whenever that is already in range |
| ZstdParams.RequestedSize | c-blosc/internal-complibs/zstd-0.7.4/compress/zstd_compress.c:3050-3051 | without overflow, the size used to choose the table is srcSize+dictSize, plus 500 for an unknown source size, or the largest value when both are 0 |
| ZstdParams.TableRowAdjustable | c-blosc/internal-complibs/zstd-0.7.4/compress/zstd_compress.c:3052-3055 | the table chosen for a size has a window that covers that size when the size is at most 2^18, and a window log of at least 18 otherwise |
| ZstdParams.UnknownSizeAccepted | c-blosc/internal-complibs/zstd-0.7.4/compress/zstd_compress.c:3051-3061 | with no size information, the default entry is used as is and passes `ZSTD_checkCParams_advanced` |
| ZstdParams.AdjustedAcceptedLarge | c-blosc/internal-complibs/zstd-0.7.4/compress/zstd_compress.c:3061 | for a source above 2^18 bytes, the adjusted default entry passes the ordinary range check |
| ZstdParams.AdjustedAcceptedSmall | c-blosc/internal-complibs/zstd-0.7.4/compress/zstd_compress.c:3061 | for a source of at most 2^18 bytes, the adjusted default entry passes `ZSTD_checkCParams_advanced` |
| ZstdParams.AdjustedSupported | c-blosc/internal-complibs/zstd-0.7.4/compress/zstd_compress.c:215-218 | every log the adjustment leaves below its minimum still covers the source, so the work-around of the advanced check accepts it |
| ZstdParams.GetCParams | c-blosc/internal-complibs/zstd-0.7.4/compress/zstd_compress.c:3047-3063 | the strategy and search fields of the default row for the clamped level and size class, window and chain logs no larger than the row's and a window log of at least 12; with both sizes unknown, the row for the largest inputs unchanged |
| ZstdParams.GetCParamsAccepted | c-blosc/internal-complibs/zstd-0.7.4/compress/zstd_compress.c:3047-3063 | for every level and every pair of sizes that does not overflow, the parameters `ZSTD_getCParams` returns pass `ZSTD_checkCParams_advanced` for that source size |
| ZstdSeqStore.LLCode | c-blosc/internal-complibs/zstd-0.7.4/compress/zstd_compress.c:695-710 | the code of a 16-bit literal length is below MaxLL (35), which only the side slot uses |
| ZstdSeqStore.MLCode | c-blosc/internal-complibs/zstd-0.7.4/compress/zstd_compress.c:722-738 | the code of a 16-bit match length is below MaxML (52), which only the side slot uses |
| ZstdSeqStore.OfCode | c-blosc/internal-complibs/zstd-0.7.4/compress/zstd_compress.c:716-719 | an offset code is at most 31 |
| ZstdSeqStore.LLCodeRoundTrip | c-blosc/internal-complibs/zstd-0.7.4/compress/zstd_compress.c:695-710 | every 16-bit literal length is read back from its code's base plus the code's number of low bits of the length |
| ZstdSeqStore.MLCodeRoundTrip | c-blosc/internal-complibs/zstd-0.7.4/compress/zstd_compress.c:722-738 | every 16-bit match length is read back from its code's base plus the code's number of low bits |
| ZstdSeqStore.LLTableRoundTrip | c-blosc/internal-complibs/zstd-0.7.4/compress/zstd_compress.c:695-702 | each literal length up to 63 reads back exactly from its `LL_Code` entry |
| ZstdSeqStore.MLTableRoundTrip | c-blosc/internal-complibs/zstd-0.7.4/compress/zstd_compress.c:722-729 | each match length up to 127 reads back exactly from its `ML_Code` entry |
| ZstdSeqStore.LLHighCode | c-blosc/internal-complibs/zstd-0.7.4/compress/zstd_compress.c:709 | above the table, code highbit+19 has base 2^highbit and highbit extra bits |
| ZstdSeqStore.MLHighCode | c-blosc/internal-complibs/zstd-0.7.4/compress/zstd_compress.c:737 | above the table, code highbit+36 has base 2^highbit and highbit extra bits |
| ZstdSeqStore.LongLengthRoundTrip | c-blosc/internal-complibs/zstd-0.7.4/compress/zstd_compress.c:711-712 | a length from 2^16 to 2^17-1 stored in 16 bits is read back from MaxLL or MaxML and its low 16 bits |
| ZstdSeqStore.OfCodeRoundTrip | c-blosc/internal-complibs/zstd-0.7.4/compress/zstd_compress.c:716-719 | every stored offset is read back from 2^code plus its code's number of low bits |
| ZstdSeqStore.SideSlotAppend | c-blosc/internal-complibs/zstd-0.7.4/compress/zstd_compress.c:955-963 | after a store, (longLengthID, longLengthPos) still names the last sequence with a long length, and which of its lengths is long |
| ZstdSeqStore.SpanCovered | c-blosc/internal-complibs/zstd-0.7.4/compress/zstd_compress.c:950-963 | each sequence covers no more bytes than all the stored sequences together |
| ZstdSeqStore.TwoSpansCovered | c-blosc/internal-complibs/zstd-0.7.4/compress/zstd_compress.c:950-963 | two distinct sequences cover together no more bytes than all the stored sequences |
| ZstdSeqStore.BlockNeedsOneSlot | c-blosc/internal-complibs/zstd-0.7.4/compress/zstd_compress.c:955-963 | the sequences of a block of at most 128 KB hold at most one long length, below 2^17, so one side slot describes them |
| ZstdSeqStore.LiteralLengthRecovered | c-blosc/internal-complibs/zstd-0.7.4/compress/zstd_compress.c:692-712 | with one long length at most, each literal length code with its 16-bit entry reads back the true literal length |
| ZstdSeqStore.MatchLengthRecovered | c-blosc/internal-complibs/zstd-0.7.4/compress/zstd_compress.c:722-741 | the same for each match length code |
| ZstdSeqStore.SlotNamesLong | c-blosc/internal-complibs/zstd-0.7.4/compress/zstd_compress.c:955-963 | a sequence with a long length is the one the side slot names, and the slot's ID says which length is long |
| ZstdSeqStore.OffsetRecovered | c-blosc/internal-complibs/zstd-0.7.4/compress/zstd_compress.c:716-719 | each stored offset code plus one reads back from its code and its entry |
| ZstdSeqStore.AppendContents | c-blosc/internal-complibs/zstd-0.7.4/compress/zstd_compress.c:950-963 | storing one more sequence appends its literals and exactly one entry to each of the three arrays |
| ZstdSeqStore.StoreKeepsContents | c-blosc/internal-complibs/zstd-0.7.4/compress/zstd_compress.c:950-963 | the contents invariant holds again after the appends and side-slot update of a store |
| ZstdSeqStore.CopyInto | c-blosc/internal-complibs/zstd-0.7.4/compress/zstd_compress.c:950-951 | the literals are copied at the write position and nothing else in the buffer changes |
| ZstdSeqStore.PutU16 | c-blosc/internal-complibs/zstd-0.7.4/compress/zstd_compress.c:956 | one 16-bit entry is written at the position and nothing else changes |
| ZstdSeqStore.PutU32 | c-blosc/internal-complibs/zstd-0.7.4/compress/zstd_compress.c:959 | one 32-bit entry is written at the position and nothing else changes |
| ZstdSeqStore.FillLLCodes | c-blosc/internal-complibs/zstd-0.7.4/compress/zstd_compress.c:703-712 | the first nbSeq codes become the literal length codes, with MaxLL at the side slot when its ID is 1; the rest of the array is unchanged |
| ZstdSeqStore.FillOfCodes | c-blosc/internal-complibs/zstd-0.7.4/compress/zstd_compress.c:715-719 | the first nbSeq codes become the highest bits of the offsets; the rest is unchanged |
| ZstdSeqStore.FillMLCodes | c-blosc/internal-complibs/zstd-0.7.4/compress/zstd_compress.c:731-741 | the first nbSeq codes become the match length codes, with MaxML at the side slot when its ID is 2; the rest is unchanged |
| ZstdSeqStore.SeqStore.constructor | c-blosc/internal-complibs/zstd-0.7.4/compress/zstd_compress.c:333-342 | a store with separate arrays of the requested capacities and no sequence |
| ZstdSeqStore.SeqStore.Reset | c-blosc/internal-complibs/zstd-0.7.4/compress/zstd_compress.c:101-108 | every write position goes back to the start of its array, longLengthID is cleared, and the store holds no sequence |
| ZstdSeqStore.SeqStore.StoreSeq | c-blosc/internal-complibs/zstd-0.7.4/compress/zstd_compress.c:938-964 | copies the literals and advances `lit` by their number; appends the literal length, offsetCode+1 and the match code to their arrays; sets the side slot for a length above 0xFFFF; keeps the store's invariant |
| ZstdSeqStore.SeqStore.WriteEntry | c-blosc/internal-complibs/zstd-0.7.4/compress/zstd_compress.c:950-963 | the array writes of a store: the literals at `lit` and one entry at the end of each array, nothing else |
| ZstdSeqStore.SeqStore.Advance | c-blosc/internal-complibs/zstd-0.7.4/compress/zstd_compress.c:951-963 | the pointer updates of a store: `lit` by the literal count, each array position by one, and the side slot |
| ZstdSeqStore.SeqStore.SeqToCodes | c-blosc/internal-complibs/zstd-0.7.4/compress/zstd_compress.c:692-742 | the three code arrays hold the codes of the stored lengths and offsets, with MaxLL or MaxML at the side slot as its ID says; entries past nbSeq are unchanged |
| ZstdMatch.CommonPrefix | c-blosc/internal-complibs/zstd-0.7.4/compress/zstd_compress.c:1029-1044 | the reference length of a match: bounded by both sequences |
| ZstdMatch.CommonPrefixAgrees | c-blosc/internal-complibs/zstd-0.7.4/compress/zstd_compress.c:1029-1044 | the two sequences agree up to the common prefix and differ right after it, unless one of them ends there |
| ZstdMatch.PrefixUnique | c-blosc/internal-complibs/zstd-0.7.4/compress/zstd_compress.c:1029-1044 | any length at which two sequences agree and then stop agreeing is their common prefix |
| ZstdMatch.FirstDifference | c-blosc/internal-complibs/zstd-0.7.4/compress/zstd_compress.c:1035-1037 | `ZSTD_NbCommonBytes` of the XOR of two different words: the bytes before it agree and the byte at it differs |
| ZstdMatch.Count | c-blosc/internal-complibs/zstd-0.7.4/compress/zstd_compress.c:1029-1044 | the count is the longest common prefix of the input up to pInLimit and the match side: the first n bytes agree, and either n reaches the limit or the next bytes differ |
| ZstdMatch.WordMismatch | c-blosc/internal-complibs/zstd-0.7.4/compress/zstd_compress.c:1035-1038 | a word-sized compare that finds its first differing byte d bytes in ends the count there |
| ZstdMatch.TailStep | c-blosc/internal-complibs/zstd-0.7.4/compress/zstd_compress.c:1040-1042 | each closing 4-, 2- or 1-byte compare keeps the agreed run and halves the span still in doubt |
| ZstdMatch.Characterised | c-blosc/internal-complibs/zstd-0.7.4/compress/zstd_compress.c:1029-1044 | agreement for r bytes followed by a difference or the limit means r is the common prefix |
| ZstdMatch.Joined | c-blosc/internal-complibs/zstd-0.7.4/compress/zstd_compress.c:1046-1049 | the match side as `ZSTD_count_2segments` reads it has the requested length |
| ZstdMatch.Count2Segments | c-blosc/internal-complibs/zstd-0.7.4/compress/zstd_compress.c:1050-1057 | the count is the common prefix of the input with the match side read up to mEnd and continued from iStart |
| ZstdMatch.JoinedFirst | c-blosc/internal-complibs/zstd-0.7.4/compress/zstd_compress.c:1052-1054 | a first count that stops before mEnd is already the whole count |
| ZstdMatch.JoinedSecond | c-blosc/internal-complibs/zstd-0.7.4/compress/zstd_compress.c:1053-1055 | a first count that reaches mEnd, plus the count from iStart, is the whole count |
| ZstdMatch.CommonPrefixOfExtensions | c-blosc/internal-complibs/zstd-0.7.4/compress/zstd_compress.c:1052-1054 | extending two sequences leaves their common prefix unchanged when it stopped on a difference |
| ZstdMatch.JoinedSplits | c-blosc/internal-complibs/zstd-0.7.4/compress/zstd_compress.c:1046-1049 | the joined match side is the bytes up to mEnd followed by the bytes from iStart |
| ZstdMatch.Resolve | c-blosc/internal-complibs/zstd-0.7.4/compress/zstd_compress.c:1256-1258 | an index below dictLimit lives at dictBase+index, any other at base+index |
| ZstdMatch.ExtDictJoinedIsWindow | c-blosc/internal-complibs/zstd-0.7.4/compress/zstd_compress.c:1264-1265 | with mEnd the dictionary end and iStart the prefix start, the joined match side is the window's bytes at the consecutive logical indices from the match index |
| ZstdMatch.RepIndexUsableMeans | c-blosc/internal-complibs/zstd-0.7.4/compress/zstd_compress.c:1262 | the guard with its deliberate U32 wrap-around accepts exactly the indices above lowestIndex whose four bytes do not straddle dictLimit |
| ZstdMatch.RepIndexUsable | c-blosc/internal-complibs/zstd-0.7.4/compress/zstd_compress.c:1262 | the repeat-index guard with its U32 wrap-around; `RepIndexUsableMeans` proves it accepts exactly the indices above lowestIndex whose four bytes do not straddle dictLimit, and `RepReadInOneSegment` that a guarded read stays in one segment |
| ZstdMatch.RepReadInOneSegment | c-blosc/internal-complibs/zstd-0.7.4/compress/zstd_compress.c:1257-1263 | so the four bytes read at a repeat index that passes the guard all resolve into the same segment |
| ZstdWindow.InitialOrdered | c-blosc/internal-complibs/zstd-0.7.4/compress/zstd_compress.c:312-318 | the window right after a reset is ordered and empty |
| ZstdWindow.NewSegment | c-blosc/internal-complibs/zstd-0.7.4/compress/zstd_compress.c:2510-2520 | a contiguous input changes nothing; otherwise dictLimit becomes the old end index, the new input starts the prefix, the old prefix becomes the dictionary and nextToUpdate moves to dictLimit |
| ZstdWindow.NewSegmentDictionary | c-blosc/internal-complibs/zstd-0.7.4/compress/zstd_compress.c:2513-2519 | lowLimit becomes the old dictLimit, unless the new dictionary is under 8 bytes, in which case it is dropped |
| ZstdWindow.Correction | c-blosc/internal-complibs/zstd-0.7.4/compress/zstd_compress.c:2522-2527 | the correction is 0 while lowLimit is at most 2^30; otherwise it is a multiple of 2^(chainLog-btplus), at most lowLimit, that leaves lowLimit below 2^(chainLog-btplus) |
| ZstdWindow.RebaseKeepsAddresses | c-blosc/internal-complibs/zstd-0.7.4/compress/zstd_compress.c:2522-2535 | after rebasing, index i-c resolves to the same arena address as index i did and keeps its chain slot; the window stays ordered, and dictLimit and lowLimit drop by c |
| ZstdWindow.Rebase | c-blosc/internal-complibs/zstd-0.7.4/compress/zstd_compress.c:2522-2535 | the preemptive overflow correction of the window above 2^30; `RebaseKeepsAddresses` proves every rebased index resolves to the same arena address and chain slot and the window stays ordered |
| ZstdWindow.ReduceOverlap | c-blosc/internal-complibs/zstd-0.7.4/compress/zstd_compress.c:2537-2541 | only lowLimit can change |
| ZstdWindow.ReduceOverlapSeparates | c-blosc/internal-complibs/zstd-0.7.4/compress/zstd_compress.c:2537-2541 | afterwards the live dictionary and the input are disjoint, and the dictionary only shrank |
| ZstdWindow.ContinueKeepsOrder | c-blosc/internal-complibs/zstd-0.7.4/compress/zstd_compress.c:2510-2543 | while the end index fits 32 bits, the window stays ordered, ends at the new input's end, and a new segment starts exactly at the input |
| ZstdWindow.ContinueWindow | c-blosc/internal-complibs/zstd-0.7.4/compress/zstd_compress.c:2510-2543 | the window updates of a continue call in source order (new segment, overflow correction, overlap cut, new end); `ContinueKeepsOrder` proves the result ordered and ending at the new input, and `ContinueWindowStart` that the input lies above the base and loadedDictEnd is kept |
| ZstdWindow.LoadContentPlacesDictionary | c-blosc/internal-complibs/zstd-0.7.4/compress/zstd_compress.c:2575-2611 | dictionary content occupies the indices from the old end up to loadedDictEnd, right after what came before; nextToUpdate ends at dictLimit for 8 bytes or less and at loadedDictEnd otherwise |
| ZstdWindow.LoadContentWindow | c-blosc/internal-complibs/zstd-0.7.4/compress/zstd_compress.c:2575-2611 | the window after dictionary content is loaded; `LoadContentPlacesDictionary` proves the content occupies the indices from the old end index (the new dictLimit) up to loadedDictEnd at its own addresses, the window stays ordered and nextToUpdate follows the 8-byte rule |
| ZstdWindow.EnforceMaxDist | c-blosc/internal-complibs/zstd-0.7.4/compress/zstd_compress.c:2419-2424 | the rule of one block end changes only lowLimit and dictLimit |
| ZstdWindow.EnforceMaxDistBounds | c-blosc/internal-complibs/zstd-0.7.4/compress/zstd_compress.c:2419-2424 | when the block ends more than maxDist past loadedDictEnd, lowLimit rises so that the window reaches back at most maxDist from the block end; the cut points only rise and stay in order |
| ZstdFormat.BlockHeader | c-blosc/internal-complibs/zstd-0.7.4/compress/zstd_compress.c:563-567 | a block header is three bytes |
| ZstdFormat.ParseBlockHeader | c-blosc/internal-complibs/zstd-0.7.4/compress/zstd_compress.c:432-434 | a reader's split of three bytes gives a 2-bit type and a 22-bit size |
| ZstdFormat.BlockHeaderRoundTrip | c-blosc/internal-complibs/zstd-0.7.4/compress/zstd_compress.c:563-567 | a header whose size is below 2^22 is read back as its type and size, whatever follows it |
| ZstdFormat.BlockHeaderOnto | c-blosc/internal-complibs/zstd-0.7.4/compress/zstd_compress.c:432-434 | every three bytes are the header the writer produces for the fields they parse as |
| ZstdFormat.NoCompressBlock | c-blosc/internal-complibs/zstd-0.7.4/compress/zstd_compress.c:556-570 | dstSize_tooSmall exactly when srcSize+3 exceeds the capacity, with dst untouched; otherwise a bt_raw header then the source bytes, returning srcSize+3 |
| ZstdFormat.EpilogueChecksum | c-blosc/internal-complibs/zstd-0.7.4/compress/zstd_compress.c:2756-2758 | the checksum field is below 2^22, and 0 when the checksum flag is off |
| ZstdFormat.Epilogue | c-blosc/internal-complibs/zstd-0.7.4/compress/zstd_compress.c:2756-2762 | the epilogue is a 3-byte block header that reads back as type bt_end with the checksum field as size |
| ZstdFormat.RawLiteralsHeaderSize | c-blosc/internal-complibs/zstd-0.7.4/compress/zstd_compress.c:576 | 1 byte exactly up to 31, 3 bytes exactly above 4095, 2 otherwise |
| ZstdFormat.RawLiteralsHeader | c-blosc/internal-complibs/zstd-0.7.4/compress/zstd_compress.c:580-595 | the header has the announced size |
| ZstdFormat.HuffmanLiteralsHeaderSize | c-blosc/internal-complibs/zstd-0.7.4/compress/zstd_compress.c:637 | 3 bytes exactly below 1 KB, 5 bytes exactly from 16 KB, 4 otherwise |
| ZstdFormat.HuffmanLiteralsHeader | c-blosc/internal-complibs/zstd-0.7.4/compress/zstd_compress.c:666-687 | the header has the announced size |
| ZstdFormat.ParseLiteralsHeader | c-blosc/internal-complibs/zstd-0.7.4/compress/zstd_compress.c:477-514 | a reader's decoding of a literals header never claims more bytes than it was given, and at most 5 |
| ZstdFormat.RawLiteralsHeaderRoundTrip | c-blosc/internal-complibs/zstd-0.7.4/compress/zstd_compress.c:580-595 | a raw or RLE header for a size below 2^20 reads back as its type, its length and the size |
| ZstdFormat.RawLiteralsHeader1 | c-blosc/internal-complibs/zstd-0.7.4/compress/zstd_compress.c:582-584 | the 1-byte layout (2-1-5) reads back |
| ZstdFormat.RawLiteralsHeader2 | c-blosc/internal-complibs/zstd-0.7.4/compress/zstd_compress.c:585-588 | the 2-byte layout (2-2-12) reads back |
| ZstdFormat.RawLiteralsHeader3 | c-blosc/internal-complibs/zstd-0.7.4/compress/zstd_compress.c:589-594 | the 3-byte layout (2-2-20) reads back |
| ZstdFormat.HuffmanLiteralsHeaderRoundTrip | c-blosc/internal-complibs/zstd-0.7.4/compress/zstd_compress.c:666-687 | a Huffman header reads back as its type, stream count, both sizes and its length |
| ZstdFormat.HuffmanLiteralsHeader3 | c-blosc/internal-complibs/zstd-0.7.4/compress/zstd_compress.c:668-672 | the 2-2-10-10 layout reads back |
| ZstdFormat.HuffmanLiteralsHeader4 | c-blosc/internal-complibs/zstd-0.7.4/compress/zstd_compress.c:673-678 | the 2-2-14-14 layout reads back |
| ZstdFormat.HuffmanLiteralsHeader5 | c-blosc/internal-complibs/zstd-0.7.4/compress/zstd_compress.c:679-686 | the 2-2-18-18 layout reads back |
| ZstdFormat.RawLiterals | c-blosc/internal-complibs/zstd-0.7.4/compress/zstd_compress.c:597 | a raw literals block is its header followed by the literals themselves |
| ZstdFormat.RleLiterals | c-blosc/internal-complibs/zstd-0.7.4/compress/zstd_compress.c:625 | an RLE literals block is its header followed by the first literal |
| ZstdFormat.NoCompressLiterals | c-blosc/internal-complibs/zstd-0.7.4/compress/zstd_compress.c:573-598 | dstSize_tooSmall exactly when the literals and header do not fit, with dst untouched; otherwise dst starts with the raw literals block and the rest is unchanged |
| ZstdFormat.CompressRleLiteralsBlock | c-blosc/internal-complibs/zstd-0.7.4/compress/zstd_compress.c:601-627 | dst starts with the RLE block (header and the one byte), whose length is returned; the rest is unchanged |
| ZstdFormat.MinGain | c-blosc/internal-complibs/zstd-0.7.4/compress/zstd_compress.c:630 | the gain is `srcSize/64 + 2`, stated as the bounds 64(g-2) <= srcSize < 64(g-1) |
| ZstdFormat.HuffmanMode | c-blosc/internal-complibs/zstd-0.7.4/compress/zstd_compress.c:637-650 | lbt_repeat exactly with static tables and a 3-byte header, always as a single stream; lbt_huffman otherwise, as a single stream exactly below 256 bytes |
| ZstdFormat.CompressLiterals | c-blosc/internal-complibs/zstd-0.7.4/compress/zstd_compress.c:632-689 | the only error is dstSize_tooSmall, and what is written fits the capacity |
| ZstdFormat.CompressLiteralsDecodes | c-blosc/internal-complibs/zstd-0.7.4/compress/zstd_compress.c:632-689 | what is written decodes back: the header gives the literal count and the layout, raw content follows as is, and a Huffman stream saves at least `ZSTD_minGain` bytes |
| ZstdFormat.NbSeqHeader | c-blosc/internal-complibs/zstd-0.7.4/compress/zstd_compress.c:779-781 | the count takes 1 to 3 bytes |
| ZstdFormat.ParseNbSeq | c-blosc/internal-complibs/zstd-0.7.4/compress/zstd_compress.c:779-781 | a reader's decoding of the count claims 1 to |h| bytes |
| ZstdFormat.NbSeqRoundTrip | c-blosc/internal-complibs/zstd-0.7.4/compress/zstd_compress.c:779-781 | every count below LONGNBSEQ + 2^16 reads back with the length of its encoding |
| ZstdFormat.WriteNbSeq | c-blosc/internal-complibs/zstd-0.7.4/compress/zstd_compress.c:778-781 | dstSize_tooSmall exactly when fewer than 4 bytes remain; otherwise the encoding fits and reads back |
| ZstdFormat.DictIDSizeCode | c-blosc/internal-complibs/zstd-0.7.4/compress/zstd_compress.c:2457 | code 0 exactly for ID 0, code 1 only below 256, code 2 only below 65536 |
| ZstdFormat.FcsCode | c-blosc/internal-complibs/zstd-0.7.4/compress/zstd_compress.c:2462-2464 | code 0 only without the content size flag or for a size below 256, code 1 only for sizes 256..65791, code 2 only below 0xFFFFFFFF |
| ZstdFormat.DirectModeMeans | c-blosc/internal-complibs/zstd-0.7.4/compress/zstd_compress.c:2459-2460 | single-segment mode holds exactly when the content size flag is set and the pledged size is non-zero and at most the window size; a pledged 0 wraps around in `pledgedSrcSize-1` and never qualifies |
| ZstdFormat.FrameDescriptorFields | c-blosc/internal-complibs/zstd-0.7.4/compress/zstd_compress.c:2465 | each field of the descriptor byte reads back from its bits |
| ZstdFormat.WindowField | c-blosc/internal-complibs/zstd-0.7.4/compress/zstd_compress.c:2461-2472 | no window byte in single-segment mode, otherwise one byte that reads back as the window log |
| ZstdFormat.DictIDField | c-blosc/internal-complibs/zstd-0.7.4/compress/zstd_compress.c:2473-2480 | the field has the width its size code announces |
| ZstdFormat.DictIDFieldRoundTrip | c-blosc/internal-complibs/zstd-0.7.4/compress/zstd_compress.c:2473-2480 | a written dictionary ID reads back as the ID |
| ZstdFormat.ContentSizeField | c-blosc/internal-complibs/zstd-0.7.4/compress/zstd_compress.c:2481-2488 | the field has the width its size code announces |
| ZstdFormat.ContentSizeFieldRoundTrip | c-blosc/internal-complibs/zstd-0.7.4/compress/zstd_compress.c:2481-2488 | a written content size field reads back as the pledged size when the flag is set and the size is non-zero, and as absent otherwise |
| ZstdFormat.WideContentSizeRoundTrip | c-blosc/internal-complibs/zstd-0.7.4/compress/zstd_compress.c:2485-2487 | the 2-byte field (size minus 256) and the 4- and 8-byte fields read back as the pledged size |
| ZstdFormat.FrameHeader | c-blosc/internal-complibs/zstd-0.7.4/compress/zstd_compress.c:2454-2490 | a frame header takes 5 to 18 bytes |
| ZstdFormat.ParseFrameHeader | c-blosc/internal-complibs/zstd-0.7.4/compress/zstd_compress.c:442-466 | a reader's decoding of a frame header claims 5 to |h| bytes |
| ZstdFormat.FrameHeaderRoundTrip | c-blosc/internal-complibs/zstd-0.7.4/compress/zstd_compress.c:2454-2490 | a written frame header, followed by anything, reads back as the magic number, its flags, window log, dictionary ID and content size, with its length |
| ZstdFormat.WriteFrameHeader | c-blosc/internal-complibs/zstd-0.7.4/compress/zstd_compress.c:2454-2490 | dstSize_tooSmall exactly below 18 bytes of room, with dst untouched; otherwise dst starts with the frame header, whose length is returned, and the rest is unchanged |
| ZstdHash.TopBits | c-blosc/internal-complibs/zstd-0.7.4/compress/zstd_compress.c:1064-1085 | the shift by (width - h) leaves a value below 2^h |
| ZstdHash.Hash3 | c-blosc/internal-complibs/zstd-0.7.4/compress/zstd_compress.c:1064 | the 3-byte hash, on 32 bits, is below 2^h |
| ZstdHash.Hash4 | c-blosc/internal-complibs/zstd-0.7.4/compress/zstd_compress.c:1068 | the 4-byte hash, on 32 bits, is below 2^h |
| ZstdHash.Hash5 | c-blosc/internal-complibs/zstd-0.7.4/compress/zstd_compress.c:1072 | the 5-byte hash, on 64 bits, is below 2^h |
| ZstdHash.Hash6 | c-blosc/internal-complibs/zstd-0.7.4/compress/zstd_compress.c:1076 | the 6-byte hash, on 64 bits, is below 2^h |
| ZstdHash.Hash7 | c-blosc/internal-complibs/zstd-0.7.4/compress/zstd_compress.c:1080 | the 7-byte hash, on 64 bits, is below 2^h |
| ZstdHash.Hash8 | c-blosc/internal-complibs/zstd-0.7.4/compress/zstd_compress.c:1085 | the 8-byte hash, on 64 bits, is below 2^h |
| ZstdHash.HashPtr | c-blosc/internal-complibs/zstd-0.7.4/compress/zstd_compress.c:1088-1099 | the hash of a position is a valid index of a table of 2^hBits entries |
| ZstdHash.ShiftKeepsLowBytes | c-blosc/internal-complibs/zstd-0.7.4/compress/zstd_compress.c:1072-1080 | the left shift on 64 bits keeps exactly the low bytes of the word |
| ZstdHash.LowBytesOfWord | c-blosc/internal-complibs/zstd-0.7.4/compress/zstd_compress.c:1073-1081 | the low five, six and seven bytes of the word `MEM_readLE64` reads are the first bytes at the position |
| ZstdHash.LowBytesSame | c-blosc/internal-complibs/zstd-0.7.4/compress/zstd_compress.c:1073-1081 | the value of the first k bytes depends only on those bytes |
| ZstdHash.HashPtrDependsOnPrefix | c-blosc/internal-complibs/zstd-0.7.4/compress/zstd_compress.c:1088-1099 | two positions whose first mls bytes agree (4 for the 4-byte hash) land in the same table slot |
| ZstdHash.ShortWordHashSame | c-blosc/internal-complibs/zstd-0.7.4/compress/zstd_compress.c:1072-1081 | the same for the 5-, 6- and 7-byte hashes, whose shift drops the bytes beyond the first mls |
| ZstdContext.AcceptedUsable | c-blosc/internal-complibs/zstd-0.7.4/compress/zstd_compress.c:212-220 | parameters that pass `ZSTD_checkCParams_advanced` with a chain log of at least 2 are usable by a context |
| ZstdContext.HashLog3 | c-blosc/internal-complibs/zstd-0.7.4/compress/zstd_compress.c:285 | the 3-byte hash log is 0 for a search length above 3, and min(17, window log) otherwise |
| ZstdContext.BlockSizeFor | c-blosc/internal-complibs/zstd-0.7.4/compress/zstd_compress.c:279 | the block size is 128 KB or the window, whichever is smaller |
| ZstdContext.Reduced | c-blosc/internal-complibs/zstd-0.7.4/compress/zstd_compress.c:398-405 | a reduction keeps the table's length |
| ZstdContext.ReduceByZero | c-blosc/internal-complibs/zstd-0.7.4/compress/zstd_compress.c:398-405 | a reduction by 0 changes nothing |
| ZstdContext.ReducedEntryKeepsAddress | c-blosc/internal-complibs/zstd-0.7.4/compress/zstd_compress.c:2522-2535 | an entry at or above the correction, reduced, resolves after the rebase to the same arena address as before |
| ZstdContext.ReduceTable | c-blosc/internal-complibs/zstd-0.7.4/compress/zstd_compress.c:398-405 | each of the first `size` entries becomes old minus reducer, or 0 when below it; every other entry is unchanged |
| ZstdContext.ZeroTables | c-blosc/internal-complibs/zstd-0.7.4/compress/zstd_compress.c:301 | three fresh, distinct, zeroed tables of the given sizes |
| ZstdContext.CopyTable | c-blosc/internal-complibs/zstd-0.7.4/compress/zstd_compress.c:364-369 | the destination table becomes a copy of the source table |
| ZstdContext.AsWrittenRelabelsCorruption | c-blosc/internal-complibs/zstd-0.7.4/compress/zstd_compress.c:2686-2688 | adding 8 to ERROR(dictionary_corrupted) yields ERROR(stage_wrong); the corrected step keeps dictionary_corrupted |
| ZstdContext.EntropySizeAgrees | c-blosc/internal-complibs/zstd-0.7.4/compress/zstd_compress.c:2686-2688 | the corrected step equals the code as written on every successful load, and on a failed load reports that load's own error |
| ZstdContext.EntropySizeAsWritten | c-blosc/internal-complibs/zstd-0.7.4/compress/zstd_compress.c:2686-2688 | the size_t `loadDictEntropyStats(...) + 8` as written; `AsWrittenRelabelsCorruption` proves it turns ERROR(dictionary_corrupted) into ERROR(stage_wrong) |
| ZstdContext.EntropySize | c-blosc/internal-complibs/zstd-0.7.4/compress/zstd_compress.c:2686-2688 | the corrected step, the error tested before the 8 header bytes are added; `EntropySizeAgrees` proves it equals the code as written on every success and keeps the error otherwise |
| ZstdContext.DictReps | c-blosc/internal-complibs/zstd-0.7.4/compress/zstd_compress.c:2665-2667 | exactly three repeat offsets are read after the entropy tables |
| ZstdContext.FirstTooLarge | c-blosc/internal-complibs/zstd-0.7.4/compress/zstd_compress.c:2665-2667 | the offsets before the result are below the limit, and the offset at it, if any, is not |
| ZstdContext.CCtx.constructor | c-blosc/internal-complibs/zstd-0.7.4/compress/zstd_compress.c:153-168 | a zeroed context is in stage 0 |
| ZstdContext.CCtx.Reset | c-blosc/internal-complibs/zstd-0.7.4/compress/zstd_compress.c:275-349 | stage 1 with the parameters, the block size and 3-byte hash log they give, fresh tables of their sizes (zeroed when asked), the initial window, the starting repeat offsets, no dictionary ID and no static tables |
| ZstdContext.CCtx.AllocateTables | c-blosc/internal-complibs/zstd-0.7.4/compress/zstd_compress.c:284-305 | fresh, distinct, zeroed tables of the sizes the parameters give, and the 3-byte hash log |
| ZstdContext.CCtx.CopyFrom | c-blosc/internal-complibs/zstd-0.7.4/compress/zstd_compress.c:356-393 | stage_wrong with nothing changed unless the source is in stage 1; otherwise stage 1 with the source's parameters (content size flag cleared), its tables, window, dictionary ID and entropy flag, and the starting repeat offsets |
| ZstdContext.CCtx.CopyTables | c-blosc/internal-complibs/zstd-0.7.4/compress/zstd_compress.c:364-369 | the three tables become copies of the source's |
| ZstdContext.CCtx.ReduceIndex | c-blosc/internal-complibs/zstd-0.7.4/compress/zstd_compress.c:409-419 | the hash table and the chain table (empty for fast) are reduced throughout, and the 3-byte table too unless its log is 0 |
| ZstdContext.CCtx.WriteHeader | c-blosc/internal-complibs/zstd-0.7.4/compress/zstd_compress.c:2501-2507 | dstSize_tooSmall below 18 bytes with nothing changed; otherwise the context's frame header is written and the stage becomes 2 |
| ZstdContext.FrameHeaderOf | c-blosc/internal-complibs/zstd-0.7.4/compress/zstd_compress.c:2501-2507 | the frame header the context writes, from its parameters, content size and dictionary ID; `FrameHeader` bounds it to 5..18 bytes and `FrameHeaderRoundTrip` proves every field reads back |
| ZstdContext.CCtx.UpdateWindow | c-blosc/internal-complibs/zstd-0.7.4/compress/zstd_compress.c:2510-2543 | the window takes the input (new segment, correction, overlap cut, new end) and every table entry is reduced by the same correction |
| ZstdContext.CCtx.ContinueInternal | c-blosc/internal-complibs/zstd-0.7.4/compress/zstd_compress.c:2493-2550 | stage_wrong with nothing changed in stage 0; a header that does not fit changes nothing; otherwise the first block of a frame writes the header and moves to stage 2, the window takes the input, and in a frame the block loop runs over it (its window and result as `InputRun` gives), the header size being added to a successful result |
| ZstdContext.CCtx.TakeInput | c-blosc/internal-complibs/zstd-0.7.4/compress/zstd_compress.c:2510-2548 | the window takes the input; in a frame the block loop then raises the window's limits block by block and yields its result, with the header size added when it succeeds; outside one the block result is passed on; the context stays valid |
| ZstdContext.InputRun | c-blosc/internal-complibs/zstd-0.7.4/compress/zstd_compress.c:2510-2548 | the window update followed, in a frame, by the block loop; `FrameChunkReach` proves a completed frame chunk leaves the window ordered, ending at the input end and reaching back no further than the maximum distance |
| ZstdContext.CCtx.CompressGeneric | c-blosc/internal-complibs/zstd-0.7.4/compress/zstd_compress.c:2398-2447 | the context's window becomes the one the block loop reaches, with the maximum distance 2^windowLog, and the result is the loop's |
| ZstdContext.BlockLoop | c-blosc/internal-complibs/zstd-0.7.4/compress/zstd_compress.c:2398-2447 | the loop over blocks of at most blockSize bytes: dstSize_tooSmall below 6 bytes of room, a block compressor error passed on, a raw block that does not fit refused; otherwise the total of block sizes plus 3-byte headers; the maximum distance enforced at each block end reached |
| ZstdContext.MaxDist | c-blosc/internal-complibs/zstd-0.7.4/compress/zstd_compress.c:2407 | the maximum distance is 2^windowLog, at least the block size |
| ZstdContext.GenericStepsCompletes | c-blosc/internal-complibs/zstd-0.7.4/compress/zstd_compress.c:2413-2444 | a loop that succeeds has taken exactly as many blocks as the input splits into, and its total only grows |
| ZstdContext.GenericSteps | c-blosc/internal-complibs/zstd-0.7.4/compress/zstd_compress.c:2411-2443 | the block loop as a function: its contract bounds the count of blocks that applied the maximum-distance rule from below by the starting block; `GenericStepsCompletes` proves a successful loop took one step per block and `GenericStepsStored` gives the sizes counted |
| ZstdContext.GenericStep | c-blosc/internal-complibs/zstd-0.7.4/compress/zstd_compress.c:2413-2443 | one block of the loop: the room check, the block result, the raw fallback and the wrapping room; its contract says a step past the room check applies the rule at least once more |
| ZstdContext.GenericStepsStored | c-blosc/internal-complibs/zstd-0.7.4/compress/zstd_compress.c:2428-2444 | when every block is stored raw and the room suffices, the result is the input size plus 3 bytes per block |
| ZstdContext.MaxDistBlocksRaise | c-blosc/internal-complibs/zstd-0.7.4/compress/zstd_compress.c:2419-2424 | across the blocks only lowLimit and dictLimit change, both only rise, and an ordered window stays ordered |
| ZstdContext.MaxDistBlocks | c-blosc/internal-complibs/zstd-0.7.4/compress/zstd_compress.c:2419-2424 | the maximum-distance rule applied at the end of each block in turn; `MaxDistBlocksRaise` proves only lowLimit and dictLimit change and only rise, and `MaxDistBlocksReach` that the window then reaches back at most maxDist |
| ZstdContext.MaxDistStep | c-blosc/internal-complibs/zstd-0.7.4/compress/zstd_compress.c:2419-2424 | one block of `MaxDistBlocks`; `MaxDistBlocksNext` states it as the rule at the block end followed by the remaining blocks |
| ZstdContext.MaxDistBlocksReach | c-blosc/internal-complibs/zstd-0.7.4/compress/zstd_compress.c:2419-2424 | after the rule at every block end, an input ending more than maxDist past the loaded dictionary leaves the window reaching back at most maxDist from its end |
| ZstdContext.FrameChunkReach | c-blosc/internal-complibs/zstd-0.7.4/compress/zstd_compress.c:2510-2548 | a completed frame chunk leaves the window ordered and ending at the input's end; a non-empty one reaching more than maxDist past the loaded dictionary keeps at most maxDist of history |
| ZstdContext.CCtx.CompressEnd | c-blosc/internal-complibs/zstd-0.7.4/compress/zstd_compress.c:2738-2766 | stage_wrong in stage 0; in stage 1 the header without content size or dictionary ID first; then the 3-byte bt_end epilogue with the checksum field, returning its size plus the header's, and stage 0 |
| ZstdContext.CCtx.LoadDictionaryContent | c-blosc/internal-complibs/zstd-0.7.4/compress/zstd_compress.c:2570-2613 | the content becomes the window's prefix, as LoadContentWindow places it, and 0 is returned |
| ZstdContext.CCtx.LoadDictEntropyStats | c-blosc/internal-complibs/zstd-0.7.4/compress/zstd_compress.c:2628-2673 | success exactly when the tables parse, 12 bytes follow and every repeat offset is below the dictionary size; it then returns the bytes read, stores the offsets and sets static tables; otherwise dictionary_corrupted with the offsets read so far, up to the first one out of range, kept (`RejectedReps`) and static tables left as they were |
| ZstdContext.StatsAccepted | c-blosc/internal-complibs/zstd-0.7.4/compress/zstd_compress.c:2628-2673 | when the entropy part of a dictionary is accepted: the tables are read and leave 12 bytes, and each repeat offset lies below the stats size; `LoadDictEntropyStats` succeeds exactly then |
| ZstdContext.CCtx.InsertDictionary | c-blosc/internal-complibs/zstd-0.7.4/compress/zstd_compress.c:2677-2690 | no dictionary or 8 bytes or fewer: nothing happens; no magic number: all content; with it: the dictionary ID is recorded, the stats are loaded and the rest is content, or dictionary_corrupted (the corrected step; the source reports stage_wrong, see ## Findings) with the window and the static-tables flag untouched and the repeat offsets read before the rejection kept over the old ones (`RejectedReps`) |
| ZstdContext.CCtx.Begin | c-blosc/internal-complibs/zstd-0.7.4/compress/zstd_compress.c:2695-2703 | a reset with zeroed tables, then the dictionary: it succeeds exactly when the dictionary is accepted, returning 0, and leaves its ID, repeat offsets and window as the dictionary says (the content placed after the 8-byte header, the entropy tables and 12 bytes of offsets); a rejected dictionary is dictionary_corrupted (the corrected step; the source reports stage_wrong, see ## Findings) with the initial window, static tables off and the offsets read before the rejection kept over the start values (`RejectedReps`); the tables stay zeroed unless more than 8 bytes of content are loaded |

## Left out

- The entropy back-end is not modelled. This covers `HUF_compress*`, the FSE
  table builders and the bit stream of `ZSTD_compressSequences`
  (`zstd_compress.c:745-930`). The Huffman coder's outcome is a parameter of
  `CompressLiterals`. The dictionary's table readers (`HUF_readCTable`,
  `FSE_readNCount`) are abstracted as the `tablesSize` parameter of
  `LoadDictEntropyStats`.
- The XXH64 state is not modelled. The digest is the `digest` parameter of
  `CompressEnd`.
- The match finders are not modelled: `ZSTD_fillHashTable`,
  `ZSTD_insertAndFindFirstIndex`, `ZSTD_HcFindBestMatch_generic`, the fast,
  double-fast and lazy block loops, and the binary-tree and optimal parsers.
  Only their building blocks are covered: the hashes, the counters, the
  window resolver and the repeat-index guard. So the model does not prove
  that every stored sequence describes a genuine match.
- `zstd_opt.h` is not part of this model.
- ZstdContext.CCtx.ContinueInternal: the block loop of
  `ZSTD_compress_generic` is modelled for its control and its window (room
  checks, raw-block fallback, sizes, the maximum-distance rule), but the
  bytes of the blocks are not written into `dst`: the block compressor's
  result for the k-th block is the parameter `outs(k)`, outside a frame the
  single block's result is the parameter `block`, and block headers and
  compressed bytes stay abstract. The checksum update (`XXH64_update`) and
  the advance of `nextToUpdate` by the match finders are left out with
  them.
- Allocation and workspace layout are not modelled:
  - `ZSTD_createCCtx_advanced`, `ZSTD_freeCCtx` and `customMem`;
  - the pointer carving of `ZSTD_resetCCtx_advanced`, for which the three
    tables are separate arrays;
  - the `ZSTD_CDict` functions.
- `ZSTD_compressBegin_advanced` and `ZSTD_compressBegin_usingDict` are not
  modelled. `Begin` models the internal function they call. The validation
  step is modelled as written by `CheckCParamsAdvancedAsWritten`, related to
  the corrected `CheckCParamsAdvanced` by `AsWrittenAgreesInRange`, and
  `GetCParamsAccepted` proves that the default parameters pass the corrected
  check.
- The `MEM_32bits()` branches are left out; the model is of the 64-bit
  build.
- ZstdHash.HashPtr: the model is of a little-endian host. `ZSTD_hash4Ptr`
  reads its word with `MEM_read32`, in the host's byte order, so on a
  big-endian host it yields other slots; the 5- to 8-byte hashes read
  little-endian on every host, and `ZSTD_count` is the same on every host.
- `ZSTD_NbCommonBytes` is specified only by its meaning
  (`FirstDifference`), not by its bit tricks.
- `ZSTD_wildcopy` is modelled as an exact copy, without its over-copy past
  the literals.
- The debug statistics hooks (`ZSTD_stats*`, `ZSTD_LOG_BLOCK`) are left
  out.
- ZstdContext.Usable: a context is only modelled for parameters whose chain
  log exceeds the tree flag. The overflow correction's mask
  `(1 << (chainLog - btplus)) - 1` is undefined only when chainLog is below
  btplus; a chain log equal to it (a mask of 0) is excluded as well, for
  simplicity. Accepted parameters with a chain log of at least 2 qualify
  (`AcceptedUsable`).
- ZstdContext.CCtx.LoadDictionaryContent: the `ERROR(GENERIC)` branch for a
  strategy that does not exist is not modelled. It cannot be reached after
  a reset with validated parameters. The table fill it guards is left out
  with the match finders.
- ZstdParams.HighBit32: it requires a positive argument, because the
  compiler intrinsics are undefined for 0. `ZSTD_adjustCParams` can call it
  with 0 when rSize is 1; `HighBit32Portable` then gives 0, as the portable
  table does.
- ZstdSeqStore.SeqStore.StoreSeq: the number of stored sequences is
  required to fit 32 bits, because `longLengthPos` is a U32. The 16-bit truncation of both
  lengths is modelled.
- ZstdContext.CCtx.CopyFrom: the entropy tables themselves are not copied,
  since they belong to the back-end; only `flagStaticTables` is.

## Findings

| source | as written | input that shows it | evidently intended | confidence | as-written member | corrected member |
|---|---|---|---|---|---|---|
| c-blosc/internal-complibs/zstd-0.7.4/compress/zstd_compress.c:2686-2688 | `eSize = ZSTD_loadDictEntropyStats(...) + 8` is computed before `ZSTD_isError(eSize)` is tested, so an error code is shifted by 8 | a structured dictionary whose repeat offset is at least its size: ERROR(dictionary_corrupted) + 8 = ERROR(stage_wrong) is returned | test the error before adding the 8-byte header size, so dictionary_corrupted is reported | medium, not executed | ZstdContext.EntropySizeAsWritten (shown by ZstdContext.AsWrittenRelabelsCorruption) | ZstdContext.EntropySize (related by ZstdContext.EntropySizeAgrees, used by ZstdContext.CCtx.InsertDictionary) |
| c-blosc/internal-complibs/zstd-0.7.4/compress/zstd_compress.c:212-220 | for a source of at most 2^18 bytes, a window, chain or hash log whose power of two covers the source is replaced by its minimum, even when it is above its maximum | windowLog 40, chainLog 31, hashLog 31 (fast, searchLength 4, other fields minimal) with srcSize 0: accepted, while `ZSTD_checkCParams` refuses it | replace a log by its minimum only when it lies below that minimum, keeping every upper bound | medium, not executed | ZstdParams.CheckCParamsAdvancedAsWritten (shown by ZstdParams.AsWrittenAcceptsOversizedLogs) | ZstdParams.CheckCParamsAdvanced (related by ZstdParams.AsWrittenAgreesInRange) |
