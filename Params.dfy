/** Compression parameters: range validation, size-driven adjustment and the
    per-level default table (ZSTD_checkCParams, ZSTD_checkCParams_advanced,
    ZSTD_adjustCParams, ZSTD_getCParams). The 64-bit build is modelled. */
module ZstdParams {
  import opened ZstdTypes

  // ZSTD_strategy
  const Fast: U32 := 0
  const DFast: U32 := 1
  const Greedy: U32 := 2
  const Lazy: U32 := 3
  const Lazy2: U32 := 4
  const BtLazy2: U32 := 5
  const BtOpt: U32 := 6

  // Authorized ranges (64-bit build)
  const WindowLogMax: U32 := 27
  const WindowLogMin: U32 := 18
  const WindowLogAbsoluteMin: U32 := 12
  const ChainLogMax: U32 := 28
  const ChainLogMin: U32 := 4
  const HashLogMax: U32 := 27
  const HashLogMin: U32 := 12
  const HashLog3Max: U32 := 17
  const SearchLogMax: U32 := 26
  const SearchLogMin: U32 := 1
  const SearchLengthMax: U32 := 7
  const SearchLengthMin: U32 := 3
  const TargetLengthMin: U32 := 4
  const TargetLengthMax: U32 := 999

  const DefaultCLevel: int := 1
  const MaxCLevel: int := 22

  datatype CParams = CParams(
    windowLog: U32,
    chainLog: U32,
    hashLog: U32,
    searchLog: U32,
    searchLength: U32,
    targetLength: U32,
    strategy: U32)

  /** 1 for the binary-tree strategies, whose chain table holds two entries per position. */
  function BtPlus(strategy: U32): nat
  {
    if strategy == BtLazy2 || strategy == BtOpt then 1 else 0
  }

  /** Smallest minimum-match length a strategy accepts. */
  function SearchLengthLow(strategy: U32): U32
  {
    if strategy == Fast || strategy == Greedy then SearchLengthMin + 1 else SearchLengthMin
  }

  /** Largest minimum-match length a strategy accepts. */
  function SearchLengthHigh(strategy: U32): U32
  {
    if strategy == Fast then SearchLengthMax else SearchLengthMax - 1
  }

  /** Every field lies in its authorized range. */
  predicate Supported(cp: CParams)
  {
    && WindowLogMin <= cp.windowLog <= WindowLogMax
    && ChainLogMin <= cp.chainLog <= ChainLogMax
    && HashLogMin <= cp.hashLog <= HashLogMax
    && SearchLogMin <= cp.searchLog <= SearchLogMax
    && SearchLengthLow(cp.strategy) <= cp.searchLength <= SearchLengthHigh(cp.strategy)
    && TargetLengthMin <= cp.targetLength <= TargetLengthMax
    && cp.strategy <= BtOpt
  }

  /** ZSTD_checkCParams: 0 when every field is within range, otherwise
      compressionParameter_unsupported. */
  function CheckCParams(cp: CParams): (r: Result<nat>)
    ensures r.Ok? <==> Supported(cp)
    ensures r.Ok? ==> r.value == 0
    ensures r.Err? ==> r.error == CompressionParameterUnsupported
  {
    if cp.windowLog < WindowLogMin || cp.windowLog > WindowLogMax then Err(CompressionParameterUnsupported)
    else if cp.chainLog < ChainLogMin || cp.chainLog > ChainLogMax then Err(CompressionParameterUnsupported)
    else if cp.hashLog < HashLogMin || cp.hashLog > HashLogMax then Err(CompressionParameterUnsupported)
    else if cp.searchLog < SearchLogMin || cp.searchLog > SearchLogMax then Err(CompressionParameterUnsupported)
    else if cp.searchLength < SearchLengthLow(cp.strategy) || cp.searchLength > SearchLengthHigh(cp.strategy) then
      Err(CompressionParameterUnsupported)
    else if cp.targetLength < TargetLengthMin || cp.targetLength > TargetLengthMax then Err(CompressionParameterUnsupported)
    else if cp.strategy > BtOpt then Err(CompressionParameterUnsupported)
    else Ok(0)
  }

  /** The fields that ZSTD_checkCParams_advanced never relaxes. */
  predicate SearchFieldsSupported(cp: CParams)
  {
    && SearchLogMin <= cp.searchLog <= SearchLogMax
    && SearchLengthLow(cp.strategy) <= cp.searchLength <= SearchLengthHigh(cp.strategy)
    && TargetLengthMin <= cp.targetLength <= TargetLengthMax
    && cp.strategy <= BtOpt
  }

  /** ZSTD_checkCParams_advanced as written: for a source of at most 2^18
      bytes, a window, chain or hash log whose power of two reaches the source
      size is replaced by its minimum before the ordinary check, whether that
      log is below its minimum or above its maximum; the window log must still
      be at least the absolute minimum. */
  function CheckCParamsAdvancedAsWritten(cp: CParams, srcSize: U64): (r: Result<nat>)
    ensures srcSize > Pow2(WindowLogMin) ==> r == CheckCParams(cp)
    ensures srcSize <= Pow2(WindowLogMin) && cp.windowLog < WindowLogAbsoluteMin ==> r.Err?
    ensures r.Ok? ==> cp.windowLog >= WindowLogAbsoluteMin && SearchFieldsSupported(cp)
    ensures r.Ok? ==> r.value == 0
    ensures r.Err? ==> r.error == CompressionParameterUnsupported
  {
    if srcSize > Pow2(WindowLogMin) then CheckCParams(cp)
    else if cp.windowLog < WindowLogAbsoluteMin then Err(CompressionParameterUnsupported)
    else
      var w := if srcSize <= Pow2(cp.windowLog) then WindowLogMin else cp.windowLog;
      var c := if srcSize <= Pow2(cp.chainLog) then ChainLogMin else cp.chainLog;
      var h := if srcSize <= Pow2(cp.hashLog) && cp.strategy < BtLazy2 then HashLogMin else cp.hashLog;
      CheckCParams(cp.(windowLog := w, chainLog := c, hashLog := h))
  }

  /** With the source size unknown (0), the check as written accepts a window
      log of 40 and chain and hash logs of 31, all above their maxima, which
      the ordinary check refuses; the corrected check refuses them too. */
  lemma AsWrittenAcceptsOversizedLogs()
    ensures var cp := CParams(40, 31, 31, 1, 4, 4, Fast);
      && CheckCParamsAdvancedAsWritten(cp, 0).Ok?
      && CheckCParams(cp).Err?
      && CheckCParamsAdvanced(cp, 0).Err?
  {
  }

  /** What the work-around is for: for a small source, a window, chain or
      hash log may fall below its minimum as long as its power of two still
      covers the source (the hash log only for the non-tree strategies);
      every upper bound and every other field keeps its ordinary range. */
  predicate SupportedForSource(cp: CParams, srcSize: U64)
  {
    if srcSize > Pow2(WindowLogMin) then Supported(cp)
    else
      && WindowLogAbsoluteMin <= cp.windowLog <= WindowLogMax
      && (cp.windowLog >= WindowLogMin || srcSize <= Pow2(cp.windowLog))
      && cp.chainLog <= ChainLogMax
      && (cp.chainLog >= ChainLogMin || srcSize <= Pow2(cp.chainLog))
      && cp.hashLog <= HashLogMax
      && (cp.hashLog >= HashLogMin || (srcSize <= Pow2(cp.hashLog) && cp.strategy < BtLazy2))
      && SearchFieldsSupported(cp)
  }

  /** ZSTD_checkCParams_advanced, corrected: a log is replaced by its minimum
      only when it lies below that minimum and still covers the source. */
  function CheckCParamsAdvanced(cp: CParams, srcSize: U64): (r: Result<nat>)
    ensures r.Ok? <==> SupportedForSource(cp, srcSize)
    ensures r.Ok? ==> && WindowLogAbsoluteMin <= cp.windowLog <= WindowLogMax
                      && cp.chainLog <= ChainLogMax && cp.hashLog <= HashLogMax
                      && SearchFieldsSupported(cp)
    ensures r.Ok? ==> r.value == 0
    ensures r.Err? ==> r.error == CompressionParameterUnsupported
  {
    if srcSize > Pow2(WindowLogMin) then CheckCParams(cp)
    else if cp.windowLog < WindowLogAbsoluteMin then Err(CompressionParameterUnsupported)
    else
      var w := if cp.windowLog < WindowLogMin && srcSize <= Pow2(cp.windowLog) then WindowLogMin else cp.windowLog;
      var c := if cp.chainLog < ChainLogMin && srcSize <= Pow2(cp.chainLog) then ChainLogMin else cp.chainLog;
      var h := if cp.hashLog < HashLogMin && srcSize <= Pow2(cp.hashLog) && cp.strategy < BtLazy2
               then HashLogMin else cp.hashLog;
      CheckCParams(cp.(windowLog := w, chainLog := c, hashLog := h))
  }

  /** Within the upper bounds, the correction changes no verdict. */
  lemma AsWrittenAgreesInRange(cp: CParams, srcSize: U64)
    requires cp.windowLog <= WindowLogMax && cp.chainLog <= ChainLogMax && cp.hashLog <= HashLogMax
    ensures CheckCParamsAdvancedAsWritten(cp, srcSize) == CheckCParamsAdvanced(cp, srcSize)
  {
  }

  /** ZSTD_checkCParams_advanced only relaxes: what ZSTD_checkCParams accepts,
      it accepts for every source size. */
  lemma CheckAdvancedRelaxes(cp: CParams, srcSize: U64)
    requires CheckCParams(cp).Ok?
    ensures CheckCParamsAdvanced(cp, srcSize).Ok?
  {
  }

  /** ZSTD_highbit32: position of the highest set bit (floor of log2). */
  function HighBit32(v: U32): (r: nat)
    requires v > 0
    ensures Pow2(r) <= v < Pow2(r + 1)
    ensures r <= 31
    decreases v
  {
    if v == 1 then 0
    else
      var q := HighBit32(v / 2);
      assert q <= 30 by {
        if q > 30 {
          Pow2Monotone(31, q);
          Pow2Of31();
        }
      }
      1 + q
  }

  /** ZSTD_highbit32 as the portable (table-based) variant evaluates it: 0 for
      an argument of 0, where the compiler intrinsics are undefined. */
  function HighBit32Portable(v: U32): (r: nat)
    ensures r <= 31
    ensures v > 0 ==> Pow2(r) <= v < Pow2(r + 1)
  {
    if v == 0 then 0 else HighBit32(v)
  }

  /** Number of bits ZSTD_adjustCParams gives a window for `rSize` bytes:
      one more than the highest bit of rSize - 1, taken on 32 bits. */
  function SrcLog(rSize: U64): (r: nat)
    ensures 1 <= r <= 32
    ensures 1 <= rSize < TWO32 ==> rSize <= Pow2(r)
  {
    var hb := HighBit32Portable(ToU32(ToU32(rSize) - 1));
    assert 1 <= rSize < TWO32 ==> rSize <= Pow2(hb + 1) by {
      if 1 < rSize < TWO32 {
        assert ToU32(ToU32(rSize) - 1) == rSize - 1;
      } else if rSize == 1 {
        assert Pow2(1) == 2;
      }
    }
    hb + 1
  }

  /** First step of ZSTD_adjustCParams: the window log lowered to the bits
      needed for `rSize` bytes when that is below 2^27. */
  function ShrunkWindowLog(windowLog: U32, rSize: U64): (w: U32)
    ensures w <= windowLog
    ensures w < windowLog ==> 1 <= w <= 32 && (1 <= rSize ==> rSize <= Pow2(w))
  {
    if rSize < Pow2(WindowLogMax) && windowLog > SrcLog(rSize) then
      assert rSize < TWO32 by { Pow2Of27(); }
      SrcLog(rSize)
    else windowLog
  }

  /** Remaining steps of ZSTD_adjustCParams once the window log is `w1`: hash
      and chain logs bounded by it, then the minimum window and tree hash logs. */
  function BoundLogs(cPar: CParams, w1: U32): (r: CParams)
    ensures r.windowLog >= WindowLogAbsoluteMin && r.windowLog >= w1
    ensures r.windowLog == w1 || r.windowLog == WindowLogAbsoluteMin
    ensures r.chainLog <= cPar.chainLog
    ensures r.chainLog <= r.windowLog + BtPlus(r.strategy)
    ensures w1 < TWO32 - 1 ==> r.chainLog >= cPar.chainLog || r.chainLog >= w1
    ensures r.hashLog >= cPar.hashLog || r.hashLog >= w1
    ensures r.hashLog <= cPar.hashLog || r.hashLog == HashLogMin
    ensures r.strategy >= BtLazy2 ==> r.hashLog >= HashLogMin
    ensures r.strategy < BtLazy2 ==> r.hashLog <= w1
    ensures r.searchLog == cPar.searchLog && r.searchLength == cPar.searchLength
    ensures r.targetLength == cPar.targetLength && r.strategy == cPar.strategy
  {
    var h1 := if cPar.hashLog > w1 then w1 else cPar.hashLog;
    var maxChainLog := ToU32(w1 + BtPlus(cPar.strategy));
    var c1 := if cPar.chainLog > maxChainLog then maxChainLog else cPar.chainLog;
    var w2 := if w1 < WindowLogAbsoluteMin then WindowLogAbsoluteMin else w1;
    var h2 := if h1 < HashLogMin && cPar.strategy >= BtLazy2 then HashLogMin else h1;
    cPar.(windowLog := w2, chainLog := c1, hashLog := h2)
  }

  /** ZSTD_adjustCParams: shrink window, hash and chain logs to what the
      declared source and dictionary sizes need (0 meaning unknown); sizes add
      up on 64 bits. */
  function AdjustCParams(cPar: CParams, srcSize: U64, dictSize: U64): (r: CParams)
    ensures ToU64(srcSize + dictSize) == 0 ==> r == cPar
    ensures ToU64(srcSize + dictSize) != 0 ==>
      && r.windowLog >= WindowLogAbsoluteMin
      && (r.windowLog <= cPar.windowLog || r.windowLog == WindowLogAbsoluteMin)
      && r.chainLog <= cPar.chainLog
      && r.chainLog <= r.windowLog + BtPlus(r.strategy)
      && (r.strategy >= BtLazy2 ==> r.hashLog >= HashLogMin)
      && (r.hashLog <= cPar.hashLog || r.hashLog == HashLogMin)
    ensures r.searchLog == cPar.searchLog && r.searchLength == cPar.searchLength
    ensures r.targetLength == cPar.targetLength && r.strategy == cPar.strategy
  {
    if ToU64(srcSize + dictSize) == 0 then cPar
    else
      var minSrcSize := if srcSize == 0 then 500 else 0;
      var rSize := ToU64(srcSize + dictSize + minSrcSize);
      BoundLogs(cPar, ShrunkWindowLog(cPar.windowLog, rSize))
  }

  /** What ZSTD_adjustCParams cuts still covers the declared source and
      dictionary (with 500 bytes assumed for an unknown source size): a window,
      chain or hash log it lowers is either still as large as the original
      window log or spans the whole input; the hash log of the non-tree
      strategies never exceeds the window log. */
  lemma {:induction false} AdjustKeepsCoverage(cPar: CParams, srcSize: U64, dictSize: U64)
    requires cPar.windowLog <= WindowLogMax
    requires srcSize + dictSize + 500 < TWO64
    requires srcSize + dictSize != 0
    ensures var r := AdjustCParams(cPar, srcSize, dictSize);
            var rSize := srcSize + dictSize + (if srcSize == 0 then 500 else 0);
            && (r.windowLog >= cPar.windowLog || rSize <= Pow2(r.windowLog))
            && (r.chainLog >= cPar.chainLog || r.chainLog >= cPar.windowLog || rSize <= Pow2(r.chainLog))
            && (r.hashLog >= cPar.hashLog || r.hashLog >= cPar.windowLog || rSize <= Pow2(r.hashLog))
            && (cPar.strategy < BtLazy2 ==> r.hashLog <= r.windowLog)
  {
    var r := AdjustCParams(cPar, srcSize, dictSize);
    var rSize := srcSize + dictSize + (if srcSize == 0 then 500 else 0);
    assert ToU64(srcSize + dictSize) == srcSize + dictSize;
    assert ToU64(srcSize + dictSize + (if srcSize == 0 then 500 else 0)) == rSize;
    var w1 := ShrunkWindowLog(cPar.windowLog, rSize);
    assert r == BoundLogs(cPar, w1);
    if w1 < cPar.windowLog {
      Pow2Monotone(w1, r.windowLog);
      if r.chainLog < cPar.chainLog {
        Pow2Monotone(w1, r.chainLog);
      }
      if r.hashLog < cPar.hashLog {
        Pow2Monotone(w1, r.hashLog);
      }
    }
  }

  /** ZSTD_defaultCParameters: four tables of 23 levels, the first for large
      or unknown sources, then for sources of at most 256 KB, 128 KB and
      16 KB. Level 0 is never selected. */
  const DefaultCParameters: seq<seq<CParams>> :=
    [DefaultTable, DefaultTable256K, DefaultTable128K, DefaultTable16K]

  /** Levels 0 to 22 for large or unknown sources (windowLog, chainLog, hashLog, searchLog,
      searchLength, targetLength, strategy). */
  const DefaultTable: seq<CParams> := [
    CParams(18, 12, 12,  1,  7,  16, Fast),
    CParams(19, 13, 14,  1,  7,  16, Fast),
    CParams(19, 15, 16,  1,  6,  16, Fast),
    CParams(20, 16, 18,  1,  5,  16, DFast),
    CParams(20, 13, 17,  2,  5,  16, Greedy),
    CParams(20, 15, 18,  3,  5,  16, Greedy),
    CParams(21, 16, 19,  2,  5,  16, Lazy),
    CParams(21, 17, 20,  3,  5,  16, Lazy),
    CParams(21, 18, 20,  3,  5,  16, Lazy2),
    CParams(21, 20, 20,  3,  5,  16, Lazy2),
    CParams(21, 19, 21,  4,  5,  16, Lazy2),
    CParams(22, 20, 22,  4,  5,  16, Lazy2),
    CParams(22, 20, 22,  5,  5,  16, Lazy2),
    CParams(22, 21, 22,  5,  5,  16, Lazy2),
    CParams(22, 21, 22,  6,  5,  16, Lazy2),
    CParams(22, 21, 21,  5,  5,  16, BtLazy2),
    CParams(23, 22, 22,  5,  5,  16, BtLazy2),
    CParams(23, 23, 22,  5,  5,  16, BtLazy2),
    CParams(23, 23, 22,  6,  5,  24, BtOpt),
    CParams(23, 23, 22,  6,  3,  48, BtOpt),
    CParams(25, 26, 23,  7,  3,  64, BtOpt),
    CParams(26, 26, 23,  7,  3, 256, BtOpt),
    CParams(27, 27, 25,  9,  3, 512, BtOpt) ]

  /** Levels 0 to 22 for sources of at most 256 KB (windowLog, chainLog, hashLog, searchLog,
      searchLength, targetLength, strategy). */
  const DefaultTable256K: seq<CParams> := [
    CParams(18, 12, 12,  1,  7,   4, Fast),
    CParams(18, 13, 14,  1,  6,   4, Fast),
    CParams(18, 15, 17,  1,  5,   4, Fast),
    CParams(18, 13, 15,  1,  5,   4, Greedy),
    CParams(18, 15, 17,  1,  5,   4, Greedy),
    CParams(18, 16, 17,  4,  5,   4, Greedy),
    CParams(18, 17, 17,  5,  5,   4, Greedy),
    CParams(18, 17, 17,  4,  4,   4, Lazy),
    CParams(18, 17, 17,  4,  4,   4, Lazy2),
    CParams(18, 17, 17,  5,  4,   4, Lazy2),
    CParams(18, 17, 17,  6,  4,   4, Lazy2),
    CParams(18, 18, 17,  6,  4,   4, Lazy2),
    CParams(18, 18, 17,  7,  4,   4, Lazy2),
    CParams(18, 19, 17,  7,  4,   4, BtLazy2),
    CParams(18, 18, 18,  4,  4,  16, BtOpt),
    CParams(18, 18, 18,  8,  4,  24, BtOpt),
    CParams(18, 19, 18,  8,  3,  48, BtOpt),
    CParams(18, 19, 18,  8,  3,  96, BtOpt),
    CParams(18, 19, 18,  9,  3, 128, BtOpt),
    CParams(18, 19, 18, 10,  3, 256, BtOpt),
    CParams(18, 19, 18, 11,  3, 512, BtOpt),
    CParams(18, 19, 18, 12,  3, 512, BtOpt),
    CParams(18, 19, 18, 13,  3, 512, BtOpt) ]

  /** Levels 0 to 22 for sources of at most 128 KB (windowLog, chainLog, hashLog, searchLog,
      searchLength, targetLength, strategy). */
  const DefaultTable128K: seq<CParams> := [
    CParams(17, 12, 12,  1,  7,   4, Fast),
    CParams(17, 12, 13,  1,  6,   4, Fast),
    CParams(17, 13, 16,  1,  5,   4, Fast),
    CParams(17, 13, 14,  2,  5,   4, Greedy),
    CParams(17, 13, 15,  3,  4,   4, Greedy),
    CParams(17, 15, 17,  4,  4,   4, Greedy),
    CParams(17, 16, 17,  3,  4,   4, Lazy),
    CParams(17, 15, 17,  4,  4,   4, Lazy2),
    CParams(17, 17, 17,  4,  4,   4, Lazy2),
    CParams(17, 17, 17,  5,  4,   4, Lazy2),
    CParams(17, 17, 17,  6,  4,   4, Lazy2),
    CParams(17, 17, 17,  7,  4,   4, Lazy2),
    CParams(17, 17, 17,  8,  4,   4, Lazy2),
    CParams(17, 18, 17,  6,  4,   4, BtLazy2),
    CParams(17, 17, 17,  7,  3,   8, BtOpt),
    CParams(17, 17, 17,  7,  3,  16, BtOpt),
    CParams(17, 18, 17,  7,  3,  32, BtOpt),
    CParams(17, 18, 17,  7,  3,  64, BtOpt),
    CParams(17, 18, 17,  7,  3, 256, BtOpt),
    CParams(17, 18, 17,  8,  3, 256, BtOpt),
    CParams(17, 18, 17,  9,  3, 256, BtOpt),
    CParams(17, 18, 17, 10,  3, 256, BtOpt),
    CParams(17, 18, 17, 11,  3, 256, BtOpt) ]

  /** Levels 0 to 22 for sources of at most 16 KB (windowLog, chainLog, hashLog, searchLog,
      searchLength, targetLength, strategy). */
  const DefaultTable16K: seq<CParams> := [
    CParams(14, 12, 12,  1,  7,   6, Fast),
    CParams(14, 14, 14,  1,  7,   6, Fast),
    CParams(14, 14, 14,  1,  4,   6, Fast),
    CParams(14, 14, 14,  1,  4,   6, DFast),
    CParams(14, 14, 14,  4,  4,   6, Greedy),
    CParams(14, 14, 14,  3,  4,   6, Lazy),
    CParams(14, 14, 14,  4,  4,   6, Lazy2),
    CParams(14, 14, 14,  5,  4,   6, Lazy2),
    CParams(14, 14, 14,  6,  4,   6, Lazy2),
    CParams(14, 15, 14,  6,  4,   6, BtLazy2),
    CParams(14, 15, 14,  3,  3,   6, BtOpt),
    CParams(14, 15, 14,  6,  3,   8, BtOpt),
    CParams(14, 15, 14,  6,  3,  16, BtOpt),
    CParams(14, 15, 14,  6,  3,  24, BtOpt),
    CParams(14, 15, 15,  6,  3,  48, BtOpt),
    CParams(14, 15, 15,  6,  3,  64, BtOpt),
    CParams(14, 15, 15,  6,  3,  96, BtOpt),
    CParams(14, 15, 15,  6,  3, 128, BtOpt),
    CParams(14, 15, 15,  6,  3, 256, BtOpt),
    CParams(14, 15, 15,  7,  3, 256, BtOpt),
    CParams(14, 15, 15,  8,  3, 256, BtOpt),
    CParams(14, 15, 15,  9,  3, 256, BtOpt),
    CParams(14, 15, 15, 10,  3, 256, BtOpt) ]

  /** Entry `level` of table `tableID` of the default parameters. */
  function DefaultRow(tableID: nat, level: nat): (cp: CParams)
    requires tableID < 4 && level <= MaxCLevel
  {
    DefaultCParameters[tableID][level]
  }

  /** Properties every entry of the default table has: window logs 14 to 27
      shrinking with the size class, hash and chain logs large enough for the
      hash tables, and the search fields the range check accepts. */
  predicate WellFormedRow(tableID: nat, cp: CParams)
  {
    && SearchFieldsSupported(cp)
    && (tableID == 0 ==> WindowLogMin <= cp.windowLog <= WindowLogMax)
    && (tableID == 1 ==> cp.windowLog == 18)
    && (tableID == 2 ==> cp.windowLog == 17)
    && (tableID == 3 ==> cp.windowLog == 14)
    && HashLogMin <= cp.hashLog <= 25
    && 12 <= cp.chainLog <= cp.windowLog + BtPlus(cp.strategy)
    && cp.chainLog <= 27
  }

  /** Each row of the default table is well formed. */
  lemma {:induction false} DefaultRowsWellFormed(tableID: nat, level: nat)
    requires tableID < 4 && level <= MaxCLevel
    ensures WellFormedRow(tableID, DefaultRow(tableID, level))
  {
    if tableID == 0 {
      TableWellFormed0(level);
    } else if tableID == 1 {
      TableWellFormed1(level);
    } else if tableID == 2 {
      TableWellFormed2(level);
    } else {
      TableWellFormed3(level);
    }
  }

  lemma TableWellFormed0(level: nat)
    requires level <= MaxCLevel
    ensures WellFormedRow(0, DefaultTable[level])
  {
    if level < 6 {
      assert DefaultTable[level] in DefaultTable[..6];
    } else if level < 12 {
      assert DefaultTable[level] in DefaultTable[6..12];
    } else if level < 18 {
      assert DefaultTable[level] in DefaultTable[12..18];
    } else {
      assert DefaultTable[level] in DefaultTable[18..];
    }
  }

  lemma TableWellFormed1(level: nat)
    requires level <= MaxCLevel
    ensures WellFormedRow(1, DefaultTable256K[level])
  {
    if level < 6 {
      assert DefaultTable256K[level] in DefaultTable256K[..6];
    } else if level < 12 {
      assert DefaultTable256K[level] in DefaultTable256K[6..12];
    } else if level < 18 {
      assert DefaultTable256K[level] in DefaultTable256K[12..18];
    } else {
      assert DefaultTable256K[level] in DefaultTable256K[18..];
    }
  }

  lemma TableWellFormed2(level: nat)
    requires level <= MaxCLevel
    ensures WellFormedRow(2, DefaultTable128K[level])
  {
    if level < 6 {
      assert DefaultTable128K[level] in DefaultTable128K[..6];
    } else if level < 12 {
      assert DefaultTable128K[level] in DefaultTable128K[6..12];
    } else if level < 18 {
      assert DefaultTable128K[level] in DefaultTable128K[12..18];
    } else {
      assert DefaultTable128K[level] in DefaultTable128K[18..];
    }
  }

  lemma TableWellFormed3(level: nat)
    requires level <= MaxCLevel
    ensures WellFormedRow(3, DefaultTable16K[level])
  {
    if level < 6 {
      assert DefaultTable16K[level] in DefaultTable16K[..6];
    } else if level < 12 {
      assert DefaultTable16K[level] in DefaultTable16K[6..12];
    } else if level < 18 {
      assert DefaultTable16K[level] in DefaultTable16K[12..18];
    } else {
      assert DefaultTable16K[level] in DefaultTable16K[18..];
    }
  }

  /** Table index chosen from the expected input size: 0 for unknown or large
      inputs, then 1, 2, 3 for at most 256 KB, 128 KB and 16 KB. */
  function TableID(rSize: U64): (t: nat)
    ensures t < 4
    ensures t == 0 <==> rSize > 256 * 1024
    ensures t == 3 <==> rSize <= 16 * 1024
  {
    (if rSize <= 256 * 1024 then 1 else 0) + (if rSize <= 128 * 1024 then 1 else 0) + (if rSize <= 16 * 1024 then 1 else 0)
  }

  /** The level ZSTD_getCParams looks up: 0 or less means the default
      level, above 22 means 22. */
  function ClampLevel(compressionLevel: int): (lvl: nat)
    ensures 1 <= lvl <= MaxCLevel
    ensures 1 <= compressionLevel <= MaxCLevel ==> lvl == compressionLevel
  {
    if compressionLevel <= 0 then DefaultCLevel
    else if compressionLevel > MaxCLevel then MaxCLevel
    else compressionLevel
  }

  /** The size ZSTD_getCParams picks the table with: source and dictionary
      sizes added on 64 bits, plus 500 when the source size is unknown, and
      the largest value when both are 0. */
  function RequestedSize(srcSize: U64, dictSize: U64): (rSize: U64)
    ensures srcSize + dictSize + 500 < TWO64 ==>
      rSize == if srcSize + dictSize == 0 then TWO64 - 1
               else srcSize + dictSize + (if srcSize == 0 then 500 else 0)
  {
    var addedSize := if srcSize == 0 then 500 else 0;
    var sum := ToU64(srcSize + dictSize);
    if sum != 0 then ToU64(sum + addedSize) else TWO64 - 1
  }

  /** ZSTD_getCParams: the default parameters of the clamped level for the
      expected size class, then adjusted to the declared sizes. The search
      fields and the strategy are the table's; the window and chain logs
      only shrink, never below the absolute minimum; with both sizes unknown
      the row for the largest inputs is taken as it is. */
  function GetCParams(compressionLevel: int, srcSize: U64, dictSize: U64): (r: CParams)
    ensures var row := DefaultRow(TableID(RequestedSize(srcSize, dictSize)), ClampLevel(compressionLevel));
      && r.strategy == row.strategy && r.searchLog == row.searchLog
      && r.searchLength == row.searchLength && r.targetLength == row.targetLength
      && SearchFieldsSupported(r)
      && WindowLogAbsoluteMin <= r.windowLog <= row.windowLog <= WindowLogMax
      && r.chainLog <= row.chainLog
    ensures srcSize == 0 && dictSize == 0 ==> r == DefaultRow(0, ClampLevel(compressionLevel))
  {
    var t := TableID(RequestedSize(srcSize, dictSize));
    var level := ClampLevel(compressionLevel);
    DefaultRowsWellFormed(t, level);
    AdjustCParams(DefaultRow(t, level), srcSize, dictSize)
  }

  /** The conditions on a default-table entry under which its adjustment is
      accepted by ZSTD_checkCParams_advanced. */
  predicate AdjustableRow(row: CParams, rSize: int)
  {
    && SearchFieldsSupported(row)
    && HashLogMin <= row.hashLog <= 25
    && 12 <= row.chainLog <= 27
    && 12 <= row.windowLog <= WindowLogMax
    && (rSize <= Pow2(WindowLogMin) ==> rSize <= Pow2(row.windowLog))
    && (rSize > Pow2(WindowLogMin) ==> row.windowLog >= WindowLogMin)
  }

  /** The table chosen for a size has a window covering that size whenever
      the size is below the minimum window. */
  lemma TableRowAdjustable(t: nat, row: CParams, rSize: U64)
    requires t == TableID(rSize) && WellFormedRow(t, row)
    ensures AdjustableRow(row, rSize)
  {
    Pow2Of18();
    if t == 0 {
      Pow2Monotone(WindowLogMin, row.windowLog);
    } else if t == 2 {
      Pow2Of17();
    } else if t == 3 {
      Pow2Of14();
    }
  }

  /** No size information: the entry is used as is and, the source size
      being 0, every log covers it. */
  lemma {:induction false} UnknownSizeAccepted(row: CParams)
    requires AdjustableRow(row, TWO64 - 1)
    ensures CheckCParamsAdvanced(row, 0).Ok?
  {
  }

  /** A large source: the adjusted parameters pass the ordinary range check. */
  lemma {:induction false} AdjustedAcceptedLarge(row: CParams, srcSize: U64, dictSize: U64)
    requires srcSize + dictSize + 500 < TWO64 && srcSize > Pow2(WindowLogMin)
    requires AdjustableRow(row, srcSize + dictSize)
    ensures Supported(AdjustCParams(row, srcSize, dictSize))
  {
    var r := AdjustCParams(row, srcSize, dictSize);
    var rSize := srcSize + dictSize;
    AdjustKeepsCoverage(row, srcSize, dictSize);
    assert ToU64(srcSize + dictSize) == rSize;
    if r.windowLog < WindowLogMin {
      Pow2Monotone(r.windowLog, WindowLogMin);
    }
    if r.chainLog < WindowLogMin {
      Pow2Monotone(r.chainLog, WindowLogMin);
    }
    if r.hashLog < WindowLogMin {
      Pow2Monotone(r.hashLog, WindowLogMin);
    }
  }

  /** A source of at most 2^18 bytes: every log the range check would refuse
      is one that ZSTD_checkCParams_advanced replaces. */
  lemma {:induction false} AdjustedAcceptedSmall(row: CParams, srcSize: U64, dictSize: U64)
    requires srcSize + dictSize + 500 < TWO64 && srcSize + dictSize != 0 && srcSize <= Pow2(WindowLogMin)
    requires AdjustableRow(row, srcSize + dictSize + (if srcSize == 0 then 500 else 0))
    ensures CheckCParamsAdvanced(AdjustCParams(row, srcSize, dictSize), srcSize).Ok?
  {
    var r := AdjustCParams(row, srcSize, dictSize);
    var rSize := srcSize + dictSize + (if srcSize == 0 then 500 else 0);
    assert ToU64(srcSize + dictSize) != 0;
    AdjustKeepsCoverage(row, srcSize, dictSize);
    AdjustedSupported(row, r, srcSize, rSize);
  }

  /** The facts about an adjusted row that make it supported for a source of
      at most 2^18 bytes, on the parameters alone. */
  lemma AdjustedSupported(row: CParams, r: CParams, srcSize: U64, rSize: nat)
    requires srcSize <= Pow2(WindowLogMin) && srcSize <= rSize && AdjustableRow(row, rSize)
    requires WindowLogAbsoluteMin <= r.windowLog
    requires r.windowLog <= row.windowLog || r.windowLog == WindowLogAbsoluteMin
    requires r.chainLog <= row.chainLog
    requires r.hashLog <= row.hashLog || r.hashLog == HashLogMin
    requires r.strategy >= BtLazy2 ==> r.hashLog >= HashLogMin
    requires r.searchLog == row.searchLog && r.searchLength == row.searchLength
    requires r.targetLength == row.targetLength && r.strategy == row.strategy
    requires r.windowLog >= row.windowLog || rSize <= Pow2(r.windowLog)
    requires r.chainLog >= row.chainLog || r.chainLog >= row.windowLog || rSize <= Pow2(r.chainLog)
    requires r.hashLog >= row.hashLog || r.hashLog >= row.windowLog || rSize <= Pow2(r.hashLog)
    requires row.strategy < BtLazy2 ==> r.hashLog <= r.windowLog
    ensures SupportedForSource(r, srcSize)
  {
    Pow2Of18();
    assert srcSize <= Pow2(row.windowLog) by {
      if rSize > Pow2(WindowLogMin) {
        Pow2Monotone(WindowLogMin, row.windowLog);
      }
    }
    LogCovers(srcSize, rSize, row.windowLog, r.windowLog);
    if r.chainLog < ChainLogMin {
      LogCovers(srcSize, rSize, row.windowLog, r.chainLog);
    }
    if r.hashLog < HashLogMin {
      LogCovers(srcSize, rSize, row.windowLog, r.hashLog);
    }
  }

  /** A log that reaches the window log of the row, or covers the whole
      input, covers the source. */
  lemma LogCovers(srcSize: nat, rSize: nat, rowWindowLog: nat, log: nat)
    requires srcSize <= rSize && srcSize <= Pow2(rowWindowLog)
    requires log >= rowWindowLog || rSize <= Pow2(log)
    ensures srcSize <= Pow2(log)
  {
    if log >= rowWindowLog {
      Pow2Monotone(rowWindowLog, log);
    }
  }

  /** The parameters ZSTD_getCParams selects are accepted by
      ZSTD_checkCParams_advanced for the source size they were chosen for,
      whatever the level, provided the declared sizes do not overflow 64 bits. */
  lemma {:induction false} GetCParamsAccepted(compressionLevel: int, srcSize: U64, dictSize: U64)
    requires srcSize + dictSize + 500 < TWO64
    ensures CheckCParamsAdvanced(GetCParams(compressionLevel, srcSize, dictSize), srcSize).Ok?
  {
    Pow2Of18();
    var rSize := RequestedSize(srcSize, dictSize);
    var t := TableID(rSize);
    var row := DefaultRow(t, ClampLevel(compressionLevel));
    DefaultRowsWellFormed(t, ClampLevel(compressionLevel));
    var r := GetCParams(compressionLevel, srcSize, dictSize);
    assert r == AdjustCParams(row, srcSize, dictSize);
    TableRowAdjustable(t, row, rSize);
    if srcSize + dictSize == 0 {
      assert r == row;
      UnknownSizeAccepted(row);
    } else {
      if srcSize > Pow2(WindowLogMin) {
        AdjustedAcceptedLarge(row, srcSize, dictSize);
      } else {
        AdjustedAcceptedSmall(row, srcSize, dictSize);
      }
    }
  }
}
