/** The compression context ZSTD_CCtx: its stage machine (0 created, 1 ready
    for a frame, 2 inside a frame), its match-finder tables, the window cut
    points, the repeat offsets and the dictionary it was started with. */
module ZstdContext {
  import opened ZstdTypes
  import ZstdParams
  import ZstdFormat
  import ZstdMatch
  import ZstdWindow
  import ZstdSeqStore

  datatype FParams = FParams(contentSizeFlag: bool, checksumFlag: bool, noDictIDFlag: bool)

  datatype Params = Params(cParams: ZstdParams.CParams, fParams: FParams)

  /** repStartValue: the repeat offsets every frame starts from. */
  const RepStartValue: seq<U32> := [1, 4, 8]

  const BlockSizeMax: nat := 0x2_0000

  /** ZSTD_DICT_MAGIC: the first four bytes of a structured dictionary. */
  const DictMagic: U32 := 0xEC30A437

  // ---------------------------------------------------------------------
  // Table sizes
  // ---------------------------------------------------------------------

  /** Parameters under which the context's table sizes and shifts are
      defined: what ZSTD_checkCParams_advanced accepts, with a chain log
      large enough for the mask of the overflow correction. */
  predicate Usable(cp: ZstdParams.CParams)
  {
    && ZstdParams.WindowLogAbsoluteMin <= cp.windowLog <= ZstdParams.WindowLogMax
    && ZstdParams.BtPlus(cp.strategy) < cp.chainLog <= ZstdParams.ChainLogMax
    && cp.hashLog <= ZstdParams.HashLogMax
    && ZstdParams.SearchFieldsSupported(cp)
  }

  /** Accepted parameters are usable once the chain log is at least 2. */
  lemma AcceptedUsable(cp: ZstdParams.CParams, srcSize: U64)
    requires ZstdParams.CheckCParamsAdvanced(cp, srcSize).Ok? && cp.chainLog >= 2
    ensures Usable(cp)
  {
  }

  function HashSize(cp: ZstdParams.CParams): nat
  {
    Pow2(cp.hashLog)
  }

  /** The fast strategy keeps no chain table. */
  function ChainSize(cp: ZstdParams.CParams): nat
  {
    if cp.strategy == ZstdParams.Fast then 0 else Pow2(cp.chainLog)
  }

  /** The number of entries of the 3-byte hash table ZSTD_resetCCtx_advanced
      lays out: one even when the table is not in use. */
  function Hash3Size(cp: ZstdParams.CParams): nat
  {
    Pow2(HashLog3(cp))
  }

  /** The hash log of the 3-byte hash table: only searches for 3-byte
      matches keep one, of at most 2^17 entries and no more than the window. */
  function HashLog3(cp: ZstdParams.CParams): (h: nat)
    ensures h <= ZstdParams.HashLog3Max && h <= cp.windowLog
    ensures cp.searchLength > 3 ==> h == 0
    ensures cp.searchLength <= 3 ==> h == cp.windowLog || h == ZstdParams.HashLog3Max
  {
    if cp.searchLength > 3 then 0
    else if cp.windowLog < ZstdParams.HashLog3Max then cp.windowLog
    else ZstdParams.HashLog3Max
  }

  /** The block size of a context: 128 KB, or the whole window when that is
      smaller. */
  function BlockSizeFor(cp: ZstdParams.CParams): (b: nat)
    requires Usable(cp)
    ensures b <= BlockSizeMax && b <= Pow2(cp.windowLog)
    ensures b == BlockSizeMax || b == Pow2(cp.windowLog)
    ensures cp.windowLog >= 17 ==> b == BlockSizeMax
  {
    Pow2Of17();
    assert cp.windowLog >= 17 ==> Pow2(cp.windowLog) >= BlockSizeMax by {
      if cp.windowLog >= 17 {
        Pow2Monotone(17, cp.windowLog);
      }
    }
    if Pow2(cp.windowLog) < BlockSizeMax then Pow2(cp.windowLog) else BlockSizeMax
  }

  // ---------------------------------------------------------------------
  // ZSTD_reduceTable
  // ---------------------------------------------------------------------

  /** One table entry after a reduction by `reducer`: indices below it are
      lost and become 0. */
  function ReduceEntry(v: U32, reducer: U32): U32
  {
    if v < reducer then 0 else v - reducer
  }

  /** A table whose first `n` entries are reduced. */
  ghost function Reduced(t: seq<U32>, n: nat, reducer: U32): (s: seq<U32>)
    ensures |s| == |t|
  {
    seq(|t|, i requires 0 <= i < |t| => if i < n then ReduceEntry(t[i], reducer) else t[i])
  }

  /** A reduction by 0 changes nothing. */
  lemma ReduceByZero(t: seq<U32>, n: nat)
    ensures Reduced(t, n, 0) == t
  {
  }

  /** The partner of the overflow correction: an entry inside the window
      (at or above lowLimit) is lowered by exactly the correction and, with
      the rebased window, still names the same byte of the arena and still
      lies in the window; an entry outside it stays outside or becomes 0. */
  lemma ReducedEntryKeepsAddress(w: ZstdWindow.Window, chainLog: nat, btPlus: nat, v: U32)
    requires btPlus < chainLog && ZstdWindow.Ordered(w)
    ensures var c := ZstdWindow.Correction(w, chainLog, btPlus); var r := ZstdWindow.Rebase(w, chainLog, btPlus);
      && (w.lowLimit <= v ==>
            && ReduceEntry(v, c) == v - c
            && r.lowLimit <= ReduceEntry(v, c)
            && ZstdMatch.Resolve(ReduceEntry(v, c), r.dictLimit, r.base, r.dictBase)
               == ZstdMatch.Resolve(v, w.dictLimit, w.base, w.dictBase))
      && (v < w.lowLimit ==> ReduceEntry(v, c) < r.lowLimit || ReduceEntry(v, c) == 0)
  {
    var c := ZstdWindow.Correction(w, chainLog, btPlus);
    if w.lowLimit <= v {
      ZstdWindow.RebaseKeepsAddresses(w, chainLog, btPlus, v);
    } else {
      ZstdWindow.RebaseKeepsAddresses(w, chainLog, btPlus, w.lowLimit);
    }
  }

  /** ZSTD_reduceTable: the first `size` entries of `table` are reduced in
      place; the others are left as they are. */
  method ReduceTable(table: array<U32>, size: nat, reducer: U32)
    requires size <= table.Length
    modifies table
    ensures table[..] == Reduced(old(table[..]), size, reducer)
  {
    ghost var before := table[..];
    for u := 0 to size
      invariant forall k :: 0 <= k < u ==> table[k] == ReduceEntry(before[k], reducer)
      invariant forall k :: u <= k < table.Length ==> table[k] == before[k]
    {
      if table[u] < reducer {
        table[u] := 0;
      } else {
        table[u] := table[u] - reducer;
      }
    }
    assert table[..] == Reduced(before, size, reducer);
  }

  /** Every entry of the table is 0. */
  ghost predicate AllZero(t: array<U32>)
    reads t
  {
    forall i :: 0 <= i < t.Length ==> t[i] == 0
  }

  /** The three zeroed tables of a reset, of the given sizes. */
  method ZeroTables(n1: nat, n2: nat, n3: nat) returns (t1: array<U32>, t2: array<U32>, t3: array<U32>)
    ensures fresh(t1) && fresh(t2) && fresh(t3) && t1 != t2 && t1 != t3 && t2 != t3
    ensures t1.Length == n1 && t2.Length == n2 && t3.Length == n3
    ensures AllZero(t1) && AllZero(t2) && AllZero(t3)
  {
    t1 := new U32[n1](_ => 0);
    t2 := new U32[n2](_ => 0);
    t3 := new U32[n3](_ => 0);
  }

  /** Copies the whole of `src` over `dst` (the memcpy of the tables). */
  method CopyTable(dst: array<U32>, src: array<U32>)
    requires dst.Length == src.Length && dst != src
    modifies dst
    ensures dst[..] == src[..]
  {
    forall i | 0 <= i < dst.Length {
      dst[i] := src[i];
    }
  }

  // ---------------------------------------------------------------------
  // ZSTD_compress_insertDictionary, as written
  // ---------------------------------------------------------------------

  /** The size_t ZSTD_compress_insertDictionary computes from the result of
      ZSTD_loadDictEntropyStats: it adds the 8 header bytes before testing
      for an error. */
  function EntropySizeAsWritten(loaded: Result<nat>): (eSize: U64)
    requires loaded.Ok? ==> loaded.value + 8 <= TWO64 - ErrorMaxCode
  {
    ToU64(ReturnCode(loaded) + 8)
  }

  /** The corrected step: an error passes through as it is, a size gains the
      8 header bytes. */
  function EntropySize(loaded: Result<nat>): (r: Result<nat>)
  {
    match loaded
    case Ok(n) => Ok(n + 8)
    case Err(e) => Err(e)
  }

  /** Adding 8 turns dictionary_corrupted (16) into stage_wrong (8): the
      caller still sees an error, but of the wrong kind. */
  lemma AsWrittenRelabelsCorruption()
    ensures IsErrorCode(EntropySizeAsWritten(Err(DictionaryCorrupted)))
    ensures ErrorOfCode(EntropySizeAsWritten(Err(DictionaryCorrupted))) == Some(StageWrong)
    ensures ErrorOfCode(ReturnCode(EntropySize(Err(DictionaryCorrupted)))) == Some(DictionaryCorrupted)
  {
  }

  /** The two agree on every successful load; on a failed load the
      corrected step reports the error it was given. */
  lemma EntropySizeAgrees(loaded: Result<nat>)
    requires loaded.Ok? ==> loaded.value + 8 <= TWO64 - ErrorMaxCode
    ensures loaded.Ok? ==> ReturnCode(EntropySize(loaded)) == EntropySizeAsWritten(loaded)
    ensures loaded.Err? ==> ErrorOfCode(ReturnCode(EntropySize(loaded))) == Some(loaded.error)
  {
  }

  // ---------------------------------------------------------------------
  // Structured dictionaries
  // ---------------------------------------------------------------------

  /** The three repeat offsets stored right after the entropy tables of a
      dictionary, at `pos` of the part after the 8-byte header. */
  function DictReps(stats: seq<Byte>, pos: nat): (reps: seq<U32>)
    requires pos + 12 <= |stats|
    ensures |reps| == 3
  {
    [ReadLE32(stats, pos), ReadLE32(stats, pos + 4), ReadLE32(stats, pos + 8)]
  }

  /** The position of the first entry of `reps` at or above `limit`, or
      |reps| when there is none. */
  function FirstTooLarge(reps: seq<U32>, limit: nat): (n: nat)
    ensures n <= |reps|
    ensures forall k :: 0 <= k < n ==> reps[k] < limit
    ensures n < |reps| ==> reps[n] >= limit
  {
    if |reps| == 0 then 0
    else if reps[0] >= limit then 0
    else 1 + FirstTooLarge(reps[1..], limit)
  }

  /** The part of a structured dictionary after its 8-byte header is
      accepted: its entropy tables parse (they take `tablesSize` bytes), 12
      bytes of repeat offsets follow, and every offset lies inside it. */
  ghost predicate StatsAccepted(stats: seq<Byte>, tablesSize: Option<nat>)
  {
    && tablesSize.Some? && tablesSize.value + 12 <= |stats|
    && forall k :: 0 <= k < 3 ==> DictReps(stats, tablesSize.value)[k] < |stats|
  }

  /** The repeat offsets left by a rejected load of `stats` over `prior`:
      the offsets read up to and including the first one outside the
      dictionary part, the rest of `prior` after them. */
  ghost function RejectedReps(stats: seq<Byte>, tablesSize: Option<nat>, prior: seq<U32>): seq<U32>
    requires |prior| == 3
  {
    if tablesSize.Some? && tablesSize.value + 12 <= |stats| then
      var reps := DictReps(stats, tablesSize.value);
      var n := FirstTooLarge(reps, |stats|);
      if n < 3 then reps[..n + 1] + prior[n + 1..] else prior
    else prior
  }

  /** The frame header ZSTD_writeFrameHeader writes for parameters `p`, the
      content size `fcs` and the dictionary ID `id`. */
  function FrameHeaderOf(p: Params, fcs: U64, id: U32): seq<Byte>
    requires 12 <= p.cParams.windowLog < 32
  {
    ZstdFormat.FrameHeader(p.cParams.windowLog, p.fParams.contentSizeFlag, p.fParams.checksumFlag, fcs, id)
  }

  // ---------------------------------------------------------------------
  // ZSTD_compress_generic
  // ---------------------------------------------------------------------

  /** maxDist of ZSTD_compress_generic: the window size, 1 << windowLog. */
  function MaxDist(cp: ZstdParams.CParams): (d: U32)
    requires Usable(cp)
    ensures d == Pow2(cp.windowLog) && d >= BlockSizeFor(cp) > 0
  {
    Pow2Of27();
    Pow2Monotone(cp.windowLog, 27);
    Pow2(cp.windowLog)
  }

  /** The number of blocks ZSTD_compress_generic cuts `remaining` bytes
      into: blocks of `blockSize` bytes and a shorter last one. */
  function BlockCount(remaining: nat, blockSize: nat): nat
    requires 0 < blockSize
    decreases remaining
  {
    if remaining == 0 then 0
    else 1 + BlockCount(remaining - (if remaining < blockSize then remaining else blockSize), blockSize)
  }

  /** The window after the maximum-distance rule has been applied at the
      end of each of the first `count` blocks of the `remaining` bytes at
      arena address `ip`. */
  function MaxDistBlocks(w: ZstdWindow.Window, ip: int, remaining: nat, blockSize: nat, maxDist: U32,
                         count: nat): ZstdWindow.Window
    requires 0 < blockSize
    decreases count, 1
  {
    if count == 0 || remaining == 0 then w
    else MaxDistStep(w, ip, remaining, blockSize, maxDist, count)
  }

  /** One block of MaxDistBlocks: the rule at the end of the next block,
      then the remaining blocks. */
  function MaxDistStep(w: ZstdWindow.Window, ip: int, remaining: nat, blockSize: nat, maxDist: U32,
                       count: nat): ZstdWindow.Window
    requires 0 < blockSize && 0 < count
    decreases count, 0
  {
    var n := if remaining < blockSize then remaining else blockSize;
    MaxDistBlocks(ZstdWindow.EnforceMaxDist(w, ip + n, maxDist), ip + n, remaining - n, blockSize, maxDist, count - 1)
  }

  /** MaxDistBlocks one block further on. */
  lemma MaxDistBlocksNext(w: ZstdWindow.Window, ip: int, remaining: nat, blockSize: nat, maxDist: U32, count: nat)
    requires 0 < blockSize && 0 < remaining && 0 < count
    ensures var n := if remaining < blockSize then remaining else blockSize;
      MaxDistBlocks(w, ip, remaining, blockSize, maxDist, count)
        == MaxDistBlocks(ZstdWindow.EnforceMaxDist(w, ip + n, maxDist), ip + n, remaining - n, blockSize, maxDist, count - 1)
  {
    assert MaxDistBlocks(w, ip, remaining, blockSize, maxDist, count) == MaxDistStep(w, ip, remaining, blockSize, maxDist, count);
  }

  /** Where the block loop stops: after applying the maximum-distance rule
      `count` times in all, with the total output size or the error. */
  datatype LoopEnd = LoopEnd(count: nat, r: Result<nat>)

  /** The block loop of ZSTD_compress_generic from block number `k`, with
      `remaining` input bytes, `room` bytes of output left (a size_t, so it
      wraps), `total` bytes of output written, blocks of `blockSize` bytes,
      and `outs(k)` the result ZSTD_compressBlock_internal gives for block
      `k` (0 when it could not compress it). Each block first needs room
      for a block header and a minimal block; then the maximum-distance
      rule is applied at the block's end (and counted); then the block is
      compressed, or stored raw when compression gave nothing, and takes
      its size plus a header. The window plays no part in where the loop
      stops. */
  function GenericSteps(room: nat, remaining: nat, blockSize: nat, outs: nat -> Result<nat>,
                        k: nat, total: nat): (e: LoopEnd)
    requires 0 < blockSize
    decreases remaining, 1
    ensures k <= e.count
  {
    if remaining == 0 then LoopEnd(k, Ok(total))
    else GenericStep(room, remaining, blockSize, outs, k, total)
  }

  /** One turn of the block loop, for a non-empty remainder. */
  function GenericStep(room: nat, remaining: nat, blockSize: nat, outs: nat -> Result<nat>,
                       k: nat, total: nat): (e: LoopEnd)
    requires 0 < blockSize && 0 < remaining
    decreases remaining, 0
    ensures k <= e.count
    ensures room >= ZstdFormat.BlockHeaderSize + ZstdFormat.MinCBlockSize ==> k < e.count
  {
    if room < ZstdFormat.BlockHeaderSize + ZstdFormat.MinCBlockSize then LoopEnd(k, Err(DstSizeTooSmall))
    else
      var n := if remaining < blockSize then remaining else blockSize;
      var out := outs(k);
      if out.Err? then LoopEnd(k + 1, out)
      else if out.value == 0 && n + ZstdFormat.BlockHeaderSize > room then LoopEnd(k + 1, Err(DstSizeTooSmall))
      else
        var cSize := (if out.value == 0 then n else out.value) + ZstdFormat.BlockHeaderSize;
        GenericSteps(ToU64(room - cSize), remaining - n, blockSize, outs, k + 1, total + cSize)
  }

  /** A loop that completes has applied the maximum-distance rule once per
      block. */
  lemma {:induction false} GenericStepsCompletes(room: nat, remaining: nat, blockSize: nat,
                                                 outs: nat -> Result<nat>, k: nat, total: nat)
    requires 0 < blockSize
    decreases remaining
    ensures var e := GenericSteps(room, remaining, blockSize, outs, k, total);
      e.r.Ok? ==> e.count == k + BlockCount(remaining, blockSize) && e.r.value >= total
  {
    if remaining > 0 && room >= ZstdFormat.BlockHeaderSize + ZstdFormat.MinCBlockSize {
      var n := if remaining < blockSize then remaining else blockSize;
      var out := outs(k);
      if out.Ok? && !(out.value == 0 && n + ZstdFormat.BlockHeaderSize > room) {
        var cSize := (if out.value == 0 then n else out.value) + ZstdFormat.BlockHeaderSize;
        GenericStepsCompletes(ToU64(room - cSize), remaining - n, blockSize, outs, k + 1, total + cSize);
      }
    }
  }

  /** Blocks the compressor cannot shrink are stored raw: with room for
      every block and its header (and the two bytes the room check asks
      beyond the last one), the loop writes the input plus a 3-byte header
      per block. */
  lemma {:induction false} GenericStepsStored(room: nat, remaining: nat, blockSize: nat,
                                              outs: nat -> Result<nat>, k: nat, total: nat)
    requires 0 < blockSize
    requires forall j :: outs(j) == Ok(0)
    requires remaining + ZstdFormat.BlockHeaderSize * BlockCount(remaining, blockSize) + 2 <= room < TWO64
    decreases remaining
    ensures GenericSteps(room, remaining, blockSize, outs, k, total).r
      == Ok(total + remaining + ZstdFormat.BlockHeaderSize * BlockCount(remaining, blockSize))
  {
    if remaining > 0 {
      var n := if remaining < blockSize then remaining else blockSize;
      assert outs(k) == Ok(0);
      GenericStepsStored(room - n - ZstdFormat.BlockHeaderSize, remaining - n, blockSize, outs, k + 1,
                         total + n + ZstdFormat.BlockHeaderSize);
    }
  }

  /** Across the maximum-distance steps only lowLimit and dictLimit move,
      and only up, and the window keeps its order. */
  lemma {:induction false} MaxDistBlocksRaise(w: ZstdWindow.Window, ip: int, remaining: nat, blockSize: nat,
                                              maxDist: U32, count: nat)
    requires 0 < blockSize
    requires w.lowLimit <= w.dictLimit
    requires 0 <= ip - w.base && ip + remaining - w.base < TWO32
    requires w.loadedDictEnd + maxDist < TWO32
    decreases count
    ensures var r := MaxDistBlocks(w, ip, remaining, blockSize, maxDist, count);
      && r == w.(lowLimit := r.lowLimit, dictLimit := r.dictLimit)
      && w.lowLimit <= r.lowLimit <= r.dictLimit && w.dictLimit <= r.dictLimit
      && (ZstdWindow.Ordered(w) && ip + remaining - w.base <= ZstdWindow.EndIndex(w) ==> ZstdWindow.Ordered(r))
  {
    if count > 0 && remaining > 0 {
      var n := if remaining < blockSize then remaining else blockSize;
      ZstdWindow.EnforceMaxDistBounds(w, ip + n, maxDist);
      MaxDistBlocksRaise(ZstdWindow.EnforceMaxDist(w, ip + n, maxDist), ip + n, remaining - n, blockSize, maxDist, count - 1);
    }
  }

  /** Once the rule has been applied at the end of every block, a window
      over an input that ends more than maxDist past the loaded dictionary
      reaches back at most maxDist from the end of the input. */
  lemma {:induction false} MaxDistBlocksReach(w: ZstdWindow.Window, ip: int, remaining: nat, blockSize: nat,
                                              maxDist: U32, count: nat)
    requires 0 < blockSize && 0 < remaining && BlockCount(remaining, blockSize) <= count
    requires w.lowLimit <= w.dictLimit
    requires 0 <= ip - w.base && ip + remaining - w.base < TWO32
    requires w.loadedDictEnd + maxDist < TWO32
    requires ip + remaining - w.base > w.loadedDictEnd + maxDist
    decreases remaining
    ensures ip + remaining - w.base - MaxDistBlocks(w, ip, remaining, blockSize, maxDist, count).lowLimit <= maxDist
  {
    var n := if remaining < blockSize then remaining else blockSize;
    var w1 := ZstdWindow.EnforceMaxDist(w, ip + n, maxDist);
    ZstdWindow.EnforceMaxDistBounds(w, ip + n, maxDist);
    assert MaxDistBlocks(w, ip, remaining, blockSize, maxDist, count)
      == MaxDistStep(w, ip, remaining, blockSize, maxDist, count)
      == MaxDistBlocks(w1, ip + n, remaining - n, blockSize, maxDist, count - 1);
    if remaining > n {
      MaxDistBlocksReach(w1, ip + n, remaining - n, blockSize, maxDist, count - 1);
    } else {
      assert MaxDistBlocks(w1, ip + n, remaining - n, blockSize, maxDist, count - 1) == w1;
    }
  }

  /** The window and the result of a run of the block compressor. */
  datatype BlockRun = BlockRun(win: ZstdWindow.Window, r: Result<nat>)

  /** What ZSTD_compressContinue_internal does once the stage is right and
      the header written, with `room` bytes of output left: the window takes
      the input; then, in a frame, the block loop of ZSTD_compress_generic
      runs over it, and outside one the input is a single block whose
      result is `block`. */
  function InputRun(w: ZstdWindow.Window, cp: ZstdParams.CParams, blockSize: nat, room: nat, ip: int,
                    srcSize: nat, frame: bool, outs: nat -> Result<nat>, block: Result<nat>): BlockRun
    requires Usable(cp) && 0 < blockSize
  {
    var w1 := ZstdWindow.ContinueWindow(w, ip, srcSize, cp.chainLog, ZstdParams.BtPlus(cp.strategy));
    if frame then
      var e := GenericSteps(room, srcSize, blockSize, outs, 0, 0);
      BlockRun(MaxDistBlocks(w1, ip, srcSize, blockSize, MaxDist(cp), e.count), e.r)
    else BlockRun(w1, block)
  }

  /** A frame chunk that completes leaves the window ordered and ending at
      the end of the input, and a non-empty one whose input ends more than
      the maximum distance past the loaded dictionary leaves the window
      reaching back no further than that distance. */
  lemma FrameChunkReach(w: ZstdWindow.Window, cp: ZstdParams.CParams, blockSize: nat, room: nat, ip: int,
                        srcSize: nat, outs: nat -> Result<nat>)
    requires Usable(cp) && 0 < blockSize && ZstdWindow.Ordered(w)
    requires ZstdWindow.EndIndex(w) + srcSize < TWO32 && w.loadedDictEnd + MaxDist(cp) < TWO32
    ensures var run := InputRun(w, cp, blockSize, room, ip, srcSize, true, outs, Ok(0));
      var end := ZstdWindow.EndIndex(run.win);
      run.r.Ok? ==>
        && ZstdWindow.Ordered(run.win) && run.win.nextSrc == ip + srcSize
        && (0 < srcSize && end > run.win.loadedDictEnd + MaxDist(cp) ==> end - run.win.lowLimit <= MaxDist(cp))
  {
    var btPlus := ZstdParams.BtPlus(cp.strategy);
    var w1 := ZstdWindow.ContinueWindow(w, ip, srcSize, cp.chainLog, btPlus);
    var e := GenericSteps(room, srcSize, blockSize, outs, 0, 0);
    ZstdWindow.ContinueKeepsOrder(w, ip, srcSize, cp.chainLog, btPlus);
    ContinueWindowStart(w, ip, srcSize, cp.chainLog, btPlus);
    MaxDistBlocksRaise(w1, ip, srcSize, blockSize, MaxDist(cp), e.count);
    if e.r.Ok? && srcSize > 0 {
      GenericStepsCompletes(room, srcSize, blockSize, outs, 0, 0);
      if ip + srcSize - w1.base > w1.loadedDictEnd + MaxDist(cp) {
        MaxDistBlocksReach(w1, ip, srcSize, blockSize, MaxDist(cp), e.count);
      }
    }
  }

  /** The new input starts at a non-negative index of the continued window
      and the loaded dictionary end is unchanged. */
  lemma ContinueWindowStart(w: ZstdWindow.Window, ip: int, srcSize: nat, chainLog: nat, btPlus: nat)
    requires btPlus < chainLog && ZstdWindow.Ordered(w)
    ensures var r := ZstdWindow.ContinueWindow(w, ip, srcSize, chainLog, btPlus);
      0 <= ip - r.base && r.loadedDictEnd == w.loadedDictEnd
  {
  }

  /** The block loop of ZSTD_compress_generic over the window `w`, for
      `srcSize` bytes at arena address `ip` and `room` bytes of output. */
  method BlockLoop(w: ZstdWindow.Window, room: nat, ip: int, srcSize: nat, blockSize: nat, maxDist: U32,
                   outs: nat -> Result<nat>)
    returns (win: ZstdWindow.Window, r: Result<nat>)
    requires 0 < blockSize
    ensures var e := GenericSteps(room, srcSize, blockSize, outs, 0, 0);
      win == MaxDistBlocks(w, ip, srcSize, blockSize, maxDist, e.count) && r == e.r
  {
    ghost var e := GenericSteps(room, srcSize, blockSize, outs, 0, 0);
    win := w;
    var remaining: nat := srcSize;
    var p := ip;
    var cap: nat := room;
    var k: nat := 0;
    var total: nat := 0;
    ghost var c: nat := e.count;
    while remaining > 0
      invariant e == GenericSteps(cap, remaining, blockSize, outs, k, total)
      invariant c == e.count - k
      invariant MaxDistBlocks(w, ip, srcSize, blockSize, maxDist, e.count)
        == MaxDistBlocks(win, p, remaining, blockSize, maxDist, c)
    {
      if cap < ZstdFormat.BlockHeaderSize + ZstdFormat.MinCBlockSize {
        return win, Err(DstSizeTooSmall);
      }
      var n := if remaining < blockSize then remaining else blockSize;
      assert e == GenericStep(cap, remaining, blockSize, outs, k, total);
      MaxDistBlocksNext(win, p, remaining, blockSize, maxDist, c);
      win := ZstdWindow.EnforceMaxDist(win, p + n, maxDist);
      var out := outs(k);
      if out.Err? {
        return win, out;
      }
      var cSize: nat;
      if out.value == 0 {
        if n + ZstdFormat.BlockHeaderSize > cap {
          return win, Err(DstSizeTooSmall);
        }
        cSize := n + ZstdFormat.BlockHeaderSize;
      } else {
        cSize := out.value + ZstdFormat.BlockHeaderSize;
      }
      c := c - 1;
      remaining := remaining - n;
      cap := ToU64(cap - cSize);
      p := p + n;
      total := total + cSize;
      k := k + 1;
    }
    r := Ok(total);
  }

  // ---------------------------------------------------------------------
  // The context
  // ---------------------------------------------------------------------

  class CCtx {
    var stage: nat
    var params: Params
    var frameContentSize: U64
    var blockSize: nat
    var hashLog3: nat
    var win: ZstdWindow.Window
    var nextToUpdate3: U32
    var dictID: U32
    var rep: seq<U32>
    var flagStaticTables: bool
    var hashTable: array<U32>
    var chainTable: array<U32>
    var hashTable3: array<U32>

    /** The tables have the sizes the parameters give them. */
    ghost predicate TablesSized()
      reads this`params, this`hashLog3, this`hashTable, this`chainTable, this`hashTable3
    {
      && hashTable.Length == HashSize(params.cParams)
      && chainTable.Length == ChainSize(params.cParams)
      && hashLog3 == HashLog3(params.cParams)
      && hashTable3.Length == Hash3Size(params.cParams)
    }

    ghost predicate Valid()
      reads this`stage, this`rep, this`params, this`blockSize, this`hashLog3
      reads this`hashTable, this`chainTable, this`hashTable3
    {
      && stage <= 2
      && |rep| == 3
      && hashTable != chainTable && hashTable != hashTable3 && chainTable != hashTable3
      && (stage > 0 ==> Usable(params.cParams) && TablesSized() && blockSize == BlockSizeFor(params.cParams))
    }

    /** ZSTD_createCCtx: a zeroed context in stage 0. */
    constructor ()
      ensures Valid() && stage == 0
    {
      stage := 0;
      params := Params(ZstdParams.CParams(0, 0, 0, 0, 0, 0, 0), FParams(false, false, false));
      frameContentSize := 0;
      blockSize := 0;
      hashLog3 := 0;
      win := ZstdWindow.Window(0, 0, 0, 0, 0, 0, 0);
      nextToUpdate3 := 0;
      dictID := 0;
      rep := [0, 0, 0];
      flagStaticTables := false;
      hashTable := new U32[0];
      chainTable := new U32[0];
      hashTable3 := new U32[0];
    }

    /** ZSTD_resetCCtx_advanced: tables sized for the parameters (zeroed
        when `reset` asks for it), an empty window, the starting repeat
        offsets, no dictionary, stage 1. */
    method Reset(p: Params, fcs: U64, reset: bool)
      requires Usable(p.cParams)
      modifies this
      ensures Valid() && TablesSized()
      ensures stage == 1 && params == p && frameContentSize == fcs
      ensures blockSize == BlockSizeFor(p.cParams) && hashLog3 == HashLog3(p.cParams)
      ensures win == ZstdWindow.InitialWindow && rep == RepStartValue
      ensures dictID == 0 && !flagStaticTables && nextToUpdate3 == old(nextToUpdate3)
      ensures fresh(hashTable) && fresh(chainTable) && fresh(hashTable3)
      ensures reset ==> AllZero(hashTable) && AllZero(chainTable) && AllZero(hashTable3)
    {
      AllocateTables(p.cParams);
      flagStaticTables := false;
      win := ZstdWindow.InitialWindow;
      params := p;
      blockSize := BlockSizeFor(p.cParams);
      frameContentSize := fcs;
      rep := RepStartValue;
      stage := 1;
      dictID := 0;
    }

    /** The table part of a reset: fresh zeroed tables sized for `cp`. The
        source zeroes the table space only when asked to and otherwise
        leaves whatever the work space held; those contents are never read
        before being overwritten (ZSTD_copyCCtx copies over them), so fresh
        arrays are zeroed here in both cases, a modelling choice. */
    method AllocateTables(cp: ZstdParams.CParams)
      modifies this
      ensures hashLog3 == HashLog3(cp) && nextToUpdate3 == old(nextToUpdate3)
      ensures hashTable.Length == HashSize(cp) && chainTable.Length == ChainSize(cp)
      ensures hashTable3.Length == Hash3Size(cp)
      ensures fresh(hashTable) && fresh(chainTable) && fresh(hashTable3)
      ensures hashTable != chainTable && hashTable != hashTable3 && chainTable != hashTable3
      ensures AllZero(hashTable) && AllZero(chainTable) && AllZero(hashTable3)
    {
      hashLog3 := HashLog3(cp);
      hashTable, chainTable, hashTable3 := ZeroTables(HashSize(cp), ChainSize(cp), Hash3Size(cp));
    }

    /** ZSTD_copyCCtx: only a context in stage 1 can be copied. The copy is
        reset with the source's parameters, the content size flag cleared,
        then takes its tables, window, dictionary ID and entropy flag; the
        repeat offsets are not copied and stay at their starting values. */
    method CopyFrom(src: CCtx) returns (r: Result<nat>)
      requires Valid() && src.Valid() && src != this
      modifies this
      ensures src.stage != 1 ==> r == Err(StageWrong) && unchanged(this)
      ensures src.stage == 1 ==> (&& r == Ok(0) && Valid() && stage == 1
        && params == src.params.(fParams := src.params.fParams.(contentSizeFlag := false))
        && frameContentSize == src.frameContentSize && blockSize == src.blockSize
        && win == src.win && nextToUpdate3 == src.nextToUpdate3 && dictID == src.dictID
        && flagStaticTables == src.flagStaticTables && rep == RepStartValue
        && hashTable[..] == src.hashTable[..] && chainTable[..] == src.chainTable[..]
        && hashTable3[..] == src.hashTable3[..])
    {
      if src.stage != 1 {
        return Err(StageWrong);
      }
      Reset(src.params, src.frameContentSize, false);
      params := params.(fParams := params.fParams.(contentSizeFlag := false));
      CopyTables(src);
      nextToUpdate3 := src.nextToUpdate3;
      win := src.win;
      dictID := src.dictID;
      flagStaticTables := src.flagStaticTables;
      r := Ok(0);
    }

    /** The memcpy of the whole table space from a context laid out alike. */
    method CopyTables(src: CCtx)
      requires hashTable.Length == src.hashTable.Length && chainTable.Length == src.chainTable.Length
      requires hashTable3.Length == src.hashTable3.Length
      requires hashTable != chainTable && hashTable != hashTable3 && chainTable != hashTable3
      requires hashTable != src.hashTable && hashTable != src.chainTable && hashTable != src.hashTable3
      requires chainTable != src.hashTable && chainTable != src.chainTable && chainTable != src.hashTable3
      requires hashTable3 != src.hashTable && hashTable3 != src.chainTable && hashTable3 != src.hashTable3
      modifies hashTable, chainTable, hashTable3
      ensures hashTable[..] == src.hashTable[..] && chainTable[..] == src.chainTable[..]
      ensures hashTable3[..] == src.hashTable3[..]
    {
      CopyTable(hashTable, src.hashTable);
      CopyTable(chainTable, src.chainTable);
      CopyTable(hashTable3, src.hashTable3);
    }

    /** ZSTD_reduceIndex: the hash table and the chain table are reduced
        whole; the 3-byte hash table only when it is in use. */
    method ReduceIndex(reducer: U32)
      requires Valid() && stage > 0
      modifies hashTable, chainTable, hashTable3
      ensures hashTable[..] == Reduced(old(hashTable[..]), hashTable.Length, reducer)
      ensures chainTable[..] == Reduced(old(chainTable[..]), chainTable.Length, reducer)
      ensures hashTable3[..] == Reduced(old(hashTable3[..]), if hashLog3 == 0 then 0 else hashTable3.Length, reducer)
    {
      ReduceTable(hashTable, Pow2(params.cParams.hashLog), reducer);
      ReduceTable(chainTable, if params.cParams.strategy == ZstdParams.Fast then 0 else Pow2(params.cParams.chainLog), reducer);
      ReduceTable(hashTable3, if hashLog3 == 0 then 0 else Pow2(hashLog3), reducer);
    }

    /** The header ZSTD_writeFrameHeader writes for this context, with the
        given content size and dictionary ID; the frame is then open. */
    method WriteHeader(dst: array<Byte>, pledgedSrcSize: U64, id: U32) returns (fh: Result<nat>)
      requires Valid() && stage == 1
      modifies this`stage, dst
      ensures Valid()
      ensures fh.Err? <==> dst.Length < ZstdFormat.FrameHeaderSizeMax
      ensures fh.Err? ==> fh.error == DstSizeTooSmall && stage == 1 && dst[..] == old(dst[..])
      ensures fh.Ok? ==>
        var h := FrameHeaderOf(params, pledgedSrcSize, id);
        && stage == 2 && fh.value == |h| <= dst.Length
        && dst[..fh.value] == h && dst[fh.value..] == old(dst[fh.value..])
    {
      fh := ZstdFormat.WriteFrameHeader(dst, params.cParams.windowLog, params.fParams.contentSizeFlag,
                                        params.fParams.checksumFlag, pledgedSrcSize, id);
      if fh.Ok? {
        stage := 2;
      }
    }

    /** The window part of ZSTD_compressContinue_internal: a new segment when
        the input does not follow the previous one, the overflow correction
        of every table index, the cut of an overlapped dictionary and the
        new end of input. */
    method UpdateWindow(ip: int, srcSize: nat)
      requires Valid() && stage > 0
      modifies this`win, hashTable, chainTable, hashTable3
      ensures Valid()
      ensures var cp := params.cParams; var btPlus := ZstdParams.BtPlus(cp.strategy);
        var c := ZstdWindow.Correction(ZstdWindow.NewSegment(old(win), ip), cp.chainLog, btPlus);
        && win == ZstdWindow.ContinueWindow(old(win), ip, srcSize, cp.chainLog, btPlus)
        && hashTable[..] == Reduced(old(hashTable[..]), hashTable.Length, c)
        && chainTable[..] == Reduced(old(chainTable[..]), chainTable.Length, c)
        && hashTable3[..] == Reduced(old(hashTable3[..]), if hashLog3 == 0 then 0 else hashTable3.Length, c)
    {
      var cp := params.cParams;
      var btPlus := ZstdParams.BtPlus(cp.strategy);
      var w1 := ZstdWindow.NewSegment(win, ip);
      if w1.lowLimit > ZstdWindow.CorrectionThreshold {
        ReduceIndex(ZstdWindow.Correction(w1, cp.chainLog, btPlus));
      } else {
        ReduceByZero(hashTable[..], hashTable.Length);
        ReduceByZero(chainTable[..], chainTable.Length);
        ReduceByZero(hashTable3[..], if hashLog3 == 0 then 0 else hashTable3.Length);
      }
      win := ZstdWindow.ContinueWindow(win, ip, srcSize, cp.chainLog, btPlus);
    }

    /** ZSTD_compress_generic for `srcSize` bytes at arena address `ip`
        with `room` bytes of output: the block loop as it moves the window
        and sums the block sizes. `outs(k)` is what the block compressor
        returns for block `k` (the block encoding is not part of this
        model). */
    method CompressGeneric(room: nat, ip: int, srcSize: nat, outs: nat -> Result<nat>) returns (r: Result<nat>)
      requires Valid() && stage > 0
      modifies this`win
      ensures var e := GenericSteps(room, srcSize, blockSize, outs, 0, 0);
        && win == MaxDistBlocks(old(win), ip, srcSize, blockSize, MaxDist(params.cParams), e.count)
        && r == e.r
    {
      win, r := BlockLoop(win, room, ip, srcSize, blockSize, MaxDist(params.cParams), outs);
    }

    /** ZSTD_compressContinue_internal, for the input at arena address `ip`.
        In a frame the saved header is written first when none has been;
        then the window takes the input. In a frame the block loop of
        ZSTD_compress_generic follows, with `outs(k)` the block compressor's
        result for block `k`; outside one the input is a single block and
        `block` is the block compressor's result for it. The result adds
        the header size to the size of the blocks. */
    method ContinueInternal(dst: array<Byte>, ip: int, srcSize: nat, frame: bool,
                            outs: nat -> Result<nat>, block: Result<nat>)
      returns (r: Result<nat>)
      requires Valid()
      modifies this`stage, this`win, dst, hashTable, chainTable, hashTable3
      ensures Valid()
      ensures old(stage) == 0 ==> (&& r == Err(StageWrong) && stage == 0 && win == old(win)
        && dst[..] == old(dst[..]) && unchanged(hashTable) && unchanged(chainTable) && unchanged(hashTable3))
      ensures old(stage) == 1 && frame && dst.Length < ZstdFormat.FrameHeaderSizeMax ==>
        (&& r == Err(DstSizeTooSmall) && stage == 1 && win == old(win)
         && dst[..] == old(dst[..]) && unchanged(hashTable) && unchanged(chainTable) && unchanged(hashTable3))
      ensures old(stage) == 1 && frame && dst.Length >= ZstdFormat.FrameHeaderSizeMax ==>
        var fh := FrameHeaderOf(old(params), old(frameContentSize), old(dictID));
        var run := InputRun(old(win), old(params.cParams), old(blockSize), dst.Length - |fh|, ip, srcSize, frame, outs, block);
        && stage == 2 && win == run.win && dst[..|fh|] == fh
        && (if run.r.Ok? then r.Ok? && r.value == run.r.value + |fh| else r == run.r)
      ensures old(stage) != 0 && !(old(stage) == 1 && frame) ==>
        var run := InputRun(old(win), old(params.cParams), old(blockSize), dst.Length, ip, srcSize, frame, outs, block);
        && stage == (if frame then 2 else old(stage))
        && win == run.win
        && (if frame && run.r.Ok? then r.Ok? && r.value == run.r.value else r == run.r)
    {
      if stage == 0 {
        return Err(StageWrong);
      }
      if frame && stage == 1 {
        var fh := WriteHeader(dst, frameContentSize, dictID);
        if fh.Err? {
          return fh;
        }
        r := TakeInput(dst.Length - fh.value, fh.value, ip, srcSize, frame, outs, block);
      } else {
        r := TakeInput(dst.Length, 0, ip, srcSize, frame, outs, block);
      }
    }

    /** The rest of ZSTD_compressContinue_internal once the stage is right
        and the header of `headerSize` bytes written, with `room` bytes of
        output left: the window takes the input, then the blocks are
        compressed; a frame's successful result counts the header too. */
    method TakeInput(room: nat, headerSize: nat, ip: int, srcSize: nat, frame: bool, outs: nat -> Result<nat>, block: Result<nat>)
      returns (r: Result<nat>)
      requires Valid() && stage > 0
      modifies this`win, hashTable, chainTable, hashTable3
      ensures Valid()
      ensures var run := InputRun(old(win), old(params.cParams), old(blockSize), room, ip, srcSize, frame, outs, block);
        && win == run.win
        && (if frame && run.r.Ok? then r.Ok? && r.value == run.r.value + headerSize else r == run.r)
    {
      UpdateWindow(ip, srcSize);
      if frame {
        r := CompressGeneric(room, ip, srcSize, outs);
        if r.Ok? {
          r := Ok(r.value + headerSize);
        }
      } else {
        r := block;
      }
    }

    /** ZSTD_compressEnd: closes the frame with the 3-byte epilogue carrying
        the checksum field of `digest` (the XXH64 digest of the input). A
        frame with no block yet first gets its header, without content size
        or dictionary ID. The context returns to stage 0. */
    method CompressEnd(dst: array<Byte>, digest: U64) returns (r: Result<nat>)
      requires Valid()
      modifies this`stage, dst
      ensures Valid()
      ensures old(stage) == 0 ==> r == Err(StageWrong) && stage == 0 && dst[..] == old(dst[..])
      ensures old(stage) == 1 && dst.Length < ZstdFormat.FrameHeaderSizeMax ==>
        r == Err(DstSizeTooSmall) && stage == 1 && dst[..] == old(dst[..])
      ensures old(stage) != 0 && !(old(stage) == 1 && dst.Length < ZstdFormat.FrameHeaderSizeMax) ==>
        var fh := if old(stage) == 1
          then FrameHeaderOf(params, 0, 0)
          else [];
        && dst[..|fh|] == fh
        && (dst.Length < |fh| + ZstdFormat.BlockHeaderSize ==> r == Err(DstSizeTooSmall) && stage == 2)
        && (dst.Length >= |fh| + ZstdFormat.BlockHeaderSize ==>
              && r == Ok(|fh| + ZstdFormat.BlockHeaderSize) && stage == 0
              && dst[|fh|..|fh| + ZstdFormat.BlockHeaderSize] == ZstdFormat.Epilogue(params.fParams.checksumFlag, digest)
              && dst[|fh| + ZstdFormat.BlockHeaderSize..] == old(dst[|fh| + ZstdFormat.BlockHeaderSize..]))
    {
      if stage == 0 {
        return Err(StageWrong);
      }
      var fhSize := 0;
      if stage == 1 {
        var fh := WriteHeader(dst, 0, 0);
        if fh.Err? {
          return fh;
        }
        fhSize := fh.value;
      }
      if dst.Length - fhSize < ZstdFormat.BlockHeaderSize {
        return Err(DstSizeTooSmall);
      }
      ZstdSeqStore.CopyInto(dst, fhSize, ZstdFormat.Epilogue(params.fParams.checksumFlag, digest));
      stage := 0;
      r := Ok(fhSize + ZstdFormat.BlockHeaderSize);
    }

    /** ZSTD_loadDictionaryContent: the content at arena address `ip`
        becomes the prefix of the window (filling the match-finder tables
        with it is not part of this model). */
    method LoadDictionaryContent(ip: int, srcSize: nat) returns (r: Result<nat>)
      requires Valid()
      modifies this`win
      ensures Valid() && r == Ok(0)
      ensures win == ZstdWindow.LoadContentWindow(old(win), ip, srcSize)
    {
      win := ZstdWindow.LoadContentWindow(win, ip, srcSize);
      r := Ok(0);
    }

    /** ZSTD_loadDictEntropyStats, on the part of a structured dictionary
        after its header. `tablesSize` is the total size of its entropy
        tables as the table readers find it, None when one of them fails.
        The repeat offsets are stored one by one; the first one outside the
        dictionary part stops the load with the ones stored so far kept. */
    method LoadDictEntropyStats(stats: seq<Byte>, tablesSize: Option<nat>) returns (r: Result<nat>)
      requires Valid()
      modifies this`rep, this`flagStaticTables
      ensures Valid()
      ensures r.Ok? <==> StatsAccepted(stats, tablesSize)
      ensures !(tablesSize.Some? && tablesSize.value + 12 <= |stats|) ==>
        r == Err(DictionaryCorrupted) && rep == old(rep) && flagStaticTables == old(flagStaticTables)
      ensures tablesSize.Some? && tablesSize.value + 12 <= |stats| ==>
        var reps := DictReps(stats, tablesSize.value); var n := FirstTooLarge(reps, |stats|);
        && (n == 3 ==> r == Ok(tablesSize.value + 12) && rep == reps && flagStaticTables)
        && (n < 3 ==> (&& r == Err(DictionaryCorrupted) && rep == reps[..n + 1] + old(rep)[n + 1..]
                       && flagStaticTables == old(flagStaticTables)))
      ensures r.Err? ==> rep == RejectedReps(stats, tablesSize, old(rep))
    {
      if tablesSize.None? || tablesSize.value + 12 > |stats| {
        return Err(DictionaryCorrupted);
      }
      var pos := tablesSize.value;
      ghost var reps := DictReps(stats, pos);
      rep := rep[0 := ReadLE32(stats, pos)];
      if rep[0] >= |stats| {
        assert rep == reps[..1] + old(rep)[1..];
        return Err(DictionaryCorrupted);
      }
      rep := rep[1 := ReadLE32(stats, pos + 4)];
      if rep[1] >= |stats| {
        assert rep == reps[..2] + old(rep)[2..];
        return Err(DictionaryCorrupted);
      }
      rep := rep[2 := ReadLE32(stats, pos + 8)];
      if rep[2] >= |stats| {
        assert rep == reps[..3] + old(rep)[3..];
        return Err(DictionaryCorrupted);
      }
      assert rep == reps;
      flagStaticTables := true;
      r := Ok(pos + 12);
    }

    /** ZSTD_compress_insertDictionary for the dictionary `dict` at arena
        address `dictAddr`: none, or 8 bytes or fewer, is ignored; without
        the dictionary magic number it is all content; with it, its ID is
        recorded (unless IDs are left out of frames), its entropy part is
        loaded and the rest is content. A failed entropy load is reported
        as dictionary_corrupted (see EntropySize). */
    method InsertDictionary(dictAddr: int, dict: seq<Byte>, tablesSize: Option<nat>) returns (r: Result<nat>)
      requires Valid()
      modifies this`win, this`rep, this`flagStaticTables, this`dictID
      ensures Valid()
      ensures dictAddr == 0 || |dict| <= 8 ==>
        r == Ok(0) && win == old(win) && rep == old(rep) && dictID == old(dictID) && flagStaticTables == old(flagStaticTables)
      ensures dictAddr != 0 && |dict| > 8 && ReadLE32(dict, 0) != DictMagic ==>
        (&& r == Ok(0) && win == ZstdWindow.LoadContentWindow(old(win), dictAddr, |dict|)
         && rep == old(rep) && dictID == old(dictID) && flagStaticTables == old(flagStaticTables))
      ensures dictAddr != 0 && |dict| > 8 && ReadLE32(dict, 0) == DictMagic ==>
        dictID == (if params.fParams.noDictIDFlag then 0 else ReadLE32(dict, 4))
      ensures dictAddr != 0 && |dict| > 8 && ReadLE32(dict, 0) == DictMagic && StatsAccepted(dict[8..], tablesSize) ==>
        var eSize := 8 + tablesSize.value + 12;
        && r == Ok(0) && flagStaticTables && rep == DictReps(dict[8..], tablesSize.value)
        && win == ZstdWindow.LoadContentWindow(old(win), dictAddr + eSize, |dict| - eSize)
      ensures dictAddr != 0 && |dict| > 8 && ReadLE32(dict, 0) == DictMagic && !StatsAccepted(dict[8..], tablesSize) ==>
        && r == Err(DictionaryCorrupted) && win == old(win) && flagStaticTables == old(flagStaticTables)
        && rep == RejectedReps(dict[8..], tablesSize, old(rep))
    {
      if dictAddr == 0 || |dict| <= 8 {
        return Ok(0);
      }
      if ReadLE32(dict, 0) != DictMagic {
        r := LoadDictionaryContent(dictAddr, |dict|);
        return;
      }
      dictID := if params.fParams.noDictIDFlag then 0 else ReadLE32(dict, 4);
      var stats := dict[8..];
      assert |stats| == |dict| - 8;
      var loaded := LoadDictEntropyStats(stats, tablesSize);
      var eSize := EntropySize(loaded);
      if eSize.Err? {
        assert !StatsAccepted(stats, tablesSize);
        return Err(eSize.error);
      }
      r := LoadDictionaryContent(dictAddr + eSize.value, |dict| - eSize.value);
    }

    /** ZSTD_compressBegin_internal: a reset for a new frame with zeroed
        tables, then the dictionary. */
    method Begin(p: Params, pledgedSrcSize: U64, dictAddr: int, dict: seq<Byte>, tablesSize: Option<nat>)
      returns (r: Result<nat>)
      requires Usable(p.cParams)
      modifies this
      ensures Valid() && stage == 1 && params == p && frameContentSize == pledgedSrcSize
      ensures fresh(hashTable) && fresh(chainTable) && fresh(hashTable3)
      ensures dictAddr == 0 || |dict| <= 8 ==>
        r == Ok(0) && win == ZstdWindow.InitialWindow && rep == RepStartValue && dictID == 0 && !flagStaticTables
      ensures dictAddr != 0 && |dict| > 8 && ReadLE32(dict, 0) != DictMagic ==>
        (&& r == Ok(0) && win == ZstdWindow.LoadContentWindow(ZstdWindow.InitialWindow, dictAddr, |dict|)
         && rep == RepStartValue && dictID == 0 && !flagStaticTables)
      ensures dictAddr != 0 && |dict| > 8 && ReadLE32(dict, 0) == DictMagic ==>
        && dictID == (if p.fParams.noDictIDFlag then 0 else ReadLE32(dict, 4))
        && (r.Ok? <==> StatsAccepted(dict[8..], tablesSize))
        && (r.Ok? ==> flagStaticTables && rep == DictReps(dict[8..], tablesSize.value))
        && (r.Ok? ==> win == ZstdWindow.LoadContentWindow(ZstdWindow.InitialWindow, dictAddr + 20 + tablesSize.value,
                                                          |dict| - 20 - tablesSize.value))
        && (r.Ok? ==> r == Ok(0))
        && (r.Err? ==>
              && r == Err(DictionaryCorrupted) && win == ZstdWindow.InitialWindow && !flagStaticTables
              && rep == RejectedReps(dict[8..], tablesSize, RepStartValue))
      // The tables stay zeroed when no content is loaded, or no more than 8
      // bytes of it (the load leaves nextToUpdate at dictLimit exactly then):
      // only then does the source not fill them from the dictionary.
      ensures dictAddr == 0 || |dict| <= 8 || r.Err? || win.nextToUpdate == win.dictLimit ==>
        AllZero(hashTable) && AllZero(chainTable) && AllZero(hashTable3)
    {
      Reset(p, pledgedSrcSize, true);
      r := InsertDictionary(dictAddr, dict, tablesSize);
    }
  }
}
