/** The window cut points of a compression context and how each operation
    moves them. Indices are 32-bit positions in the logical input stream;
    `base + i` is where index `i >= dictLimit` lives in the arena and
    `dictBase + i` where index `i < dictLimit` lives. */
module ZstdWindow {
  import opened ZstdTypes
  import opened ZstdMatch

  const CorrectionThreshold: nat := 0x4000_0000

  /** The fields of ZSTD_CCtx that describe the window. Pointers are arena
      addresses (NULL is 0). */
  datatype Window = Window(
    nextSrc: int,
    base: int,
    dictBase: int,
    dictLimit: U32,
    lowLimit: U32,
    nextToUpdate: U32,
    loadedDictEnd: U32)

  /** The index one past the last byte handed to the context. */
  function EndIndex(w: Window): int
  {
    w.nextSrc - w.base
  }

  /** Cut points in order, and the end index representable in 32 bits. */
  predicate Ordered(w: Window)
  {
    w.lowLimit <= w.dictLimit <= EndIndex(w) < TWO32
  }

  /** The window right after ZSTD_resetCCtx_advanced. */
  const InitialWindow: Window := Window(0, 0, 0, 0, 0, 1, 0)

  lemma InitialOrdered()
    ensures Ordered(InitialWindow) && EndIndex(InitialWindow) == 0
  {
  }

  // ---------------------------------------------------------------------
  // ZSTD_compressContinue_internal
  // ---------------------------------------------------------------------

  /** A chunk that does not follow the previous one: the previous prefix
      becomes the external dictionary, the new chunk starts the prefix at
      the old end index, and an external dictionary under 8 bytes is
      dropped. A contiguous chunk changes nothing. */
  function NewSegment(w: Window, ip: int): (r: Window)
    ensures ip == w.nextSrc ==> r == w
    ensures r.nextSrc == w.nextSrc && r.loadedDictEnd == w.loadedDictEnd
    ensures ip != w.nextSrc && 0 <= EndIndex(w) < TWO32 ==>
      && r.dictLimit == EndIndex(w)
      && r.base + r.dictLimit == ip
      && r.dictBase == w.base
      && r.nextToUpdate == r.dictLimit
  {
    if ip == w.nextSrc then w
    else
      var dictLimit := ToU32(w.nextSrc - w.base);
      var lowLimit := if ToU32(dictLimit - w.dictLimit) < 8 then dictLimit else w.dictLimit;
      w.(lowLimit := lowLimit, dictLimit := dictLimit, dictBase := w.base,
         base := w.base - (w.nextSrc - ip), nextToUpdate := dictLimit)
  }

  /** After a new segment, the external dictionary is the whole old prefix
      when that holds at least 8 bytes, and empty otherwise. */
  lemma NewSegmentDictionary(w: Window, ip: int)
    requires Ordered(w) && ip != w.nextSrc
    ensures var r := NewSegment(w, ip);
      if EndIndex(w) - w.dictLimit >= 8 then r.lowLimit == w.dictLimit else r.lowLimit == r.dictLimit
  {
  }

  /** The amount ZSTD_compressContinue_internal takes off every index once
      lowLimit passes 2^30: lowLimit less its remainder modulo the chain
      table size (`lowLimit & chainMask` is that remainder). */
  function Correction(w: Window, chainLog: nat, btPlus: nat): (c: U32)
    requires btPlus < chainLog
    ensures c <= w.lowLimit
    ensures c % Pow2(chainLog - btPlus) == 0
    ensures w.lowLimit > CorrectionThreshold ==> w.lowLimit - c < Pow2(chainLog - btPlus)
    ensures w.lowLimit <= CorrectionThreshold ==> c == 0
  {
    if w.lowLimit > CorrectionThreshold then
      var m := Pow2(chainLog - btPlus);
      var c := w.lowLimit - w.lowLimit % m;
      DivModUnique(c, m, w.lowLimit / m, 0);
      c
    else 0
  }

  /** The preemptive overflow correction: every index drops by the
      correction and both bases rise by it; nextToUpdate is floored at 0. */
  function Rebase(w: Window, chainLog: nat, btPlus: nat): (r: Window)
    requires btPlus < chainLog
  {
    var c := Correction(w, chainLog, btPlus);
    if w.lowLimit > CorrectionThreshold then
      w.(base := w.base + c, dictBase := w.dictBase + c, lowLimit := w.lowLimit - c,
         dictLimit := ToU32(w.dictLimit - c),
         nextToUpdate := if w.nextToUpdate < c then 0 else w.nextToUpdate - c)
    else w
  }

  /** Rebasing moves no byte: index `i - c` after it resolves to the same
      arena address as index `i` before it, and lands in the same chain
      table slot. The window keeps its order and its end address. */
  lemma RebaseKeepsAddresses(w: Window, chainLog: nat, btPlus: nat, i: nat)
    requires btPlus < chainLog && Ordered(w)
    requires Correction(w, chainLog, btPlus) <= i
    ensures var c := Correction(w, chainLog, btPlus); var r := Rebase(w, chainLog, btPlus);
      && Resolve(i - c, r.dictLimit, r.base, r.dictBase) == Resolve(i, w.dictLimit, w.base, w.dictBase)
      && (i - c) % Pow2(chainLog - btPlus) == i % Pow2(chainLog - btPlus)
      && Ordered(r) && r.nextSrc == w.nextSrc
      && r.dictLimit == w.dictLimit - c && r.lowLimit == w.lowLimit - c
  {
    var c := Correction(w, chainLog, btPlus);
    var m := Pow2(chainLog - btPlus);
    DivModUnique(i - c, m, i / m - c / m, i % m);
  }

  /** When the input overlaps the live part of the external dictionary,
      the dictionary is cut to start after the input (or emptied). */
  function ReduceOverlap(w: Window, ip: int, srcSize: nat): (r: Window)
    ensures r == w.(lowLimit := r.lowLimit)
  {
    if ip + srcSize > w.dictBase + w.lowLimit && ip < w.dictBase + w.dictLimit then
      var low := ToU32(ip + srcSize - w.dictBase);
      w.(lowLimit := if low > w.dictLimit then w.dictLimit else low)
    else w
  }

  /** Afterwards the live dictionary bytes and the input are disjoint, and
      the dictionary only shrank. */
  lemma ReduceOverlapSeparates(w: Window, ip: int, srcSize: nat)
    requires w.lowLimit <= w.dictLimit
    requires ip + srcSize - w.dictBase < TWO32
    ensures var r := ReduceOverlap(w, ip, srcSize);
      && w.lowLimit <= r.lowLimit <= r.dictLimit
      && (ip + srcSize <= r.dictBase + r.lowLimit || r.dictBase + r.dictLimit <= ip || r.lowLimit == r.dictLimit)
  {
  }

  /** The window updates of ZSTD_compressContinue_internal, in the order the
      source makes them, ending with the new nextSrc. */
  function ContinueWindow(w: Window, ip: int, srcSize: nat, chainLog: nat, btPlus: nat): (r: Window)
    requires btPlus < chainLog
  {
    var w3 := ReduceOverlap(Rebase(NewSegment(w, ip), chainLog, btPlus), ip, srcSize);
    w3.(nextSrc := ip + srcSize)
  }

  /** As long as the end index of the new input fits in 32 bits, the window
      stays ordered, the new input ends the window, and the prefix never
      reaches back before the input when the chunk is not contiguous. */
  lemma ContinueKeepsOrder(w: Window, ip: int, srcSize: nat, chainLog: nat, btPlus: nat)
    requires btPlus < chainLog && Ordered(w)
    requires EndIndex(w) + srcSize < TWO32
    ensures var r := ContinueWindow(w, ip, srcSize, chainLog, btPlus);
      && Ordered(r)
      && r.nextSrc == ip + srcSize
      && (ip != w.nextSrc ==> r.base + r.dictLimit == ip)
  {
    var w1 := NewSegment(w, ip);
    var c := Correction(w1, chainLog, btPlus);
    var w2 := Rebase(w1, chainLog, btPlus);
    assert w1.lowLimit <= w1.dictLimit;
    assert w2.dictLimit == w1.dictLimit - c && w2.lowLimit == w1.lowLimit - c;
    assert w2.base == w1.base + c;
    ReduceOverlapSeparatesCheap(w2, ip, srcSize);
  }

  /** The part of ReduceOverlapSeparates that needs no bound on the input. */
  lemma ReduceOverlapSeparatesCheap(w: Window, ip: int, srcSize: nat)
    requires w.lowLimit <= w.dictLimit
    ensures var r := ReduceOverlap(w, ip, srcSize); r.lowLimit <= r.dictLimit
  {
  }

  // ---------------------------------------------------------------------
  // ZSTD_loadDictionaryContent
  // ---------------------------------------------------------------------

  /** Dictionary content becomes the current prefix: the previous prefix
      becomes the external dictionary and the content occupies the indices
      from the old end index up to loadedDictEnd. With more than 8 bytes of
      content the tables are filled and nextToUpdate moves to its end. */
  function LoadContentWindow(w: Window, ip: int, srcSize: nat): (r: Window)
  {
    var dictLimit := ToU32(w.nextSrc - w.base);
    var base := w.base + (ip - w.nextSrc);
    var loadedDictEnd := ToU32(ip + srcSize - base);
    Window(ip + srcSize, base, w.base, dictLimit, w.dictLimit,
           if srcSize <= 8 then dictLimit else loadedDictEnd, loadedDictEnd)
  }

  /** The content is addressed at indices dictLimit .. loadedDictEnd, right
      after what came before, and the window stays ordered. */
  lemma LoadContentPlacesDictionary(w: Window, ip: int, srcSize: nat)
    requires Ordered(w) && EndIndex(w) + srcSize < TWO32
    ensures var r := LoadContentWindow(w, ip, srcSize);
      && Ordered(r)
      && r.dictLimit == EndIndex(w)
      && r.base + r.dictLimit == ip
      && r.base + r.loadedDictEnd == ip + srcSize
      && r.loadedDictEnd - r.dictLimit == srcSize
      && r.nextToUpdate == (if srcSize <= 8 then r.dictLimit else r.loadedDictEnd)
  {
  }

  // ---------------------------------------------------------------------
  // ZSTD_compress_generic: the maximum distance
  // ---------------------------------------------------------------------

  /** Before each block, a window longer than `maxDist` past the loaded
      dictionary is shortened by raising lowLimit (and dictLimit with it). */
  function EnforceMaxDist(w: Window, blockEnd: int, maxDist: U32): (r: Window)
    ensures r == w.(lowLimit := r.lowLimit, dictLimit := r.dictLimit)
  {
    var current := ToU32(blockEnd - w.base);
    if current > ToU32(w.loadedDictEnd + maxDist) then
      var newLowLimit := ToU32(current - maxDist);
      var low := if w.lowLimit < newLowLimit then newLowLimit else w.lowLimit;
      w.(lowLimit := low, dictLimit := if w.dictLimit < low then low else w.dictLimit)
    else w
  }

  /** After enforcement no index of the window lies further than `maxDist`
      back from the end of the block, and the cut points keep their order. */
  lemma EnforceMaxDistBounds(w: Window, blockEnd: int, maxDist: U32)
    requires w.lowLimit <= w.dictLimit
    requires 0 <= blockEnd - w.base < TWO32 && w.loadedDictEnd + maxDist < TWO32
    ensures var r := EnforceMaxDist(w, blockEnd, maxDist);
      && w.lowLimit <= r.lowLimit <= r.dictLimit && w.dictLimit <= r.dictLimit
      && (blockEnd - w.base > w.loadedDictEnd + maxDist ==> blockEnd - w.base - r.lowLimit <= maxDist)
  {
  }
}
