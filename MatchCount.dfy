/** Match-length counting over a window that may be split in two segments,
    and the logical-index resolver the extDict match finders use.
    Pointers are positions in one memory arena `mem`. */
module ZstdMatch {
  import opened ZstdTypes

  /** The length of the longest common prefix of `x` and `y`: the reference
      definition the counting loops are proved against. */
  function CommonPrefix(x: seq<Byte>, y: seq<Byte>): (n: nat)
    ensures n <= |x| && n <= |y|
    decreases |x|
  {
    if |x| == 0 || |y| == 0 || x[0] != y[0] then 0
    else 1 + CommonPrefix(x[1..], y[1..])
  }

  /** The common prefix is where the two sequences stop agreeing. */
  lemma {:induction false} CommonPrefixAgrees(x: seq<Byte>, y: seq<Byte>)
    ensures var n := CommonPrefix(x, y);
      x[..n] == y[..n] && (n < |x| && n < |y| ==> x[n] != y[n])
    decreases |x|
  {
    if |x| > 0 && |y| > 0 && x[0] == y[0] {
      CommonPrefixAgrees(x[1..], y[1..]);
      var m := CommonPrefix(x[1..], y[1..]);
      assert x[..m + 1] == [x[0]] + x[1..][..m];
      assert y[..m + 1] == [y[0]] + y[1..][..m];
    }
  }

  /** A length at which two sequences agree and then stop agreeing is their
      common prefix: the characterisation has exactly one solution. */
  lemma {:induction false} PrefixUnique(x: seq<Byte>, y: seq<Byte>, k: nat)
    requires k <= |x| && k <= |y| && x[..k] == y[..k]
    requires k < |x| && k < |y| ==> x[k] != y[k]
    ensures k == CommonPrefix(x, y)
    decreases k
  {
    if k > 0 {
      assert x[0] == x[..k][0] && y[0] == y[..k][0];
      assert x[1..][..k - 1] == x[..k][1..] && y[1..][..k - 1] == y[..k][1..];
      PrefixUnique(x[1..], y[1..], k - 1);
    }
  }

  /** The index of the first byte where two different equal-length windows
      differ: the arithmetic meaning of ZSTD_NbCommonBytes applied to the
      XOR of two little-endian words. */
  function FirstDifference(x: seq<Byte>, y: seq<Byte>): (k: nat)
    requires |x| == |y| && x != y
    ensures k < |x| && x[..k] == y[..k] && x[k] != y[k]
  {
    assert x[..|x|] == x && y[..|y|] == y;
    CommonPrefixAgrees(x, y);
    CommonPrefix(x, y)
  }

  /** ZSTD_count: the number of bytes at which `mem` agrees at `pIn` and at
      `pMatch`, not counting past `pInLimit`. Eight bytes are compared at a
      time while eight remain, then four, two and one. */
  method Count(mem: seq<Byte>, pIn0: nat, pMatch0: nat, pInLimit: nat) returns (r: nat)
    requires pIn0 <= pInLimit <= |mem|
    requires pMatch0 + (pInLimit - pIn0) <= |mem|
    ensures r == CommonPrefix(mem[pIn0..pInLimit], mem[pMatch0..pMatch0 + (pInLimit - pIn0)])
  {
    var pIn: nat := pIn0;
    var pMatch: nat := pMatch0;
    while pIn < pInLimit - 7
      invariant pIn <= pInLimit && Matched(mem, pIn0, pMatch0, pIn, pMatch)
      decreases pInLimit - pIn
    {
      if mem[pIn..pIn + 8] == mem[pMatch..pMatch + 8] {
        Extend(mem, pIn0, pMatch0, pIn, pMatch, 8);
        pIn := pIn + 8;
        pMatch := pMatch + 8;
      } else {
        var d := FirstDifference(mem[pIn..pIn + 8], mem[pMatch..pMatch + 8]);
        WordMismatch(mem, pIn0, pMatch0, pInLimit, pIn, pMatch, d);
        return pIn + d - pIn0;
      }
    }
    pIn, pMatch := TailStep(mem, pIn0, pMatch0, pInLimit, pIn, pMatch, 4);
    pIn, pMatch := TailStep(mem, pIn0, pMatch0, pInLimit, pIn, pMatch, 2);
    pIn, pMatch := TailStep(mem, pIn0, pMatch0, pInLimit, pIn, pMatch, 1);
    Finish(mem, pIn0, pMatch0, pInLimit, pIn, pMatch);
    r := pIn - pIn0;
  }

  /** The bytes from `pIn0` up to `pIn` agree with those from `pMatch0` up to
      `pMatch`. */
  ghost predicate Matched(mem: seq<Byte>, pIn0: nat, pMatch0: nat, pIn: nat, pMatch: nat)
  {
    pIn0 <= pIn <= |mem| && pMatch - pMatch0 == pIn - pIn0 && pMatch <= |mem| &&
    mem[pIn0..pIn] == mem[pMatch0..pMatch]
  }

  /** A mismatch inside the word at `pIn` ends the count `d` bytes in. */
  lemma WordMismatch(mem: seq<Byte>, pIn0: nat, pMatch0: nat, pInLimit: nat, pIn: nat, pMatch: nat, d: nat)
    requires pIn + 8 <= pInLimit <= |mem| && pMatch0 + (pInLimit - pIn0) <= |mem|
    requires Matched(mem, pIn0, pMatch0, pIn, pMatch)
    requires d < 8 && mem[pIn..pIn + 8][..d] == mem[pMatch..pMatch + 8][..d]
    requires mem[pIn..pIn + 8][d] != mem[pMatch..pMatch + 8][d]
    ensures pIn + d - pIn0 == CommonPrefix(mem[pIn0..pInLimit], mem[pMatch0..pMatch0 + (pInLimit - pIn0)])
  {
    assert mem[pIn..pIn + d] == mem[pIn..pIn + 8][..d];
    assert mem[pMatch..pMatch + d] == mem[pMatch..pMatch + 8][..d];
    Extend(mem, pIn0, pMatch0, pIn, pMatch, d);
    assert mem[pIn + d] == mem[pIn..pIn + 8][d];
    assert mem[pMatch + d] == mem[pMatch..pMatch + 8][d];
    Characterised(mem, pIn0, pMatch0, pInLimit, pIn + d - pIn0);
  }

  /** One of the closing comparisons of ZSTD_count: when `w` more bytes fit
      before the limit and agree, step over them. Fewer than `2 * w` bytes
      could still agree before the step, fewer than `w` after it. */
  method TailStep(mem: seq<Byte>, pIn0: nat, pMatch0: nat, pInLimit: nat, pIn: nat, pMatch: nat, w: nat)
    returns (pIn': nat, pMatch': nat)
    requires pInLimit <= |mem| && pMatch0 + (pInLimit - pIn0) <= |mem|
    requires pIn <= pInLimit && Matched(mem, pIn0, pMatch0, pIn, pMatch)
    requires Disagree(mem, pIn, pMatch, pInLimit, 2 * w)
    ensures pIn' <= pInLimit && Matched(mem, pIn0, pMatch0, pIn', pMatch')
    ensures Disagree(mem, pIn', pMatch', pInLimit, w)
  {
    pIn', pMatch' := pIn, pMatch;
    if pIn < pInLimit - (w - 1) && mem[pIn..pIn + w] == mem[pMatch..pMatch + w] {
      DisagreeSplit(mem, pIn, pMatch, pInLimit, 2 * w, w);
      Extend(mem, pIn0, pMatch0, pIn, pMatch, w);
      pIn', pMatch' := pIn + w, pMatch + w;
    }
  }

  /** The next `b` bytes at `pIn` either run past the limit or differ from
      those at `pMatch`. */
  ghost predicate Disagree(mem: seq<Byte>, pIn: nat, pMatch: nat, pInLimit: nat, b: nat)
  {
    pInLimit < pIn + b ||
    (pIn + b <= |mem| && pMatch + b <= |mem| && mem[pIn..pIn + b] != mem[pMatch..pMatch + b])
  }

  /** If `b` bytes disagree but the first `c` of them agree, the `b - c`
      bytes after those disagree. */
  lemma DisagreeSplit(mem: seq<Byte>, pIn: nat, pMatch: nat, pInLimit: nat, b: nat, c: nat)
    requires c <= b && Disagree(mem, pIn, pMatch, pInLimit, b)
    requires pIn + c <= |mem| && pMatch + c <= |mem| && mem[pIn..pIn + c] == mem[pMatch..pMatch + c]
    ensures Disagree(mem, pIn + c, pMatch + c, pInLimit, b - c)
  {
    if pIn + b <= pInLimit {
      assert mem[pIn..pIn + b] == mem[pIn..pIn + c] + mem[pIn + c..pIn + b];
      assert mem[pMatch..pMatch + b] == mem[pMatch..pMatch + c] + mem[pMatch + c..pMatch + b];
    }
  }

  /** Agreement over a run extends by the next `c` agreeing bytes. */
  lemma Extend(mem: seq<Byte>, pIn0: nat, pMatch0: nat, pIn: nat, pMatch: nat, c: nat)
    requires Matched(mem, pIn0, pMatch0, pIn, pMatch) && pIn + c <= |mem| && pMatch + c <= |mem|
    requires mem[pIn..pIn + c] == mem[pMatch..pMatch + c]
    ensures Matched(mem, pIn0, pMatch0, pIn + c, pMatch + c)
  {
    assert mem[pIn0..pIn + c] == mem[pIn0..pIn] + mem[pIn..pIn + c];
    assert mem[pMatch0..pMatch + c] == mem[pMatch0..pMatch] + mem[pMatch..pMatch + c];
  }

  /** Once not even the next byte agrees, the run is the whole count. */
  lemma Finish(mem: seq<Byte>, pIn0: nat, pMatch0: nat, pInLimit: nat, pIn: nat, pMatch: nat)
    requires pIn <= pInLimit <= |mem| && pMatch0 + (pInLimit - pIn0) <= |mem|
    requires Matched(mem, pIn0, pMatch0, pIn, pMatch) && Disagree(mem, pIn, pMatch, pInLimit, 1)
    ensures pIn - pIn0 == CommonPrefix(mem[pIn0..pInLimit], mem[pMatch0..pMatch0 + (pInLimit - pIn0)])
  {
    if pIn < pInLimit {
      assert mem[pIn..pIn + 1] == [mem[pIn]] && mem[pMatch..pMatch + 1] == [mem[pMatch]];
    }
    Characterised(mem, pIn0, pMatch0, pInLimit, pIn - pIn0);
  }

  /** The two-sided description of a count is the common prefix. */
  lemma Characterised(mem: seq<Byte>, pIn0: nat, pMatch0: nat, pInLimit: nat, r: nat)
    requires pIn0 + r <= pInLimit <= |mem|
    requires pMatch0 + (pInLimit - pIn0) <= |mem|
    requires mem[pIn0..pIn0 + r] == mem[pMatch0..pMatch0 + r]
    requires pIn0 + r < pInLimit ==> mem[pIn0 + r] != mem[pMatch0 + r]
    ensures r == CommonPrefix(mem[pIn0..pInLimit], mem[pMatch0..pMatch0 + (pInLimit - pIn0)])
  {
    var x := mem[pIn0..pInLimit];
    var y := mem[pMatch0..pMatch0 + (pInLimit - pIn0)];
    assert x[..r] == mem[pIn0..pIn0 + r];
    assert y[..r] == mem[pMatch0..pMatch0 + r];
    if r < |x| {
      assert x[r] == mem[pIn0 + r] && y[r] == mem[pMatch0 + r];
    }
    PrefixUnique(x, y, r);
  }

  /** The first `len` bytes of the match side as ZSTD_count_2segments sees
      it: the bytes from `pMatch` up to `mEnd`, then the bytes from `iStart`. */
  ghost predicate Joinable(mem: seq<Byte>, pMatch: nat, mEnd: nat, iStart: nat, len: nat)
  {
    pMatch <= mEnd <= |mem| && iStart <= |mem| && (len > mEnd - pMatch ==> iStart + (len - (mEnd - pMatch)) <= |mem|)
  }

  function Joined(mem: seq<Byte>, pMatch: nat, mEnd: nat, iStart: nat, len: nat): (j: seq<Byte>)
    requires Joinable(mem, pMatch, mEnd, iStart, len)
    ensures |j| == len
  {
    if len <= mEnd - pMatch then mem[pMatch..pMatch + len]
    else mem[pMatch..mEnd] + mem[iStart..iStart + (len - (mEnd - pMatch))]
  }

  /** ZSTD_count_2segments: counts against `pMatch` until `mEnd`, and only
      when the pMatch reaches `mEnd` exactly carries on from `iStart`. The
      result is the common prefix of the input and the joined match side. */
  method Count2Segments(mem: seq<Byte>, ip: nat, pMatch: nat, iEnd: nat, mEnd: nat, iStart: nat)
    returns (r: nat)
    requires ip <= iEnd <= |mem|
    requires Joinable(mem, pMatch, mEnd, iStart, iEnd - ip)
    ensures r == CommonPrefix(mem[ip..iEnd], Joined(mem, pMatch, mEnd, iStart, iEnd - ip))
  {
    var vEnd := if ip + (mEnd - pMatch) < iEnd then ip + (mEnd - pMatch) else iEnd;
    var k := Count(mem, ip, pMatch, vEnd);
    if pMatch + k == mEnd {
      var more := Count(mem, ip + k, iStart, iEnd);
      JoinedSecond(mem, ip, pMatch, iEnd, mEnd, iStart, vEnd, k, more);
      r := k + more;
    } else {
      JoinedFirst(mem, ip, pMatch, iEnd, mEnd, iStart, vEnd, k);
      r := k;
    }
  }

  /** The first count stopped before `mEnd`: it stopped at the end of the
      input or at a difference, so the joined count is the same. */
  lemma JoinedFirst(mem: seq<Byte>, ip: nat, pMatch: nat, iEnd: nat, mEnd: nat, iStart: nat, vEnd: nat, r: nat)
    requires ip <= iEnd <= |mem|
    requires Joinable(mem, pMatch, mEnd, iStart, iEnd - ip)
    requires vEnd == if ip + (mEnd - pMatch) < iEnd then ip + (mEnd - pMatch) else iEnd
    requires r == CommonPrefix(mem[ip..vEnd], mem[pMatch..pMatch + (vEnd - ip)]) && pMatch + r != mEnd
    ensures r == CommonPrefix(mem[ip..iEnd], Joined(mem, pMatch, mEnd, iStart, iEnd - ip))
  {
    var x1 := mem[ip..vEnd];
    var y1 := mem[pMatch..pMatch + (vEnd - ip)];
    var x := mem[ip..iEnd];
    var j := Joined(mem, pMatch, mEnd, iStart, iEnd - ip);
    assert x[..|x1|] == x1;
    JoinedFront(mem, pMatch, mEnd, iStart, iEnd - ip, vEnd - ip);
    CommonPrefixOfExtensions(x1, y1, x, j);
  }

  /** Before `mEnd`, the joined sequence is the match side itself. */
  lemma JoinedFront(mem: seq<Byte>, pMatch: nat, mEnd: nat, iStart: nat, len: nat, n: nat)
    requires Joinable(mem, pMatch, mEnd, iStart, len) && n <= len && n <= mEnd - pMatch
    ensures Joined(mem, pMatch, mEnd, iStart, len)[..n] == mem[pMatch..pMatch + n]
  {
  }

  /** Extending two sequences leaves their common prefix alone when it
      ended at a difference, or when the first one is not extended. */
  lemma CommonPrefixOfExtensions(x1: seq<Byte>, y1: seq<Byte>, x: seq<Byte>, y: seq<Byte>)
    requires |x1| == |y1| <= |x| && |y1| <= |y|
    requires x[..|x1|] == x1 && y[..|y1|] == y1
    requires CommonPrefix(x1, y1) < |x1| || |x1| == |x|
    ensures CommonPrefix(x, y) == CommonPrefix(x1, y1)
  {
    var r := CommonPrefix(x1, y1);
    CommonPrefixAgrees(x1, y1);
    assert x[..r] == x1[..r] && y[..r] == y1[..r];
    if r < |x| {
      assert x[r] == x1[r] && y[r] == y1[r];
    }
    PrefixUnique(x, y, r);
  }

  /** The first count reached `mEnd`: the second count, from `iStart`,
      continues the common prefix over the joined side. */
  lemma JoinedSecond(mem: seq<Byte>, ip: nat, pMatch: nat, iEnd: nat, mEnd: nat, iStart: nat, vEnd: nat, k: nat, more: nat)
    requires ip <= iEnd <= |mem|
    requires Joinable(mem, pMatch, mEnd, iStart, iEnd - ip)
    requires vEnd == if ip + (mEnd - pMatch) < iEnd then ip + (mEnd - pMatch) else iEnd
    requires k == CommonPrefix(mem[ip..vEnd], mem[pMatch..pMatch + (vEnd - ip)]) && pMatch + k == mEnd
    requires ip + k <= iEnd && iStart + (iEnd - (ip + k)) <= |mem|
    requires more == CommonPrefix(mem[ip + k..iEnd], mem[iStart..iStart + (iEnd - (ip + k))])
    ensures k + more == CommonPrefix(mem[ip..iEnd], Joined(mem, pMatch, mEnd, iStart, iEnd - ip))
  {
    assert |mem[ip..vEnd]| == vEnd - ip;
    assert vEnd == ip + k;
    var a := mem[pMatch..mEnd];
    SameWhenFullyCommon(mem[ip..vEnd], mem[pMatch..pMatch + (vEnd - ip)]);
    assert mem[ip..iEnd] == a + mem[ip + k..iEnd];
    JoinedSplits(mem, pMatch, mEnd, iStart, iEnd - ip);
    PrefixAfterCommonPartOf(mem[ip..iEnd], Joined(mem, pMatch, mEnd, iStart, iEnd - ip),
      a, mem[ip + k..iEnd], mem[iStart..iStart + (iEnd - (ip + k))]);
  }

  lemma PrefixAfterCommonPartOf(x: seq<Byte>, j: seq<Byte>, a: seq<Byte>, b: seq<Byte>, d: seq<Byte>)
    requires |b| == |d| && x == a + b && j == a + d
    ensures CommonPrefix(x, j) == |a| + CommonPrefix(b, d)
  {
    PrefixAfterCommonPart(a, b, d);
  }

  /** A common prefix as long as both sequences means they are equal. */
  lemma SameWhenFullyCommon(x: seq<Byte>, y: seq<Byte>)
    requires |x| == |y| == CommonPrefix(x, y)
    ensures x == y
  {
    CommonPrefixAgrees(x, y);
    assert x == x[..|x|] && y == y[..|y|];
  }

  /** The joined sequence is the match side up to `mEnd` followed by the
      bytes from `iStart`, whenever it reaches `mEnd`. */
  lemma JoinedSplits(mem: seq<Byte>, pMatch: nat, mEnd: nat, iStart: nat, len: nat)
    requires Joinable(mem, pMatch, mEnd, iStart, len) && mEnd - pMatch <= len
    ensures Joined(mem, pMatch, mEnd, iStart, len) == mem[pMatch..mEnd] + mem[iStart..iStart + (len - (mEnd - pMatch))]
  {
    if len == mEnd - pMatch {
      assert mem[iStart..iStart] == [];
    }
  }

  /** Two sequences that start with the same part agree for that part and
      then for as long as their remainders agree. */
  lemma {:induction false} PrefixAfterCommonPart(a: seq<Byte>, b: seq<Byte>, d: seq<Byte>)
    requires |b| == |d|
    ensures CommonPrefix(a + b, a + d) == |a| + CommonPrefix(b, d)
    decreases |a|
  {
    if |a| == 0 {
      assert a + b == b && a + d == d;
    } else {
      assert (a + b)[1..] == a[1..] + b && (a + d)[1..] == a[1..] + d;
      PrefixAfterCommonPart(a[1..], b, d);
    }
  }

  /** Where logical index `index` of the window lives in the arena: below
      `dictLimit` in the external-dictionary segment, from `dictLimit` on in
      the prefix segment (`matchIndex < dictLimit ? dictBase : base`). */
  function Resolve(index: nat, dictLimit: nat, base: int, dictBase: int): (p: int)
    ensures index < dictLimit ==> p - dictBase == index
    ensures index >= dictLimit ==> p - base == index
  {
    (if index < dictLimit then dictBase else base) + index
  }

  /** At the extDict call sites the match side ends at `dictEnd` for a match
      in the dictionary segment (else at the input end) and restarts at the
      prefix start: the joined sequence is then the window read through the
      logical indices `m`, `m + 1`, ... */
  lemma ExtDictJoinedIsWindow(mem: seq<Byte>, m: nat, dictLimit: nat, base: int, dictBase: int,
                              pMatch: nat, mEnd: nat, iStart: nat, iEnd: nat, len: nat)
    requires pMatch == Resolve(m, dictLimit, base, dictBase)
    requires mEnd == (if m < dictLimit then dictBase + dictLimit else iEnd)
    requires iStart == base + dictLimit
    requires Joinable(mem, pMatch, mEnd, iStart, len)
    requires m >= dictLimit ==> len <= mEnd - pMatch
    ensures forall i :: m <= i < m + len ==>
      0 <= Resolve(i, dictLimit, base, dictBase) < |mem| &&
      Joined(mem, pMatch, mEnd, iStart, len)[i - m] == mem[Resolve(i, dictLimit, base, dictBase)]
  {
    forall i | m <= i < m + len
      ensures 0 <= Resolve(i, dictLimit, base, dictBase) < |mem|
      ensures Joined(mem, pMatch, mEnd, iStart, len)[i - m] == mem[Resolve(i, dictLimit, base, dictBase)]
    {
      var j := Joined(mem, pMatch, mEnd, iStart, len);
      var k := i - m;
      if k < mEnd - pMatch {
        assert j[k] == mem[pMatch + k];
      } else {
        assert j[k] == mem[iStart + (k - (mEnd - pMatch))];
      }
    }
  }

  /** The repeat-offset guard of the extDict parsers, with its deliberate
      32-bit wrap-around: `(U32)((dictLimit - 1) - repIndex) >= 3` together
      with `repIndex > lowestIndex`. */
  predicate RepIndexUsable(repIndex: U32, dictLimit: U32, lowestIndex: U32)
  {
    ToU32(dictLimit - 1 - repIndex) >= 3 && repIndex > lowestIndex
  }

  /** The guard accepts exactly the indices above `lowestIndex` whose next
      four bytes do not straddle `dictLimit`. */
  lemma RepIndexUsableMeans(repIndex: U32, dictLimit: U32, lowestIndex: U32)
    requires repIndex < TWO32 - 3
    ensures RepIndexUsable(repIndex, dictLimit, lowestIndex) <==>
      repIndex > lowestIndex && (repIndex + 4 <= dictLimit || dictLimit <= repIndex)
  {
    if repIndex < dictLimit {
      assert ToU32(dictLimit - 1 - repIndex) == dictLimit - 1 - repIndex;
    } else {
      DivModUnique(dictLimit - 1 - repIndex, TWO32, -1, TWO32 + dictLimit - 1 - repIndex);
    }
  }

  /** So the four bytes MEM_read32 takes at a usable repeat index are the
      window bytes at the four logical indices from it. */
  lemma RepReadInOneSegment(repIndex: U32, dictLimit: U32, lowestIndex: U32, base: int, dictBase: int)
    requires repIndex < TWO32 - 3 && RepIndexUsable(repIndex, dictLimit, lowestIndex)
    ensures forall i :: repIndex <= i < repIndex + 4 ==>
      Resolve(i, dictLimit, base, dictBase) == Resolve(repIndex, dictLimit, base, dictBase) + (i - repIndex)
  {
    RepIndexUsableMeans(repIndex, dictLimit, lowestIndex);
  }
}
