/** The sequence store of one block (seqStore_t in zstd_compress.c): the
    literal bytes, three parallel arrays of literal lengths, offsets and match
    lengths, the three code arrays ZSTD_seqToCodes fills, and a single side
    slot recording the one length of the block that does not fit 16 bits. */
module ZstdSeqStore {
  import opened ZstdTypes
  import opened ZstdParams

  // ---------------------------------------------------------------------
  // Length and offset codes
  // ---------------------------------------------------------------------

  /** Largest literal length code and match length code; each is used only
      for the long length of the side slot. */
  const MaxLL: nat := 35
  const MaxML: nat := 52
  const LLDeltaCode: nat := 19
  const MLDeltaCode: nat := 36

  // The tables are written eight entries to a line, each line a display of
  // its own, so that the verifier looks entries up through short displays.

  /** LL_Code: the code of each literal length up to 63. */
  const LLCodeTable: seq<Byte> :=
    [  0,  1,  2,  3,  4,  5,  6,  7 ] +
    [  8,  9, 10, 11, 12, 13, 14, 15 ] +
    [ 16, 16, 17, 17, 18, 18, 19, 19 ] +
    [ 20, 20, 20, 20, 21, 21, 21, 21 ] +
    [ 22, 22, 22, 22, 22, 22, 22, 22 ] +
    [ 23, 23, 23, 23, 23, 23, 23, 23 ] +
    [ 24, 24, 24, 24, 24, 24, 24, 24 ] +
    [ 24, 24, 24, 24, 24, 24, 24, 24 ]

  /** ML_Code: the code of each match length (minus the minimum match) up to 127. */
  const MLCodeTable: seq<Byte> :=
    [  0,  1,  2,  3,  4,  5,  6,  7 ] +
    [  8,  9, 10, 11, 12, 13, 14, 15 ] +
    [ 16, 17, 18, 19, 20, 21, 22, 23 ] +
    [ 24, 25, 26, 27, 28, 29, 30, 31 ] +
    [ 32, 32, 33, 33, 34, 34, 35, 35 ] +
    [ 36, 36, 36, 36, 37, 37, 37, 37 ] +
    [ 38, 38, 38, 38, 38, 38, 38, 38 ] +
    [ 39, 39, 39, 39, 39, 39, 39, 39 ] +
    [ 40, 40, 40, 40, 40, 40, 40, 40 ] +
    [ 40, 40, 40, 40, 40, 40, 40, 40 ] +
    [ 41, 41, 41, 41, 41, 41, 41, 41 ] +
    [ 41, 41, 41, 41, 41, 41, 41, 41 ] +
    [ 42, 42, 42, 42, 42, 42, 42, 42 ] +
    [ 42, 42, 42, 42, 42, 42, 42, 42 ] +
    [ 42, 42, 42, 42, 42, 42, 42, 42 ] +
    [ 42, 42, 42, 42, 42, 42, 42, 42 ]

  /** The format's reading of a literal length code: the smallest length of
      the code and the number of extra bits that follow it. */
  const LLBase: seq<nat> :=
    [ 0, 1, 2, 3, 4, 5, 6, 7 ] +
    [ 8, 9, 10, 11, 12, 13, 14, 15 ] +
    [ 16, 18, 20, 22, 24, 28, 32, 40 ] +
    [ 48, 64, 0x80, 0x100, 0x200, 0x400, 0x800, 0x1000 ] +
    [ 0x2000, 0x4000, 0x8000, 0x10000 ]
  const LLBits: seq<nat> :=
    [  0,  0,  0,  0,  0,  0,  0,  0 ] +
    [  0,  0,  0,  0,  0,  0,  0,  0 ] +
    [  1,  1,  1,  1,  2,  2,  3,  3 ] +
    [  4,  6,  7,  8,  9, 10, 11, 12 ] +
    [ 13, 14, 15, 16 ]

  /** The same for match length codes, counted from the minimum match. */
  const MLBase: seq<nat> :=
    [ 0, 1, 2, 3, 4, 5, 6, 7 ] +
    [ 8, 9, 10, 11, 12, 13, 14, 15 ] +
    [ 16, 17, 18, 19, 20, 21, 22, 23 ] +
    [ 24, 25, 26, 27, 28, 29, 30, 31 ] +
    [ 32, 34, 36, 38, 40, 44, 48, 56 ] +
    [ 64, 80, 96, 0x80, 0x100, 0x200, 0x400, 0x800 ] +
    [ 0x1000, 0x2000, 0x4000, 0x8000, 0x10000 ]
  const MLBits: seq<nat> :=
    [  0,  0,  0,  0,  0,  0,  0,  0 ] +
    [  0,  0,  0,  0,  0,  0,  0,  0 ] +
    [  0,  0,  0,  0,  0,  0,  0,  0 ] +
    [  0,  0,  0,  0,  0,  0,  0,  0 ] +
    [  1,  1,  1,  1,  2,  2,  3,  3 ] +
    [  4,  4,  5,  7,  8,  9, 10, 11 ] +
    [ 12, 13, 14, 15, 16 ]

  /** A length code and the low bits of the value written after it, as a
      reader turns them back into a length (the bit writer keeps only as many
      low bits of the value as the code has extra bits). */
  function LLValue(code: nat, extra: nat): nat
    requires code <= MaxLL
  {
    LLBase[code] + extra % Pow2(LLBits[code])
  }

  function MLValue(code: nat, extra: nat): nat
    requires code <= MaxML
  {
    MLBase[code] + extra % Pow2(MLBits[code])
  }

  /** An offset code c stands for 2^c plus c extra bits. */
  function OfValue(code: nat, extra: nat): nat
  {
    Pow2(code) + extra % Pow2(code)
  }

  /** The highest bit of a 16-bit length is at most 15. */
  lemma HighBit16(v: U32)
    requires 0 < v < TWO16
    ensures HighBit32(v) <= 15
  {
    var r := HighBit32(v);
    if r > 15 {
      Pow2Monotone(16, r);
      Pow2Of16();
    }
  }

  /** Code of a literal length, as ZSTD_seqToCodes computes it: the table
      up to 63, above it the highest bit plus 19. */
  function LLCode(ll: U16): (c: nat)
    ensures c < MaxLL
  {
    if ll > 63 then
      HighBit16(ll);
      HighBit32(ll) + LLDeltaCode
    else
      LLTableRoundTrip(ll);
      LLCodeTable[ll]
  }

  /** Code of a match length (minus the minimum match): the table up to 127,
      above it the highest bit plus 36. */
  function MLCode(ml: U16): (c: nat)
    ensures c < MaxML
  {
    if ml > 127 then
      HighBit16(ml);
      HighBit32(ml) + MLDeltaCode
    else
      MLTableRoundTrip(ml);
      MLCodeTable[ml]
  }

  /** Code of a stored offset: its highest bit (0 for 0, as in the portable
      variant of ZSTD_highbit32). */
  function OfCode(offset: U32): (c: nat)
    ensures c <= 31
  {
    HighBit32Portable(offset)
  }

  lemma Pow2Small()
    ensures Pow2(0) == 1 && Pow2(1) == 2 && Pow2(2) == 4 && Pow2(3) == 8 && Pow2(4) == 16
    ensures Pow2(5) == 32 && Pow2(6) == 64 && Pow2(7) == 0x80
  {
  }

  lemma Pow2Medium()
    ensures Pow2(8) == 0x100 && Pow2(9) == 0x200 && Pow2(10) == 0x400 && Pow2(11) == 0x800
    ensures Pow2(12) == 0x1000 && Pow2(13) == 0x2000 && Pow2(14) == 0x4000 && Pow2(15) == 0x8000
    ensures Pow2(16) == 0x1_0000
  {
    Pow2Small();
  }

  /** Above the tables a code is the highest bit plus a constant: its base is
      that power of two and its extra bits are the bits below it. */
  lemma LLHighCode(h: nat)
    requires 6 <= h <= 16
    ensures LLBase[h + LLDeltaCode] == Pow2(h) && LLBits[h + LLDeltaCode] == h
  {
    Pow2Small();
    Pow2Medium();
  }

  lemma MLHighCode(h: nat)
    requires 7 <= h <= 16
    ensures MLBase[h + MLDeltaCode] == Pow2(h) && MLBits[h + MLDeltaCode] == h
  {
    Pow2Small();
    Pow2Medium();
  }

  /** A value in [2^h, 2^(h+1)) is 2^h plus its h low bits. */
  lemma TopBitSplit(v: nat, h: nat)
    requires Pow2(h) <= v < Pow2(h + 1)
    ensures Pow2(h) + v % Pow2(h) == v
  {
    DivModUnique(v, Pow2(h), 1, v - Pow2(h));
  }

  /** Every literal length of 16 bits is read back from its code and its
      low bits. */
  lemma {:induction false} LLCodeRoundTrip(ll: U16)
    ensures LLValue(LLCode(ll), ll) == ll
  {
    if ll <= 63 {
      LLTableRoundTrip(ll);
    } else {
      var h := HighBit32(ll);
      HighBit16(ll);
      if h < 6 {
        Pow2Monotone(h + 1, 6);
        Pow2Small();
      }
      LLHighCode(h);
      TopBitSplit(ll, h);
    }
  }

  /** Every match length of 16 bits is read back from its code and its low bits. */
  lemma {:induction false} MLCodeRoundTrip(ml: U16)
    ensures MLValue(MLCode(ml), ml) == ml
  {
    if ml <= 127 {
      MLTableRoundTrip(ml);
    } else {
      var h := HighBit32(ml);
      HighBit16(ml);
      if h < 7 {
        Pow2Monotone(h + 1, 7);
        Pow2Small();
      }
      MLHighCode(h);
      TopBitSplit(ml, h);
    }
  }

  /** The side slot: a length of 2^16 up to 2^17 - 1, of which only the low
      16 bits were stored, is read back from the largest code. */
  lemma LongLengthRoundTrip(len: nat)
    requires 0x1_0000 <= len < 0x2_0000
    ensures LLValue(MaxLL, len % 0x1_0000) == len
    ensures MLValue(MaxML, len % 0x1_0000) == len
  {
    LLHighCode(16);
    MLHighCode(16);
    Pow2Medium();
    DivModUnique(len, 0x1_0000, 1, len - 0x1_0000);
  }

  /** A stored offset (offset code plus one) is read back from its code and
      its low bits. */
  lemma OfCodeRoundTrip(offset: U32)
    requires offset >= 1
    ensures OfValue(OfCode(offset), offset) == offset
  {
    TopBitSplit(offset, HighBit32(offset));
  }

  /** The table part of the literal length codes is read back exactly: each
      length up to 63 lies in its code's range and its low bits are its
      offset within that range. */
  lemma LLTableRoundTrip(x: nat)
    requires x <= 63
    ensures LLCodeTable[x] < MaxLL && LLValue(LLCodeTable[x], x) == x
  {
    if x < 8 {
      LLRow0(x);
    } else if x < 16 {
      LLRow1(x);
    } else if x < 24 {
      LLRow2(x);
    } else if x < 32 {
      LLRow3(x);
    } else if x < 40 {
      LLRow4(x);
    } else if x < 48 {
      LLRow5(x);
    } else if x < 56 {
      LLRow6(x);
    } else {
      LLRow7(x);
    }
  }

  /** The same for the table part of the match length codes. */
  lemma MLTableRoundTrip(x: nat)
    requires x <= 127
    ensures MLCodeTable[x] < MaxML && MLValue(MLCodeTable[x], x) == x
  {
    if x < 8 {
      MLRow0(x);
    } else if x < 16 {
      MLRow1(x);
    } else if x < 24 {
      MLRow2(x);
    } else if x < 32 {
      MLRow3(x);
    } else if x < 40 {
      MLRow4(x);
    } else if x < 48 {
      MLRow5(x);
    } else if x < 56 {
      MLRow6(x);
    } else if x < 64 {
      MLRow7(x);
    } else if x < 72 {
      MLRow8(x);
    } else if x < 80 {
      MLRow9(x);
    } else if x < 88 {
      MLRow10(x);
    } else if x < 96 {
      MLRow11(x);
    } else if x < 104 {
      MLRow12(x);
    } else if x < 112 {
      MLRow13(x);
    } else if x < 120 {
      MLRow14(x);
    } else {
      MLRow15(x);
    }
  }

  // One lemma per line of each code table, checking the line's entries.

  lemma LLRow0(x: nat)
    requires 0 <= x < 8
    ensures LLCodeTable[x] < MaxLL && LLValue(LLCodeTable[x], x) == x
  {
    Pow2Small();
    assert LLCodeTable[0..8] == [0, 1, 2, 3, 4, 5, 6, 7];
    assert LLCodeTable[x] == LLCodeTable[0..8][x - 0];
  }

  lemma LLRow1(x: nat)
    requires 8 <= x < 16
    ensures LLCodeTable[x] < MaxLL && LLValue(LLCodeTable[x], x) == x
  {
    Pow2Small();
    assert LLCodeTable[8..16] == [8, 9, 10, 11, 12, 13, 14, 15];
    assert LLCodeTable[x] == LLCodeTable[8..16][x - 8];
  }

  lemma LLRow2(x: nat)
    requires 16 <= x < 24
    ensures LLCodeTable[x] < MaxLL && LLValue(LLCodeTable[x], x) == x
  {
    Pow2Small();
    assert LLCodeTable[16..24] == [16, 16, 17, 17, 18, 18, 19, 19];
    assert LLCodeTable[x] == LLCodeTable[16..24][x - 16];
  }

  lemma LLRow3(x: nat)
    requires 24 <= x < 32
    ensures LLCodeTable[x] < MaxLL && LLValue(LLCodeTable[x], x) == x
  {
    Pow2Small();
    assert LLCodeTable[24..32] == [20, 20, 20, 20, 21, 21, 21, 21];
    assert LLCodeTable[x] == LLCodeTable[24..32][x - 24];
  }

  lemma LLRow4(x: nat)
    requires 32 <= x < 40
    ensures LLCodeTable[x] < MaxLL && LLValue(LLCodeTable[x], x) == x
  {
    Pow2Small();
    assert LLCodeTable[32..40] == [22, 22, 22, 22, 22, 22, 22, 22];
    assert LLCodeTable[x] == LLCodeTable[32..40][x - 32];
    assert LLBase[22] == 32 && LLBits[22] == 3;
    DivModUnique(x, 8, 4, x - 32);
  }

  lemma LLRow5(x: nat)
    requires 40 <= x < 48
    ensures LLCodeTable[x] < MaxLL && LLValue(LLCodeTable[x], x) == x
  {
    Pow2Small();
    assert LLCodeTable[40..48] == [23, 23, 23, 23, 23, 23, 23, 23];
    assert LLCodeTable[x] == LLCodeTable[40..48][x - 40];
    assert LLBase[23] == 40 && LLBits[23] == 3;
    DivModUnique(x, 8, 5, x - 40);
  }

  lemma LLRow6(x: nat)
    requires 48 <= x < 56
    ensures LLCodeTable[x] < MaxLL && LLValue(LLCodeTable[x], x) == x
  {
    Pow2Small();
    assert LLCodeTable[48..56] == [24, 24, 24, 24, 24, 24, 24, 24];
    assert LLCodeTable[x] == LLCodeTable[48..56][x - 48];
    assert LLBase[24] == 48 && LLBits[24] == 4;
    DivModUnique(x, 16, 3, x - 48);
  }

  lemma LLRow7(x: nat)
    requires 56 <= x < 64
    ensures LLCodeTable[x] < MaxLL && LLValue(LLCodeTable[x], x) == x
  {
    Pow2Small();
    assert LLCodeTable[56..64] == [24, 24, 24, 24, 24, 24, 24, 24];
    assert LLCodeTable[x] == LLCodeTable[56..64][x - 56];
    assert LLBase[24] == 48 && LLBits[24] == 4;
    DivModUnique(x, 16, 3, x - 48);
  }

  lemma MLRow0(x: nat)
    requires 0 <= x < 8
    ensures MLCodeTable[x] < MaxML && MLValue(MLCodeTable[x], x) == x
  {
    Pow2Small();
    assert MLCodeTable[0..8] == [0, 1, 2, 3, 4, 5, 6, 7];
    assert MLCodeTable[x] == MLCodeTable[0..8][x - 0];
  }

  lemma MLRow1(x: nat)
    requires 8 <= x < 16
    ensures MLCodeTable[x] < MaxML && MLValue(MLCodeTable[x], x) == x
  {
    Pow2Small();
    assert MLCodeTable[8..16] == [8, 9, 10, 11, 12, 13, 14, 15];
    assert MLCodeTable[x] == MLCodeTable[8..16][x - 8];
  }

  lemma MLRow2(x: nat)
    requires 16 <= x < 24
    ensures MLCodeTable[x] < MaxML && MLValue(MLCodeTable[x], x) == x
  {
    Pow2Small();
    assert MLCodeTable[16..24] == [16, 17, 18, 19, 20, 21, 22, 23];
    assert MLCodeTable[x] == MLCodeTable[16..24][x - 16];
  }

  lemma MLRow3(x: nat)
    requires 24 <= x < 32
    ensures MLCodeTable[x] < MaxML && MLValue(MLCodeTable[x], x) == x
  {
    Pow2Small();
    assert MLCodeTable[24..32] == [24, 25, 26, 27, 28, 29, 30, 31];
    assert MLCodeTable[x] == MLCodeTable[24..32][x - 24];
  }

  lemma MLRow4(x: nat)
    requires 32 <= x < 40
    ensures MLCodeTable[x] < MaxML && MLValue(MLCodeTable[x], x) == x
  {
    Pow2Small();
    assert MLCodeTable[32..40] == [32, 32, 33, 33, 34, 34, 35, 35];
    assert MLCodeTable[x] == MLCodeTable[32..40][x - 32];
  }

  lemma MLRow5(x: nat)
    requires 40 <= x < 48
    ensures MLCodeTable[x] < MaxML && MLValue(MLCodeTable[x], x) == x
  {
    Pow2Small();
    assert MLCodeTable[40..48] == [36, 36, 36, 36, 37, 37, 37, 37];
    assert MLCodeTable[x] == MLCodeTable[40..48][x - 40];
  }

  lemma MLRow6(x: nat)
    requires 48 <= x < 56
    ensures MLCodeTable[x] < MaxML && MLValue(MLCodeTable[x], x) == x
  {
    Pow2Small();
    assert MLCodeTable[48..56] == [38, 38, 38, 38, 38, 38, 38, 38];
    assert MLCodeTable[x] == MLCodeTable[48..56][x - 48];
    assert MLBase[38] == 48 && MLBits[38] == 3;
    DivModUnique(x, 8, 6, x - 48);
  }

  lemma MLRow7(x: nat)
    requires 56 <= x < 64
    ensures MLCodeTable[x] < MaxML && MLValue(MLCodeTable[x], x) == x
  {
    Pow2Small();
    assert MLCodeTable[56..64] == [39, 39, 39, 39, 39, 39, 39, 39];
    assert MLCodeTable[x] == MLCodeTable[56..64][x - 56];
    assert MLBase[39] == 56 && MLBits[39] == 3;
    DivModUnique(x, 8, 7, x - 56);
  }

  lemma MLRow8(x: nat)
    requires 64 <= x < 72
    ensures MLCodeTable[x] < MaxML && MLValue(MLCodeTable[x], x) == x
  {
    Pow2Small();
    assert MLCodeTable[64..72] == [40, 40, 40, 40, 40, 40, 40, 40];
    assert MLCodeTable[x] == MLCodeTable[64..72][x - 64];
    assert MLBase[40] == 64 && MLBits[40] == 4;
    DivModUnique(x, 16, 4, x - 64);
  }

  lemma MLRow9(x: nat)
    requires 72 <= x < 80
    ensures MLCodeTable[x] < MaxML && MLValue(MLCodeTable[x], x) == x
  {
    Pow2Small();
    assert MLCodeTable[72..80] == [40, 40, 40, 40, 40, 40, 40, 40];
    assert MLCodeTable[x] == MLCodeTable[72..80][x - 72];
    assert MLBase[40] == 64 && MLBits[40] == 4;
    DivModUnique(x, 16, 4, x - 64);
  }

  lemma MLRow10(x: nat)
    requires 80 <= x < 88
    ensures MLCodeTable[x] < MaxML && MLValue(MLCodeTable[x], x) == x
  {
    Pow2Small();
    assert MLCodeTable[80..88] == [41, 41, 41, 41, 41, 41, 41, 41];
    assert MLCodeTable[x] == MLCodeTable[80..88][x - 80];
    assert MLBase[41] == 80 && MLBits[41] == 4;
    DivModUnique(x, 16, 5, x - 80);
  }

  lemma MLRow11(x: nat)
    requires 88 <= x < 96
    ensures MLCodeTable[x] < MaxML && MLValue(MLCodeTable[x], x) == x
  {
    Pow2Small();
    assert MLCodeTable[88..96] == [41, 41, 41, 41, 41, 41, 41, 41];
    assert MLCodeTable[x] == MLCodeTable[88..96][x - 88];
    assert MLBase[41] == 80 && MLBits[41] == 4;
    DivModUnique(x, 16, 5, x - 80);
  }

  lemma MLRow12(x: nat)
    requires 96 <= x < 104
    ensures MLCodeTable[x] < MaxML && MLValue(MLCodeTable[x], x) == x
  {
    Pow2Small();
    assert MLCodeTable[96..104] == [42, 42, 42, 42, 42, 42, 42, 42];
    assert MLCodeTable[x] == MLCodeTable[96..104][x - 96];
    assert MLBase[42] == 96 && MLBits[42] == 5;
    DivModUnique(x, 32, 3, x - 96);
  }

  lemma MLRow13(x: nat)
    requires 104 <= x < 112
    ensures MLCodeTable[x] < MaxML && MLValue(MLCodeTable[x], x) == x
  {
    Pow2Small();
    assert MLCodeTable[104..112] == [42, 42, 42, 42, 42, 42, 42, 42];
    assert MLCodeTable[x] == MLCodeTable[104..112][x - 104];
    assert MLBase[42] == 96 && MLBits[42] == 5;
    DivModUnique(x, 32, 3, x - 96);
  }

  lemma MLRow14(x: nat)
    requires 112 <= x < 120
    ensures MLCodeTable[x] < MaxML && MLValue(MLCodeTable[x], x) == x
  {
    Pow2Small();
    assert MLCodeTable[112..120] == [42, 42, 42, 42, 42, 42, 42, 42];
    assert MLCodeTable[x] == MLCodeTable[112..120][x - 112];
    assert MLBase[42] == 96 && MLBits[42] == 5;
    DivModUnique(x, 32, 3, x - 96);
  }

  lemma MLRow15(x: nat)
    requires 120 <= x < 128
    ensures MLCodeTable[x] < MaxML && MLValue(MLCodeTable[x], x) == x
  {
    Pow2Small();
    assert MLCodeTable[120..128] == [42, 42, 42, 42, 42, 42, 42, 42];
    assert MLCodeTable[x] == MLCodeTable[120..128][x - 120];
    assert MLBase[42] == 96 && MLBits[42] == 5;
    DivModUnique(x, 32, 3, x - 96);
  }

  // ---------------------------------------------------------------------
  // Stored sequences
  // ---------------------------------------------------------------------

  /** MINMATCH: the shortest match a sequence describes. */
  const MinMatch: nat := 3

  /** A sequence as ZSTD_storeSeq receives it: the literals before the
      match, the offset code (0 for the most recent repeat offset, otherwise
      the distance plus ZSTD_REP_MOVE) and the match length minus MinMatch. */
  datatype Sequence = Sequence(literals: seq<Byte>, offsetCode: U32, matchCode: nat)
  {
    function LitLength(): nat { |literals| }
  }

  /** A sequence with a length that does not fit the 16-bit arrays. */
  predicate IsLong(q: Sequence)
  {
    q.LitLength() > 0xFFFF || q.matchCode > 0xFFFF
  }

  /** The literals of the sequences, one after the other. */
  function AllLiterals(stored: seq<Sequence>): seq<Byte>
  {
    if stored == [] then [] else AllLiterals(stored[..|stored| - 1]) + stored[|stored| - 1].literals
  }

  /** The 16-bit literal lengths, the offset codes plus one and the 16-bit
      match codes the store keeps for `stored`. */
  function LitLengthsOf(stored: seq<Sequence>): seq<U16>
  {
    seq(|stored|, i requires 0 <= i < |stored| => stored[i].LitLength() % TWO16)
  }

  function OffsetsOf(stored: seq<Sequence>): seq<U32>
  {
    seq(|stored|, i requires 0 <= i < |stored| => ToU32(stored[i].offsetCode + 1))
  }

  function MatchLengthsOf(stored: seq<Sequence>): seq<U16>
  {
    seq(|stored|, i requires 0 <= i < |stored| => stored[i].matchCode % TWO16)
  }

  /** The side slot (longLengthID, longLengthPos) after storing `stored`:
      ID 0 when no length was long; otherwise the position of the last
      sequence with a long length, ID 2 when its match length is long and
      ID 1 when only its literal length is. */
  ghost predicate SideSlot(stored: seq<Sequence>, id: nat, pos: nat)
  {
    if id == 0 then
      forall i | 0 <= i < |stored| :: !IsLong(stored[i])
    else
      && pos < |stored|
      && (forall i | pos < i < |stored| :: !IsLong(stored[i]))
      && (if id == 1 then stored[pos].LitLength() > 0xFFFF && stored[pos].matchCode <= 0xFFFF
          else id == 2 && stored[pos].matchCode > 0xFFFF)
  }

  /** The side slot ZSTD_storeSeq leaves after storing `q` at position `n`. */
  function NextSideID(id: nat, q: Sequence): nat
  {
    if q.matchCode > 0xFFFF then 2 else if q.LitLength() > 0xFFFF then 1 else id
  }

  function NextSidePos(pos: nat, n: nat, q: Sequence): nat
  {
    if IsLong(q) then n else pos
  }

  /** Storing a sequence keeps the side slot describing the last long length. */
  lemma SideSlotAppend(stored: seq<Sequence>, id: nat, pos: nat, q: Sequence)
    requires SideSlot(stored, id, pos)
    ensures SideSlot(stored + [q], NextSideID(id, q), NextSidePos(pos, |stored|, q))
  {
    var s := stored + [q];
    if !IsLong(q) && id == 0 {
      forall i | 0 <= i < |s| ensures !IsLong(s[i]) {
        if i < |stored| {
          assert s[i] == stored[i];
        }
      }
    } else if !IsLong(q) {
      forall i | pos < i < |s| ensures !IsLong(s[i]) {
        if i < |stored| {
          assert s[i] == stored[i];
        }
      }
      assert s[pos] == stored[pos];
    }
  }

  /** What the single side slot can represent: no sequence has both lengths
      long, at most one sequence has a long length, and every length is
      below 2^17 so that the largest code reads it back. */
  ghost predicate OneLongLength(stored: seq<Sequence>)
  {
    && (forall i | 0 <= i < |stored| ::
          stored[i].LitLength() < 0x2_0000 && stored[i].matchCode < 0x2_0000
          && !(stored[i].LitLength() > 0xFFFF && stored[i].matchCode > 0xFFFF))
    && (forall i, j | 0 <= i < j < |stored| :: !(IsLong(stored[i]) && IsLong(stored[j])))
  }

  /** Number of source bytes a sequence covers: its literals and its match. */
  function Span(q: Sequence): nat
  {
    q.LitLength() + q.matchCode + MinMatch
  }

  /** Number of source bytes the sequences cover. */
  function Covered(stored: seq<Sequence>): nat
  {
    if stored == [] then 0 else Covered(stored[..|stored| - 1]) + Span(stored[|stored| - 1])
  }

  /** Each sequence covers at least its own span. */
  lemma {:induction false} SpanCovered(stored: seq<Sequence>, i: nat)
    requires i < |stored|
    ensures Span(stored[i]) <= Covered(stored)
  {
    var n := |stored| - 1;
    if i < n {
      SpanCovered(stored[..n], i);
      assert stored[..n][i] == stored[i];
    }
  }

  /** Two distinct sequences cover at least their two spans. */
  lemma {:induction false} TwoSpansCovered(stored: seq<Sequence>, i: nat, j: nat)
    requires i < j < |stored|
    ensures Span(stored[i]) + Span(stored[j]) <= Covered(stored)
  {
    var n := |stored| - 1;
    assert stored[..n][i] == stored[i];
    if j < n {
      TwoSpansCovered(stored[..n], i, j);
      assert stored[..n][j] == stored[j];
    } else {
      SpanCovered(stored[..n], i);
    }
  }

  /** The sequences of one block (at most 128 KB of source) never need more
      than the single side slot: two long lengths would cover more than a
      block. */
  lemma BlockNeedsOneSlot(stored: seq<Sequence>)
    requires Covered(stored) <= 128 * 1024
    ensures OneLongLength(stored)
  {
    forall i | 0 <= i < |stored|
      ensures stored[i].LitLength() < 0x2_0000 && stored[i].matchCode < 0x2_0000
      ensures !(stored[i].LitLength() > 0xFFFF && stored[i].matchCode > 0xFFFF)
    {
      SpanCovered(stored, i);
    }
    forall i, j | 0 <= i < j < |stored|
      ensures !(IsLong(stored[i]) && IsLong(stored[j]))
    {
      TwoSpansCovered(stored, i, j);
    }
  }

  // ---------------------------------------------------------------------
  // Codes of the stored sequences
  // ---------------------------------------------------------------------

  /** The literal length codes ZSTD_seqToCodes produces: the code of each
      16-bit length, and MaxLL at the side slot when ID is 1. */
  function LLCodes(lls: seq<U16>, id: nat, pos: nat): seq<Byte>
  {
    seq(|lls|, u requires 0 <= u < |lls| => if id == 1 && u == pos then MaxLL else LLCode(lls[u]))
  }

  function OfCodes(offs: seq<U32>): seq<Byte>
  {
    seq(|offs|, u requires 0 <= u < |offs| => OfCode(offs[u]))
  }

  function MLCodes(mls: seq<U16>, id: nat, pos: nat): seq<Byte>
  {
    seq(|mls|, u requires 0 <= u < |mls| => if id == 2 && u == pos then MaxML else MLCode(mls[u]))
  }

  /** Within a sequence that is not long, or at the side slot, the code
      picked for the literal length reads back the true length. */
  lemma LiteralLengthRecovered(stored: seq<Sequence>, id: nat, pos: nat, v: nat)
    requires OneLongLength(stored) && SideSlot(stored, id, pos) && v < |stored|
    ensures LLCodes(LitLengthsOf(stored), id, pos)[v] <= MaxLL
    ensures LLValue(LLCodes(LitLengthsOf(stored), id, pos)[v], LitLengthsOf(stored)[v]) == stored[v].LitLength()
  {
    var lls := LitLengthsOf(stored);
    var len := stored[v].LitLength();
    assert lls[v] == len % TWO16;
    if len > 0xFFFF {
      SlotNamesLong(stored, id, pos, v);
      assert LLCodes(lls, id, pos)[v] == MaxLL;
      LongLengthRoundTrip(len);
    } else {
      assert !(id == 1 && v == pos);
      assert lls[v] == len;
      assert LLCodes(lls, id, pos)[v] == LLCode(len);
      LLCodeRoundTrip(len);
    }
  }

  lemma MatchLengthRecovered(stored: seq<Sequence>, id: nat, pos: nat, v: nat)
    requires OneLongLength(stored) && SideSlot(stored, id, pos) && v < |stored|
    ensures MLCodes(MatchLengthsOf(stored), id, pos)[v] <= MaxML
    ensures MLValue(MLCodes(MatchLengthsOf(stored), id, pos)[v], MatchLengthsOf(stored)[v]) == stored[v].matchCode
  {
    var mls := MatchLengthsOf(stored);
    var len := stored[v].matchCode;
    assert mls[v] == len % TWO16;
    if len > 0xFFFF {
      SlotNamesLong(stored, id, pos, v);
      assert MLCodes(mls, id, pos)[v] == MaxML;
      LongLengthRoundTrip(len);
    } else {
      assert !(id == 2 && v == pos);
      assert mls[v] == len;
      assert MLCodes(mls, id, pos)[v] == MLCode(len);
      MLCodeRoundTrip(len);
    }
  }

  /** When the block has one long length, the side slot names its sequence. */
  lemma SlotNamesLong(stored: seq<Sequence>, id: nat, pos: nat, v: nat)
    requires OneLongLength(stored) && SideSlot(stored, id, pos) && v < |stored|
    requires IsLong(stored[v])
    ensures id != 0 && pos == v
    ensures id == 1 <==> stored[v].LitLength() > 0xFFFF
  {
    if id == 0 {
      assert false;
    } else if pos < v {
      assert false;
    } else if v < pos {
      assert false;
    }
  }

  /** Every stored offset code below 2^32 - 1 is read back from its code and
      the offset the store keeps. */
  lemma OffsetRecovered(stored: seq<Sequence>, v: nat)
    requires v < |stored| && stored[v].offsetCode < TWO32 - 1
    ensures OfValue(OfCodes(OffsetsOf(stored))[v], OffsetsOf(stored)[v]) == stored[v].offsetCode + 1
  {
    OfCodeRoundTrip(stored[v].offsetCode + 1);
  }

  /** Storing one more sequence appends its literals and one entry to each
      array. */
  lemma AppendContents(stored: seq<Sequence>, q: Sequence)
    ensures AllLiterals(stored + [q]) == AllLiterals(stored) + q.literals
    ensures LitLengthsOf(stored + [q]) == LitLengthsOf(stored) + [q.LitLength() % TWO16]
    ensures OffsetsOf(stored + [q]) == OffsetsOf(stored) + [ToU32(q.offsetCode + 1)]
    ensures MatchLengthsOf(stored + [q]) == MatchLengthsOf(stored) + [q.matchCode % TWO16]
  {
    assert (stored + [q])[..|stored|] == stored;
  }

  /** The contents of a store that holds `stored`: the literals one after
      the other, one entry per sequence in each array, and the side slot. */
  ghost predicate Holds(stored: seq<Sequence>, lits: seq<Byte>, lls: seq<U16>, offs: seq<U32>, mls: seq<U16>,
                        id: nat, pos: nat)
  {
    && lits == AllLiterals(stored)
    && lls == LitLengthsOf(stored) && offs == OffsetsOf(stored) && mls == MatchLengthsOf(stored)
    && SideSlot(stored, id, pos)
  }

  /** What ZSTD_storeSeq does to the contents (append to each part, update
      the side slot) yields the contents of the store holding one more
      sequence. */
  lemma StoreKeepsContents(stored: seq<Sequence>, lits: seq<Byte>, lls: seq<U16>, offs: seq<U32>, mls: seq<U16>,
                           id: nat, pos: nat, q: Sequence)
    requires Holds(stored, lits, lls, offs, mls, id, pos)
    ensures Holds(stored + [q], lits + q.literals, lls + [q.LitLength() % TWO16], offs + [ToU32(q.offsetCode + 1)],
                  mls + [q.matchCode % TWO16], NextSideID(id, q), NextSidePos(pos, |stored|, q))
  {
    AppendContents(stored, q);
    SideSlotAppend(stored, id, pos, q);
  }

  /** Copies `src` to `a` from position `at` (ZSTD_wildcopy, without the
      over-copy past the end of `src`). */
  method CopyInto(a: array<Byte>, at: nat, src: seq<Byte>)
    requires at + |src| <= a.Length
    modifies a
    ensures a[..] == old(a[..at]) + src + old(a[at + |src|..])
    ensures a[..at + |src|] == old(a[..at]) + src
  {
    forall k | 0 <= k < |src| {
      a[at + k] := src[k];
    }
    assert a[..at + |src|] == old(a[..at]) + src;
    assert a[..] == a[..at + |src|] + a[at + |src|..];
  }

  /** One 16-bit entry written at `at`. */
  method PutU16(a: array<U16>, at: nat, x: U16)
    requires at < a.Length
    modifies a
    ensures a[..] == old(a[..])[at := x]
    ensures a[..at + 1] == old(a[..at]) + [x]
  {
    a[at] := x;
    assert a[..at + 1] == old(a[..at]) + [x];
  }

  /** One 32-bit entry written at `at`. */
  method PutU32(a: array<U32>, at: nat, x: U32)
    requires at < a.Length
    modifies a
    ensures a[..] == old(a[..])[at := x]
    ensures a[..at + 1] == old(a[..at]) + [x]
  {
    a[at] := x;
    assert a[..at + 1] == old(a[..at]) + [x];
  }

  /** The literal length loop of ZSTD_seqToCodes, then MaxLL at the side
      slot when its ID is 1. */
  method FillLLCodes(lls: array<U16>, codes: array<Byte>, nbSeq: nat, id: nat, pos: U32)
    requires nbSeq <= lls.Length && nbSeq <= codes.Length
    requires id == 1 ==> pos < nbSeq
    modifies codes
    ensures codes[..nbSeq] == LLCodes(lls[..nbSeq], id, pos)
    ensures codes[nbSeq..] == old(codes[nbSeq..])
  {
    var u := 0;
    while u < nbSeq
      invariant 0 <= u <= nbSeq
      invariant forall v | 0 <= v < u :: codes[v] == LLCode(lls[v])
      invariant forall v | u <= v < codes.Length :: codes[v] == old(codes[v])
    {
      codes[u] := LLCode(lls[u]);
      u := u + 1;
    }
    if id == 1 {
      codes[pos] := MaxLL;
    }
    assert codes[..nbSeq] == LLCodes(lls[..nbSeq], id, pos);
  }

  /** The offset loop of ZSTD_seqToCodes. */
  method FillOfCodes(offs: array<U32>, codes: array<Byte>, nbSeq: nat)
    requires nbSeq <= offs.Length && nbSeq <= codes.Length
    modifies codes
    ensures codes[..nbSeq] == OfCodes(offs[..nbSeq])
    ensures codes[nbSeq..] == old(codes[nbSeq..])
  {
    var u := 0;
    while u < nbSeq
      invariant 0 <= u <= nbSeq
      invariant forall v | 0 <= v < u :: codes[v] == OfCode(offs[v])
      invariant forall v | u <= v < codes.Length :: codes[v] == old(codes[v])
    {
      codes[u] := OfCode(offs[u]);
      u := u + 1;
    }
    assert codes[..nbSeq] == OfCodes(offs[..nbSeq]);
  }

  /** The match length loop of ZSTD_seqToCodes, then MaxML at the side slot
      when its ID is 2. */
  method FillMLCodes(mls: array<U16>, codes: array<Byte>, nbSeq: nat, id: nat, pos: U32)
    requires nbSeq <= mls.Length && nbSeq <= codes.Length
    requires id == 2 ==> pos < nbSeq
    modifies codes
    ensures codes[..nbSeq] == MLCodes(mls[..nbSeq], id, pos)
    ensures codes[nbSeq..] == old(codes[nbSeq..])
  {
    var u := 0;
    while u < nbSeq
      invariant 0 <= u <= nbSeq
      invariant forall v | 0 <= v < u :: codes[v] == MLCode(mls[v])
      invariant forall v | u <= v < codes.Length :: codes[v] == old(codes[v])
    {
      codes[u] := MLCode(mls[u]);
      u := u + 1;
    }
    if id == 2 {
      codes[pos] := MaxML;
    }
    assert codes[..nbSeq] == MLCodes(mls[..nbSeq], id, pos);
  }

  // ---------------------------------------------------------------------
  // The store
  // ---------------------------------------------------------------------

  /** The sequence store of a block. The arrays have the capacities the
      context reserved for them; the write positions count the entries
      stored since the last reset. */
  class SeqStore {
    const litBuffer: array<Byte>
    const litLengths: array<U16>
    const offsets: array<U32>
    const matchLengths: array<U16>
    const llCodes: array<Byte>
    const ofCodes: array<Byte>
    const mlCodes: array<Byte>

    var lit: nat
    var litLength: nat
    var offset: nat
    var matchLength: nat
    var longLengthID: nat
    var longLengthPos: U32

    /** The sequences stored since the last reset. */
    ghost var stored: seq<Sequence>

    /** The arrays are separate buffers. */
    ghost predicate Layout()
    {
      && litLengths != matchLengths
      && litBuffer != llCodes && litBuffer != ofCodes && litBuffer != mlCodes
      && llCodes != ofCodes && llCodes != mlCodes && ofCodes != mlCodes
    }

    ghost predicate Valid()
      reads this, litBuffer, litLengths, offsets, matchLengths
    {
      && Layout()
      && litLength == |stored| && offset == |stored| && matchLength == |stored|
      && litLength <= litLengths.Length && offset <= offsets.Length && matchLength <= matchLengths.Length
      && lit <= litBuffer.Length
      && Holds(stored, litBuffer[..lit], litLengths[..litLength], offsets[..offset], matchLengths[..matchLength],
               longLengthID, longLengthPos)
    }

    /** A store with room for `maxNbSeq` sequences and `litCapacity` literal
        bytes. */
    constructor (maxNbSeq: nat, litCapacity: nat)
      ensures Valid() && stored == []
      ensures litBuffer.Length == litCapacity
      ensures litLengths.Length == maxNbSeq && offsets.Length == maxNbSeq && matchLengths.Length == maxNbSeq
      ensures llCodes.Length == maxNbSeq && ofCodes.Length == maxNbSeq && mlCodes.Length == maxNbSeq
      ensures fresh(litBuffer) && fresh(litLengths) && fresh(offsets) && fresh(matchLengths)
      ensures fresh(llCodes) && fresh(ofCodes) && fresh(mlCodes)
    {
      litBuffer := new Byte[litCapacity](_ => 0);
      litLengths := new U16[maxNbSeq](_ => 0);
      offsets := new U32[maxNbSeq](_ => 0);
      matchLengths := new U16[maxNbSeq](_ => 0);
      llCodes := new Byte[maxNbSeq](_ => 0);
      ofCodes := new Byte[maxNbSeq](_ => 0);
      mlCodes := new Byte[maxNbSeq](_ => 0);
      lit, litLength, offset, matchLength := 0, 0, 0, 0;
      longLengthID, longLengthPos := 0, 0;
      stored := [];
    }

    /** ZSTD_resetSeqStore: every write position back to the start of its
        array and the side slot cleared (its position is left as it was). */
    method Reset()
      requires Layout()
      modifies this
      ensures Valid() && stored == []
      ensures lit == 0 && litLength == 0 && offset == 0 && matchLength == 0
      ensures longLengthID == 0 && longLengthPos == old(longLengthPos)
    {
      lit, litLength, offset, matchLength := 0, 0, 0, 0;
      longLengthID := 0;
      stored := [];
    }

    /** ZSTD_storeSeq: copies the literals, then appends the literal length,
        the offset code plus one and the match code, each cut to the width of
        its array; a length above 0xFFFF claims the side slot. */
    method StoreSeq(literals: seq<Byte>, offsetCode: U32, matchCode: nat)
      requires Valid()
      requires lit + |literals| <= litBuffer.Length
      requires litLength < litLengths.Length && offset < offsets.Length && matchLength < matchLengths.Length
      requires litLength < TWO32
      modifies this, litBuffer, litLengths, offsets, matchLengths
      ensures Valid()
      ensures stored == old(stored) + [Sequence(literals, offsetCode, matchCode)]
      ensures lit == old(lit) + |literals|
      ensures litBuffer[..] == old(litBuffer[..lit]) + literals + old(litBuffer[lit + |literals|..])
      ensures litLength == old(litLength) + 1 && offset == old(offset) + 1 && matchLength == old(matchLength) + 1
      ensures litLengths[..] == old(litLengths[..])[old(litLength) := |literals| % TWO16]
      ensures offsets[..] == old(offsets[..])[old(offset) := ToU32(offsetCode + 1)]
      ensures matchLengths[..] == old(matchLengths[..])[old(matchLength) := matchCode % TWO16]
      ensures longLengthID == NextSideID(old(longLengthID), Sequence(literals, offsetCode, matchCode))
      ensures longLengthPos == NextSidePos(old(longLengthPos), old(litLength), Sequence(literals, offsetCode, matchCode))
    {
      ghost var q := Sequence(literals, offsetCode, matchCode);
      StoreKeepsContents(stored, litBuffer[..lit], litLengths[..litLength], offsets[..offset],
                         matchLengths[..matchLength], longLengthID, longLengthPos, q);
      WriteEntry(literals, offsetCode, matchCode);
      Advance(|literals|, matchCode, q);
    }

    /** The writes of ZSTD_storeSeq: the literals at `lit` and one entry at
        the write position of each array. */
    method WriteEntry(literals: seq<Byte>, offsetCode: U32, matchCode: nat)
      requires Layout()
      requires lit + |literals| <= litBuffer.Length
      requires litLength < litLengths.Length && offset < offsets.Length && matchLength < matchLengths.Length
      modifies litBuffer, litLengths, offsets, matchLengths
      ensures litBuffer[..] == old(litBuffer[..lit]) + literals + old(litBuffer[lit + |literals|..])
      ensures litLengths[..] == old(litLengths[..])[litLength := |literals| % TWO16]
      ensures offsets[..] == old(offsets[..])[offset := ToU32(offsetCode + 1)]
      ensures matchLengths[..] == old(matchLengths[..])[matchLength := matchCode % TWO16]
      ensures litBuffer[..lit + |literals|] == old(litBuffer[..lit]) + literals
      ensures litLengths[..litLength + 1] == old(litLengths[..litLength]) + [|literals| % TWO16]
      ensures offsets[..offset + 1] == old(offsets[..offset]) + [ToU32(offsetCode + 1)]
      ensures matchLengths[..matchLength + 1] == old(matchLengths[..matchLength]) + [matchCode % TWO16]
    {
      CopyInto(litBuffer, lit, literals);
      PutU16(litLengths, litLength, |literals| % TWO16);
      PutU32(offsets, offset, ToU32(offsetCode + 1));
      PutU16(matchLengths, matchLength, matchCode % TWO16);
    }

    /** The pointer updates of ZSTD_storeSeq, once the entries of `q` are
        written: each write position moves past its new entry, and a long
        length claims the side slot (the match length after the literal
        length, so that 2 wins when both are long). */
    method Advance(n: nat, matchCode: nat, ghost q: Sequence)
      requires n == |q.literals| && matchCode == q.matchCode
      requires litLength == |stored| && offset == |stored| && matchLength == |stored| && litLength < TWO32
      modifies this`lit, this`litLength, this`offset, this`matchLength, this`longLengthID, this`longLengthPos, this`stored
      ensures stored == old(stored) + [q]
      ensures lit == old(lit) + n
      ensures litLength == old(litLength) + 1 && offset == old(offset) + 1 && matchLength == old(matchLength) + 1
      ensures longLengthID == NextSideID(old(longLengthID), q)
      ensures longLengthPos == NextSidePos(old(longLengthPos), old(litLength), q)
    {
      var id, pos := longLengthID, longLengthPos;
      if n > 0xFFFF {
        id, pos := 1, litLength;
      }
      if matchCode > 0xFFFF {
        id, pos := 2, matchLength;
      }
      lit, litLength, offset, matchLength := lit + n, litLength + 1, offset + 1, matchLength + 1;
      longLengthID, longLengthPos := id, pos;
      stored := stored + [q];
    }

    /** ZSTD_seqToCodes: the code of every stored length and offset, with the
        largest code at the side slot; the code arrays beyond the sequences
        keep their contents. */
    method SeqToCodes(nbSeq: nat)
      requires Valid() && nbSeq == |stored|
      requires nbSeq <= llCodes.Length && nbSeq <= ofCodes.Length && nbSeq <= mlCodes.Length
      modifies llCodes, ofCodes, mlCodes
      ensures llCodes[..nbSeq] == LLCodes(LitLengthsOf(stored), longLengthID, longLengthPos)
      ensures ofCodes[..nbSeq] == OfCodes(OffsetsOf(stored))
      ensures mlCodes[..nbSeq] == MLCodes(MatchLengthsOf(stored), longLengthID, longLengthPos)
      ensures llCodes[nbSeq..] == old(llCodes[nbSeq..])
      ensures ofCodes[nbSeq..] == old(ofCodes[nbSeq..])
      ensures mlCodes[nbSeq..] == old(mlCodes[nbSeq..])
    {
      FillLLCodes(litLengths, llCodes, nbSeq, longLengthID, longLengthPos);
      FillOfCodes(offsets, ofCodes, nbSeq);
      FillMLCodes(matchLengths, mlCodes, nbSeq, longLengthID, longLengthPos);
    }
  }
}
