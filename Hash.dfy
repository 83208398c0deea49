/** The multiplicative hashes the match finders index their tables with:
    the input word is shifted so that only its first `mls` bytes remain,
    multiplied by a prime on 32 or 64 bits, and the top `h` bits are kept. */
module ZstdHash {
  import opened ZstdTypes

  const Prime3: U32 := 506832829
  const Prime4: U32 := 2654435761
  const Prime5: U64 := 889523592379
  const Prime6: U64 := 227718039650203
  const Prime7: U64 := 58295818150454627
  const Prime8: U64 := 0xCF1B_BCDC_B7A5_6463

  /** The top `h` bits of a `w`-bit value: `x >> (w - h)`. */
  function TopBits(x: nat, w: nat, h: nat): (r: nat)
    requires 0 < h <= w && x < Pow2(w)
    ensures r < Pow2(h)
  {
    Pow2Add(w - h, h);
    DivBelow(x, Pow2(w - h), Pow2(h));
    x / Pow2(w - h)
  }

  lemma DivBelow(x: nat, d: nat, m: nat)
    requires d > 0 && x < d * m
    ensures x / d < m
  {
  }

  lemma MulMonotone(a: nat, b: nat, d: nat)
    requires a <= b
    ensures a * d <= b * d
  {
  }

  /** ZSTD_hash3: the low three bytes of `u`, on 32 bits. */
  function Hash3(u: U32, h: nat): (r: nat)
    requires 0 < h <= 32
    ensures r < Pow2(h)
  {
    Pow2Of32();
    TopBits((((u * 0x100) % TWO32) * Prime3) % TWO32, 32, h)
  }

  /** ZSTD_hash4: the four bytes of `u`, on 32 bits. */
  function Hash4(u: U32, h: nat): (r: nat)
    requires 0 < h <= 32
    ensures r < Pow2(h)
  {
    Pow2Of32();
    TopBits((u * Prime4) % TWO32, 32, h)
  }

  /** ZSTD_hash5: the low five bytes of `u`, on 64 bits. */
  function Hash5(u: U64, h: nat): (r: nat)
    requires 0 < h <= 64
    ensures r < Pow2(h)
  {
    Pow2Of64();
    TopBits((((u * 0x100_0000) % TWO64) * Prime5) % TWO64, 64, h)
  }

  /** ZSTD_hash6: the low six bytes of `u`, on 64 bits. */
  function Hash6(u: U64, h: nat): (r: nat)
    requires 0 < h <= 64
    ensures r < Pow2(h)
  {
    Pow2Of64();
    TopBits((((u * 0x1_0000) % TWO64) * Prime6) % TWO64, 64, h)
  }

  /** ZSTD_hash7: the low seven bytes of `u`, on 64 bits. */
  function Hash7(u: U64, h: nat): (r: nat)
    requires 0 < h <= 64
    ensures r < Pow2(h)
  {
    Pow2Of64();
    TopBits((((u * 0x100) % TWO64) * Prime7) % TWO64, 64, h)
  }

  /** ZSTD_hash8: all eight bytes of `u`, on 64 bits. */
  function Hash8(u: U64, h: nat): (r: nat)
    requires 0 < h <= 64
    ensures r < Pow2(h)
  {
    Pow2Of64();
    TopBits((u * Prime8) % TWO64, 64, h)
  }

  /** The bytes ZSTD_hashPtr reads at `p`: four for a minimum match of 4
      (and for any length outside 5..8), eight otherwise. */
  function ReadWidth(mls: nat): nat
  {
    if 5 <= mls <= 8 then 8 else 4
  }

  /** The number of leading bytes a hash depends on. */
  function HashedBytes(mls: nat): nat
  {
    if 5 <= mls <= 8 then mls else 4
  }

  /** ZSTD_hashPtr: the hash of the word at `p` for minimum match length
      `mls` (lengths other than 5 to 8 use the 4-byte hash). The word is
      read little-endian. */
  function HashPtr(s: seq<Byte>, p: nat, hBits: nat, mls: nat): (r: nat)
    requires 0 < hBits <= 32 && p + ReadWidth(mls) <= |s|
    ensures r < Pow2(hBits)
  {
    if mls == 5 then Hash5(ReadLE64(s, p), hBits)
    else if mls == 6 then Hash6(ReadLE64(s, p), hBits)
    else if mls == 7 then Hash7(ReadLE64(s, p), hBits)
    else if mls == 8 then Hash8(ReadLE64(s, p), hBits)
    else Hash4(ReadLE32(s, p), hBits)
  }

  /** The value of the first `k` bytes at `p`, little-endian. */
  function LowBytes(s: seq<Byte>, p: nat, k: nat): (v: nat)
    requires p + k <= |s|
    decreases k
  {
    if k == 0 then 0 else s[p] as int + 0x100 * LowBytes(s, p + 1, k - 1)
  }

  /** Shifting left by 64 - 8k on 64 bits keeps exactly the low k bytes. */
  lemma ShiftKeepsLowBytes(u: U64, low: nat, lowSize: nat, shift: nat)
    requires lowSize * shift == TWO64 && lowSize > 0 && shift > 0
    requires low == u % lowSize
    ensures (u * shift) % TWO64 == low * shift
  {
    var q := u / lowSize;
    assert u == q * lowSize + low;
    assert u * shift == q * TWO64 + low * shift by {
      assert u * shift == (q * lowSize + low) * shift;
      assert (q * lowSize) * shift == q * (lowSize * shift);
    }
    assert low * shift < TWO64 by {
      MulMonotone(low + 1, lowSize, shift);
    }
    DivModUnique(u * shift, TWO64, q, low * shift);
  }

  /** The low five, six or seven bytes of a little-endian 64-bit word are
      the first bytes read. */
  lemma LowBytesOfWord(s: seq<Byte>, p: nat)
    requires p + 8 <= |s|
    ensures ReadLE64(s, p) % 0x100_0000_0000 == LowBytes(s, p, 5)
    ensures ReadLE64(s, p) % 0x1_0000_0000_0000 == LowBytes(s, p, 6)
    ensures ReadLE64(s, p) % 0x100_0000_0000_0000 == LowBytes(s, p, 7)
  {
    assert LowBytes(s, p, 5) == s[p] as int + 0x100 * (s[p + 1] as int) + 0x1_0000 * (s[p + 2] as int)
                                + 0x100_0000 * (s[p + 3] as int) + 0x1_0000_0000 * (s[p + 4] as int);
    assert LowBytes(s, p, 6) == LowBytes(s, p, 5) + 0x100_0000_0000 * (s[p + 5] as int) by {
      LowBytesStep(s, p, 5);
    }
    assert LowBytes(s, p, 7) == LowBytes(s, p, 6) + 0x1_0000_0000_0000 * (s[p + 6] as int) by {
      LowBytesStep(s, p, 6);
    }
    var w := ReadLE64(s, p);
    assert w == LowBytes(s, p, 7) + 0x100_0000_0000_0000 * (s[p + 7] as int);
    DivModUnique(w, 0x100_0000_0000, s[p + 5] as int + 0x100 * (s[p + 6] as int) + 0x1_0000 * (s[p + 7] as int), LowBytes(s, p, 5));
    DivModUnique(w, 0x1_0000_0000_0000, s[p + 6] as int + 0x100 * (s[p + 7] as int), LowBytes(s, p, 6));
    DivModUnique(w, 0x100_0000_0000_0000, s[p + 7] as int, LowBytes(s, p, 7));
  }

  /** One more byte at the top. */
  lemma {:induction false} LowBytesStep(s: seq<Byte>, p: nat, k: nat)
    requires p + k + 1 <= |s|
    ensures LowBytes(s, p, k + 1) == LowBytes(s, p, k) + Pow2(8 * k) * (s[p + k] as int)
    decreases k
  {
    if k > 0 {
      LowBytesStep(s, p + 1, k - 1);
      Pow2Add(8, 8 * (k - 1));
      Pow2Of8();
      Distribute(0x100, LowBytes(s, p + 1, k - 1), Pow2(8 * (k - 1)), s[p + k] as int);
    }
  }

  lemma Distribute(a: int, b: int, c: int, d: int)
    ensures a * (b + c * d) == a * b + (a * c) * d
  {
  }

  /** LowBytes only looks at the bytes it covers. */
  lemma {:induction false} LowBytesSame(s: seq<Byte>, p: nat, t: seq<Byte>, q: nat, k: nat)
    requires p + k <= |s| && q + k <= |t| && s[p..p + k] == t[q..q + k]
    ensures LowBytes(s, p, k) == LowBytes(t, q, k)
    decreases k
  {
    if k > 0 {
      assert s[p] == s[p..p + k][0] == t[q..q + k][0] == t[q];
      assert s[p + 1..p + 1 + (k - 1)] == s[p..p + k][1..];
      assert t[q + 1..q + 1 + (k - 1)] == t[q..q + k][1..];
      LowBytesSame(s, p + 1, t, q + 1, k - 1);
    }
  }

  /** The partner of the hashes: a table slot is decided by the first
      `mls` bytes at a position (four for the 4-byte hash), so two
      positions that start alike for that many bytes share a slot. */
  lemma HashPtrDependsOnPrefix(s: seq<Byte>, p: nat, t: seq<Byte>, q: nat, hBits: nat, mls: nat)
    requires 0 < hBits <= 32
    requires p + ReadWidth(mls) <= |s| && q + ReadWidth(mls) <= |t|
    requires s[p..p + HashedBytes(mls)] == t[q..q + HashedBytes(mls)]
    ensures HashPtr(s, p, hBits, mls) == HashPtr(t, q, hBits, mls)
  {
    if 5 <= mls <= 7 {
      ShortWordHashSame(s, p, t, q, hBits, mls);
    } else if mls == 8 {
      ReadLE64At(s, p, t[q..q + 8]);
      ReadLE64At(t, q, t[q..q + 8]);
    } else {
      ReadLE32At(s, p, t[q..q + 4]);
      ReadLE32At(t, q, t[q..q + 4]);
    }
  }

  /** The 5-, 6- and 7-byte hashes: the shift drops the bytes beyond the
      first `mls` of the 8 read. */
  lemma ShortWordHashSame(s: seq<Byte>, p: nat, t: seq<Byte>, q: nat, hBits: nat, mls: nat)
    requires 0 < hBits <= 32 && 5 <= mls <= 7
    requires p + 8 <= |s| && q + 8 <= |t| && s[p..p + mls] == t[q..q + mls]
    ensures HashPtr(s, p, hBits, mls) == HashPtr(t, q, hBits, mls)
  {
    LowBytesSame(s, p, t, q, mls);
    LowBytesOfWord(s, p);
    LowBytesOfWord(t, q);
    var u := ReadLE64(s, p);
    var v := ReadLE64(t, q);
    if mls == 5 {
      ShiftKeepsLowBytes(u, u % 0x100_0000_0000, 0x100_0000_0000, 0x100_0000);
      ShiftKeepsLowBytes(v, v % 0x100_0000_0000, 0x100_0000_0000, 0x100_0000);
    } else if mls == 6 {
      ShiftKeepsLowBytes(u, u % 0x1_0000_0000_0000, 0x1_0000_0000_0000, 0x1_0000);
      ShiftKeepsLowBytes(v, v % 0x1_0000_0000_0000, 0x1_0000_0000_0000, 0x1_0000);
    } else {
      ShiftKeepsLowBytes(u, u % 0x100_0000_0000_0000, 0x100_0000_0000_0000, 0x100);
      ShiftKeepsLowBytes(v, v % 0x100_0000_0000_0000, 0x100_0000_0000_0000, 0x100);
    }
  }
}
