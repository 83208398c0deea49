/** Machine types, error kinds and little-endian helpers shared by the
    model of the Zstandard 0.7.4 compressor. */
module ZstdTypes {

  const TWO8: int := 0x100
  const TWO16: int := 0x1_0000
  const TWO32: int := 0x1_0000_0000
  const TWO64: int := 0x1_0000_0000_0000_0000

  type Byte = b: int | 0 <= b < 0x100
  type U16 = x: int | 0 <= x < 0x1_0000
  type U32 = x: int | 0 <= x < 0x1_0000_0000
  type U64 = x: int | 0 <= x < 0x1_0000_0000_0000_0000

  /** The error kinds of the compressor that the model can produce. */
  datatype ZstdError =
    | Generic
    | CompressionParameterUnsupported
    | StageWrong
    | DstSizeTooSmall
    | DictionaryCorrupted

  datatype Result<T> = Ok(value: T) | Err(error: ZstdError)

  /** ZSTD_error_maxCode: one more than the largest error number. */
  const ErrorMaxCode: nat := 18

  /** The numbers error_public.h gives the error kinds above. */
  function ErrorNumber(e: ZstdError): (n: nat)
    ensures 1 <= n < ErrorMaxCode
  {
    match e
    case Generic => 1
    case CompressionParameterUnsupported => 5
    case StageWrong => 8
    case DstSizeTooSmall => 9
    case DictionaryCorrupted => 16
  }

  /** ERR_isError: the values of size_t above ERROR(maxCode) are errors. */
  predicate IsErrorCode(c: U64)
  {
    c > TWO64 - ErrorMaxCode
  }

  /** ERROR(e): an error travels as the size_t value -e. */
  function ErrorCode(e: ZstdError): (c: U64)
    ensures IsErrorCode(c)
    ensures ErrorOfCode(c) == Some(e)
  {
    TWO64 - ErrorNumber(e)
  }

  /** The error kind a size_t carries, if it is the code of one the model knows. */
  function ErrorOfCode(c: U64): (r: Option<ZstdError>)
    ensures r.Some? ==> IsErrorCode(c) && TWO64 - c == ErrorNumber(r.value)
  {
    if c == TWO64 - 1 then Some(Generic)
    else if c == TWO64 - 5 then Some(CompressionParameterUnsupported)
    else if c == TWO64 - 8 then Some(StageWrong)
    else if c == TWO64 - 9 then Some(DstSizeTooSmall)
    else if c == TWO64 - 16 then Some(DictionaryCorrupted)
    else None
  }

  /** The size_t a C function returns for a result: the value itself, or the
      error's code. */
  function ReturnCode(r: Result<nat>): (c: U64)
    requires r.Ok? ==> r.value <= TWO64 - ErrorMaxCode
    ensures r.Ok? <==> !IsErrorCode(c)
    ensures r.Ok? ==> c == r.value
    ensures r.Err? ==> ErrorOfCode(c) == Some(r.error)
  {
    match r
    case Ok(v) => v
    case Err(e) => ErrorCode(e)
  }

  datatype Option<T> = None | Some(value: T)

  /** Conversion to a 32-bit unsigned integer, as a C cast does it. */
  function ToU32(x: int): (r: U32)
    ensures 0 <= x < TWO32 ==> r == x
    ensures (r - x) % TWO32 == 0
  {
    x % TWO32
  }

  /** Conversion to a 64-bit unsigned integer, as a C cast does it. */
  function ToU64(x: int): (r: U64)
    ensures 0 <= x < TWO64 ==> r == x
    ensures (r - x) % TWO64 == 0
  {
    x % TWO64
  }

  function Pow2(n: nat): (r: nat)
    ensures r >= 1
  {
    if n == 0 then 1 else 2 * Pow2(n - 1)
  }

  lemma {:induction false} Pow2Add(a: nat, b: nat)
    ensures Pow2(a + b) == Pow2(a) * Pow2(b)
  {
    if a > 0 {
      Pow2Add(a - 1, b);
    }
  }

  lemma {:induction false} Pow2Monotone(a: nat, b: nat)
    requires a <= b
    ensures Pow2(a) <= Pow2(b)
  {
    if a < b {
      Pow2Monotone(a, b - 1);
    }
  }

  lemma {:induction false} Pow2StrictMonotone(a: nat, b: nat)
    requires a < b
    ensures Pow2(a) < Pow2(b)
  {
    Pow2Monotone(a, b - 1);
  }

  /** The powers of two the model refers to by value. */
  lemma Pow2Values()
    ensures Pow2(8) == TWO8 && Pow2(16) == TWO16 && Pow2(32) == TWO32 && Pow2(64) == TWO64
    ensures Pow2(31) == 0x8000_0000 && Pow2(17) == 0x2_0000 && Pow2(18) == 0x4_0000
    ensures Pow2(27) == 0x800_0000 && Pow2(14) == 0x4000 && Pow2(12) == 0x1000
  {
    assert Pow2(4) == 16;
    Pow2Add(4, 4);
    Pow2Add(8, 8);
    Pow2Add(16, 16);
    Pow2Add(32, 32);
    Pow2Add(16, 1);
    Pow2Add(16, 2);
    Pow2Add(16, 11);
    Pow2Add(14, 2);
    Pow2Add(12, 4);
  }

  // Single values, so that a proof brings only the power it needs into scope.
  lemma Pow2Of8() ensures Pow2(8) == TWO8 { Pow2Values(); }
  lemma Pow2Of14() ensures Pow2(14) == 0x4000 { Pow2Values(); }
  lemma Pow2Of16() ensures Pow2(16) == TWO16 { Pow2Values(); }
  lemma Pow2Of17() ensures Pow2(17) == 0x2_0000 { Pow2Values(); }
  lemma Pow2Of18() ensures Pow2(18) == 0x4_0000 { Pow2Values(); }
  lemma Pow2Of27() ensures Pow2(27) == 0x800_0000 { Pow2Values(); }
  lemma Pow2Of31() ensures Pow2(31) == 0x8000_0000 { Pow2Values(); }
  lemma Pow2Of32() ensures Pow2(32) == TWO32 { Pow2Values(); }
  lemma Pow2Of64() ensures Pow2(64) == TWO64 { Pow2Values(); }

  lemma MulAtLeast(a: int, d: int)
    requires a >= 1 && d > 0
    ensures a * d >= d
  {
  }

  /** Quotient and remainder are determined by any decomposition v == q * d + r
      with 0 <= r < d. */
  lemma DivModUnique(v: int, d: int, q: int, r: int)
    requires d > 0 && v == q * d + r && 0 <= r < d
    ensures v / d == q && v % d == r
  {
    var q' := v / d;
    var r' := v % d;
    assert v == q' * d + r';
    var k := q - q';
    assert k * d == r' - r by {
      assert q * d - q' * d == (q - q') * d;
    }
    if k > 0 {
      MulAtLeast(k, d);
    } else if k < 0 {
      MulAtLeast(-k, d);
    }
  }

  /** The two bytes of `v` in little-endian order (MEM_writeLE16). */
  function LE16(v: U16): (r: seq<Byte>)
    ensures |r| == 2 && r[0] + 0x100 * (r[1] as int) == v
  {
    [v % 0x100, v / 0x100]
  }

  /** The four bytes of `v` in little-endian order (MEM_writeLE32). */
  function LE32(v: U32): (r: seq<Byte>)
    ensures |r| == 4 && ReadLE32(r, 0) == v
  {
    LE32Digits(v);
    [v % 0x100, (v / 0x100) % 0x100, (v / 0x1_0000) % 0x100, v / 0x100_0000]
  }

  /** The base-256 digits of a 32-bit value. */
  lemma LE32Digits(v: U32)
    ensures v / 0x100_0000 < 0x100
    ensures v % 0x100 + 0x100 * ((v / 0x100) % 0x100) + 0x1_0000 * ((v / 0x1_0000) % 0x100)
            + 0x100_0000 * (v / 0x100_0000) == v
  {
    var b0 := v % 0x100;
    var q1 := v / 0x100;
    var b1 := q1 % 0x100;
    var q2 := q1 / 0x100;
    var b2 := q2 % 0x100;
    var b3 := q2 / 0x100;
    assert v == q2 * 0x1_0000 + (b1 * 0x100 + b0);
    DivModUnique(v, 0x1_0000, q2, b1 * 0x100 + b0);
    assert v == b3 * 0x100_0000 + (b2 * 0x1_0000 + b1 * 0x100 + b0);
    DivModUnique(v, 0x100_0000, b3, b2 * 0x1_0000 + b1 * 0x100 + b0);
  }

  /** The eight bytes of `v` in little-endian order (MEM_writeLE64). */
  function LE64(v: U64): (r: seq<Byte>)
    ensures |r| == 8 && ReadLE64(r, 0) == v
  {
    LE32(v % TWO32) + LE32(v / TWO32)
  }

  /** MEM_readLE32 at position `p` of `s`. */
  function ReadLE32(s: seq<Byte>, p: nat): (r: U32)
    requires p + 4 <= |s|
  {
    s[p] + 0x100 * (s[p + 1] as int) + 0x1_0000 * (s[p + 2] as int) + 0x100_0000 * (s[p + 3] as int)
  }

  /** MEM_readLE64 at position `p` of `s`. */
  function ReadLE64(s: seq<Byte>, p: nat): (r: U64)
    requires p + 8 <= |s|
  {
    ReadLE32(s, p) + TWO32 * ReadLE32(s, p + 4)
  }

  /** MEM_readLE16 at position `p` of `s`. */
  function ReadLE16(s: seq<Byte>, p: nat): (r: U16)
    requires p + 2 <= |s|
  {
    s[p] + 0x100 * (s[p + 1] as int)
  }

  /** Reading at `p` only depends on the bytes there. */
  lemma ReadLE16At(h: seq<Byte>, p: nat, f: seq<Byte>)
    requires |f| == 2 && p + 2 <= |h| && h[p..p + 2] == f
    ensures ReadLE16(h, p) == ReadLE16(f, 0)
  {
    assert h[p] == f[0] && h[p + 1] == f[1];
  }

  lemma ReadLE32At(h: seq<Byte>, p: nat, f: seq<Byte>)
    requires |f| == 4 && p + 4 <= |h| && h[p..p + 4] == f
    ensures ReadLE32(h, p) == ReadLE32(f, 0)
  {
    assert h[p] == f[0] && h[p + 1] == f[1] && h[p + 2] == f[2] && h[p + 3] == f[3];
  }

  lemma ReadLE64At(h: seq<Byte>, p: nat, f: seq<Byte>)
    requires |f| == 8 && p + 8 <= |h| && h[p..p + 8] == f
    ensures ReadLE64(h, p) == ReadLE64(f, 0)
  {
    assert h[p..p + 4] == f[..4];
    assert h[p + 4..p + 8] == f[4..];
    ReadLE32At(h, p, f[..4]);
    ReadLE32At(h, p + 4, f[4..]);
    ReadLE32At(f, 0, f[..4]);
    ReadLE32At(f, 4, f[4..]);
  }
}
