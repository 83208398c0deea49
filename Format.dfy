/** Byte layouts the compressor writes in the Zstandard 0.7 frame format
    (pre-standard; not the layout of RFC 8878): block headers and the frame
    epilogue, raw/RLE/Huffman literals headers, the sequence-count header and
    the frame header. Each layout comes with the parser a decoder of that
    format would apply to it, and a round-trip lemma. */
module ZstdFormat {
  import opened ZstdTypes

  const BlockHeaderSize: nat := 3
  const MinCBlockSize: nat := 3
  const BlockSizeMax: nat := 128 * 1024

  // blockType_t
  const BtCompressed: nat := 0
  const BtRaw: nat := 1
  const BtRle: nat := 2
  const BtEnd: nat := 3

  // litBlockType_t
  const LbtHuffman: nat := 0
  const LbtRepeat: nat := 1
  const LbtRaw: nat := 2
  const LbtRle: nat := 3

  const MagicNumber: U32 := 0xFD2F_B527
  const FrameHeaderSizeMax: nat := 18
  const LongNbSeq: nat := 0x7F00
  const LiteralNoEntropy: nat := 63

  /** Largest value a 22-bit block size field holds. */
  const BlockSizeFieldLimit: nat := 0x40_0000

  // ---------------------------------------------------------------------
  // Block header (3 bytes: 2-bit block type, 22-bit big-endian size)
  // ---------------------------------------------------------------------

  /** The three header bytes of a block of type `blockType` whose size field
      is `size`; the type is added on top of the size byte, as the source does. */
  function BlockHeader(blockType: nat, size: nat): (h: seq<Byte>)
    requires blockType < 4
    ensures |h| == BlockHeaderSize
  {
    [((size / 0x1_0000) % 0x100 + blockType * 0x40) % 0x100, (size / 0x100) % 0x100, size % 0x100]
  }

  datatype BlockHeaderFields = BlockHeaderFields(blockType: nat, size: nat)

  /** How a reader of the format splits three header bytes. */
  function ParseBlockHeader(h: seq<Byte>): (f: BlockHeaderFields)
    requires |h| >= BlockHeaderSize
    ensures f.blockType < 4 && f.size < BlockSizeFieldLimit
  {
    var b0: int := h[0];
    BlockHeaderFields(b0 / 0x40, (b0 % 0x40) * 0x1_0000 + (h[1] as int) * 0x100 + h[2])
  }

  /** A size below 2^22 is read back together with the block type. */
  lemma BlockHeaderRoundTrip(blockType: nat, size: nat, rest: seq<Byte>)
    requires blockType < 4 && size < BlockSizeFieldLimit
    ensures ParseBlockHeader(BlockHeader(blockType, size) + rest) == BlockHeaderFields(blockType, size)
  {
    var h := BlockHeader(blockType, size) + rest;
    var top, low := size / 0x1_0000, size % 0x1_0000;
    assert top < 0x40;
    assert h[0] == top + blockType * 0x40 by {
      DivModUnique(top, 0x100, 0, top);
      DivModUnique(top + blockType * 0x40, 0x100, 0, top + blockType * 0x40);
    }
    assert h[0] / 0x40 == blockType && h[0] % 0x40 == top by {
      DivModUnique(h[0], 0x40, blockType, top);
    }
    assert (h[1] as int) * 0x100 + (h[2] as int) == low by {
      DivModUnique(size / 0x100, 0x100, top, low / 0x100);
      DivModUnique(size, 0x100, size / 0x100, low % 0x100);
    }
  }

  /** Every three bytes are the header of the block they are parsed as. */
  lemma BlockHeaderOnto(h: seq<Byte>)
    requires |h| == BlockHeaderSize
    ensures var f := ParseBlockHeader(h); BlockHeader(f.blockType, f.size) == h
  {
    var b0: int := h[0];
    var h1: int := h[1];
    var h2: int := h[2];
    var f := ParseBlockHeader(h);
    var top := b0 % 0x40;
    DivModUnique(f.size, 0x1_0000, top, h1 * 0x100 + h2);
    DivModUnique(f.size, 0x100, top * 0x100 + h1, h2);
    DivModUnique(top * 0x100 + h1, 0x100, top, h1);
    DivModUnique(top, 0x100, 0, top);
    DivModUnique(b0, 0x100, 0, top + f.blockType * 0x40);
  }

  /** ZSTD_noCompressBlock: a raw block (header then the source bytes), or
      dstSize_tooSmall when the header and source do not fit. The capacity is
      the length of `dst`. */
  method NoCompressBlock(dst: array<Byte>, src: seq<Byte>) returns (r: Result<nat>)
    modifies dst
    ensures r.Err? <==> |src| + BlockHeaderSize > dst.Length
    ensures r.Err? ==> r.error == DstSizeTooSmall && dst[..] == old(dst[..])
    ensures r.Ok? ==> r.value == |src| + BlockHeaderSize
    ensures r.Ok? ==> dst[..r.value] == BlockHeader(BtRaw, |src|) + src
    ensures r.Ok? ==> dst[r.value..] == old(dst[r.value..])
  {
    if |src| + BlockHeaderSize > dst.Length {
      return Err(DstSizeTooSmall);
    }
    forall i | 0 <= i < |src| {
      dst[BlockHeaderSize + i] := src[i];
    }
    var h := BlockHeader(BtRaw, |src|);
    dst[0], dst[1], dst[2] := h[0], h[1], h[2];
    r := Ok(|src| + BlockHeaderSize);
    assert dst[..r.value] == h + src;
  }

  // ---------------------------------------------------------------------
  // Frame epilogue
  // ---------------------------------------------------------------------

  /** The 22-bit checksum field of the epilogue: bits 11 to 32 of the XXH64
      digest of the content when the checksum flag is set, 0 otherwise. */
  function EpilogueChecksum(checksumFlag: bool, digest: U64): (c: nat)
    ensures c < BlockSizeFieldLimit
    ensures !checksumFlag ==> c == 0
  {
    if checksumFlag then (digest / 0x800) % BlockSizeFieldLimit else 0
  }

  /** The 3-byte frame epilogue written by ZSTD_compressEnd: block type bt_end
      and the checksum field in place of a size. */
  function Epilogue(checksumFlag: bool, digest: U64): (h: seq<Byte>)
    ensures |h| == BlockHeaderSize
    ensures ParseBlockHeader(h) == BlockHeaderFields(BtEnd, EpilogueChecksum(checksumFlag, digest))
  {
    var checksum := EpilogueChecksum(checksumFlag, digest);
    BlockHeaderRoundTrip(BtEnd, checksum, []);
    assert [] + BlockHeader(BtEnd, checksum) == BlockHeader(BtEnd, checksum);
    var h := [(BtEnd * 0x40 + checksum / 0x1_0000) % 0x100, (checksum / 0x100) % 0x100, checksum % 0x100];
    assert h == BlockHeader(BtEnd, checksum);
    h
  }

  // ---------------------------------------------------------------------
  // Literals section header
  // ---------------------------------------------------------------------

  /** Header length of a raw or RLE literals block: 1, 2 or 3 bytes. */
  function RawLiteralsHeaderSize(size: nat): (n: nat)
    ensures 1 <= n <= 3
    ensures n == 1 <==> size <= 31
    ensures n == 3 <==> size > 4095
  {
    1 + (if size > 31 then 1 else 0) + (if size > 4095 then 1 else 0)
  }

  /** Raw or RLE literals header: 2-1-5, 2-2-12 or 2-2-20 bit layouts. */
  function RawLiteralsHeader(litType: nat, size: nat): (h: seq<Byte>)
    requires litType < 4
    ensures |h| == RawLiteralsHeaderSize(size)
  {
    var flSize := RawLiteralsHeaderSize(size);
    if flSize == 1 then [(litType * 0x40 + size) % 0x100]
    else if flSize == 2 then [(litType * 0x40 + 2 * 0x10 + size / 0x100) % 0x100, size % 0x100]
    else [(litType * 0x40 + 3 * 0x10 + size / 0x1_0000) % 0x100, (size / 0x100) % 0x100, size % 0x100]
  }

  /** Header length of a Huffman literals block: 3, 4 or 5 bytes. */
  function HuffmanLiteralsHeaderSize(srcSize: nat): (n: nat)
    ensures 3 <= n <= 5
    ensures n == 3 <==> srcSize < 1024
    ensures n == 5 <==> srcSize >= 16 * 1024
  {
    3 + (if srcSize >= 1024 then 1 else 0) + (if srcSize >= 16 * 1024 then 1 else 0)
  }

  /** Huffman literals header: 2-2-10-10, 2-2-14-14 or 2-2-18-18 bit layouts
      (type, size format, regenerated size, compressed size). In the 3-byte
      form bit 4 flags a single Huffman stream. */
  function HuffmanLiteralsHeader(hType: nat, singleStream: bool, srcSize: nat, cLitSize: nat): (h: seq<Byte>)
    requires hType < 4
    ensures |h| == HuffmanLiteralsHeaderSize(srcSize)
  {
    var lhSize := HuffmanLiteralsHeaderSize(srcSize);
    var single := if singleStream then 1 else 0;
    if lhSize == 3 then
      [ (srcSize / 0x40 + single * 0x10 + hType * 0x40) % 0x100,
        (srcSize * 4 + cLitSize / 0x100) % 0x100,
        cLitSize % 0x100 ]
    else if lhSize == 4 then
      [ (srcSize / 0x400 + 2 * 0x10 + hType * 0x40) % 0x100,
        (srcSize / 4) % 0x100,
        (srcSize * 0x40 + cLitSize / 0x100) % 0x100,
        cLitSize % 0x100 ]
    else
      [ (srcSize / 0x4000 + 3 * 0x10 + hType * 0x40) % 0x100,
        (srcSize / 0x40) % 0x100,
        (srcSize * 4 + cLitSize / 0x1_0000) % 0x100,
        (cLitSize / 0x100) % 0x100,
        cLitSize % 0x100 ]
  }

  datatype LiteralsHeaderFields =
    | Uncompressed(litType: nat, headerSize: nat, size: nat)
    | Compressed(litType: nat, headerSize: nat, regenSize: nat, compSize: nat, singleStream: bool)

  /** How a reader of the format decodes a literals header; None when the
      bytes end inside the header. */
  function ParseLiteralsHeader(h: seq<Byte>): (r: Option<LiteralsHeaderFields>)
    ensures r.Some? ==> r.value.headerSize <= |h| && 1 <= r.value.headerSize <= 5
  {
    if |h| == 0 then None
    else
      var b0: int := h[0];
      var litType := b0 / 0x40;
      var sizeFormat := (b0 / 0x10) % 4;
      if litType == LbtRaw || litType == LbtRle then
        if sizeFormat < 2 then Some(Uncompressed(litType, 1, b0 % 0x20))
        else if sizeFormat == 2 then
          if |h| < 2 then None
          else Some(Uncompressed(litType, 2, (b0 % 0x10) * 0x100 + h[1]))
        else
          if |h| < 3 then None
          else Some(Uncompressed(litType, 3, (b0 % 0x10) * 0x1_0000 + (h[1] as int) * 0x100 + h[2]))
      else
        if sizeFormat < 2 then
          if |h| < 3 then None
          else
            var v := (b0 % 0x40) * 0x1_0000 + (h[1] as int) * 0x100 + h[2];
            Some(Compressed(litType, 3, (v / 0x400) % 0x400, v % 0x400, sizeFormat == 1))
        else if sizeFormat == 2 then
          if |h| < 4 then None
          else
            var v := (b0 % 0x10) * 0x100_0000 + (h[1] as int) * 0x1_0000 + (h[2] as int) * 0x100 + h[3];
            Some(Compressed(litType, 4, v / 0x4000, v % 0x4000, false))
        else
          if |h| < 5 then None
          else
            var v := (b0 % 0x10) * 0x1_0000_0000 + (h[1] as int) * 0x100_0000 + (h[2] as int) * 0x1_0000
                     + (h[3] as int) * 0x100 + h[4];
            Some(Compressed(litType, 5, v / 0x4_0000, v % 0x4_0000, false))
  }

  /** A raw or RLE header of a size below 2^20 is read back with its type
      and length, whatever follows it. */
  lemma RawLiteralsHeaderRoundTrip(litType: nat, size: nat, rest: seq<Byte>)
    requires litType == LbtRaw || litType == LbtRle
    requires size < 0x10_0000
    ensures ParseLiteralsHeader(RawLiteralsHeader(litType, size) + rest)
            == Some(Uncompressed(litType, RawLiteralsHeaderSize(size), size))
  {
    var h := RawLiteralsHeader(litType, size) + rest;
    var flSize := RawLiteralsHeaderSize(size);
    if flSize == 1 {
      RawLiteralsHeader1(litType, size, h);
    } else if flSize == 2 {
      RawLiteralsHeader2(litType, size, h);
    } else {
      RawLiteralsHeader3(litType, size, h);
    }
  }

  lemma RawLiteralsHeader1(litType: nat, size: nat, h: seq<Byte>)
    requires litType == LbtRaw || litType == LbtRle
    requires size <= 31 && |h| >= 1 && h[0] == litType * 0x40 + size
    ensures ParseLiteralsHeader(h) == Some(Uncompressed(litType, 1, size))
  {
    var b0: int := h[0];
    assert b0 / 0x40 == litType && (b0 / 0x10) % 4 < 2 && b0 % 0x20 == size;
  }

  lemma RawLiteralsHeader2(litType: nat, size: nat, h: seq<Byte>)
    requires litType == LbtRaw || litType == LbtRle
    requires 31 < size <= 4095 && |h| >= 2
    requires h[0] == litType * 0x40 + 0x20 + size / 0x100 && h[1] == size % 0x100
    ensures ParseLiteralsHeader(h) == Some(Uncompressed(litType, 2, size))
  {
    var b0: int := h[0];
    assert b0 / 0x40 == litType && (b0 / 0x10) % 4 == 2 && b0 % 0x10 == size / 0x100;
  }

  lemma RawLiteralsHeader3(litType: nat, size: nat, h: seq<Byte>)
    requires litType == LbtRaw || litType == LbtRle
    requires 4095 < size < 0x10_0000 && |h| >= 3
    requires h[0] == litType * 0x40 + 0x30 + size / 0x1_0000
    requires h[1] == (size / 0x100) % 0x100 && h[2] == size % 0x100
    ensures ParseLiteralsHeader(h) == Some(Uncompressed(litType, 3, size))
  {
    var b0: int := h[0];
    assert b0 / 0x40 == litType && (b0 / 0x10) % 4 == 3 && b0 % 0x10 == size / 0x1_0000;
    assert (b0 % 0x10) * 0x1_0000 + (h[1] as int) * 0x100 + h[2] == size;
  }

  /** A Huffman header is read back with its type, stream count and both
      sizes when each size fits its field and the single-stream flag is only
      used in the 3-byte form. */
  lemma HuffmanLiteralsHeaderRoundTrip(hType: nat, singleStream: bool, srcSize: nat, cLitSize: nat, rest: seq<Byte>)
    requires hType == LbtHuffman || hType == LbtRepeat
    requires srcSize < 0x4_0000 && cLitSize < srcSize
    requires singleStream ==> srcSize < 1024
    ensures ParseLiteralsHeader(HuffmanLiteralsHeader(hType, singleStream, srcSize, cLitSize) + rest)
            == Some(Compressed(hType, HuffmanLiteralsHeaderSize(srcSize), srcSize, cLitSize, singleStream))
  {
    var hdr := HuffmanLiteralsHeader(hType, singleStream, srcSize, cLitSize);
    var h := hdr + rest;
    assert h[..|hdr|] == hdr;
    var lhSize := HuffmanLiteralsHeaderSize(srcSize);
    if lhSize == 3 {
      HuffmanLiteralsHeader3(hType, singleStream, srcSize, cLitSize, h);
    } else if lhSize == 4 {
      HuffmanLiteralsHeader4(hType, srcSize, cLitSize, h);
    } else {
      HuffmanLiteralsHeader5(hType, srcSize, cLitSize, h);
    }
  }

  lemma HuffmanLiteralsHeader3(hType: nat, singleStream: bool, srcSize: nat, cLitSize: nat, h: seq<Byte>)
    requires hType == LbtHuffman || hType == LbtRepeat
    requires srcSize < 1024 && cLitSize < srcSize
    requires |h| >= 3 && h[..3] == HuffmanLiteralsHeader(hType, singleStream, srcSize, cLitSize)
    ensures ParseLiteralsHeader(h) == Some(Compressed(hType, 3, srcSize, cLitSize, singleStream))
  {
    assert h[0] == h[..3][0] && h[1] == h[..3][1] && h[2] == h[..3][2];
    Huffman3Fields(hType, if singleStream then 1 else 0, srcSize, cLitSize, h[0], h[1], h[2]);
  }

  lemma HuffmanLiteralsHeader4(hType: nat, srcSize: nat, cLitSize: nat, h: seq<Byte>)
    requires hType == LbtHuffman || hType == LbtRepeat
    requires 1024 <= srcSize < 0x4000 && cLitSize < srcSize
    requires |h| >= 4 && h[..4] == HuffmanLiteralsHeader(hType, false, srcSize, cLitSize)
    ensures ParseLiteralsHeader(h) == Some(Compressed(hType, 4, srcSize, cLitSize, false))
  {
    assert h[0] == h[..4][0] && h[1] == h[..4][1] && h[2] == h[..4][2] && h[3] == h[..4][3];
    Huffman4Fields(hType, srcSize, cLitSize, h[0], h[1], h[2], h[3]);
  }

  lemma HuffmanLiteralsHeader5(hType: nat, srcSize: nat, cLitSize: nat, h: seq<Byte>)
    requires hType == LbtHuffman || hType == LbtRepeat
    requires 0x4000 <= srcSize < 0x4_0000 && cLitSize < srcSize
    requires |h| >= 5 && h[..5] == HuffmanLiteralsHeader(hType, false, srcSize, cLitSize)
    ensures ParseLiteralsHeader(h) == Some(Compressed(hType, 5, srcSize, cLitSize, false))
  {
    assert h[0] == h[..5][0] && h[1] == h[..5][1] && h[2] == h[..5][2] && h[3] == h[..5][3] && h[4] == h[..5][4];
    Huffman5Fields(hType, srcSize, cLitSize, h[0], h[1], h[2], h[3], h[4]);
  }

  // The bit-field arithmetic of the three layouts, on plain integers.

  lemma Huffman3Fields(hType: nat, single: nat, srcSize: nat, cLitSize: nat, b0: int, b1: int, b2: int)
    requires hType < 2 && single < 2 && srcSize < 1024 && cLitSize < srcSize
    requires b0 == (srcSize / 0x40 + single * 0x10 + hType * 0x40) % 0x100
    requires b1 == (srcSize * 4 + cLitSize / 0x100) % 0x100 && b2 == cLitSize % 0x100
    ensures b0 / 0x40 == hType && (b0 / 0x10) % 4 == single
    ensures var v := (b0 % 0x40) * 0x1_0000 + b1 * 0x100 + b2;
            (v / 0x400) % 0x400 == srcSize && v % 0x400 == cLitSize
  {
    var q, r := srcSize / 0x40, srcSize % 0x40;
    var cq := cLitSize / 0x100;
    assert b0 == q + single * 0x10 + hType * 0x40 by {
      DivModUnique(srcSize / 0x40 + single * 0x10 + hType * 0x40, 0x100, 0, b0);
    }
    assert b0 / 0x40 == hType && b0 % 0x40 == q + single * 0x10 by {
      DivModUnique(b0, 0x40, hType, q + single * 0x10);
    }
    assert (b0 / 0x10) % 4 == single by {
      DivModUnique(b0, 0x10, hType * 4 + single, q);
      DivModUnique(hType * 4 + single, 4, hType, single);
    }
    assert b1 == r * 4 + cq by {
      DivModUnique(srcSize * 4 + cq, 0x100, q, r * 4 + cq);
    }
    var v := (b0 % 0x40) * 0x1_0000 + b1 * 0x100 + b2;
    assert v == (single * 0x400 + srcSize) * 0x400 + cLitSize;
    DivModUnique(v, 0x400, single * 0x400 + srcSize, cLitSize);
    DivModUnique(single * 0x400 + srcSize, 0x400, single, srcSize);
  }

  lemma Huffman4Fields(hType: nat, srcSize: nat, cLitSize: nat, b0: int, b1: int, b2: int, b3: int)
    requires hType < 2 && 1024 <= srcSize < 0x4000 && cLitSize < srcSize
    requires b0 == (srcSize / 0x400 + 2 * 0x10 + hType * 0x40) % 0x100
    requires b1 == (srcSize / 4) % 0x100
    requires b2 == (srcSize * 0x40 + cLitSize / 0x100) % 0x100 && b3 == cLitSize % 0x100
    ensures b0 / 0x40 == hType && (b0 / 0x10) % 4 == 2
    ensures var v := (b0 % 0x10) * 0x100_0000 + b1 * 0x1_0000 + b2 * 0x100 + b3;
            v / 0x4000 == srcSize && v % 0x4000 == cLitSize
  {
    var q := srcSize / 0x400;
    var m := (srcSize / 4) % 0x100;
    var r := srcSize % 4;
    assert srcSize == q * 0x400 + m * 4 + r;
    var cq := cLitSize / 0x100;
    assert b0 == q + 0x20 + hType * 0x40 by {
      DivModUnique(q + 2 * 0x10 + hType * 0x40, 0x100, 0, b0);
    }
    assert b0 / 0x40 == hType by {
      DivModUnique(b0, 0x40, hType, q + 0x20);
    }
    assert b0 % 0x10 == q && (b0 / 0x10) % 4 == 2 by {
      DivModUnique(b0, 0x10, hType * 4 + 2, q);
      DivModUnique(hType * 4 + 2, 4, hType, 2);
    }
    assert b2 == r * 0x40 + cq by {
      DivModUnique(srcSize * 0x40 + cq, 0x100, q * 0x100 + m, r * 0x40 + cq);
    }
    var v := (b0 % 0x10) * 0x100_0000 + b1 * 0x1_0000 + b2 * 0x100 + b3;
    assert v == srcSize * 0x4000 + cLitSize;
    DivModUnique(v, 0x4000, srcSize, cLitSize);
  }

  lemma Huffman5Fields(hType: nat, srcSize: nat, cLitSize: nat, b0: int, b1: int, b2: int, b3: int, b4: int)
    requires hType < 2 && 0x4000 <= srcSize < 0x4_0000 && cLitSize < srcSize
    requires b0 == (srcSize / 0x4000 + 3 * 0x10 + hType * 0x40) % 0x100
    requires b1 == (srcSize / 0x40) % 0x100
    requires b2 == (srcSize * 4 + cLitSize / 0x1_0000) % 0x100
    requires b3 == (cLitSize / 0x100) % 0x100 && b4 == cLitSize % 0x100
    ensures b0 / 0x40 == hType && (b0 / 0x10) % 4 == 3
    ensures var v := (b0 % 0x10) * 0x1_0000_0000 + b1 * 0x100_0000 + b2 * 0x1_0000 + b3 * 0x100 + b4;
            v / 0x4_0000 == srcSize && v % 0x4_0000 == cLitSize
  {
    var q := srcSize / 0x4000;
    var m := (srcSize / 0x40) % 0x100;
    var r := srcSize % 0x40;
    var cq := cLitSize / 0x1_0000;
    var cm := (cLitSize / 0x100) % 0x100;
    Digits18(srcSize, q, m, r);
    Bytes18(cLitSize, cq, cm, b4);
    HeaderDescriptor(hType, 3, q, b0);
    DivModUnique(srcSize * 4 + cq, 0x100, q * 0x100 + m, r * 4 + cq);
    var v := (b0 % 0x10) * 0x1_0000_0000 + b1 * 0x100_0000 + b2 * 0x1_0000 + b3 * 0x100 + b4;
    assert v == srcSize * 0x4_0000 + cLitSize;
    DivModUnique(v, 0x4_0000, srcSize, cLitSize);
  }

  /** An 18-bit value as its top 4 bits, middle byte and low 6 bits. */
  lemma Digits18(x: nat, q: int, m: int, r: int)
    requires x < 0x4_0000 && q == x / 0x4000 && m == (x / 0x40) % 0x100 && r == x % 0x40
    ensures x == q * 0x4000 + m * 0x40 + r && 0 <= q < 0x10 && 0 <= m < 0x100 && 0 <= r < 0x40
  {
    var x1 := x / 0x40;
    DivModUnique(x1, 0x100, x1 / 0x100, m);
    DivModUnique(x, 0x4000, x1 / 0x100, m * 0x40 + r);
  }

  /** An 18-bit value as its top 2 bits and two low bytes. */
  lemma Bytes18(x: nat, hi: int, mid: int, lo: int)
    requires x < 0x4_0000 && hi == x / 0x1_0000 && mid == (x / 0x100) % 0x100 && lo == x % 0x100
    ensures x == hi * 0x1_0000 + mid * 0x100 + lo && 0 <= hi < 4 && 0 <= mid < 0x100 && 0 <= lo < 0x100
  {
    var x1 := x / 0x100;
    DivModUnique(x1, 0x100, x1 / 0x100, mid);
    DivModUnique(x, 0x1_0000, x1 / 0x100, mid * 0x100 + lo);
  }

  /** The first byte of a Huffman header: type, size format and the top bits
      of the regenerated size. */
  lemma HeaderDescriptor(hType: nat, sizeFormat: nat, q: int, b0: int)
    requires hType < 4 && sizeFormat < 4 && 0 <= q < 0x10
    requires b0 == (q + sizeFormat * 0x10 + hType * 0x40) % 0x100
    ensures b0 / 0x40 == hType && (b0 / 0x10) % 4 == sizeFormat && b0 % 0x10 == q
  {
    DivModUnique(q + sizeFormat * 0x10 + hType * 0x40, 0x100, 0, b0);
    DivModUnique(b0, 0x40, hType, q + sizeFormat * 0x10);
    DivModUnique(b0, 0x10, hType * 4 + sizeFormat, q);
    DivModUnique(hType * 4 + sizeFormat, 4, hType, sizeFormat);
  }

  /** A raw literals block: header then the literals. */
  function RawLiterals(src: seq<Byte>): (out: seq<Byte>)
    ensures |out| == RawLiteralsHeaderSize(|src|) + |src|
    ensures out[RawLiteralsHeaderSize(|src|)..] == src
  {
    RawLiteralsHeader(LbtRaw, |src|) + src
  }

  /** An RLE literals block: header then the one repeated byte. */
  function RleLiterals(src: seq<Byte>): (out: seq<Byte>)
    requires |src| >= 1
    ensures |out| == RawLiteralsHeaderSize(|src|) + 1
    ensures out[RawLiteralsHeaderSize(|src|)] == src[0]
  {
    RawLiteralsHeader(LbtRle, |src|) + [src[0]]
  }

  /** ZSTD_noCompressLiterals: the literals stored raw, or dstSize_tooSmall
      when they do not fit in `dst`. */
  method NoCompressLiterals(dst: array<Byte>, src: seq<Byte>) returns (r: Result<nat>)
    modifies dst
    ensures r.Err? <==> |src| + RawLiteralsHeaderSize(|src|) > dst.Length
    ensures r.Err? ==> r.error == DstSizeTooSmall && dst[..] == old(dst[..])
    ensures r.Ok? ==> r.value == |src| + RawLiteralsHeaderSize(|src|)
    ensures r.Ok? ==> dst[..r.value] == RawLiterals(src)
    ensures r.Ok? ==> dst[r.value..] == old(dst[r.value..])
  {
    var flSize := RawLiteralsHeaderSize(|src|);
    if |src| + flSize > dst.Length {
      return Err(DstSizeTooSmall);
    }
    var h := RawLiteralsHeader(LbtRaw, |src|);
    forall i | 0 <= i < flSize {
      dst[i] := h[i];
    }
    forall i | 0 <= i < |src| {
      dst[flSize + i] := src[i];
    }
    r := Ok(|src| + flSize);
    assert dst[..r.value] == h + src;
  }

  /** ZSTD_compressRleLiteralsBlock: the literals as one repeated byte; the
      caller guarantees at least 4 bytes of room. */
  method CompressRleLiteralsBlock(dst: array<Byte>, src: seq<Byte>) returns (n: nat)
    requires |src| >= 1 && dst.Length >= 4
    modifies dst
    ensures n == RawLiteralsHeaderSize(|src|) + 1
    ensures dst[..n] == RleLiterals(src)
    ensures dst[n..] == old(dst[n..])
  {
    var flSize := RawLiteralsHeaderSize(|src|);
    var h := RawLiteralsHeader(LbtRle, |src|);
    forall i | 0 <= i < flSize {
      dst[i] := h[i];
    }
    dst[flSize] := src[0];
    n := flSize + 1;
    assert dst[..n] == h + [src[0]];
  }

  /** ZSTD_minGain: the least number of bytes compression must save. */
  function MinGain(srcSize: nat): (g: nat)
    ensures g >= 2
    ensures 64 * (g - 2) <= srcSize < 64 * (g - 1)
  {
    srcSize / 64 + 2
  }

  /** What the Huffman coder returned: an error code, or the bytes it wrote
      (none meaning the literals are not compressible). */
  datatype HufOutcome = HufError | HufWritten(bytes: seq<Byte>)

  /** Literals block type and stream count ZSTD_compressLiterals selects
      before calling the Huffman coder. */
  function HuffmanMode(flagStaticTables: bool, srcSize: nat): (m: (nat, bool))
    ensures m.0 == LbtRepeat <==> flagStaticTables && srcSize < 1024
    ensures m.0 == LbtHuffman || m.0 == LbtRepeat
    ensures m.1 ==> srcSize < 1024
    ensures m.0 == LbtRepeat ==> m.1
    ensures m.0 == LbtHuffman ==> (m.1 <==> srcSize < 256)
  {
    if flagStaticTables && HuffmanLiteralsHeaderSize(srcSize) == 3 then (LbtRepeat, true)
    else (LbtHuffman, srcSize < 256)
  }

  /** ZSTD_compressLiterals, with the Huffman coder as a parameter: literals
      of at most 63 bytes (6 with dictionary tables) are stored raw; without
      room for a header and one byte the result is dstSize_tooSmall; a Huffman
      result that failed, is empty or saves less than MinGain falls back to
      raw; a 1-byte result means one repeated byte (RLE). */
  function CompressLiterals(flagStaticTables: bool, src: seq<Byte>, dstCapacity: nat, huf: HufOutcome): (r: Result<seq<Byte>>)
    requires huf.HufWritten? ==> |huf.bytes| + HuffmanLiteralsHeaderSize(|src|) <= dstCapacity
    ensures r.Ok? ==> |r.value| <= dstCapacity
    ensures r.Err? ==> r.error == DstSizeTooSmall
  {
    var srcSize := |src|;
    var minLitSize := if flagStaticTables then 6 else LiteralNoEntropy;
    var lhSize := HuffmanLiteralsHeaderSize(srcSize);
    if srcSize <= minLitSize then
      if srcSize + RawLiteralsHeaderSize(srcSize) > dstCapacity then Err(DstSizeTooSmall) else Ok(RawLiterals(src))
    else if dstCapacity < lhSize + 1 then Err(DstSizeTooSmall)
    else
      var mode := HuffmanMode(flagStaticTables, srcSize);
      if huf.HufError? || |huf.bytes| == 0 || |huf.bytes| >= srcSize - MinGain(srcSize) then
        if srcSize + RawLiteralsHeaderSize(srcSize) > dstCapacity then Err(DstSizeTooSmall) else Ok(RawLiterals(src))
      else if |huf.bytes| == 1 then
        Ok(RleLiterals(src))
      else
        Ok(HuffmanLiteralsHeader(mode.0, mode.1, srcSize, |huf.bytes|) + huf.bytes)
  }

  /** What ZSTD_compressLiterals writes decodes back: the header announces the
      block type and sizes, raw blocks carry the literals, RLE blocks their
      first byte, and a Huffman block the coder's bytes, which are then at
      least MinGain bytes shorter than the literals. */
  lemma CompressLiteralsDecodes(flagStaticTables: bool, src: seq<Byte>, dstCapacity: nat, huf: HufOutcome)
    requires huf.HufWritten? ==> |huf.bytes| + HuffmanLiteralsHeaderSize(|src|) <= dstCapacity
    requires |src| <= BlockSizeMax
    requires CompressLiterals(flagStaticTables, src, dstCapacity, huf).Ok?
    ensures var out := CompressLiterals(flagStaticTables, src, dstCapacity, huf).value;
            var p := ParseLiteralsHeader(out);
            && p.Some?
            && match p.value {
                 case Uncompressed(t, hs, size) =>
                   size == |src| &&
                   (t == LbtRaw ==> out[hs..] == src) &&
                   (t == LbtRle ==> |src| >= 1 && out[hs..] == [src[0]] &&
                                    huf.HufWritten? && |huf.bytes| == 1) &&
                   (t == LbtRaw || t == LbtRle)
                 case Compressed(t, hs, regen, comp, single) =>
                   regen == |src| && huf.HufWritten? && comp == |huf.bytes| && out[hs..] == huf.bytes &&
                   comp + MinGain(|src|) < |src| &&
                   (t, single) == HuffmanMode(flagStaticTables, |src|)
               }
  {
    var out := CompressLiterals(flagStaticTables, src, dstCapacity, huf);
    var srcSize := |src|;
    var minLitSize := if flagStaticTables then 6 else LiteralNoEntropy;
    var raw := srcSize <= minLitSize ||
      huf.HufError? || |huf.bytes| == 0 || |huf.bytes| >= srcSize - MinGain(srcSize);
    if raw {
      RawLiteralsHeaderRoundTrip(LbtRaw, srcSize, src);
    } else if |huf.bytes| == 1 {
      RawLiteralsHeaderRoundTrip(LbtRle, srcSize, [src[0]]);
    } else {
      var mode := HuffmanMode(flagStaticTables, srcSize);
      HuffmanLiteralsHeaderRoundTrip(mode.0, mode.1, srcSize, |huf.bytes|, huf.bytes);
    }
  }

  // ---------------------------------------------------------------------
  // Sequence count
  // ---------------------------------------------------------------------

  /** Number of sequences: 1 byte below 0x7F, 2 bytes (high byte + 0x80)
      below 0x7F00, else 0xFF then the excess over 0x7F00 on 16 bits. */
  function NbSeqHeader(nbSeq: nat): (h: seq<Byte>)
    ensures 1 <= |h| <= 3
  {
    if nbSeq < 0x7F then [nbSeq]
    else if nbSeq < LongNbSeq then [nbSeq / 0x100 + 0x80, nbSeq % 0x100]
    else [0xFF] + LE16((nbSeq - LongNbSeq) % 0x1_0000)
  }

  /** How a reader of the format decodes the number of sequences and the
      length of its header; None when the bytes end inside it. */
  function ParseNbSeq(h: seq<Byte>): (r: Option<(nat, nat)>)
    ensures r.Some? ==> 1 <= r.value.1 <= |h|
  {
    if |h| == 0 then None
    else if h[0] < 0x80 then Some((h[0], 1))
    else if h[0] < 0xFF then
      if |h| < 2 then None else Some((((h[0] as int) - 0x80) * 0x100 + h[1], 2))
    else
      if |h| < 3 then None else Some((ReadLE16(h, 1) + LongNbSeq, 3))
  }

  /** Every count a block can hold is read back. */
  lemma NbSeqRoundTrip(nbSeq: nat, rest: seq<Byte>)
    requires nbSeq < LongNbSeq + 0x1_0000
    ensures ParseNbSeq(NbSeqHeader(nbSeq) + rest) == Some((nbSeq, |NbSeqHeader(nbSeq)|))
  {
    var h := NbSeqHeader(nbSeq) + rest;
    if nbSeq >= LongNbSeq {
      assert h[1..3] == LE16(nbSeq - LongNbSeq);
    }
  }

  /** The sequence-count step of ZSTD_compressSequences: fewer than 4 bytes
      of room is dstSize_tooSmall. */
  function WriteNbSeq(nbSeq: nat, room: nat): (r: Result<seq<Byte>>)
    ensures r.Err? <==> room < 4
    ensures r.Err? ==> r.error == DstSizeTooSmall
    ensures r.Ok? ==> |r.value| < room
    ensures r.Ok? && nbSeq < LongNbSeq + 0x1_0000 ==> ParseNbSeq(r.value) == Some((nbSeq, |r.value|))
  {
    if room < 4 then Err(DstSizeTooSmall)
    else
      if nbSeq < LongNbSeq + 0x1_0000 then
        NbSeqRoundTrip(nbSeq, []);
        assert NbSeqHeader(nbSeq) + [] == NbSeqHeader(nbSeq);
        Ok(NbSeqHeader(nbSeq))
      else Ok(NbSeqHeader(nbSeq))
  }

  // ---------------------------------------------------------------------
  // Frame header
  // ---------------------------------------------------------------------

  /** Size class of a dictionary ID: 0, 1, 2 or 4 bytes. */
  function DictIDSizeCode(dictID: U32): (c: nat)
    ensures c < 4
    ensures c == 0 <==> dictID == 0
    ensures c == 1 ==> dictID < 0x100
    ensures c == 2 ==> dictID < 0x1_0000
  {
    (if dictID > 0 then 1 else 0) + (if dictID >= 256 then 1 else 0) + (if dictID >= 65536 then 1 else 0)
  }

  /** Size class of the content size field: 0 (absent or 1 byte), 2, 4 or 8 bytes. */
  function FcsCode(contentSizeFlag: bool, pledgedSrcSize: U64): (c: nat)
    ensures c < 4
    ensures c == 0 ==> !contentSizeFlag || pledgedSrcSize < 256
    ensures c == 1 ==> 256 <= pledgedSrcSize < 0x1_0000 + 256
    ensures c == 2 ==> pledgedSrcSize < 0xFFFF_FFFF
  {
    if contentSizeFlag then
      (if pledgedSrcSize >= 256 then 1 else 0) + (if pledgedSrcSize >= 65536 + 256 then 1 else 0)
      + (if pledgedSrcSize >= 0xFFFF_FFFF then 1 else 0)
    else 0
  }

  /** Single-segment ("direct") mode: the content size is known and the whole
      content fits in the window, so no window byte is written. The pledged
      size minus one is taken on 64 bits: a pledged size of 0 never qualifies. */
  predicate DirectMode(windowLog: nat, contentSizeFlag: bool, pledgedSrcSize: U64)
  {
    contentSizeFlag && Pow2(windowLog) > ToU64(pledgedSrcSize - 1)
  }

  /** Direct mode is exactly "a known, non-zero size no larger than the window". */
  lemma DirectModeMeans(windowLog: nat, contentSizeFlag: bool, pledgedSrcSize: U64)
    requires windowLog < 32
    ensures DirectMode(windowLog, contentSizeFlag, pledgedSrcSize)
            <==> contentSizeFlag && 0 < pledgedSrcSize <= Pow2(windowLog)
  {
    Pow2StrictMonotone(windowLog, 64);
    Pow2Of64();
    if pledgedSrcSize == 0 {
      assert ToU64(pledgedSrcSize - 1) == TWO64 - 1;
    }
  }

  /** The frame header descriptor byte: dictionary ID size code in bits 0-1,
      checksum flag in bit 2, single-segment flag in bit 5, content size code
      in bits 6-7 (the largest value, 231, fits a byte). */
  function FrameDescriptor(dictCode: nat, checksumFlag: bool, direct: bool, fcsCode: nat): (d: Byte)
    requires dictCode < 4 && fcsCode < 4
  {
    dictCode + (if checksumFlag then 4 else 0) + (if direct then 0x20 else 0) + fcsCode * 0x40
  }

  /** Each field of the descriptor reads back from its bits. */
  lemma FrameDescriptorFields(dictCode: nat, checksumFlag: bool, direct: bool, fcsCode: nat)
    requires dictCode < 4 && fcsCode < 4
    ensures var d := FrameDescriptor(dictCode, checksumFlag, direct, fcsCode);
            d % 4 == dictCode && ((d / 4) % 2 == 1 <==> checksumFlag)
            && ((d / 0x20) % 2 == 1 <==> direct) && d / 0x40 == fcsCode
  {
    var d := FrameDescriptor(dictCode, checksumFlag, direct, fcsCode);
    var chk := if checksumFlag then 1 else 0;
    var dir := if direct then 1 else 0;
    assert d == dictCode + chk * 4 + dir * 0x20 + fcsCode * 0x40;
    DivModUnique(d, 4, chk + dir * 8 + fcsCode * 0x10, dictCode);
    DivModUnique(chk + dir * 8 + fcsCode * 0x10, 2, dir * 4 + fcsCode * 8, chk);
    DivModUnique(d, 0x20, dir + fcsCode * 2, dictCode + chk * 4);
    DivModUnique(dir + fcsCode * 2, 2, fcsCode, dir);
    DivModUnique(d, 0x40, fcsCode, dictCode + chk * 4 + dir * 0x20);
  }

  /** The window byte: window log above 12, shifted left by three. */
  function WindowField(windowLog: nat, direct: bool): (f: seq<Byte>)
    requires 12 <= windowLog < 32
    ensures |f| == (if direct then 0 else 1)
    ensures !direct ==> f[0] / 8 + 12 == windowLog
  {
    if direct then [] else [(windowLog - 12) * 8]
  }

  /** Width in bytes of the dictionary ID field for a size code. */
  function DictIDFieldSize(code: nat): nat
  {
    if code == 0 then 0 else if code == 1 then 1 else if code == 2 then 2 else 4
  }

  /** The dictionary ID field, in as few bytes as the ID needs. */
  function DictIDField(dictID: U32): (f: seq<Byte>)
    ensures |f| == DictIDFieldSize(DictIDSizeCode(dictID))
  {
    var code := DictIDSizeCode(dictID);
    if code == 0 then []
    else if code == 1 then [dictID]
    else if code == 2 then LE16(dictID)
    else LE32(dictID)
  }

  /** How a reader decodes a dictionary ID field of size class `code` at `p`. */
  function ReadDictIDField(h: seq<Byte>, p: nat, code: nat): nat
    requires p + DictIDFieldSize(code) <= |h|
  {
    if code == 0 then 0
    else if code == 1 then h[p] as nat
    else if code == 2 then ReadLE16(h, p)
    else ReadLE32(h, p)
  }

  /** A written dictionary ID field reads back as the ID. */
  lemma DictIDFieldRoundTrip(dictID: U32, h: seq<Byte>, p: nat)
    requires p + |DictIDField(dictID)| <= |h| && h[p..p + |DictIDField(dictID)|] == DictIDField(dictID)
    ensures ReadDictIDField(h, p, DictIDSizeCode(dictID)) == dictID
  {
    var f := DictIDField(dictID);
    var code := DictIDSizeCode(dictID);
    if code == 1 {
      assert h[p] == f[0];
    } else if code == 2 {
      ReadLE16At(h, p, f);
    } else if code == 3 {
      ReadLE32At(h, p, f);
    }
  }

  /** Width in bytes of the content size field for a size code. */
  function ContentSizeFieldSize(code: nat, direct: bool): nat
  {
    if code == 0 then (if direct then 1 else 0) else if code == 1 then 2 else if code == 2 then 4 else 8
  }

  /** The content size field: one byte in single-segment mode below 256,
      otherwise 2 bytes holding the size minus 256, or 4 or 8 bytes. */
  function ContentSizeField(fcsCode: nat, direct: bool, pledgedSrcSize: U64): (f: seq<Byte>)
    ensures |f| == ContentSizeFieldSize(fcsCode, direct)
  {
    if fcsCode == 0 then (if direct then [pledgedSrcSize % 0x100] else [])
    else if fcsCode == 1 then LE16((pledgedSrcSize - 256) % 0x1_0000)
    else if fcsCode == 2 then LE32(pledgedSrcSize % TWO32)
    else LE64(pledgedSrcSize)
  }

  /** How a reader decodes a content size field: None when the frame does
      not carry the size. */
  function ReadContentSizeField(h: seq<Byte>, p: nat, code: nat, direct: bool): Option<nat>
    requires p + ContentSizeFieldSize(code, direct) <= |h|
  {
    if code == 0 then (if direct then Some(h[p] as nat) else None)
    else if code == 1 then Some(ReadLE16(h, p) + 256)
    else if code == 2 then Some(ReadLE32(h, p) as nat)
    else Some(ReadLE64(h, p) as nat)
  }

  /** A written content size field reads back as the pledged size when the
      flag asks for it and the size is known, and as absent otherwise. */
  lemma ContentSizeFieldRoundTrip(windowLog: nat, contentSizeFlag: bool, pledgedSrcSize: U64, h: seq<Byte>, p: nat)
    requires 12 <= windowLog < 32
    requires var f := ContentSizeField(FcsCode(contentSizeFlag, pledgedSrcSize),
                                       DirectMode(windowLog, contentSizeFlag, pledgedSrcSize), pledgedSrcSize);
             p + |f| <= |h| && h[p..p + |f|] == f
    ensures ReadContentSizeField(h, p, FcsCode(contentSizeFlag, pledgedSrcSize),
                                 DirectMode(windowLog, contentSizeFlag, pledgedSrcSize))
            == (if contentSizeFlag && pledgedSrcSize > 0 then Some(pledgedSrcSize) else None)
  {
    var code := FcsCode(contentSizeFlag, pledgedSrcSize);
    var direct := DirectMode(windowLog, contentSizeFlag, pledgedSrcSize);
    var f := ContentSizeField(code, direct, pledgedSrcSize);
    DirectModeMeans(windowLog, contentSizeFlag, pledgedSrcSize);
    if code == 0 {
      if direct {
        assert h[p] == f[0];
      } else if contentSizeFlag && pledgedSrcSize > 0 {
        // a size below 256 always fits the smallest window
        Pow2Monotone(8, windowLog);
        Pow2Of8();
        assert false;
      }
    } else {
      WideContentSizeRoundTrip(code, direct, pledgedSrcSize, h, p);
    }
  }

  /** The 2-, 4- and 8-byte content size fields. */
  lemma WideContentSizeRoundTrip(code: nat, direct: bool, pledgedSrcSize: U64, h: seq<Byte>, p: nat)
    requires 1 <= code < 4
    requires code == 1 ==> 256 <= pledgedSrcSize < 0x1_0000 + 256
    requires code == 2 ==> pledgedSrcSize < TWO32
    requires var f := ContentSizeField(code, direct, pledgedSrcSize); p + |f| <= |h| && h[p..p + |f|] == f
    ensures ReadContentSizeField(h, p, code, direct) == Some(pledgedSrcSize as nat)
  {
    var f := ContentSizeField(code, direct, pledgedSrcSize);
    if code == 1 {
      assert ReadLE16(h, p) == pledgedSrcSize - 256 by {
        ReadLE16At(h, p, f);
      }
    } else if code == 2 {
      assert ReadLE32(h, p) == pledgedSrcSize by {
        ReadLE32At(h, p, f);
      }
    } else {
      assert ReadLE64(h, p) == pledgedSrcSize by {
        ReadLE64At(h, p, f);
      }
    }
  }


  /** ZSTD_writeFrameHeader's bytes: magic number, descriptor, optional window
      byte, dictionary ID, content size. */
  function FrameHeader(windowLog: nat, contentSizeFlag: bool, checksumFlag: bool, pledgedSrcSize: U64, dictID: U32): (h: seq<Byte>)
    requires 12 <= windowLog < 32
    ensures 5 <= |h| <= FrameHeaderSizeMax
  {
    var direct := DirectMode(windowLog, contentSizeFlag, pledgedSrcSize);
    var fcsCode := FcsCode(contentSizeFlag, pledgedSrcSize);
    LE32(MagicNumber)
    + [FrameDescriptor(DictIDSizeCode(dictID), checksumFlag, direct, fcsCode)]
    + WindowField(windowLog, direct)
    + DictIDField(dictID)
    + ContentSizeField(fcsCode, direct, pledgedSrcSize)
  }

  datatype FrameHeaderFields = FrameHeaderFields(
    windowLog: Option<nat>,      // None in single-segment mode
    checksumFlag: bool,
    dictID: nat,
    contentSize: Option<nat>)    // None when unknown

  /** How a reader of the format decodes a frame header, with its length;
      None for a wrong magic number or bytes that end inside the header. */
  function ParseFrameHeader(h: seq<Byte>): (r: Option<(FrameHeaderFields, nat)>)
    ensures r.Some? ==> 5 <= r.value.1 <= |h|
  {
    if |h| < 5 || ReadLE32(h, 0) != MagicNumber then None
    else
      var d := h[4];
      var dictCode := d % 4;
      var checksumFlag := (d / 4) % 2 == 1;
      var direct := (d / 0x20) % 2 == 1;
      var fcsCode := d / 0x40;
      var dPos := if direct then 5 else 6;
      var cPos := dPos + DictIDFieldSize(dictCode);
      var end := cPos + ContentSizeFieldSize(fcsCode, direct);
      if |h| < end then None
      else
        var windowLog := if direct then None else Some(h[5] / 8 + 12);
        Some((FrameHeaderFields(windowLog, checksumFlag, ReadDictIDField(h, dPos, dictCode),
                                ReadContentSizeField(h, cPos, fcsCode, direct)), end))
  }

  /** The fields a reader recovers from a header written for these
      parameters: the window log unless in single-segment mode, the checksum
      flag, the dictionary ID, and the content size exactly when the flag asks
      for it and the pledged size is known (non-zero). */
  function ExpectedFrameHeaderFields(windowLog: nat, contentSizeFlag: bool, checksumFlag: bool, pledgedSrcSize: U64, dictID: U32): FrameHeaderFields
  {
    FrameHeaderFields(
      if DirectMode(windowLog, contentSizeFlag, pledgedSrcSize) then None else Some(windowLog),
      checksumFlag,
      dictID,
      if contentSizeFlag && pledgedSrcSize > 0 then Some(pledgedSrcSize) else None)
  }

  /** ZSTD_writeFrameHeader's bytes are read back as the fields they were
      written from, whatever follows them. */
  lemma {:induction false} FrameHeaderRoundTrip(windowLog: nat, contentSizeFlag: bool, checksumFlag: bool,
                                                pledgedSrcSize: U64, dictID: U32, rest: seq<Byte>)
    requires 12 <= windowLog < 32
    ensures var h := FrameHeader(windowLog, contentSizeFlag, checksumFlag, pledgedSrcSize, dictID);
            ParseFrameHeader(h + rest)
            == Some((ExpectedFrameHeaderFields(windowLog, contentSizeFlag, checksumFlag, pledgedSrcSize, dictID), |h|))
  {
    var direct := DirectMode(windowLog, contentSizeFlag, pledgedSrcSize);
    var fcsCode := FcsCode(contentSizeFlag, pledgedSrcSize);
    var dictCode := DictIDSizeCode(dictID);
    var magic := LE32(MagicNumber);
    var wf := WindowField(windowLog, direct);
    var df := DictIDField(dictID);
    var cf := ContentSizeField(fcsCode, direct, pledgedSrcSize);
    var d := FrameDescriptor(dictCode, checksumFlag, direct, fcsCode);
    var hdr := FrameHeader(windowLog, contentSizeFlag, checksumFlag, pledgedSrcSize, dictID);
    var a := magic + [d] + wf;
    assert hdr == a + df + cf;
    var h := hdr + rest;
    var dPos := |a|;
    var cPos := dPos + |df|;
    assert dPos == if direct then 5 else 6;
    FrameDescriptorFields(dictCode, checksumFlag, direct, fcsCode);
    FieldsInPlace(h, a, df, cf, rest);
    assert h[..4] == magic by {
      assert h[..4] == h[..dPos][..4];
    }
    ReadLE32At(h, 0, magic);
    assert h[4] == d by {
      assert h[4] == h[..dPos][4];
    }
    assert !direct ==> h[5] == wf[0] by {
      if !direct {
        assert h[5] == h[..dPos][5];
      }
    }
    DictIDFieldRoundTrip(dictID, h, dPos);
    ContentSizeFieldRoundTrip(windowLog, contentSizeFlag, pledgedSrcSize, h, cPos);
  }

  /** Where each part of a concatenation sits in it. */
  lemma FieldsInPlace(h: seq<Byte>, a: seq<Byte>, df: seq<Byte>, cf: seq<Byte>, rest: seq<Byte>)
    requires h == a + df + cf + rest
    ensures h[..|a|] == a
    ensures h[|a|..|a| + |df|] == df
    ensures h[|a| + |df|..|a| + |df| + |cf|] == cf
  {
    assert (a + df + cf + rest)[..|a|] == a;
  }

  /** ZSTD_writeFrameHeader: fewer than 18 bytes of room is dstSize_tooSmall;
      otherwise the header is written at the start of `dst` and its length
      returned. */
  method WriteFrameHeader(dst: array<Byte>, windowLog: nat, contentSizeFlag: bool, checksumFlag: bool,
                          pledgedSrcSize: U64, dictID: U32) returns (r: Result<nat>)
    requires 12 <= windowLog < 32
    modifies dst
    ensures r.Err? <==> dst.Length < FrameHeaderSizeMax
    ensures r.Err? ==> r.error == DstSizeTooSmall && dst[..] == old(dst[..])
    ensures r.Ok? ==> r.value <= FrameHeaderSizeMax
    ensures r.Ok? ==> dst[..r.value] == FrameHeader(windowLog, contentSizeFlag, checksumFlag, pledgedSrcSize, dictID)
    ensures r.Ok? ==> dst[r.value..] == old(dst[r.value..])
  {
    if dst.Length < FrameHeaderSizeMax {
      return Err(DstSizeTooSmall);
    }
    var h := FrameHeader(windowLog, contentSizeFlag, checksumFlag, pledgedSrcSize, dictID);
    forall i | 0 <= i < |h| {
      dst[i] := h[i];
    }
    r := Ok(|h|);
  }
}
