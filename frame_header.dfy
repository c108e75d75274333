/** The LZ4 frame-header decoder of `header` in src/main.rs: the magic
    number, the FLG and BD descriptor bytes, the optional content size, the
    stored header-checksum byte, the XxHash32 of the hashed span, and the
    first data-block field split into its top bit and 31-bit size.

    The decoder is modelled literally, including where it departs from the
    LZ4 frame format: the content size is read from bytes 5..13, the
    dictionary-ID flag moves no field, the top bit of the data-block field is
    reported as "compressed", and the stored checksum byte is never compared
    with the computed one. */
module FrameHeader {
  import opened LittleEndian
  import opened Descriptor

  /** The magic number every LZ4 frame starts with. */
  const Magic: nat := 0x184D2204

  /** Bit 31 of the data-block field. */
  const TopBit: nat := 0x8000_0000

  datatype Option<T> = None | Some(value: T)

  /** Why decoding stopped. `BadMagic` is the failed `assert_eq!` on the
      magic number; `Truncated` is a slice or index out of range, carrying
      the buffer length that access needed. */
  datatype Error = BadMagic(found: nat) | Truncated(needed: nat)

  datatype Result<T> = Ok(value: T) | Err(error: Error)

  /** XxHash32 as a function of (seed, bytes); the algorithm is not modelled. */
  type Hasher = (u32, seq<byte>) -> u32

  /** The first data-block field after decoding: the top bit, the four bytes
      with that bit cleared, and the little-endian value of those bytes. */
  datatype DataBlock = DataBlock(compressed: bool, bytes: seq<byte>, size: nat)

  /** Everything `header` reports about one frame header. */
  datatype Report = Report(
    bytesRead: nat,
    magic: nat,
    flg: Flg,
    bd: Bd,
    contentSize: Option<nat>,
    hc: byte,
    hash: u32,
    hashByte: byte,
    block: DataBlock)

  /** The offset of the stored header-checksum byte. It is the one offset the
      layout depends on: the hashed span ends there and the data-block field
      starts right after it. */
  function ChecksumAt(cSize: bool): nat
  {
    if cSize then 14 else 6
  }

  /** The shortest buffer that decodes: the checksum byte and the four bytes
      of the data-block field must be present. */
  function HeaderLength(cSize: bool): (n: nat)
    ensures n == ChecksumAt(cSize) + 5
  {
    if cSize then 19 else 11
  }

  /** `b >> 7 != 0` on a u8: the top bit is set. */
  predicate TopBitSet(b: byte)
  {
    b / 128 != 0
  }

  /** `b & 0b0111_1111` on a u8: the top bit cleared. */
  function ClearTop(b: byte): byte
  {
    b % 128
  }

  /** The arithmetic behind the split: in the value of four bytes, bit 31 is
      the top bit of the last byte, and clearing it leaves the value modulo
      2^31. */
  lemma SplitValue(b0: nat, b1: nat, b2: nat, b3: nat)
    requires b0 < 256 && b1 < 256 && b2 < 256 && b3 < 256
    ensures var v := b0 + 0x100 * b1 + 0x1_0000 * b2 + 0x100_0000 * b3;
      (b3 >= 128 <==> v >= TopBit) &&
      b0 + 0x100 * b1 + 0x1_0000 * b2 + 0x100_0000 * (b3 % 128) == v % TopBit
  {
    var low := b0 + 0x100 * b1 + 0x1_0000 * b2;
    assert low < 0x100_0000;
    if b3 >= 128 {
      assert low + 0x100_0000 * b3 == TopBit + (low + 0x100_0000 * (b3 - 128));
    }
  }

  /** The split of the data-block field: the flag is bit 31 of its
      little-endian value, the size is that value with bit 31 cleared, and
      only the top bit of the last byte is cleared. */
  function SplitBlockField(f: seq<byte>): (d: DataBlock)
    requires |f| == 4
    ensures d.compressed <==> f[3] >= 128
    ensures d.compressed <==> FromLe(f) >= TopBit
    ensures |d.bytes| == 4 && d.bytes[..3] == f[..3]
    ensures d.bytes[3] == f[3] % 128
    ensures d.size < TopBit && d.size == FromLe(f) % TopBit
  {
    var compressed := TopBitSet(f[3]);
    var cleared := f[..3] + [ClearTop(f[3])];
    FromLe4(f);
    FromLe4(cleared);
    SplitValue(f[0], f[1], f[2], f[3]);
    DataBlock(compressed, cleared, FromLe(cleared))
  }

  /** The four bytes of a data-block field with the given top bit and size. */
  function EncodeBlockField(compressed: bool, size: nat): (f: seq<byte>)
    requires size < TopBit
    ensures |f| == 4
    ensures FromLe(f) == size + (if compressed then TopBit else 0)
  {
    var v := size + (if compressed then TopBit else 0);
    assert Pow256(4) == 0x1_0000_0000;
    FromLeToLe(v, 4);
    ToLe(v, 4)
  }

  /** Splitting an encoded field gives back the exact bit and size. */
  lemma SplitEncode(compressed: bool, size: nat)
    requires size < TopBit
    ensures SplitBlockField(EncodeBlockField(compressed, size)).compressed == compressed
    ensures SplitBlockField(EncodeBlockField(compressed, size)).size == size
  {
    SplitOfValue(EncodeBlockField(compressed, size), size + (if compressed then TopBit else 0));
  }

  /** What the split says about a field depends on its value alone. */
  lemma SplitOfValue(f: seq<byte>, v: nat)
    requires |f| == 4 && FromLe(f) == v
    ensures SplitBlockField(f).compressed <==> v >= TopBit
    ensures SplitBlockField(f).size == v % TopBit
  {
  }

  /** Encoding the bit and size of a split field gives back the field. */
  lemma EncodeSplit(f: seq<byte>)
    requires |f| == 4
    ensures EncodeBlockField(SplitBlockField(f).compressed, SplitBlockField(f).size) == f
  {
    var d := SplitBlockField(f);
    assert FromLe(f) == d.size + (if d.compressed then TopBit else 0);
    ToLeFromLe(f);
  }

  /** The decoding of a whole buffer, field by field. A buffer decodes when
      its magic number is right and it reaches the end of the data-block
      field; otherwise the first out-of-range access decides the error. */
  function ParseHeader(buf: seq<byte>, xxh32: Hasher): (r: Result<Report>)
    ensures r.Ok? ==> r.value.bytesRead == |buf| && |buf| >= HeaderLength(r.value.flg.cSize)
    ensures r.Err? && r.error.Truncated? ==> |buf| < r.error.needed
  {
    if |buf| < 4 then Err(Truncated(4))
    else if FromLe(buf[..4]) != Magic then Err(BadMagic(FromLe(buf[..4])))
    else if |buf| < 6 then Err(Truncated(|buf| + 1))
    else
      var flg := FlgFromByte(buf[4] as bv8);
      var at := ChecksumAt(flg.cSize);
      if |buf| <= at then Err(Truncated(at + 1))
      else if |buf| < at + 5 then Err(Truncated(at + 5))
      else
        var hash := xxh32(0, buf[4..at]);
        Ok(Report(
          |buf|,
          Magic,
          flg,
          BdFromByte(buf[5] as bv8),
          if flg.cSize then Some(FromLe(buf[5..13])) else None,
          buf[at],
          hash,
          Digit(hash, 1),
          SplitBlockField(buf[at + 1..at + 5])))
  }

  /** Reads the top bit of a four-byte data-block field, clears it in place,
      and reads the cleared bytes as a little-endian u32. */
  method ClearTopBit(datablocks: array<byte>) returns (compressed: bool, datasize: nat)
    requires datablocks.Length == 4
    modifies datablocks
    ensures DataBlock(compressed, datablocks[..], datasize) == SplitBlockField(old(datablocks[..]))
  {
    compressed := TopBitSet(datablocks[3]);
    datablocks[3] := ClearTop(datablocks[3]);
    assert datablocks[..] == old(datablocks[..3]) + [ClearTop(old(datablocks[3]))];
    datasize := FromLe(datablocks[..]);
  }

  /** `header` after the file is read: step by step, with the data-block
      field copied into a local four-byte array whose last byte has its top
      bit cleared in place before the array is read as a u32. */
  method Header(buf: seq<byte>, xxh32: Hasher) returns (r: Result<Report>)
    ensures r == ParseHeader(buf, xxh32)
  {
    if |buf| < 4 {
      return Err(Truncated(4));
    }
    var magic := FromLe(buf[0..4]);
    if magic != Magic {
      return Err(BadMagic(magic));
    }
    if |buf| < 5 {
      return Err(Truncated(5));
    }
    var flag := FlgFromByte(buf[4] as bv8);
    if |buf| < 6 {
      return Err(Truncated(6));
    }
    var bd := BdFromByte(buf[5] as bv8);
    var hc: byte;
    var hash: u32;
    var datablocks: array<byte>;
    var contentSize: Option<nat>;
    if !flag.cSize {
      if |buf| < 7 {
        return Err(Truncated(7));
      }
      hc := buf[6];
      hash := xxh32(0, buf[4..6]);
      if |buf| < 11 {
        return Err(Truncated(11));
      }
      datablocks := new byte[4] [buf[7], buf[8], buf[9], buf[10]];
      assert datablocks[..] == buf[7..11];
      contentSize := None;
    } else {
      if |buf| < 15 {
        return Err(Truncated(15));
      }
      hc := buf[14];
      hash := xxh32(0, buf[4..14]);
      contentSize := Some(FromLe(buf[5..13]));
      if |buf| < 19 {
        return Err(Truncated(19));
      }
      datablocks := new byte[4] [buf[15], buf[16], buf[17], buf[18]];
      assert datablocks[..] == buf[15..19];
    }
    // `finish()` widens the 32-bit hash to a u64; byte 1 of its eight
    // little-endian bytes is kept.
    assert Pow256(8) == 0x1_0000_0000_0000_0000;
    var t := ToLe(hash, 8)[1];
    ToLeAt(hash, 8, 1);
    ghost var at := ChecksumAt(flag.cSize);
    assert datablocks[..] == buf[at + 1..at + 5];
    var compressed, datasize := ClearTopBit(datablocks);
    r := Ok(Report(|buf|, magic, flag, bd, contentSize, hc, hash, t,
                   DataBlock(compressed, datablocks[..], datasize)));
  }

  /** The outcome is decided by the length, the magic number and the
      content-size flag alone: a wrong magic number is reported whenever
      four bytes are there to read, and a buffer with the right magic number
      decodes exactly when it holds 11 bytes, or 19 with a content size. */
  lemma Outcome(buf: seq<byte>, xxh32: Hasher)
    ensures ParseHeader(buf, xxh32).Err? && ParseHeader(buf, xxh32).error.BadMagic?
      <==> |buf| >= 4 && FromLe(buf[..4]) != Magic
    ensures ParseHeader(buf, xxh32).Ok?
      <==> |buf| >= 6 && FromLe(buf[..4]) == Magic && |buf| >= HeaderLength(FlgFromByte(buf[4] as bv8).cSize)
    ensures ParseHeader(buf, xxh32).Err? && ParseHeader(buf, xxh32).error.Truncated?
      ==> |buf| < ParseHeader(buf, xxh32).error.needed <= 19
  {
  }

  /** A decoded header reports the buffer length, the magic number, and the
      FLG and BD bytes at offsets 4 and 5 decoded as such. */
  lemma Descriptors(buf: seq<byte>, xxh32: Hasher)
    requires ParseHeader(buf, xxh32).Ok?
    ensures ParseHeader(buf, xxh32).value.bytesRead == |buf|
    ensures ParseHeader(buf, xxh32).value.magic == Magic
    ensures ParseHeader(buf, xxh32).value.flg == FlgFromByte(buf[4] as bv8)
    ensures ParseHeader(buf, xxh32).value.bd == BdFromByte(buf[5] as bv8)
  {
  }

  /** The reported hash byte is the second-lowest byte of the hash of the
      bytes from offset 4 up to the checksum byte. */
  lemma HashByteOfHash(buf: seq<byte>, xxh32: Hasher)
    requires ParseHeader(buf, xxh32).Ok?
    ensures var h := ParseHeader(buf, xxh32).value;
      h.hash == xxh32(0, buf[4..ChecksumAt(h.flg.cSize)]) &&
      h.hashByte == (h.hash / 256) % 256
  {
    var hash := ParseHeader(buf, xxh32).value.hash;
    assert Digit(hash, 1) == Digit(hash / 256, 0);
  }

  /** Without a content size: the checksum byte is byte 6, exactly bytes
      4..6 are hashed, the data-block field is bytes 7..11, and no content
      size is reported. */
  lemma LayoutWithoutContentSize(buf: seq<byte>, xxh32: Hasher)
    requires ParseHeader(buf, xxh32).Ok? && !ParseHeader(buf, xxh32).value.flg.cSize
    ensures |buf| >= 11
    ensures ParseHeader(buf, xxh32).value.hc == buf[6]
    ensures ParseHeader(buf, xxh32).value.hash == xxh32(0, buf[4..6])
    ensures ParseHeader(buf, xxh32).value.contentSize == None
    ensures ParseHeader(buf, xxh32).value.block == SplitBlockField(buf[7..11])
  {
  }

  /** With a content size: the checksum byte is byte 14, exactly bytes 4..14
      are hashed, the data-block field is bytes 15..19, and the content size
      is the little-endian u64 of bytes 5..13. */
  lemma LayoutWithContentSize(buf: seq<byte>, xxh32: Hasher)
    requires ParseHeader(buf, xxh32).Ok? && ParseHeader(buf, xxh32).value.flg.cSize
    ensures |buf| >= 19
    ensures ParseHeader(buf, xxh32).value.hc == buf[14]
    ensures ParseHeader(buf, xxh32).value.hash == xxh32(0, buf[4..14])
    ensures ParseHeader(buf, xxh32).value.contentSize == Some(FromLe(buf[5..13]))
    ensures FromLe(buf[5..13]) < 0x1_0000_0000_0000_0000
    ensures ParseHeader(buf, xxh32).value.block == SplitBlockField(buf[15..19])
  {
    assert Pow256(8) == 0x1_0000_0000_0000_0000;
  }

  /** No FLG bit other than the content-size bit moves a field: two buffers
      that differ only in the FLG byte, and agree in its content-size flag
      (bit 3), fail with the same error, or both decode to the same checksum
      byte, content size, block descriptor and data-block field. */
  lemma OnlyContentSizeFlagMovesFields(buf1: seq<byte>, buf2: seq<byte>, xxh32: Hasher)
    requires |buf1| == |buf2| >= 5
    requires forall i :: 0 <= i < |buf1| && i != 4 ==> buf1[i] == buf2[i]
    requires FlgFromByte(buf1[4] as bv8).cSize == FlgFromByte(buf2[4] as bv8).cSize
    ensures ParseHeader(buf1, xxh32).Ok? == ParseHeader(buf2, xxh32).Ok?
    ensures ParseHeader(buf1, xxh32).Err? ==> ParseHeader(buf1, xxh32) == ParseHeader(buf2, xxh32)
    ensures ParseHeader(buf1, xxh32).Ok? ==>
      var h1, h2 := ParseHeader(buf1, xxh32).value, ParseHeader(buf2, xxh32).value;
      h1.hc == h2.hc && h1.contentSize == h2.contentSize && h1.bd == h2.bd && h1.block == h2.block
  {
    assert buf1[..4] == buf2[..4];
    if |buf1| >= 6 {
      var c := FlgFromByte(buf1[4] as bv8).cSize;
      var at := ChecksumAt(c);
      if |buf1| >= at + 5 {
        assert buf1[at + 1..at + 5] == buf2[at + 1..at + 5];
        assert c ==> buf1[5..13] == buf2[5..13];
      }
    }
  }
}
