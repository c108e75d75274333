/** Concrete frame headers decoded end to end: any buffer with the bytes
    given in a scenario's precondition, whatever its other bytes and
    whatever the hash function. */
module HeaderScenarios {
  import opened LittleEndian
  import opened Descriptor
  import opened FrameHeader

  /** The magic number's four bytes, least significant first. */
  const MagicBytes: seq<byte> := [0x04, 0x22, 0x4D, 0x18]

  /** A buffer that starts with the magic bytes passes the magic check. */
  lemma MagicOf(buf: seq<byte>)
    requires |buf| >= 4 && buf[..4] == MagicBytes
    ensures FromLe(buf[..4]) == Magic
  {
    FromLe4(buf[..4]);
  }

  /** A header with FLG 0x60 (version 1, independent blocks, no content
      size) and BD 0x40 decodes with the layout without content size. */
  lemma Decodes(buf: seq<byte>, xxh32: Hasher)
    requires |buf| == 11 && buf[..4] == MagicBytes
    requires buf[4] == 0x60 && buf[5] == 0x40
    ensures ParseHeader(buf, xxh32).Ok?
    ensures ParseHeader(buf, xxh32).value.flg == Flg(1, true, false, false, false, false)
    ensures ParseHeader(buf, xxh32).value.bd.blockMaxSize == 4
    ensures ParseHeader(buf, xxh32).value.contentSize == None
    ensures ParseHeader(buf, xxh32).value.block == SplitBlockField(buf[7..11])
  {
    MagicOf(buf);
    assert FlgFromByte(0x60) == Flg(1, true, false, false, false, false);
    assert BdFromByte(0x40).blockMaxSize == 4;
  }

  /** Data-block field 10 00 00 00: a 16-byte block, not marked
      "compressed". */
  lemma TopBitClear(buf: seq<byte>, xxh32: Hasher)
    requires |buf| == 11 && buf[..4] == MagicBytes
    requires buf[4] == 0x60 && buf[5] == 0x40 && buf[7..] == [0x10, 0x00, 0x00, 0x00]
    ensures ParseHeader(buf, xxh32).Ok?
    ensures ParseHeader(buf, xxh32).value.block.size == 16
    ensures !ParseHeader(buf, xxh32).value.block.compressed
  {
    Decodes(buf, xxh32);
    FromLe4(buf[7..11]);
  }

  /** Data-block field 10 00 00 80: the same 16-byte block, marked
      "compressed". */
  lemma MarkedCompressed(buf: seq<byte>, xxh32: Hasher)
    requires |buf| == 11 && buf[..4] == MagicBytes
    requires buf[4] == 0x60 && buf[5] == 0x40 && buf[7..] == [0x10, 0x00, 0x00, 0x80]
    ensures ParseHeader(buf, xxh32).Ok?
    ensures ParseHeader(buf, xxh32).value.block.size == 16
    ensures ParseHeader(buf, xxh32).value.block.compressed
  {
    Decodes(buf, xxh32);
    FromLe4(buf[7..11]);
  }

  /** Ten bytes without content size: the data-block field is cut off. */
  lemma ShortWithoutContentSize(buf: seq<byte>, xxh32: Hasher)
    requires |buf| == 10 && buf[..4] == MagicBytes && buf[4] == 0x60
    ensures ParseHeader(buf, xxh32) == Err(Truncated(11))
  {
    MagicOf(buf);
    assert !FlgFromByte(0x60).cSize;
  }

  /** Fourteen bytes with the content-size flag set: the checksum byte at
      offset 14 is already missing. */
  lemma ShortWithContentSize(buf: seq<byte>, xxh32: Hasher)
    requires |buf| == 14 && buf[..4] == MagicBytes && buf[4] == 0x68
    ensures ParseHeader(buf, xxh32) == Err(Truncated(15))
  {
    MagicOf(buf);
    assert FlgFromByte(0x68).cSize;
  }

  /** One wrong magic byte: the wrong magic number is reported. */
  lemma WrongMagic(buf: seq<byte>, xxh32: Hasher)
    requires |buf| >= 4 && buf[..4] == [0x04, 0x22, 0x4D, 0x19]
    ensures ParseHeader(buf, xxh32) == Err(BadMagic(0x194D2204))
  {
    FromLe4(buf[..4]);
  }
}
