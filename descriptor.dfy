/** The two descriptor bytes of an LZ4 frame header: FLG (byte 4) and BD
    (byte 5), decoded by shifting and masking as `Flg::from` and `Bd::from`
    do. Bit 7 is the most significant bit of a byte. */
module Descriptor {

  /** The decoded FLG byte: a 2-bit version and five flags. */
  datatype Flg = Flg(
    version: bv8,
    bIndep: bool,
    bChecksum: bool,
    cSize: bool,
    cChecksum: bool,
    dictId: bool)

  /** The decoded BD byte: the 3-bit block-maximum-size code. */
  datatype Bd = Bd(blockMaxSize: bv8)

  /** Bit i of b is set: b has a one where the mask with only bit i does. */
  predicate Bit(b: bv8, i: nat)
    requires i < 8
  {
    b & (1 << i) != 0
  }

  /** `Flg::from`: the version is the top two bits; the flags are bits 5, 4,
      3, 2 and 0. Bit 1 is not read. */
  function FlgFromByte(b: bv8): (f: Flg)
    ensures f.version as nat == b as nat / 64 && f.version <= 3
    ensures f.bIndep == Bit(b, 5)
    ensures f.bChecksum == Bit(b, 4)
    ensures f.cSize == Bit(b, 3)
    ensures f.cChecksum == Bit(b, 2)
    ensures f.dictId == Bit(b, 0)
  {
    Flg(
      b >> 6,
      (b >> 5) & 1 == 1,
      (b >> 4) & 1 == 1,
      (b >> 3) & 1 == 1,
      (b >> 2) & 1 == 1,
      b & 1 == 1)
  }

  /** The FLG byte that encodes f, with the unread bit 1 left clear. */
  function FlgToByte(f: Flg): bv8
    requires f.version <= 3
  {
    (f.version << 6)
    | (if f.bIndep then 0x20 else 0)
    | (if f.bChecksum then 0x10 else 0)
    | (if f.cSize then 0x08 else 0)
    | (if f.cChecksum then 0x04 else 0)
    | (if f.dictId then 0x01 else 0)
  }

  /** Every decoded FLG value is decoded from its own encoding. */
  lemma FlgRoundTrip(f: Flg)
    requires f.version <= 3
    ensures FlgFromByte(FlgToByte(f)) == f
  {
  }

  /** Re-encoding a decoded FLG byte gives the byte back, except bit 1. */
  lemma FlgReencode(b: bv8)
    ensures FlgToByte(FlgFromByte(b)) == b & 0xFD
  {
  }

  /** Two FLG bytes decode alike exactly when they agree outside bit 1. */
  lemma FlgIgnoresOnlyBit1(b1: bv8, b2: bv8)
    ensures FlgFromByte(b1) == FlgFromByte(b2) <==> b1 & 0xFD == b2 & 0xFD
  {
    if FlgFromByte(b1) == FlgFromByte(b2) {
      FlgReencode(b1);
      FlgReencode(b2);
    }
  }

  /** `Bd::from`: the block-maximum-size code is bits 6-4. */
  function BdFromByte(b: bv8): (d: Bd)
    ensures d.blockMaxSize as nat == (b as nat / 16) % 8 && d.blockMaxSize <= 7
  {
    Bd((b >> 4) & 0x07)
  }

  /** Two BD bytes decode alike exactly when they agree in bits 6-4; bits
      0-3 and bit 7 are not read. */
  lemma BdReadsOnlyBits4To6(b1: bv8, b2: bv8)
    ensures BdFromByte(b1) == BdFromByte(b2) <==> b1 & 0x70 == b2 & 0x70
  {
  }
}
