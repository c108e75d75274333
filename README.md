# lz4header in Dafny

A model of the LZ4 frame-header decoder of `lz4header` (`src/main.rs`). The
decoder reads a whole file into a byte buffer and reports the fields at its
start:

- the little-endian u32 magic number, which must be `0x184D2204`;
- the FLG byte (offset 4), decoded into a 2-bit version and five flags;
- the BD byte (offset 5), decoded into a 3-bit block-maximum-size code;
- when the content-size flag is set, a little-endian u64 content size;
- the stored header-checksum byte;
- the XxHash32 (seed 0) of the bytes from offset 4 up to the checksum byte,
  and byte 1 of that hash;
- the first data-block field: its top bit, reported as "compressed", and
  the little-endian u32 of its four bytes with that bit cleared.

Only the content-size flag moves a field. Without it, the checksum byte is
at offset 6, bytes 4..6 are hashed, and the data-block field is bytes 7..11.
With it, the checksum byte is at offset 14, bytes 4..14 are hashed, the
content size is read from bytes 5..13, and the data-block field is bytes
15..19.

Files and modules:

- `little_endian.dfy`, module `LittleEndian`: the `byte` and `u32` types and
  the little-endian codec (`from_le_bytes`, `to_le_bytes`) with its two
  round trips.
- `descriptor.dfy`, module `Descriptor`: `Flg::from` and `Bd::from` as
  functions on `bv8`, with the encoder of FLG and the lemmas that say which
  bits are read.
- `frame_header.dfy`, module `FrameHeader`: the specification function
  `ParseHeader`, the imperative method `Header`, and the lemmas about the
  layout, the outcome and the data-block field.
- `scenarios.dfy`, module `HeaderScenarios`: concrete headers decoded end to
  end.

`Header` follows the source statement by statement, in the source's order
of accesses. It copies the data-block field into a local four-byte array and
clears the top bit of the array's last byte in place (`ClearTopBit`) before
reading the array as a u32. Its contract ties its result to `ParseHeader`.
The lemmas state what `ParseHeader` means.

Failures are values of `Error`. `BadMagic(found)` is the failing
`assert_eq!` on the magic number. `Truncated(needed)` is a slice or index
out of range. It carries the buffer length that the first failing access
needed, taken in the source's order: 4 for the magic number, 5 and 6 for
FLG and BD, then 7 and 11 without content size, or 15 and 19 with it.

XxHash32 is a parameter `xxh32: (seed, bytes) -> u32`. The model states
which bytes it receives and how its result is used, nothing about its
value.

## Departures from the LZ4 frame format

The code is modelled as written. Where it differs from the LZ4 Frame Format
Description, the model keeps the code's behaviour:

- The content size is read from bytes 5..13 (`src/main.rs:76`). The format
  places it at bytes 6..14, right after BD.
- The dictionary-ID flag is decoded but moves no offset (`src/main.rs:64`).
  In the format, a set flag inserts a 4-byte dictionary ID before the
  checksum byte.
- The top bit of the data-block field is reported as `compressed`
  (`src/main.rs:89`, `92`). In the format, a set bit means the block is
  stored uncompressed.
- The stored checksum byte is reported beside byte 1 of the computed hash,
  but the two are never compared (`src/main.rs:83-88`). The model adds no
  such check.

The reported hash byte does agree with the format: it is byte 1 of the
little-endian hash, `(hash >> 8) & 0xFF` (`src/main.rs:87`), which is the
byte the format stores as the header checksum.

## Model

| member | source | states |
|---|---|---|
| `Descriptor.FlgFromByte` | src/main.rs:26-37 | the version is the byte's value divided by 64, so at most 3; `b_indep`, `b_checksum`, `c_size`, `c_checksum` and `dict_id` are exactly bits 5, 4, 3, 2 and 0 of the byte |
| `Descriptor.FlgRoundTrip` | src/main.rs:26-36 | every FLG value with a version of at most 3 is decoded from its own encoding |
| `Descriptor.FlgReencode` | src/main.rs:26-36 | re-encoding a decoded FLG byte gives back the byte with bit 1 cleared |
| `Descriptor.FlgIgnoresOnlyBit1` | src/main.rs:26-36 | two FLG bytes decode to the same value if and only if they agree outside bit 1 |
| `Descriptor.BdFromByte` | src/main.rs:39-45 | the block-maximum-size code is bits 6-4 of the byte, `(b / 16) % 8`, so at most 7 |
| `Descriptor.BdReadsOnlyBits4To6` | src/main.rs:42 | two BD bytes decode to the same value if and only if they agree in bits 6-4; bits 0-3 and 7 are not read |
| `LittleEndian.FromLe` | src/main.rs:57 | the little-endian value of k bytes is below 256^k (a u32 for 4 bytes, a u64 for 8) |
| `LittleEndian.FromLe4` | src/main.rs:57 | the value of four little-endian bytes is `b0 + 2^8 b1 + 2^16 b2 + 2^24 b3` |
| `LittleEndian.FromLeToLe` | src/main.rs:87 | decoding the k-byte little-endian encoding of an integer below 256^k gives it back |
| `LittleEndian.ToLeFromLe` | src/main.rs:93 | encoding the value of a byte sequence in as many bytes gives the sequence back |
| `LittleEndian.ToLe` | src/main.rs:87 | `to_le_bytes` of a k-byte integer has exactly k bytes; `FromLeToLe` and `ToLeFromLe` prove it the inverse of `FromLe` |
| `LittleEndian.ToLeAt` | src/main.rs:87 | byte i of the little-endian encoding is digit i of the integer in base 256, `(n / 256^i) % 256` |
| `FrameHeader.SplitBlockField` | src/main.rs:89-93 | the flag is set exactly when bit 7 of the last byte, and so bit 31 of the field's u32, is set; bytes 0-2 are unchanged and the last byte loses only its top bit; the size is the u32 modulo 2^31, so below 2^31 |
| `FrameHeader.EncodeBlockField` | src/main.rs:89-93 | the four bytes of a field with a given top bit and size below 2^31 have the value `size + 2^31` when the bit is set and `size` otherwise |
| `FrameHeader.SplitEncode` | src/main.rs:89-93 | splitting the field encoded from any bit and any size below 2^31 gives back that exact bit and size |
| `FrameHeader.EncodeSplit` | src/main.rs:89-93 | encoding the bit and size of any split field gives back the four bytes |
| `FrameHeader.ClearTopBit` | src/main.rs:89-93 | reading the top bit of the local array, clearing it in place and reading the array as a u32 gives the split of the array's old contents, and leaves the cleared bytes in the array |
| `FrameHeader.ParseHeader` | src/main.rs:57-93 | a decoded header records the buffer length, and the buffer holds at least the 11 header bytes, or 19 with the content-size flag; a truncation error needs more bytes than the buffer has; `Outcome`, `Descriptors`, the layout lemmas and `HashByteOfHash` state the rest |
| `FrameHeader.Header` | src/main.rs:57-93 | the step-by-step decoder returns exactly the header or the error that `ParseHeader` describes for every buffer and every hash function |
| `FrameHeader.Outcome` | src/main.rs:57-77 | a wrong magic number is reported exactly when four bytes are there and their u32 is not `0x184D2204`, whatever follows; a buffer decodes exactly when the magic number is right and it holds 11 bytes, or 19 with the content-size flag; a truncation error always needs more bytes than the buffer has, and at most 19 |
| `FrameHeader.Descriptors` | src/main.rs:56-63 | a decoded header reports the buffer length, the magic number, and the FLG and BD bytes at offsets 4 and 5 |
| `FrameHeader.HashByteOfHash` | src/main.rs:64-87 | the hash is XxHash32 with seed 0 of the bytes from offset 4 up to the checksum byte, and the reported hash byte is `(hash / 256) % 256` |
| `FrameHeader.LayoutWithoutContentSize` | src/main.rs:64-70 | without the content-size flag the buffer has at least 11 bytes, the checksum byte is byte 6, exactly bytes 4..6 are hashed, no content size is reported, and the data-block field is bytes 7..11 |
| `FrameHeader.LayoutWithContentSize` | src/main.rs:71-78 | with the content-size flag the buffer has at least 19 bytes, the checksum byte is byte 14, exactly bytes 4..14 are hashed, the content size is the u64 of bytes 5..13, and the data-block field is bytes 15..19 |
| `FrameHeader.OnlyContentSizeFlagMovesFields` | src/main.rs:64-79 | two buffers that differ only in the FLG byte and agree in its content-size flag either fail with the same error, or both decode to the same checksum byte, content size, block descriptor and data-block field |
| `HeaderScenarios.Decodes` | src/main.rs:57-79 | a header with FLG `0x60` and BD `0x40` decodes to version 1 with independent blocks, size code 4, no content size, and the field at bytes 7..11 |
| `HeaderScenarios.TopBitClear` | src/main.rs:89-93 | data-block field `10 00 00 00` gives a 16-byte block not marked compressed |
| `HeaderScenarios.MarkedCompressed` | src/main.rs:89-93 | data-block field `10 00 00 80` gives the same 16-byte block, marked compressed |
| `HeaderScenarios.ShortWithoutContentSize` | src/main.rs:69 | ten bytes without the content-size flag fail at the data-block field, needing 11 |
| `HeaderScenarios.ShortWithContentSize` | src/main.rs:72 | fourteen bytes with the content-size flag fail at the checksum byte, needing 15 |
| `HeaderScenarios.WrongMagic` | src/main.rs:57-59 | a buffer whose last magic byte is wrong fails with the magic number it found |

## Left out

- Opening and reading the file (`src/main.rs:53-55`): the model starts from the byte buffer.
- All printing (`println!`, `dbg!`) and `main` with its default file name (`src/main.rs:99-108`).
- The XxHash32 algorithm (`twox_hash`): it is the parameter `xxh32`, so nothing is stated about hash values themselves.
- Panic messages and `anyhow` plumbing: a panic or a failed `assert_eq!` is an `Err` value; the text of the message is not modelled.
- A checksum comparison, dictionary-ID offsets and block decompression: the code has none of them.
- Idempotence of decoding needs no lemma: `ParseHeader` is a function, and `Header` is proved equal to it for every input.
