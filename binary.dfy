/** Little-endian primitives of .NET's BinaryWriter and BinaryReader, on byte
    sequences. C#'s 16- and 32-bit integers are kept as bit-vectors holding
    their two's-complement bits, so that `|`, `&`, `<<` and the casts between
    widths behave exactly as the C# operators do. */
module Binary {

  /** BinaryWriter.Write(ushort): two bytes, low byte first. */
  function WriteUInt16(v: bv16): (b: seq<bv8>)
    ensures |b| == 2
  {
    [(v & 0xFF) as bv8, (v >> 8) as bv8]
  }

  /** BinaryReader.ReadInt16: the 16 bits of the short read from two bytes,
      low byte first. Its sign is applied by SignExtend16. */
  function ReadInt16(b: seq<bv8>): bv16
    requires |b| == 2
  {
    (b[0] as bv16) | ((b[1] as bv16) << 8)
  }

  /** A ushort written and read back as a short keeps its 16 bits. */
  lemma WriteReadUInt16(v: bv16)
    ensures ReadInt16(WriteUInt16(v)) == v
  {
  }

  /** Every two bytes are what WriteUInt16 writes for the bits they hold. */
  lemma ReadThenWriteInt16(b: seq<bv8>)
    requires |b| == 2
    ensures WriteUInt16(ReadInt16(b)) == b
  {
  }

  /** BinaryWriter.Write(int): four bytes, low byte first. */
  function WriteInt32(v: bv32): (b: seq<bv8>)
    ensures |b| == 4
  {
    [(v & 0xFF) as bv8, ((v >> 8) & 0xFF) as bv8, ((v >> 16) & 0xFF) as bv8, (v >> 24) as bv8]
  }

  /** BinaryReader.ReadInt32. */
  function ReadInt32(b: seq<bv8>): bv32
    requires |b| == 4
  {
    (b[0] as bv32) | ((b[1] as bv32) << 8) | ((b[2] as bv32) << 16) | ((b[3] as bv32) << 24)
  }

  /** An int written and read back is unchanged, and only 0 is written as
      four zero bytes. */
  lemma WriteReadInt32(v: bv32)
    ensures ReadInt32(WriteInt32(v)) == v
    ensures WriteInt32(v) == [0, 0, 0, 0] <==> v == 0
  {
  }

  /** Every four bytes are what WriteInt32 writes for the int they hold. */
  lemma ReadThenWriteInt32(b: seq<bv8>)
    requires |b| == 4
    ensures WriteInt32(ReadInt32(b)) == b
  {
  }

  /** C#'s implicit widening of a short to an int: bit 15 is copied into
      bits 16 to 31. */
  function SignExtend16(x: bv16): (r: bv32)
    ensures x < 0x8000 ==> r == x as bv32
    ensures x >= 0x8000 ==> r >= 0xFFFF_8000 && r & 0xFFFF_0000 == 0xFFFF_0000
    ensures (r & 0xFFFF) as bv16 == x
  {
    if x < 0x8000 then x as bv32 else (x as bv32) | 0xFFFF_0000
  }

  /** C#'s `x >> k` on an int: an arithmetic shift, which fills the vacated
      high bits with copies of the sign bit. */
  function ArithShiftRight(x: bv32, k: bv32): bv32
    requires k < 32
  {
    if x < 0x8000_0000 then x >> k else !((!x) >> k)
  }
}
