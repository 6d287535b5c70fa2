/*
 * The packet cursor of the game client: typed reads from a received byte
 * buffer at an offset that moves forward, and the int16 codec the wire uses.
 *
 * The source reads a short in host byte order; this model fixes it as
 * little-endian two's complement.
 */
module Packet {

  /** One byte of a packet (uint8_t). */
  newtype Byte = b: int | 0 <= b < 0x100

  /** True when v fits a signed 16-bit integer (int16_t). */
  predicate InInt16(v: int) {
    -0x8000 <= v < 0x8000
  }

  /** A position on the field; on the wire each coordinate is an int16. */
  datatype Position = Position(x: int, y: int)

  predicate IsWirePosition(p: Position) {
    InInt16(p.x) && InInt16(p.y)
  }

  // ---------------------------------------------------------------------------
  // The int16 codec
  // ---------------------------------------------------------------------------

  /** The int16 stored little-endian, two's complement, in the bytes lo, hi. */
  function Int16(lo: Byte, hi: Byte): (v: int)
    ensures InInt16(v)
    ensures v >= 0 <==> hi < 0x80
  {
    var u := lo as int + 0x100 * hi as int;
    if u < 0x8000 then u else u - 0x1_0000
  }

  /** The two bytes, low byte first, that store v as an int16. */
  function EncodeInt16(v: int): (bytes: seq<Byte>)
    requires InInt16(v)
    ensures |bytes| == 2
    ensures Int16(bytes[0], bytes[1]) == v
  {
    var u := if v < 0 then v + 0x1_0000 else v;
    [(u % 0x100) as Byte, (u / 0x100) as Byte]
  }

  /** Every pair of bytes is the encoding of the int16 it decodes to. */
  lemma Int16RoundTrip(lo: Byte, hi: Byte)
    ensures EncodeInt16(Int16(lo, hi)) == [lo, hi]
  {
  }

  // ---------------------------------------------------------------------------
  // What a read yields, as functions of the buffer and the offset
  // ---------------------------------------------------------------------------

  /** True when `width` bytes starting at `offset` lie inside `data`. */
  predicate Fits(data: seq<Byte>, offset: nat, width: nat) {
    offset + width <= |data|
  }

  /** The offset after a read of `width` bytes: moved on when the read fits, unchanged otherwise. */
  function Advance(data: seq<Byte>, offset: nat, width: nat): nat {
    if Fits(data, offset, width) then offset + width else offset
  }

  /** The byte a read at `offset` yields: the byte there, or 0 when there is none. */
  function ByteAt(data: seq<Byte>, offset: nat): Byte {
    if Fits(data, offset, 1) then data[offset] else 0
  }

  /** The int16 a read at `offset` yields: the two bytes there, or 0 when they do not fit. */
  function ShortAt(data: seq<Byte>, offset: nat): int {
    if Fits(data, offset, 2) then Int16(data[offset], data[offset + 1]) else 0
  }

  /** The position a read at `offset` yields: x, then y read where x left off. */
  function PositionAt(data: seq<Byte>, offset: nat): (p: Position)
    ensures IsWirePosition(p)
    ensures Fits(data, offset, 4) ==>
      p == Position(Int16(data[offset], data[offset + 1]), Int16(data[offset + 2], data[offset + 3]))
    ensures !Fits(data, offset, 4) ==> p.y == 0
    ensures !Fits(data, offset, 2) ==> p == Position(0, 0)
  {
    Position(ShortAt(data, offset), ShortAt(data, Advance(data, offset, 2)))
  }

  // ---------------------------------------------------------------------------
  // The readers (client/networking.c ReadByte, ReadShort, ReadPosition).
  // The offset the source updates through `size_t* offset` is passed in and returned.
  // A read that does not fit returns 0 and leaves the offset where it was.
  // ---------------------------------------------------------------------------

  method ReadByte(data: seq<Byte>, offset: nat) returns (value: Byte, next: nat)
    ensures Fits(data, offset, 1) ==> value == data[offset] && next == offset + 1
    ensures !Fits(data, offset, 1) ==> value == 0 && next == offset
    ensures value == ByteAt(data, offset) && next == Advance(data, offset, 1)
  {
    if offset + 1 > |data| {
      return 0, offset;
    }
    value := data[offset];
    next := offset + 1;
  }

  method ReadShort(data: seq<Byte>, offset: nat) returns (value: int, next: nat)
    ensures InInt16(value)
    ensures Fits(data, offset, 2) ==>
      value == Int16(data[offset], data[offset + 1]) && next == offset + 2
    ensures !Fits(data, offset, 2) ==> value == 0 && next == offset
    ensures value == ShortAt(data, offset) && next == Advance(data, offset, 2)
  {
    if offset + 2 > |data| {
      return 0, offset;
    }
    next := offset + 2;
    value := Int16(data[offset], data[offset + 1]);
  }

  method ReadPosition(data: seq<Byte>, offset: nat) returns (pos: Position, next: nat)
    ensures IsWirePosition(pos)
    ensures Fits(data, offset, 4) ==>
      pos == Position(Int16(data[offset], data[offset + 1]), Int16(data[offset + 2], data[offset + 3]))
      && next == offset + 4
    ensures Fits(data, offset, 2) && !Fits(data, offset, 4) ==>
      pos == Position(Int16(data[offset], data[offset + 1]), 0) && next == offset + 2
    ensures !Fits(data, offset, 2) ==> pos == Position(0, 0) && next == offset
    ensures pos == PositionAt(data, offset)
  {
    var x, afterX := ReadShort(data, offset);
    var y, afterY := ReadShort(data, afterX);
    pos, next := Position(x, y), afterY;
  }

  // ---------------------------------------------------------------------------
  // The readers as the source writes them. Their guard is `offset > length`,
  // which lets a read start at the end of the buffer (or, for a short, one
  // byte before it) and run past it.
  // ---------------------------------------------------------------------------

  /** What a read in the source does: return a value and the new offset, or read past the buffer. */
  datatype SourceRead = Returned(value: int, next: nat) | ReadsPastEnd

  /** The guard of the source's readers: reading goes ahead unless `offset > length`. */
  predicate SourceGuardPasses(data: seq<Byte>, offset: nat) {
    !(offset > |data|)
  }

  function SourceReadByte(data: seq<Byte>, offset: nat): (r: SourceRead)
    ensures offset > |data| ==> r == Returned(0, offset)
    ensures offset < |data| ==> r == Returned(data[offset] as int, offset + 1)
    ensures r.Returned? ==> 0 <= r.value < 0x100 && (r.next == offset || r.next == offset + 1)
  {
    if !SourceGuardPasses(data, offset) then Returned(0, offset)
    else if Fits(data, offset, 1) then Returned(data[offset] as int, offset + 1)
    else ReadsPastEnd
  }

  function SourceReadShort(data: seq<Byte>, offset: nat): (r: SourceRead)
    ensures offset > |data| ==> r == Returned(0, offset)
    ensures offset + 2 <= |data| ==> r == Returned(Int16(data[offset], data[offset + 1]), offset + 2)
    ensures r.Returned? ==> InInt16(r.value) && (r.next == offset || r.next == offset + 2)
  {
    if !SourceGuardPasses(data, offset) then Returned(0, offset)
    else if Fits(data, offset, 2) then Returned(Int16(data[offset], data[offset + 1]), offset + 2)
    else ReadsPastEnd
  }

  /** The source's byte read runs past the buffer exactly when it starts at its end. */
  lemma SourceReadByteOverrun(data: seq<Byte>, offset: nat)
    ensures SourceReadByte(data, offset).ReadsPastEnd? <==> offset == |data|
    ensures SourceReadByte(data, offset).ReadsPastEnd? <==>
      SourceGuardPasses(data, offset) && !Fits(data, offset, 1)
  {
  }

  /** The source's short read runs past the buffer exactly when it starts at the end or one byte before it. */
  lemma SourceReadShortOverrun(data: seq<Byte>, offset: nat)
    ensures SourceReadShort(data, offset).ReadsPastEnd? <==> offset == |data| || offset + 1 == |data|
    ensures SourceReadShort(data, offset).ReadsPastEnd? <==>
      SourceGuardPasses(data, offset) && !Fits(data, offset, 2)
  {
  }

  /** Wherever the source's byte read stays inside the buffer, the tightened read returns the same. */
  lemma ReadByteAgreesWithSource(data: seq<Byte>, offset: nat)
    ensures !SourceReadByte(data, offset).ReadsPastEnd? ==>
      SourceReadByte(data, offset) == Returned(ByteAt(data, offset) as int, Advance(data, offset, 1))
    ensures Fits(data, offset, 1) ==> !SourceReadByte(data, offset).ReadsPastEnd?
  {
  }

  /** Wherever the source's short read stays inside the buffer, the tightened read returns the same. */
  lemma ReadShortAgreesWithSource(data: seq<Byte>, offset: nat)
    ensures !SourceReadShort(data, offset).ReadsPastEnd? ==>
      SourceReadShort(data, offset) == Returned(ShortAt(data, offset), Advance(data, offset, 2))
    ensures Fits(data, offset, 2) ==> !SourceReadShort(data, offset).ReadsPastEnd?
  {
  }
}
