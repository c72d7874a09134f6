/**
 * Byte strings as the documentation and the tests give them (internal/codec, internal/protostream): each pins down the
 * constants and the order of bytes that a round trip leaves open.
 */
module Samples {
  import opened Wrappers
  import opened Words
  import opened Varint
  import opened Wire
  import H = Headers
  import B = Bodies
  import F = Framing
  import T = TimeUnits
  import P = Protobuf
  import W = Wrapped
  import Hex

  /** Numbers of one to four groups, the low group first. */
  lemma Numbers()
    ensures Print(0) == [0x00] && Print(127) == [0x7F] && Print(128) == [0x80, 0x01] && Print(300) == [0xAC, 0x02]
    ensures Print(16384) == [0x80, 0x80, 0x01] && Print(123456789) == [0x95, 0x9A, 0xEF, 0x3A]
    ensures PrintVInt(-1) == [0xFF, 0xFF, 0xFF, 0xFF, 0x0F]
  {
    assert Print(128 / 0x80) == [0x01] && Print(300 / 0x80) == [0x02];
    assert Print(16384 / 0x80) == [0x80] + Print(0x01);
    assert Print(0x3A) == [0x3A] && Print(7535) == [0xEF] + Print(0x3A) && Print(964506) == [0x9A] + Print(7535);
    assert Print(0xF) == [0x0F] && Print(0x7FF) == [0xFF] + Print(0xF) && Print(0x3FFFF) == [0xFF] + Print(0x7FF);
    assert Print(0x1FFFFFF) == [0xFF] + Print(0x3FFFF) && Print(0xFFFFFFFF) == [0xFF] + Print(0x1FFFFFF);
  }

  /** Fixed-width numbers, the high byte first, and zigzag numbers. */
  lemma FixedNumbers()
    ensures PrintFixed(0x01020304, 4) == [0x01, 0x02, 0x03, 0x04] && PrintFixed(11222, 2) == [0x2B, 0xD6]
    ensures ZigZag(0) == 0 && ZigZag(-1) == 1 && ZigZag(1) == 2 && ZigZag(-2) == 3
    ensures ToUint32(-1) == 0xFFFF_FFFF && ToInt32(0x8000_0000) == -0x8000_0000
    ensures ToUint64(-1) == 0xFFFF_FFFF_FFFF_FFFF && ToInt64(0x8000_0000_0000_0000) == -0x8000_0000_0000_0000
  {
    assert PrintFixed(0x01, 1) == PrintFixed(0, 0) + [0x01];
    assert PrintFixed(0x0102, 2) == PrintFixed(0x01, 1) + [0x02];
    assert PrintFixed(0x010203, 3) == PrintFixed(0x0102, 2) + [0x03];
    assert PrintFixed(0x2B, 1) == PrintFixed(0, 0) + [0x2B];
  }

  /** A response header without a topology, and one with another first byte. */
  lemma HeaderBytes(intelligence: byte, tail: Bytes)
    ensures H.ParseHeader([0xA1, 0x2A, 0x04, 0x00, 0x00] + tail, intelligence) ==
            Ok(H.Header(42, 0x04, 0x00, None), tail)
    ensures H.ParseHeader([0xFF, 0x01, 0x04, 0x00, 0x00], intelligence).Fail?
  {
    var h := H.Header(42, 0x04, 0x00, None);
    assert Print(42) == [0x2A];
    assert H.PrintHeader(h, intelligence) == [0xA1, 0x2A, 0x04, 0x00, 0x00];
    H.HeaderRoundTrip(h, intelligence, tail);
  }

  /** The opcodes of events, and the statuses of errors. */
  lemma Codes(opCode: byte, status: byte)
    ensures F.IsEvent(opCode) <==> opCode in {0x60, 0x61, 0x62, 0x63, 0x66}
    ensures F.IsError(status) <==> 0x81 <= status
    ensures B.CarriesVersion(opCode) <==> opCode in {0x60, 0x61}
  {
  }

  /** By status: a previous value, none, a value, a missing key, an iteration that is gone. */
  lemma Statuses(status: byte, s: Bytes)
    ensures B.ParseBody(B.PreviousValue, status, s) ==
            if status in {0x03, 0x04} then B.ParseDescribed(s) else Ok(B.Empty, s)
    ensures B.ParseBody(B.RemovedValue, status, s) == if status == 0x03 then B.ParseDescribed(s) else Ok(B.Empty, s)
    ensures status == 0x02 ==> B.ParseBody(B.GetValue, status, s) == Ok(B.Empty, s)
    ensures status == 0x02 ==> B.ParseBody(B.GetWithVersion, status, s) == Ok(B.Empty, s)
    ensures status == 0x02 ==> B.ParseBody(B.GetWithMetadata, status, s) == Ok(B.Empty, s)
    ensures status == 0x05 ==> B.ParseBody(B.IterationNext, status, s) == Ok(B.Empty, s)
  {
  }

  /** Ten seconds and the default; five and three seconds; never twice; the default twice; half a second and a day. */
  lemma Durations()
    ensures T.PrintTimeUnits(10_000_000_000, 0) == [0x07, 0x0A]
    ensures T.PrintTimeUnits(5_000_000_000, 3_000_000_000) == [0x00, 0x05, 0x03]
    ensures T.PrintTimeUnits(-1, -1) == [0x88] && T.PrintTimeUnits(0, 0) == [0x77]
    ensures T.PrintTimeUnits(500_000_000, 86_400_000_000_000) == [0x15, 0xF4, 0x03, 0x18]
    ensures T.UnitLength(6) == 86_400_000_000_000
  {
    assert Print(500 / 0x80) == [0x03] && Print(500) == [0xF4, 0x03];
  }

  /** An int32, an int64, a uint64, a uint32, a bool. */
  lemma WrappedNumbers()
    ensures W.Wrap(W.I32(42)) == [0x28, 0x2A] && W.Wrap(W.I64(1000000)) == [0x18, 0xC0, 0x84, 0x3D]
    ensures W.Wrap(W.U64(1)) == [0x20, 0x01] && W.Wrap(W.U32(1)) == [0x58, 0x01]
    ensures W.Wrap(W.Truth(true)) == [0x40, 0x01] && W.Wrap(W.Truth(false)) == [0x40, 0x00]
  {
    assert Print(61) == [0x3D] && Print(7812) == [0x84] + Print(61) && Print(1000000) == [0xC0] + Print(7812);
  }

  /** A string and bytes. */
  lemma WrappedTexts()
    ensures W.Wrap(W.Text([0x68, 0x69])) == [0x4A, 0x02, 0x68, 0x69] && W.Wrap(W.Blob([0xAA])) == [0x52, 0x01, 0xAA]
  {
  }

  /** A float and a double, the low byte first. */
  lemma WrappedFloats()
    ensures W.Wrap(W.Float32(1)) == [0x15] + [0x01, 0x00, 0x00, 0x00]
    ensures W.Wrap(W.Float64(1)) == [0x09] + [0x01, 0x00, 0x00, 0x00, 0x00, 0x00, 0x00, 0x00]
  {
    LittleEndianOne();
    assert P.PrintTag(2, 5) == [0x15] && P.PrintTag(1, 1) == [0x09];
  }

  lemma LittleEndianOne()
    ensures W.PrintLE(1, 4) == [0x01, 0x00, 0x00, 0x00]
    ensures W.PrintLE(1, 8) == [0x01, 0x00, 0x00, 0x00, 0x00, 0x00, 0x00, 0x00]
  {
    assert W.PrintLE(0, 1) == [0x00] && W.PrintLE(0, 2) == [0x00] + W.PrintLE(0, 1);
    assert W.PrintLE(0, 3) == [0x00] + W.PrintLE(0, 2) && W.PrintLE(0, 4) == [0x00] + W.PrintLE(0, 3);
    assert W.PrintLE(0, 5) == [0x00] + W.PrintLE(0, 4) && W.PrintLE(0, 6) == [0x00] + W.PrintLE(0, 5);
    assert W.PrintLE(0, 7) == [0x00] + W.PrintLE(0, 6);
  }

  /** The tags of a wrapped message: its type name, its bytes, and its type ID. */
  lemma MessageTags()
    ensures P.PrintTag(W.WRAPPED_DESCRIPTOR_FULL_NAME, P.LENGTH_DELIMITED) == [0x82, 0x01]
    ensures P.PrintTag(W.WRAPPED_MESSAGE, P.LENGTH_DELIMITED) == [0x8A, 0x01]
    ensures P.PrintTag(W.WRAPPED_DESCRIPTOR_TYPE_ID, P.VARINT) == [0x98, 0x01]
  {
    assert Print(130 / 0x80) == [0x01] && Print(138 / 0x80) == [0x01] && Print(152 / 0x80) == [0x01];
  }

  lemma HexDigits()
    ensures Hex.HexOf([0x0A, 0xF3]) == "0af3"
  {
  }
}
