/**
  Transport stream packets: the header as a function of the 188 bytes, the parsing constructor,
  and an encoder that the header functions invert.
 */
module TsPackets {
  import opened Bytes

  const PACKET_SIZE: nat := 188
  const SYNC_BYTE: Byte := 0x47
  const SIZE_T_MODULUS: int := 0x1_0000_0000_0000_0000

  /** A view of part of an array; it does not own the bytes. */
  datatype ConstBuffer = ConstBuffer(data: array<Byte>, offset: nat, size: nat) {
    ghost predicate InBounds() {
      offset + size <= data.Length
    }

    ghost function Bytes(): seq<Byte>
      requires InBounds()
      reads data
    {
      data[offset..offset + size]
    }
  }

  datatype TsPacket = TsPacket(pid: int, payloadUnitStart: bool, payload: ConstBuffer)

  // ---------------------------------------------------------------- the header fields of 188 bytes

  /** 188 bytes that start with the sync byte. */
  ghost predicate IsFrame(f: seq<Byte>) {
    |f| == 188 && f[0] == 0x47
  }

  ghost function Pid(f: seq<Byte>): int
    requires |f| == PACKET_SIZE
  {
    ThirteenBits(f[1], f[2])
  }

  ghost predicate PayloadUnitStart(f: seq<Byte>)
    requires |f| == PACKET_SIZE
  {
    f[1] / 64 % 2 == 1
  }

  ghost predicate HasAdaptationField(f: seq<Byte>)
    requires |f| == PACKET_SIZE
  {
    f[3] / 32 % 2 == 1
  }

  ghost function PayloadOffset(f: seq<Byte>): nat
    requires |f| == PACKET_SIZE
  {
    if HasAdaptationField(f) then 5 + f[4] as int else 4
  }

  /** The adaptation field ends inside the packet; the constructor does not check this. */
  ghost predicate AdaptationFits(f: seq<Byte>)
    requires |f| == PACKET_SIZE
  {
    PayloadOffset(f) <= PACKET_SIZE
  }

  ghost function Payload(f: seq<Byte>): seq<Byte>
    requires |f| == PACKET_SIZE && AdaptationFits(f)
  {
    f[PayloadOffset(f)..]
  }

  /** The packet has the header fields of the frame f that stands at position base, and its payload is the view of
      the bytes behind the header; the size wraps around when the adaptation field does not fit. */
  ghost predicate ShowsFrame(packet: TsPacket, f: seq<Byte>, base: nat)
    requires |f| == PACKET_SIZE
  {
    && packet.pid == Pid(f) && packet.payloadUnitStart == PayloadUnitStart(f)
    && packet.payload.offset == base + PayloadOffset(f)
    && packet.payload.size == (if AdaptationFits(f) then PACKET_SIZE - PayloadOffset(f)
                               else SIZE_T_MODULUS + PACKET_SIZE - PayloadOffset(f))
  }

  /** The parsing constructor: the payload is a view of the array. */
  method ParsePacket(data: array<Byte>, base: nat) returns (packet: TsPacket)
    requires base + PACKET_SIZE <= data.Length && data[base] == SYNC_BYTE
    ensures packet.payload.data == data && ShowsFrame(packet, data[base..base + PACKET_SIZE], base)
    ensures data[base + 3] / 32 % 2 == 1 && data[base + 4] > 183 ==>
              packet.payload.size == 0x1_0000_0000_0000_0000 + 183 - data[base + 4] as int
  {
    ghost var f := data[base..base + PACKET_SIZE];
    var position := 1;
    assert f[1] == data[base + 1] && f[2] == data[base + 2] && f[3] == data[base + 3] && f[4] == data[base + 4];
    BitSix(data[base + 1]);
    var payloadUnitStart := BitAnd(data[base + position], 0x40) != 0;
    var pid := ReadThirteenBits(data[base + position], data[base + position + 1]);
    position := position + 2;
    ControlBits(data[base + 3]);
    var adaptationFieldControl := BitAnd(data[base + position], 0x30) / 16;
    position := position + 1;
    var payloadOffset, payloadSize := base + position, PACKET_SIZE - position;
    if adaptationFieldControl == 3 || adaptationFieldControl == 2 {
      var skip := 1 + data[payloadOffset] as int;
      payloadOffset := payloadOffset + skip;
      payloadSize := if skip <= payloadSize then payloadSize - skip else SIZE_T_MODULUS + payloadSize - skip;
    }
    packet := TsPacket(pid, payloadUnitStart, ConstBuffer(data, payloadOffset, payloadSize));
  }

  /** An adaptation field is present when its control field is 2 or 3. */
  lemma {:induction false} ControlBits(x: Byte)
    ensures BitAnd(x, 0x30) / 16 == 3 || BitAnd(x, 0x30) / 16 == 2 <==> x / 32 % 2 == 1
  {
    BitsFourFive(x);
    HighBitOfTwo(x);
  }

  lemma {:induction false} HighBitOfTwo(x: Byte)
    ensures x / 16 % 4 >= 2 <==> x / 32 % 2 == 1
  {}

  // ---------------------------------------------------------------- encoding

  /** The parts of a packet, including those that the demultiplexer ignores. */
  datatype Unit = Unit(pid: int, payloadUnitStart: bool, errorBit: int, priorityBit: int, scrambling: int,
                       hasPayload: int, counter: int, adaptation: seq<Byte>, hasAdaptation: bool, payload: seq<Byte>)

  ghost predicate WellFormedUnit(u: Unit) {
    && 0 <= u.pid < 8192 && 0 <= u.errorBit < 2 && 0 <= u.priorityBit < 2 && 0 <= u.scrambling < 4
    && 0 <= u.hasPayload < 2 && 0 <= u.counter < 16
    && (if u.hasAdaptation then 1 + |u.adaptation| + |u.payload| == 184 else u.adaptation == [] && |u.payload| == 184)
  }

  ghost function EncodeUnit(u: Unit): seq<Byte>
    requires WellFormedUnit(u)
  {
    [0x47,
     u.errorBit * 128 + (if u.payloadUnitStart then 64 else 0) + u.priorityBit * 32 + u.pid / 256,
     u.pid % 256,
     u.scrambling * 64 + (if u.hasAdaptation then 32 else 0) + u.hasPayload * 16 + u.counter]
    + (if u.hasAdaptation then [|u.adaptation|] + u.adaptation else []) + u.payload
  }

  /** The header fields and the payload of an encoded packet are those that were encoded. */
  lemma {:induction false} DecodeEncoded(u: Unit)
    requires WellFormedUnit(u)
    ensures var f := EncodeUnit(u);
            && IsFrame(f) && Pid(f) == u.pid && PayloadUnitStart(f) == u.payloadUnitStart
            && AdaptationFits(f) && Payload(f) == u.payload
  {
    var f := EncodeUnit(u);
    SecondByte(f[1], u.errorBit, if u.payloadUnitStart then 1 else 0, u.priorityBit, u.pid / 256);
    FourthByte(f[3], u.scrambling, if u.hasAdaptation then 1 else 0, u.hasPayload, u.counter);
    if u.hasAdaptation {
      assert f[4] == |u.adaptation|;
    }
  }

  /** Every 188 bytes with a sync byte and an adaptation field that fits are the encoding of some packet. */
  lemma {:induction false} EveryFrameIsEncoded(f: seq<Byte>) returns (u: Unit)
    requires IsFrame(f) && AdaptationFits(f)
    ensures WellFormedUnit(u) && EncodeUnit(u) == f
  {
    var offset := PayloadOffset(f);
    var adaptation := if HasAdaptationField(f) then f[5..offset] else [];
    u := Unit(Pid(f), PayloadUnitStart(f), f[1] / 128, f[1] / 32 % 2, f[3] / 64, f[3] / 16 % 2, f[3] % 16,
              adaptation, HasAdaptationField(f), f[offset..]);
    SplitSecond(f[1]);
    SplitFourth(f[3]);
    PidParts(f[1], f[2], Pid(f));
    FrameParts(f, offset, adaptation);
  }

  lemma {:induction false} PidParts(msb: Byte, lsb: Byte, pid: int)
    requires pid == ThirteenBits(msb, lsb)
    ensures 0 <= pid < 8192 && pid / 256 == msb % 32 && pid % 256 == lsb
  {
    DivModUnique(pid, 256, msb % 32, lsb);
  }

  lemma {:induction false} FrameParts(f: seq<Byte>, offset: nat, adaptation: seq<Byte>)
    requires |f| == PACKET_SIZE && offset == PayloadOffset(f) && AdaptationFits(f)
    requires adaptation == if HasAdaptationField(f) then f[5..offset] else []
    ensures f == [f[0], f[1], f[2], f[3]] + (if HasAdaptationField(f) then [f[4]] + adaptation else []) + f[offset..]
  {
    assert f[..4] == [f[0], f[1], f[2], f[3]];
    if HasAdaptationField(f) {
      assert f == f[..4] + ([f[4]] + f[5..offset]) + f[offset..];
    } else {
      assert f == f[..4] + [] + f[4..];
    }
  }

  lemma {:induction false} SecondByte(x: Byte, error: int, start: int, priority: int, high: int)
    requires 0 <= error < 2 && 0 <= start < 2 && 0 <= priority < 2 && 0 <= high < 32
    requires x == error * 128 + start * 64 + priority * 32 + high
    ensures x % 32 == high && x / 64 % 2 == start
  {
    DivModUnique(x, 32, error * 4 + start * 2 + priority, high);
    DivModUnique(x, 64, error * 2 + start, priority * 32 + high);
  }

  lemma {:induction false} FourthByte(x: Byte, scrambling: int, adaptation: int, payload: int, counter: int)
    requires 0 <= scrambling < 4 && 0 <= adaptation < 2 && 0 <= payload < 2 && 0 <= counter < 16
    requires x == scrambling * 64 + adaptation * 32 + payload * 16 + counter
    ensures x / 32 % 2 == adaptation
  {
    DivModUnique(x, 32, scrambling * 2 + adaptation, payload * 16 + counter);
  }

  lemma {:induction false} SplitSecond(x: Byte)
    ensures x == x / 128 * 128 + x / 64 % 2 * 64 + x / 32 % 2 * 32 + x % 32
  {}

  lemma {:induction false} SplitFourth(x: Byte)
    ensures x == x / 64 * 64 + x / 32 % 2 * 32 + x / 16 % 2 * 16 + x % 16
  {}
}
