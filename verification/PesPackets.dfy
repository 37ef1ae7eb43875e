/**
  Packetized elementary stream parsing: the header is stripped, the rest goes to the consumer.
 */
module PesPackets {
  import opened Bytes
  import opened TsPackets

  /** Stream ids that carry the optional header; for the others the parser is not implemented. */
  predicate Supported(streamId: Byte) {
    streamId !in {0xbc, 0xbe, 0xbf, 0xf0, 0xf1, 0xf2, 0xf8, 0xff}
  }

  /** A packet that the parser is meant for: a supported header, if any, lies wholly in it. */
  ghost predicate PesOk(unitStart: bool, p: seq<Byte>) {
    unitStart && |p| >= 6 ==> Supported(p[3]) && (|p| >= 8 ==> |p| >= 9 && 9 + p[8] as int <= |p|)
  }

  /** The header length field of a supported header is in reach. */
  ghost predicate HeaderReadable(p: seq<Byte>) {
    |p| >= 8 && Supported(p[3]) ==> |p| >= 9
  }

  /** The elementary stream bytes of a payload; a header too short to hold its length field is not stripped. */
  ghost function EsData(unitStart: bool, p: seq<Byte>): seq<Byte>
    requires PesOk(unitStart, p)
  {
    if unitStart && |p| >= 8 then p[9 + p[8] as int..] else p
  }

  /** The calls of the consumer: none for no bytes. */
  ghost function EsCalls(unitStart: bool, p: seq<Byte>): seq<seq<Byte>>
    requires PesOk(unitStart, p)
  {
    if EsData(unitStart, p) == [] then [] else [EsData(unitStart, p)]
  }

  datatype PesResult = PesResult(isSuccess: bool, consumedBytes: nat)

  /** The header may reach beyond the bytes; this is for the caller to see.  Of a stream id that is not supported only
      the six bytes up to the packet length are consumed, where assertions are compiled out. */
  method TryParseHeader(data: seq<Byte>) returns (result: PesResult)
    requires HeaderReadable(data)
    ensures |data| < 6 ==> !result.isSuccess && result.consumedBytes == 0
    ensures |data| >= 6 && data[3] in {0xbc, 0xbe, 0xbf, 0xf0, 0xf1, 0xf2, 0xf8, 0xff} ==>
              result.isSuccess && result.consumedBytes == 6
    ensures |data| >= 6 && data[3] !in {0xbc, 0xbe, 0xbf, 0xf0, 0xf1, 0xf2, 0xf8, 0xff} ==>
              (result.isSuccess <==> |data| >= 8) &&
              result.consumedBytes == if |data| >= 8 then 9 + data[8] as int else 0
  {
    if |data| < 3 + 2 + 1 {
      return PesResult(false, 0);
    }
    var position := 3;
    var streamId := data[position];
    position := position + 1;
    position := position + 2;
    if Supported(streamId) {
      if |data| - position < 2 {
        return PesResult(false, 0);
      }
      position := position + 2;
      var headerDataLength := data[position];
      position := position + 1;
      position := position + headerDataLength as int;
    }
    result := PesResult(true, position);
  }

  class PesParser {
    var received: seq<seq<Byte>>   // what the consumer was called with

    constructor ()
      ensures received == []
    {
      received := [];
    }

    method Put(packet: TsPacket)
      requires packet.payload.InBounds() && PesOk(packet.payloadUnitStart, packet.payload.Bytes())
      modifies this
      ensures var p := old(packet.payload.Bytes());
              var es := if packet.payloadUnitStart && |p| >= 8 then p[9 + p[8] as int..] else p;
              received == old(received) + if es == [] then [] else [es]
    {
      var payload := packet.payload.data[packet.payload.offset..packet.payload.offset + packet.payload.size];
      var payloadData := payload;
      if packet.payloadUnitStart {
        var result := TryParseHeader(payload);
        if result.isSuccess {
          payloadData := payload[result.consumedBytes..];
        }
      }
      if |payloadData| > 0 {
        received := received + [payloadData];
      }
    }
  }

  // ---------------------------------------------------------------- encoding

  datatype PesHeader = PesHeader(streamId: int, length: seq<Byte>, flags: seq<Byte>, optional: seq<Byte>)

  ghost predicate WellFormedHeader(h: PesHeader) {
    && 0 <= h.streamId < 256 && h.streamId !in {0xbc, 0xbe, 0xbf, 0xf0, 0xf1, 0xf2, 0xf8, 0xff}
    && |h.length| == 2 && |h.flags| == 2 && |h.optional| < 256
  }

  ghost function EncodeHeader(h: PesHeader): seq<Byte>
    requires WellFormedHeader(h)
  {
    [0, 0, 1, h.streamId] + h.length + h.flags + [|h.optional|] + h.optional
  }

  /** Stripping the header gives back the elementary stream bytes behind it, whatever the header says. */
  lemma {:induction false} HeaderRoundTrip(h: PesHeader, es: seq<Byte>)
    requires WellFormedHeader(h)
    ensures PesOk(true, EncodeHeader(h) + es) && EsData(true, EncodeHeader(h) + es) == es
  {
    var p := EncodeHeader(h) + es;
    assert p[3] == h.streamId && p[8] == |h.optional|;
    assert p[9 + |h.optional|..] == es;
  }
}
