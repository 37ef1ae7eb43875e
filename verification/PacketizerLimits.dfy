/**
  When request and get do what a caller counts on: exact conditions over what a packetizer can hold, and inputs for
  which they fail.
 */
module PacketizerLimits {
  import opened Bytes
  import opened TsPackets
  import opened Framing
  import opened Packetizers

  ghost function Fill(n: nat, v: Byte): seq<Byte> {
    seq(n, _ => v)
  }

  // ---------------------------------------------------------------- request

  /** A storage with a settled input buffer in it. */
  ghost predicate HoldsBuffer(storage: seq<Byte>, cursor: nat, size: nat) {
    && cursor + size <= |storage|
    && (size > 0 ==> storage[cursor] == SYNC_BYTE)
    && (size < PACKET_SIZE ==> cursor == 0)
  }

  /** The storage after a chunk was written at a position. */
  ghost function Filled(storage: seq<Byte>, at: nat, chunk: seq<Byte>): seq<Byte>
    requires at + |chunk| <= |storage|
  {
    storage[..at] + chunk + storage[at + |chunk|..]
  }

  /** After the chunk was written to the requested block and confirmed, the buffer is the old one and the chunk. */
  ghost predicate Appends(storage: seq<Byte>, cursor: nat, size: nat, chunk: seq<Byte>)
    requires cursor + size <= |storage| && size + |chunk| <= |storage|
  {
    && cursor + size + |chunk| <= |storage|
    && Filled(storage, size, chunk)[cursor..cursor + size + |chunk|] == storage[cursor..cursor + size] + chunk
  }

  ghost predicate AlwaysAppends(length: nat, cursor: nat, size: nat, n: nat)
    requires cursor + size <= length && size + n <= length
  {
    forall storage: seq<Byte>, chunk: seq<Byte> ::
      |storage| == length && |chunk| == n && HoldsBuffer(storage, cursor, size) ==> Appends(storage, cursor, size, chunk)
  }

  /** The requested block continues every settled buffer at the cursor exactly when the cursor is the start of the
      storage, as it is for a depleted packetizer. */
  lemma {:induction false} RequestAppendsIff(length: nat, cursor: nat, size: nat, n: nat)
    requires n > 0 && cursor + size <= length && size + n <= length && (size < PACKET_SIZE ==> cursor == 0)
    ensures AlwaysAppends(length, cursor, size, n) <==> cursor == 0
  {
    if cursor == 0 {
      forall storage: seq<Byte>, chunk: seq<Byte> | |storage| == length && |chunk| == n
        ensures Appends(storage, cursor, size, chunk)
      {
      }
    } else {
      var storage := Fill(length, 0)[cursor := SYNC_BYTE];
      assert HoldsBuffer(storage, cursor, size);
      if cursor + size + n <= length {
        LastByteIsNotTheChunks(storage, cursor, size, Fill(n, 1));
      }
      assert !Appends(storage, cursor, size, Fill(n, 1));
    }
  }

  lemma {:induction false} LastByteIsNotTheChunks(storage: seq<Byte>, cursor: nat, size: nat, chunk: seq<Byte>)
    requires cursor > 0 && size > 0 && |chunk| > 0 && cursor + size + |chunk| <= |storage|
    requires storage[cursor + size + |chunk| - 1] != chunk[|chunk| - 1]
    ensures !Appends(storage, cursor, size, chunk)
  {
    var last := size + |chunk| - 1;
    assert Filled(storage, size, chunk)[cursor..cursor + size + |chunk|][last] == storage[cursor + last];
    assert (storage[cursor..cursor + size] + chunk)[last] == chunk[|chunk| - 1];
  }

  ghost predicate IsThree(three: seq<Byte>, two: seq<Byte>, f: seq<Byte>) {
    && IsFrame(f) && |three| == 3 * PACKET_SIZE && |two| == 2 * PACKET_SIZE
    && three == f + two && two == f + f
  }

  lemma {:induction false} ThreeAndTwo(three: seq<Byte>, two: seq<Byte>, f: seq<Byte>)
    requires IsThree(three, two, f)
    ensures SkipToSync([] + three) == three && SkipToSync(three[PACKET_SIZE..]) == two
  {
    assert [] + three == three && [] + two == two && three[PACKET_SIZE..] == two;
    SkipGap([], three);
    SkipGap([], two);
  }

  /** Three packets received and one taken: the block requested then is part of the input buffer, so that what is
      written to it replaces received bytes. */
  method RequestTooEarly(three: seq<Byte>, ghost two: seq<Byte>, ghost f: seq<Byte>)
    returns (source: Packetizer, buffer: ConstBuffer)
    requires IsThree(three, two, f)
    ensures source.Settled() && !source.IsDepleted() && source.buffered == two
    ensures buffer.data == source.dataStorage && buffer.InBounds() && buffer.size == PACKET_SIZE
    ensures source.cursor <= buffer.offset && buffer.offset + buffer.size == source.cursor + source.size
  {
    ThreeAndTwo(three, two, f);
    source := FilledWith(3 * PACKET_SIZE, three);
    var packet := source.Get();
    buffer := source.Request();
  }

  /** A packetizer that has just received a chunk which starts with a packet. */
  method FilledWith(capacity: nat, chunk: seq<Byte>) returns (source: Packetizer)
    requires PACKET_SIZE <= |chunk| <= capacity && SkipToSync([] + chunk) == chunk
    ensures source.Settled() && !source.IsDepleted() && source.dataStorage.Length == capacity
    ensures fresh(source) && fresh(source.dataStorage)
    ensures source.buffered == chunk && source.cursor == 0
  {
    source := new Packetizer(capacity);
    source.Feed(chunk);
  }

  // ---------------------------------------------------------------- get

  /** Contents at the cursor whose first packet's payload starts at the offset and behind which some bytes are kept. */
  ghost predicate HoldsPacket(contents: seq<Byte>, offset: nat, kept: nat) {
    && |contents| >= PACKET_SIZE && IsFrame(contents[..PACKET_SIZE])
    && AdaptationFits(contents[..PACKET_SIZE]) && PayloadOffset(contents[..PACKET_SIZE]) == offset
    && |SkipToSync(contents[PACKET_SIZE..])| == kept
  }

  ghost predicate AlwaysShowsPayload(cursor: nat, offset: nat, kept: nat) {
    forall contents: seq<Byte> :: HoldsPacket(contents, offset, kept) ==>
      ViewOf(contents, cursor) == Payload(contents[..PACKET_SIZE])
  }

  /** The view handed out still shows the payload, for all contents with this offset and this many kept bytes, exactly
      when the payload is empty, the packet is not the last complete one or the kept bytes end before the payload. */
  lemma {:induction false} CompactionKeepsViewIff(cursor: nat, offset: nat, kept: nat)
    requires 4 <= offset <= PACKET_SIZE
    ensures AlwaysShowsPayload(cursor, offset, kept)
      <==> offset == PACKET_SIZE || kept >= PACKET_SIZE || kept <= cursor + offset
  {
    if offset == PACKET_SIZE || kept >= PACKET_SIZE || kept <= cursor + offset {
      forall contents: seq<Byte> | HoldsPacket(contents, offset, kept)
        ensures ViewOf(contents, cursor) == Payload(contents[..PACKET_SIZE])
      {
      }
    } else {
      var f, tail := PlainFrame(offset), [SYNC_BYTE] + Fill(kept - 1, 1);
      PlainFrameIs(offset);
      TailIsSeen(f, tail, cursor, offset);
      assert HoldsPacket(f + tail, offset, kept);
    }
  }

  /** A frame with zeros in its payload, which starts at the offset. */
  ghost function PlainFrame(offset: nat): (f: seq<Byte>)
    requires 4 <= offset <= PACKET_SIZE
    ensures IsFrame(f)
  {
    (if offset == 4 then [SYNC_BYTE, 0, 0, 0, 0] else [SYNC_BYTE, 0, 0, 32, offset - 5]) + Fill(PACKET_SIZE - 5, 0)
  }

  lemma {:induction false} PlainFrameIs(offset: nat)
    requires 4 <= offset <= PACKET_SIZE
    ensures var f := PlainFrame(offset);
            && AdaptationFits(f) && PayloadOffset(f) == offset
            && forall i :: 0 <= i < |Payload(f)| ==> Payload(f)[i] == 0
  {
    var f := PlainFrame(offset);
    assert HasAdaptationField(f) <==> offset != 4;
    if offset != 4 {
      assert f[4] == offset - 5;
    }
  }

  /** The first byte of the view comes from the bytes behind the packet. */
  lemma {:induction false} TailIsSeen(f: seq<Byte>, tail: seq<Byte>, cursor: nat, offset: nat)
    requires IsFrame(f) && AdaptationFits(f) && PayloadOffset(f) == offset < PACKET_SIZE
    requires cursor + offset < |tail| < PACKET_SIZE && tail[0] == SYNC_BYTE
    requires tail[cursor + offset] != Payload(f)[0]
    ensures HoldsPacket(f + tail, offset, |tail|)
    ensures ViewOf(f + tail, cursor) != Payload((f + tail)[..PACKET_SIZE])
  {
    var contents := f + tail;
    assert contents[..PACKET_SIZE] == f && contents[PACKET_SIZE..] == tail;
    SkipGap([], tail);
    assert [] + tail == tail;
    assert ViewOf(contents, cursor)[0] == tail[cursor + offset];
  }

  /** A packet and twelve more bytes received at once: the packet's view does not show its payload. */
  method ViewOverwritten(chunk: seq<Byte>) returns (source: Packetizer, packet: TsPacket)
    requires chunk == PlainFrame(4) + ([SYNC_BYTE] + Fill(11, 1))
    ensures packet.payload.data == source.dataStorage && packet.payload.InBounds()
    ensures packet.payload.Bytes() != Payload(PlainFrame(4))
  {
    ghost var f, tail := PlainFrame(4), [SYNC_BYTE] + Fill(11, 1);
    PlainFrameIs(4);
    TailIsSeen(f, tail, 0, 4);
    SkipGap([], chunk);
    assert [] + chunk == chunk;
    source := FilledWith(200, chunk);
    assert chunk[..PACKET_SIZE] == f;
    packet := source.Get();
  }
}
