/**
  The packetizer: one storage block, a cursor into it, resynchronisation, and compaction in place.
 */
module Packetizers {
  import opened Bytes
  import opened TsPackets
  import opened Framing

  class Packetizer {
    const dataStorage: array<Byte>
    var cursor: nat   // where the input buffer starts in the storage
    var size: nat     // how many bytes it holds

    ghost var buffered: seq<Byte>   // the bytes of the input buffer

    ghost predicate Valid()
      reads this, dataStorage
    {
      && cursor + size <= dataStorage.Length && size == |buffered|
      && forall i :: 0 <= i < size ==> dataStorage[cursor + i] == buffered[i]
    }

    /** What every public operation leaves: a non-empty buffer starts with a sync byte, and a depleted one
        stands at the start of the storage. */
    ghost predicate Settled()
      reads this, dataStorage
    {
      && Valid()
      && (size > 0 ==> buffered[0] == SYNC_BYTE)
      && (size < PACKET_SIZE ==> cursor == 0)
    }

    constructor (maxBufferSize: nat)
      ensures Settled() && buffered == [] && fresh(dataStorage) && dataStorage.Length == maxBufferSize
    {
      dataStorage := new Byte[maxBufferSize](_ => 0);
      cursor, size, buffered := 0, 0, [];
    }

    /** The block to fill next.  It continues the buffered bytes when these stand at the start of the storage. */
    method Request() returns (buffer: ConstBuffer)
      requires Valid()
      ensures buffer.data == dataStorage && buffer.InBounds() && buffer.offset == size
      ensures buffer.size == dataStorage.Length - size
      ensures cursor == 0 ==> buffer.offset == cursor + size
      ensures Settled() && size < PACKET_SIZE <= dataStorage.Length ==> buffer.size > 0
    {
      buffer := ConstBuffer(dataStorage, size, dataStorage.Length - size);
    }

    /** Takes over bytes that were written behind the buffered ones, and resynchronises. */
    method Confirm(filled: nat, ghost added: seq<Byte>)
      requires Valid() && filled == |added| && cursor + size + filled <= dataStorage.Length
      requires forall i :: 0 <= i < filled ==> dataStorage[cursor + size + i] == added[i]
      modifies this, dataStorage
      ensures Settled() && buffered == SkipToSync(old(buffered) + added)
      ensures size >= PACKET_SIZE ==> cursor == old(cursor + size) + filled - size
    {
      buffered := buffered + added;
      size := size + filled;
      Sync();
    }

    predicate IsDepleted()
      reads this
    {
      size < PACKET_SIZE
    }

    /** Hands out the packet at the cursor as a view of the storage, then moves on and resynchronises.
        Moving the rest to the start of the storage may overwrite the bytes that the view shows. */
    method Get() returns (packet: TsPacket)
      requires Settled() && !IsDepleted()
      modifies this, dataStorage
      ensures Settled() && buffered == SkipToSync(old(buffered)[PACKET_SIZE..])
      ensures packet.payload.data == dataStorage && ShowsFrame(packet, old(buffered)[..PACKET_SIZE], old(cursor))
      ensures ShowsView(packet, old(buffered), old(cursor))
      ensures size >= PACKET_SIZE ==> cursor == old(cursor + size) - size
    {
      ghost var before, start, all := dataStorage[..], cursor, buffered;
      ghost var f := all[..PACKET_SIZE];
      assert f == before[start..start + PACKET_SIZE];
      packet := ParsePacket(dataStorage, cursor);
      assert ShowsFrame(packet, f, start);
      ghost var kept := Advance();
      ViewRead(packet, all, start, before, kept);
    }

    /** Moves on behind the packet at the cursor; the kept bytes are those that were moved to the start. */
    method Advance() returns (ghost kept: seq<Byte>)
      requires Settled() && !IsDepleted()
      modifies this, dataStorage
      ensures Settled() && buffered == SkipToSync(old(buffered)[PACKET_SIZE..])
      ensures kept == if size < PACKET_SIZE then buffered else []
      ensures forall i :: 0 <= i < |kept| ==> dataStorage[i] == kept[i]
      ensures forall i :: |kept| <= i < dataStorage.Length ==> dataStorage[i] == old(dataStorage[i])
      ensures size >= PACKET_SIZE ==> cursor == old(cursor + size) - size
    {
      ghost var before := dataStorage[..];
      size := size - PACKET_SIZE;
      cursor := cursor + PACKET_SIZE;
      buffered := buffered[PACKET_SIZE..];
      Sync();
      kept := if IsDepleted() then buffered else [];
      if !IsDepleted() {
        assert dataStorage[..] == before;
        assert forall i :: 0 <= i < dataStorage.Length ==> dataStorage[..][i] == dataStorage[i];
      }
    }

    /** Takes packets until depleted, wherever their views stand by then; the frames are the bytes that stood at the
        cursor each time. */
    method Drain() returns (packets: seq<TsPacket>, ghost frames: seq<seq<Byte>>)
      requires Settled()
      modifies this, dataStorage
      ensures Settled() && IsDepleted() && buffered == Residue(old(buffered))
      ensures frames == Frames(old(buffered)) && DecodeAll(packets, frames)
    {
      packets, frames := [], [];
      while !IsDepleted()
        invariant Settled() && Residue(buffered) == Residue(old(buffered))
        invariant frames + Frames(buffered) == Frames(old(buffered)) && DecodeAll(packets, frames)
        decreases size
      {
        ghost var all := buffered;
        var packet := Get();
        TakeFrame(all, buffered);
        Regroup(frames, all[..PACKET_SIZE], Frames(buffered));
        packets, frames := packets + [packet], frames + [all[..PACKET_SIZE]];
      }
      NoFrame(buffered);
      assert frames + [] == frames;
    }

    /** The reading loop with a consumer that takes every packet: the frames at the cursor are those of all the bytes
        at once, wherever the chunks were cut. */
    method FeedAll(chunks: seq<seq<Byte>>) returns (packets: seq<TsPacket>, ghost frames: seq<seq<Byte>>)
      requires Settled() && IsDepleted() && ChunksFit(dataStorage.Length, buffered, chunks)
      modifies this, dataStorage
      ensures Settled() && IsDepleted() && buffered == Residue(old(buffered) + Concat(chunks))
      ensures frames == Frames(old(buffered) + Concat(chunks)) && DecodeAll(packets, frames)
    {
      packets, frames := [], [];
      ghost var todo := chunks;
      ghost var end, left := FramesByChunk(buffered, chunks), ResidueByChunk(buffered, chunks);
      NoFrame(buffered);
      ChunkIndependence(buffered, chunks);
      assert [] + end == end;
      for i := 0 to |chunks|
        invariant Settled() && IsDepleted() && todo == chunks[i..] && DecodeAll(packets, frames)
        invariant ChunksLead(dataStorage.Length, frames, buffered, todo, end, left)
      {
        ghost var next := chunks[i + 1..];
        var chunk := chunks[i];
        assert todo == [chunk] + next;
        ChunkStep(dataStorage.Length, frames, buffered, chunk, next, end, left);
        var more;
        ghost var found;
        more, found := FeedAndDrain(chunk);
        DecodeMore(packets, frames, more, found);
        packets, frames, todo := packets + more, frames + found, next;
      }
      NothingLeads(dataStorage.Length, frames, buffered, end, left);
    }

    /** One chunk of the reading loop. */
    method FeedAndDrain(chunk: seq<Byte>) returns (packets: seq<TsPacket>, ghost frames: seq<seq<Byte>>)
      requires Settled() && IsDepleted() && |buffered| + |chunk| <= dataStorage.Length
      modifies this, dataStorage
      ensures Settled() && IsDepleted() && buffered == Residue(old(buffered) + chunk)
      ensures frames == Frames(old(buffered) + chunk) && DecodeAll(packets, frames)
    {
      NextResidue(buffered + chunk);
      Feed(chunk);
      packets, frames := Drain();
    }

    /** Drops bytes up to a sync byte; a depleted buffer is moved to the start of the storage. */
    method Sync()
      requires Valid()
      modifies this, dataStorage
      ensures Settled() && buffered == SkipToSync(old(buffered))
      ensures size <= old(size)
      ensures forall i :: size <= i < dataStorage.Length ==> dataStorage[i] == old(dataStorage[i])
      ensures size >= PACKET_SIZE ==> cursor == old(cursor + size) - size && dataStorage[..] == old(dataStorage[..])
    {
      SkipGarbage();
      if IsDepleted() {
        MoveToStart(dataStorage, cursor, size);
        cursor := 0;
      }
    }

    /** The loop of Sync. */
    method SkipGarbage()
      requires Valid()
      modifies this
      ensures Valid() && buffered == SkipToSync(old(buffered))
      ensures cursor + size == old(cursor + size) && size <= old(size)
      ensures size > 0 ==> buffered[0] == SYNC_BYTE
    {
      ghost var all := buffered;
      while size > 0 && dataStorage[cursor] != SYNC_BYTE
        invariant Valid() && cursor + size == old(cursor + size) && size <= |all|
        invariant buffered == all[|all| - size..]
        invariant forall j :: 0 <= j < |all| - size ==> all[j] != SYNC_BYTE
        decreases size
      {
        size := size - 1;
        cursor := cursor + 1;
        buffered := buffered[1..];
      }
      SkipGap(all[..|all| - size], buffered);
      assert all == all[..|all| - size] + buffered;
    }

    /** One round of the reading loop: request a block, write a chunk into it, confirm the chunk. */
    method Feed(chunk: seq<Byte>)
      requires Settled() && IsDepleted() && |chunk| <= dataStorage.Length - size
      modifies this, dataStorage
      ensures Settled() && buffered == SkipToSync(old(buffered) + chunk)
      ensures size >= PACKET_SIZE ==> cursor == old(size) + |chunk| - size
    {
      var buffer := Request();
      forall i | 0 <= i < |chunk| {
        buffer.data[buffer.offset + i] := chunk[i];
      }
      Confirm(|chunk|, chunk);
    }
  }

  /** memmove to the start of a block: source and target may overlap. */
  method MoveToStart(block: array<Byte>, from: nat, length: nat)
    requires from + length <= block.Length
    modifies block
    ensures forall i :: 0 <= i < length ==> block[i] == old(block[from + i])
    ensures forall i :: length <= i < block.Length ==> block[i] == old(block[i])
  {
    forall i | 0 <= i < length {
      block[i] := block[from + i];
    }
  }

  /** The payload of the packet at the start of the buffer is out of reach of the bytes kept behind it: the packet is
      not the last complete one, or what is kept ends before the payload in the storage. */
  ghost predicate ViewIntact(contents: seq<Byte>, cursor: nat, kept: nat)
    requires |contents| >= PACKET_SIZE
  {
    kept >= PACKET_SIZE || kept <= cursor + PayloadOffset(contents[..PACKET_SIZE])
  }

  /** The views of all packets handed out while the buffer is emptied stay intact. */
  ghost predicate ViewsIntact(contents: seq<Byte>, cursor: nat)
    decreases |contents|
  {
    |contents| >= PACKET_SIZE ==>
      var next := SkipToSync(contents[PACKET_SIZE..]);
      ViewIntact(contents, cursor, |next|) && ViewsIntact(next, cursor + |contents| - |next|)
  }

  lemma {:induction false} ViewsStayIntact(contents: seq<Byte>, cursor: nat, next: seq<Byte>, cursor': nat)
    requires |contents| >= PACKET_SIZE && ViewsIntact(contents, cursor) && next == SkipToSync(contents[PACKET_SIZE..])
    requires |next| >= PACKET_SIZE ==> cursor' + |next| == cursor + |contents|
    ensures ViewIntact(contents, cursor, |next|) && ViewsIntact(next, cursor')
  {}

  /** Bytes that stood from a position on, after other bytes were moved to the start of the storage. */
  ghost function Overwritten(bytes: seq<Byte>, at: nat, kept: seq<Byte>): (r: seq<Byte>)
    ensures |r| == |bytes|
  {
    seq(|bytes|, i requires 0 <= i < |bytes| => if at + i < |kept| then kept[at + i] else bytes[i])
  }

  /** What the view of the packet at the start of the buffer shows after the packet was handed out: its payload, with
      the bytes that a compaction moved over it. */
  ghost function ViewOf(contents: seq<Byte>, cursor: nat): seq<Byte>
    requires |contents| >= PACKET_SIZE && AdaptationFits(contents[..PACKET_SIZE])
  {
    var f, next := contents[..PACKET_SIZE], SkipToSync(contents[PACKET_SIZE..]);
    Overwritten(Payload(f), cursor + PayloadOffset(f), if |next| < PACKET_SIZE then next else [])
  }

  /** If the adaptation field fits, the packet's view reads just that. */
  ghost predicate ShowsView(packet: TsPacket, contents: seq<Byte>, cursor: nat)
    requires |contents| >= PACKET_SIZE
    reads packet.payload.data
  {
    AdaptationFits(contents[..PACKET_SIZE]) ==>
      packet.payload.InBounds() && packet.payload.Bytes() == ViewOf(contents, cursor)
  }

  lemma {:induction false} IntactViewShowsPayload(contents: seq<Byte>, cursor: nat)
    requires |contents| >= PACKET_SIZE && AdaptationFits(contents[..PACKET_SIZE])
    requires ViewIntact(contents, cursor, |SkipToSync(contents[PACKET_SIZE..])|)
    ensures ViewOf(contents, cursor) == Payload(contents[..PACKET_SIZE])
  {
  }

  /** The payload of a packet read from storage to whose start some bytes were moved. */
  lemma {:induction false} PayloadSeen(before: seq<Byte>, after: seq<Byte>, start: nat, f: seq<Byte>, kept: seq<Byte>)
    requires |before| == |after| && start + PACKET_SIZE <= |before| && f == before[start..start + PACKET_SIZE]
    requires AdaptationFits(f) && |kept| <= |after|
    requires forall i :: 0 <= i < |kept| ==> after[i] == kept[i]
    requires forall i :: |kept| <= i < |before| ==> after[i] == before[i]
    ensures after[start + PayloadOffset(f)..start + PACKET_SIZE]
         == Overwritten(Payload(f), start + PayloadOffset(f), kept)
  {
    var offset := PayloadOffset(f);
    var seen := after[start + offset..start + PACKET_SIZE];
    var expected := Overwritten(Payload(f), start + offset, kept);
    forall i | 0 <= i < |expected|
      ensures seen[i] == expected[i]
    {
      assert Payload(f)[i] == f[offset + i] == before[start + (offset + i)];
    }
  }

  lemma {:induction false} ViewAfter(contents: seq<Byte>, cursor: nat, before: seq<Byte>, after: seq<Byte>, kept: seq<Byte>)
    requires |contents| >= PACKET_SIZE && AdaptationFits(contents[..PACKET_SIZE])
    requires |before| == |after| && cursor + PACKET_SIZE <= |before|
    requires contents[..PACKET_SIZE] == before[cursor..cursor + PACKET_SIZE]
    requires var next := SkipToSync(contents[PACKET_SIZE..]); kept == if |next| < PACKET_SIZE then next else []
    requires |kept| <= |after| && forall i :: 0 <= i < |kept| ==> after[i] == kept[i]
    requires forall i :: |kept| <= i < |before| ==> after[i] == before[i]
    ensures after[cursor + PayloadOffset(contents[..PACKET_SIZE])..cursor + PACKET_SIZE] == ViewOf(contents, cursor)
  {
    PayloadSeen(before, after, cursor, contents[..PACKET_SIZE], kept);
  }

  /** A packet parsed at the cursor, after the kept bytes were moved to the start of its storage. */
  lemma {:induction false} ViewRead(packet: TsPacket, contents: seq<Byte>, cursor: nat, before: seq<Byte>, kept: seq<Byte>)
    requires |contents| >= PACKET_SIZE && ShowsFrame(packet, contents[..PACKET_SIZE], cursor)
    requires |before| == packet.payload.data.Length && cursor + PACKET_SIZE <= |before|
    requires contents[..PACKET_SIZE] == before[cursor..cursor + PACKET_SIZE]
    requires var next := SkipToSync(contents[PACKET_SIZE..]); kept == if |next| < PACKET_SIZE then next else []
    requires |kept| <= |before| && forall i :: 0 <= i < |kept| ==> packet.payload.data[i] == kept[i]
    requires forall i :: |kept| <= i < |before| ==> packet.payload.data[i] == before[i]
    ensures ShowsView(packet, contents, cursor)
  {
    if AdaptationFits(contents[..PACKET_SIZE]) {
      var after := packet.payload.data[..];
      ViewAfter(contents, cursor, before, after, kept);
      assert packet.payload.Bytes() == after[packet.payload.offset..cursor + PACKET_SIZE];
    }
  }

  // ---------------------------------------------------------------- packets of whole streams

  /** The packet has the fields of the frame and a view of the size of its payload. */
  ghost predicate Decodes(packet: TsPacket, f: seq<Byte>) {
    |f| == PACKET_SIZE && exists base: nat :: ShowsFrame(packet, f, base)
  }

  ghost predicate DecodeAll(packets: seq<TsPacket>, frames: seq<seq<Byte>>) {
    |packets| == |frames| && forall k :: 0 <= k < |frames| ==> Decodes(packets[k], frames[k])
  }

  lemma {:induction false} DecodeMore(p: seq<TsPacket>, f: seq<seq<Byte>>, q: seq<TsPacket>, g: seq<seq<Byte>>)
    requires DecodeAll(p, f) && DecodeAll(q, g)
    ensures DecodeAll(p + q, f + g)
  {
  }

  /** Each chunk fits into the block requested for it; nothing more is asked. */
  ghost predicate ChunksFit(capacity: nat, residue: seq<Byte>, chunks: seq<seq<Byte>>)
    decreases |chunks|
  {
    chunks != [] ==>
      |residue + chunks[0]| <= capacity && ChunksFit(capacity, Residue(residue + chunks[0]), chunks[1..])
  }

  /** The chunks still to come fit, and lead from what was found so far to the given end. */
  ghost predicate ChunksLead(capacity: nat, frames: seq<seq<Byte>>, residue: seq<Byte>, chunks: seq<seq<Byte>>,
                             end: seq<seq<Byte>>, left: seq<Byte>) {
    && ChunksFit(capacity, residue, chunks)
    && frames + FramesByChunk(residue, chunks) == end && ResidueByChunk(residue, chunks) == left
  }

  lemma {:induction false} ChunkStep(capacity: nat, frames: seq<seq<Byte>>, residue: seq<Byte>, chunk: seq<Byte>,
                                     next: seq<seq<Byte>>, end: seq<seq<Byte>>, left: seq<Byte>)
    requires ChunksLead(capacity, frames, residue, [chunk] + next, end, left)
    ensures |residue| + |chunk| <= capacity
    ensures ChunksLead(capacity, frames + Frames(residue + chunk), Residue(residue + chunk), next, end, left)
  {
    assert ([chunk] + next)[1..] == next;
    Associate(frames, Frames(residue + chunk), FramesByChunk(Residue(residue + chunk), next));
  }

  lemma {:induction false} NothingLeads(capacity: nat, frames: seq<seq<Byte>>, residue: seq<Byte>, end: seq<seq<Byte>>,
                                        left: seq<Byte>)
    requires ChunksLead(capacity, frames, residue, [], end, left)
    ensures frames == end && residue == left
  {
    assert frames + [] == frames;
  }

  lemma {:induction false} TakeFrame(s: seq<Byte>, next: seq<Byte>)
    requires |s| >= PACKET_SIZE && s[0] == SYNC_BYTE && next == SkipToSync(s[PACKET_SIZE..])
    ensures Frames(s) == [s[..PACKET_SIZE]] + Frames(next) && Residue(s) == Residue(next)
  {
    FrameStep(s, [], s);
    var gap := SkipSplitsGap(s[PACKET_SIZE..]);
    GapDoesNotMatter(gap, next);
  }

  lemma {:induction false} NoFrame(s: seq<Byte>)
    requires |s| < PACKET_SIZE && (s == [] || s[0] == SYNC_BYTE)
    ensures Frames(s) == [] && Residue(s) == s
  {
    FrameStep(s, [], s);
  }

  lemma {:induction false} NextResidue(all: seq<Byte>)
    ensures Frames(SkipToSync(all)) == Frames(all) && Residue(SkipToSync(all)) == Residue(all)
  {
    var gap := SkipSplitsGap(all);
    GapDoesNotMatter(gap, SkipToSync(all));
  }
}
