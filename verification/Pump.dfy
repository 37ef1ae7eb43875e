/**
  The reading loop: chunks of any size are fed to the packetizer and consumed by the demultiplexer.
 */
module Pumps {
  import opened Bytes
  import opened TsPackets
  import opened Framing
  import opened Packetizers
  import opened DemuxModel
  import opened Demuxers

  /** Each chunk fits into the block requested for it, and no packet view is overwritten while it is in use. */
  ghost predicate ChunksOk(capacity: nat, residue: seq<Byte>, chunks: seq<seq<Byte>>)
    decreases |chunks|
  {
    chunks != [] ==>
      var all := residue + chunks[0];
      var settled := SkipToSync(all);
      |all| <= capacity && ViewsIntact(settled, |all| - |settled|) && ChunksOk(capacity, Residue(all), chunks[1..])
  }

  /** The chunks are consumed as if all their bytes had come at once. */
  method Pump(demuxer: Demuxer, source: Packetizer, chunks: seq<seq<Byte>>)
    requires demuxer.Valid() && source.Settled() && source.IsDepleted()
    requires ChunksOk(source.dataStorage.Length, source.buffered, chunks)
    requires RunOk(demuxer.View(), PacketsOf(source.buffered + Concat(chunks)))
    modifies demuxer, demuxer.psis, demuxer.pess, source, source.dataStorage
    ensures demuxer.Valid() && source.Settled() && source.IsDepleted()
    ensures demuxer.View() == Run(old(demuxer.View()), PacketsOf(old(source.buffered) + Concat(chunks)))
    ensures source.buffered == Residue(old(source.buffered) + Concat(chunks))
  {
    ghost var bytes := source.buffered + Concat(chunks);
    ghost var end, left := Run(demuxer.View(), PacketsOf(bytes)), Residue(bytes);
    PumpChunks(demuxer, source, chunks, end, left);
    NothingPending(demuxer.View(), source.dataStorage.Length, source.buffered, end, left);
  }

  /** The loop of Pump. */
  method PumpChunks(demuxer: Demuxer, source: Packetizer, chunks: seq<seq<Byte>>, ghost end: State, ghost left: seq<Byte>)
    requires demuxer.Valid() && source.Settled() && source.IsDepleted()
    requires Pending(demuxer.View(), source.dataStorage.Length, source.buffered, chunks, end, left)
    modifies demuxer, demuxer.psis, demuxer.pess, source, source.dataStorage
    ensures demuxer.Valid() && source.Settled() && source.IsDepleted()
    ensures Pending(demuxer.View(), source.dataStorage.Length, source.buffered, [], end, left)
  {
    ghost var todo := chunks;
    for i := 0 to |chunks|
      invariant todo == chunks[i..]
      invariant demuxer.Valid() && source.Settled() && source.IsDepleted()
      invariant fresh(demuxer.psis - old(demuxer.psis)) && fresh(demuxer.pess - old(demuxer.pess))
      invariant Pending(demuxer.View(), source.dataStorage.Length, source.buffered, todo, end, left)
    {
      SplitFirst(chunks, i);
      todo := chunks[i + 1..];
      PumpOne(demuxer, source, chunks[i], todo, end, left);
    }
  }

  /** The chunks still to come can be consumed and lead to the given end. */
  ghost predicate Pending(st: State, capacity: nat, residue: seq<Byte>, todo: seq<seq<Byte>>, end: State,
                          left: seq<Byte>) {
    ChunksOk(capacity, residue, todo) && Leads(st, residue + Concat(todo), end, left)
  }

  lemma {:induction false} SplitFirst<T>(s: seq<T>, i: nat)
    requires i < |s|
    ensures s[i..] == [s[i]] + s[i + 1..]
  {}

  lemma {:induction false} NothingPending(st: State, capacity: nat, residue: seq<Byte>, end: State, left: seq<Byte>)
    requires Pending(st, capacity, residue, [], end, left)
    requires |residue| < PACKET_SIZE && (residue == [] || residue[0] == SYNC_BYTE)
    ensures st == end && residue == left
  {
    assert residue + Concat([]) == residue;
    NoPacket(st, residue, end, left);
  }

  /** The body of the reading loop. */
  method PumpOne(demuxer: Demuxer, source: Packetizer, chunk: seq<Byte>,
                 ghost todo: seq<seq<Byte>>, ghost end: State, ghost left: seq<Byte>)
    requires demuxer.Valid() && source.Settled() && source.IsDepleted()
    requires Pending(demuxer.View(), source.dataStorage.Length, source.buffered, [chunk] + todo, end, left)
    modifies demuxer, demuxer.psis, demuxer.pess, source, source.dataStorage
    ensures demuxer.Valid() && source.Settled() && source.IsDepleted()
    ensures fresh(demuxer.psis - old(demuxer.psis)) && fresh(demuxer.pess - old(demuxer.pess))
    ensures Pending(demuxer.View(), source.dataStorage.Length, source.buffered, todo, end, left)
  {
    ghost var all := source.buffered + chunk;
    NextChunk(demuxer.View(), source.dataStorage.Length, source.buffered, chunk, todo, end, left);
    FeedIntact(source, chunk, all, SkipToSync(all));
    demuxer.Consume(source);
  }

  /** Feeds a chunk behind which no view will be overwritten. */
  method FeedIntact(source: Packetizer, chunk: seq<Byte>, ghost all: seq<Byte>, ghost settled: seq<Byte>)
    requires source.Settled() && source.IsDepleted()
    requires all == source.buffered + chunk && settled == SkipToSync(all)
    requires |all| <= source.dataStorage.Length && ViewsIntact(settled, |all| - |settled|)
    modifies source, source.dataStorage
    ensures source.Settled() && source.buffered == settled && ViewsIntact(settled, source.cursor)
  {
    source.Feed(chunk);
    SettledCursor(settled, |all| - |settled|, source.cursor);
  }

  lemma {:induction false} SettledCursor(s: seq<Byte>, cursor: nat, cursor': nat)
    requires ViewsIntact(s, cursor) && (|s| >= PACKET_SIZE ==> cursor' == cursor)
    ensures ViewsIntact(s, cursor')
  {}

  /** Framing and running the bytes of the next chunk first. */
  lemma {:induction false} NextChunk(st: State, capacity: nat, residue: seq<Byte>, chunk: seq<Byte>,
                                     todo: seq<seq<Byte>>, end: State, left: seq<Byte>)
    requires Pending(st, capacity, residue, [chunk] + todo, end, left)
    ensures var settled := SkipToSync(residue + chunk);
            && |residue + chunk| <= capacity && ViewsIntact(settled, |residue + chunk| - |settled|)
            && RunOk(st, PacketsOf(settled)) && Residue(settled) == Residue(residue + chunk)
            && Pending(Run(st, PacketsOf(settled)), capacity, Residue(residue + chunk), todo, end, left)
  {
    var all, more := residue + chunk, Concat(todo);
    ConcatFirst([chunk] + todo);
    assert ([chunk] + todo)[1..] == todo;
    assert residue + Concat([chunk] + todo) == all + more;
    PacketsSplit(all, more);
    var gap := SkipSplitsGap(all);
    GapDoesNotMatter(gap, SkipToSync(all));
    RunSplit(st, PacketsOf(all), PacketsOf(Residue(all) + more));
  }

  lemma {:induction false} PacketsSplit(a: seq<Byte>, b: seq<Byte>)
    ensures PacketsOf(a + b) == PacketsOf(a) + PacketsOf(Residue(a) + b)
    ensures Residue(a + b) == Residue(Residue(a) + b)
  {
    FramesSplit(a, b);
    FramesAreFrames(a);
    FramesAreFrames(Residue(a) + b);
    DataSplit(Frames(a), Frames(Residue(a) + b));
  }

  lemma {:induction false} DataSplit(a: seq<seq<Byte>>, b: seq<seq<Byte>>)
    requires forall k :: 0 <= k < |a| ==> |a[k]| == PACKET_SIZE
    requires forall k :: 0 <= k < |b| ==> |b[k]| == PACKET_SIZE
    ensures AllDataOf(a + b) == AllDataOf(a) + AllDataOf(b)
    decreases |a|
  {
    if a == [] {
      assert a + b == b;
    } else {
      assert (a + b)[1..] == a[1..] + b;
      DataSplit(a[1..], b);
    }
  }

  // ---------------------------------------------------------------- when views stay intact

  /** Behind the first packet length of the storage every view is out of reach. */
  lemma {:induction false} FarViewsIntact(s: seq<Byte>, cursor: nat)
    requires cursor >= PACKET_SIZE
    ensures ViewsIntact(s, cursor)
    decreases |s|
  {
    if |s| >= PACKET_SIZE {
      var next := SkipToSync(s[PACKET_SIZE..]);
      FarViewsIntact(next, cursor + |s| - |next|);
    }
  }

  /** Views are overwritten only when a chunk completes exactly one packet and more bytes are kept behind it than lie
      before its payload in the storage. */
  lemma {:induction false} ViewsIntactIff(s: seq<Byte>, cursor: nat)
    requires |s| >= PACKET_SIZE
    ensures var next := SkipToSync(s[PACKET_SIZE..]);
            ViewsIntact(s, cursor) <==> |next| >= PACKET_SIZE || |next| <= cursor + PayloadOffset(s[..PACKET_SIZE])
  {
    var next := SkipToSync(s[PACKET_SIZE..]);
    FarViewsIntact(next, cursor + |s| - |next|);
  }
}
