/**
  The reference framing of a byte stream: skip to a sync byte, take 188 bytes, repeat.
 */
module Framing {
  import opened Bytes
  import opened TsPackets

  /** Position k of s holds the first sync byte, or is the end when there is none. */
  ghost predicate IsFirstSync(s: seq<Byte>, k: nat) {
    && k <= |s| && (k == |s| || s[k] == SYNC_BYTE)
    && forall j :: 0 <= j < k ==> s[j] != SYNC_BYTE
  }

  lemma {:induction false} FirstSyncExists(s: seq<Byte>)
    ensures exists k: nat :: IsFirstSync(s, k)
  {
    var k := 0;
    while k < |s| && s[k] != SYNC_BYTE
      invariant 0 <= k <= |s|
      invariant forall j :: 0 <= j < k ==> s[j] != SYNC_BYTE
    {
      k := k + 1;
    }
    assert IsFirstSync(s, k);
  }

  /** The number of bytes before the first sync byte. */
  ghost function GapLength(s: seq<Byte>): (k: nat)
    ensures IsFirstSync(s, k)
  {
    FirstSyncExists(s);
    var k: nat :| IsFirstSync(s, k);
    k
  }

  /** Drops bytes up to the first sync byte. */
  ghost function SkipToSync(s: seq<Byte>): (t: seq<Byte>)
  {
    s[GapLength(s)..]
  }

  /** The packets found in a stream. */
  ghost function Frames(s: seq<Byte>): seq<seq<Byte>>
    decreases |s|
  {
    var t := SkipToSync(s);
    if |t| < PACKET_SIZE then [] else [t[..PACKET_SIZE]] + Frames(t[PACKET_SIZE..])
  }

  /** The bytes kept for later: less than a packet, starting with a sync byte. */
  ghost function Residue(s: seq<Byte>): (r: seq<Byte>)
    decreases |s|
  {
    var t := SkipToSync(s);
    if |t| < PACKET_SIZE then t else Residue(t[PACKET_SIZE..])
  }

  ghost function Concat(chunks: seq<seq<Byte>>): seq<Byte> {
    if chunks == [] then [] else Concat(chunks[..|chunks| - 1]) + chunks[|chunks| - 1]
  }

  // ---------------------------------------------------------------- skipping

  lemma {:induction false} SkipGap(gap: seq<Byte>, t: seq<Byte>)
    requires SYNC_BYTE !in gap
    requires t == [] || t[0] == SYNC_BYTE
    ensures SkipToSync(gap + t) == t && GapLength(gap + t) == |gap|
  {
    var s := gap + t;
    assert forall j :: 0 <= j < |gap| ==> s[j] == gap[j] && gap[j] in gap;
    assert t != [] ==> s[|gap|] == SYNC_BYTE;
    assert GapLength(s) == |gap|;
    assert s[|gap|..] == t;
  }

  /** Skipping splits off a run of bytes without a sync byte and stops at a sync byte or the end. */
  lemma {:induction false} SkipSplitsGap(s: seq<Byte>) returns (gap: seq<Byte>)
    ensures s == gap + SkipToSync(s) && SYNC_BYTE !in gap
    ensures SkipToSync(s) == [] || SkipToSync(s)[0] == SYNC_BYTE
  {
    gap := s[..GapLength(s)];
  }

  lemma {:induction false} SkipAll(gap: seq<Byte>, s: seq<Byte>)
    requires SYNC_BYTE !in gap
    ensures SkipToSync(gap + s) == SkipToSync(s)
  {
    var more := SkipSplitsGap(s);
    var t := SkipToSync(s);
    assert gap + s == (gap + more) + t;
    SkipGap(gap + more, t);
  }

  /** One round of framing, and the end of it. */
  lemma {:induction false} FrameStep(s: seq<Byte>, gap: seq<Byte>, t: seq<Byte>)
    requires s == gap + t && SYNC_BYTE !in gap && (t == [] || t[0] == SYNC_BYTE)
    ensures SkipToSync(s) == t
    ensures |t| < PACKET_SIZE ==> Frames(s) == [] && Residue(s) == t
    ensures |t| >= PACKET_SIZE ==>
              Frames(s) == [t[..PACKET_SIZE]] + Frames(t[PACKET_SIZE..]) && Residue(s) == Residue(t[PACKET_SIZE..])
  {
    SkipGap(gap, t);
  }

  // ---------------------------------------------------------------- cutting the stream

  /** Framing only looks behind the leading garbage. */
  lemma {:induction false} GapDoesNotMatter(gap: seq<Byte>, s: seq<Byte>)
    requires SYNC_BYTE !in gap
    ensures Frames(gap + s) == Frames(s) && Residue(gap + s) == Residue(s)
  {
    SkipAll(gap, s);
  }

  /** Framing a stream can stop anywhere and resume from the residue. */
  lemma {:induction false} FramesSplit(a: seq<Byte>, b: seq<Byte>)
    ensures Frames(a + b) == Frames(a) + Frames(Residue(a) + b)
    ensures Residue(a + b) == Residue(Residue(a) + b)
    decreases |a|
  {
    var gap := SkipSplitsGap(a);
    var t := SkipToSync(a);
    FrameStep(a, gap, t);
    assert a + b == gap + (t + b);
    if |t| < PACKET_SIZE {
      GapDoesNotMatter(gap, t + b);
    } else {
      FramesSplit(t[PACKET_SIZE..], b);
      FrameStepWithMore(a + b, gap, t, b);
    }
  }

  lemma {:induction false} FrameStepWithMore(s: seq<Byte>, gap: seq<Byte>, t: seq<Byte>, b: seq<Byte>)
    requires s == gap + (t + b) && SYNC_BYTE !in gap && |t| >= PACKET_SIZE && t[0] == SYNC_BYTE
    ensures Frames(s) == [t[..PACKET_SIZE]] + Frames(t[PACKET_SIZE..] + b)
    ensures Residue(s) == Residue(t[PACKET_SIZE..] + b)
  {
    var u := t + b;
    FrameStep(s, gap, u);
    assert u[..PACKET_SIZE] == t[..PACKET_SIZE];
    assert u[PACKET_SIZE..] == t[PACKET_SIZE..] + b;
  }

  /** The packets cut from the chunks one by one, keeping the residue in between. */
  ghost function FramesByChunk(residue: seq<Byte>, chunks: seq<seq<Byte>>): seq<seq<Byte>>
    decreases |chunks|
  {
    if chunks == [] then []
    else Frames(residue + chunks[0]) + FramesByChunk(Residue(residue + chunks[0]), chunks[1..])
  }

  /** The bytes kept in the end. */
  ghost function ResidueByChunk(residue: seq<Byte>, chunks: seq<seq<Byte>>): seq<Byte>
    decreases |chunks|
  {
    if chunks == [] then residue else ResidueByChunk(Residue(residue + chunks[0]), chunks[1..])
  }

  /** Neither the packets nor what is kept depend on where the stream was cut into chunks. */
  lemma {:induction false} ChunkIndependence(residue: seq<Byte>, chunks: seq<seq<Byte>>)
    requires Frames(residue) == [] && Residue(residue) == residue
    ensures FramesByChunk(residue, chunks) == Frames(residue + Concat(chunks))
    ensures ResidueByChunk(residue, chunks) == Residue(residue + Concat(chunks))
    decreases |chunks|
  {
    if chunks == [] {
      assert residue + [] == residue;
    } else {
      var first, rest := chunks[0], chunks[1..];
      var start, end := residue + first, Concat(rest);
      ResidueIsSettled(start);
      ChunkIndependence(Residue(start), rest);
      ConcatFirst(chunks);
      FramesSplit(start, end);
      assert residue + Concat(chunks) == start + end;
    }
  }

  lemma {:induction false} ConcatFirst(chunks: seq<seq<Byte>>)
    requires chunks != []
    ensures Concat(chunks) == chunks[0] + Concat(chunks[1..])
    decreases |chunks|
  {
    if |chunks| == 1 {
      assert chunks[..0] == [] && chunks[1..] == [];
      assert Concat(chunks) == [] + chunks[0];
      assert chunks[0] + [] == [] + chunks[0];
    } else {
      var front := chunks[..|chunks| - 1];
      ConcatFirst(front);
      assert front[1..] == chunks[1..][..|chunks[1..]| - 1];
    }
  }

  /** The residue is shorter than a packet, is empty or starts with a sync byte, and framing it changes nothing. */
  lemma {:induction false} ResidueIsSettled(s: seq<Byte>)
    ensures var r := Residue(s);
            && |r| < PACKET_SIZE && (r == [] || r[0] == SYNC_BYTE)
            && Frames(r) == [] && Residue(r) == r
    decreases |s|
  {
    var gap := SkipSplitsGap(s);
    var t := SkipToSync(s);
    FrameStep(s, gap, t);
    if |t| >= PACKET_SIZE {
      ResidueIsSettled(t[PACKET_SIZE..]);
    } else {
      FrameStep(t, [], t);
    }
  }

  // ---------------------------------------------------------------- packets between garbage

  /** Packets, each preceded by extra bytes, and a last run of extra bytes before the rest. */
  ghost function Weave(gaps: seq<seq<Byte>>, packets: seq<seq<Byte>>, rest: seq<Byte>): seq<Byte>
    requires |gaps| == |packets| + 1
    decreases |packets|
  {
    if packets == [] then gaps[0] + rest
    else gaps[0] + packets[0] + Weave(gaps[1..], packets[1..], rest)
  }

  /** The extra bytes hold no sync byte, packets are packets, the rest is an unfinished packet. */
  ghost predicate WellWoven(gaps: seq<seq<Byte>>, packets: seq<seq<Byte>>, rest: seq<Byte>) {
    && |gaps| == |packets| + 1
    && (forall k :: 0 <= k < |gaps| ==> 0x47 !in gaps[k])
    && (forall k :: 0 <= k < |packets| ==> IsFrame(packets[k]))
    && |rest| < PACKET_SIZE && (rest == [] || rest[0] == SYNC_BYTE)
  }

  /** Resynchronisation: whatever bytes other than the sync byte stand between packets, the packets come out. */
  lemma {:induction false} WovenPacketsAreFramed(gaps: seq<seq<Byte>>, packets: seq<seq<Byte>>, rest: seq<Byte>)
    requires WellWoven(gaps, packets, rest)
    ensures Frames(Weave(gaps, packets, rest)) == packets
    ensures Residue(Weave(gaps, packets, rest)) == rest
    decreases |packets|
  {
    var s := Weave(gaps, packets, rest);
    if packets == [] {
      FrameStep(s, gaps[0], rest);
    } else {
      WovenPacketsAreFramed(gaps[1..], packets[1..], rest);
      var tail := Weave(gaps[1..], packets[1..], rest);
      PacketComesOut(gaps[0], packets[0], tail);
      assert s == gaps[0] + (packets[0] + tail);
      assert packets == [packets[0]] + packets[1..];
    }
  }

  lemma {:induction false} PacketComesOut(gap: seq<Byte>, packet: seq<Byte>, tail: seq<Byte>)
    requires SYNC_BYTE !in gap && IsFrame(packet)
    ensures Frames(gap + (packet + tail)) == [packet] + Frames(tail)
    ensures Residue(gap + (packet + tail)) == Residue(tail)
  {
    FrameStepWithMore(gap + (packet + tail), gap, packet, tail);
    assert packet[..PACKET_SIZE] == packet && packet[PACKET_SIZE..] + tail == tail;
  }

  /** Extra bytes before a packet are skipped, whatever the packet and what follows it. */
  ghost predicate Skipped(gap: seq<Byte>) {
    forall packet, tail :: IsFrame(packet) ==> Frames(gap + (packet + tail)) == [packet] + Frames(tail)
  }

  /** A packet with one value behind its sync byte. */
  ghost function Uniform(v: Byte): (f: seq<Byte>)
    ensures IsFrame(f)
  {
    [SYNC_BYTE] + seq(PACKET_SIZE - 1, _ => v)
  }

  /** Extra bytes of a known format are skipped exactly when no sync byte is among them. */
  lemma {:induction false} SkippedIff(gap: seq<Byte>)
    ensures Skipped(gap) <==> 0x47 !in gap
  {
    if SYNC_BYTE in gap {
      var k := GapLength(gap);
      var v: Byte := if k + 1 < |gap| && gap[k + 1] == 0 then 1 else 0;
      var s := gap + (Uniform(v) + []);
      assert s == gap[..k] + s[k..] && s[k] == SYNC_BYTE;
      FrameStep(s, gap[..k], s[k..]);
      assert s[k..][..PACKET_SIZE][1] == s[k + 1] != v;
      assert Uniform(v)[1] == v;
      assert Frames(s)[0] != Uniform(v);
    } else {
      forall packet, tail | IsFrame(packet)
        ensures Frames(gap + (packet + tail)) == [packet] + Frames(tail)
      {
        PacketComesOut(gap, packet, tail);
      }
    }
  }

  /** Conversely the stream is made of the packets found, bytes skipped that are not the sync byte, and the residue;
      no byte is lost. */
  lemma {:induction false} FramingAccountsForAllBytes(s: seq<Byte>) returns (gaps: seq<seq<Byte>>)
    ensures WellWoven(gaps, Frames(s), Residue(s)) && Weave(gaps, Frames(s), Residue(s)) == s
    ensures |s| == PACKET_SIZE * |Frames(s)| + |Concat(gaps)| + |Residue(s)|
    decreases |s|
  {
    var gap := SkipSplitsGap(s);
    var t := SkipToSync(s);
    FrameStep(s, gap, t);
    if |t| < PACKET_SIZE {
      gaps := [gap];
      assert Concat(gaps) == Concat([]) + gap;
    } else {
      var rest := FramingAccountsForAllBytes(t[PACKET_SIZE..]);
      gaps := [gap] + rest;
      WeaveMore(gap, t[..PACKET_SIZE], rest, Frames(t[PACKET_SIZE..]), Residue(s));
      ConcatFirst(gaps);
      assert t == t[..PACKET_SIZE] + t[PACKET_SIZE..];
    }
  }

  lemma {:induction false} WeaveMore(gap: seq<Byte>, packet: seq<Byte>, gaps: seq<seq<Byte>>, packets: seq<seq<Byte>>,
                                     rest: seq<Byte>)
    requires WellWoven(gaps, packets, rest) && SYNC_BYTE !in gap && IsFrame(packet)
    ensures WellWoven([gap] + gaps, [packet] + packets, rest)
    ensures Weave([gap] + gaps, [packet] + packets, rest) == gap + (packet + Weave(gaps, packets, rest))
    ensures ([gap] + gaps)[1..] == gaps
  {
    assert ([gap] + gaps)[1..] == gaps && ([packet] + packets)[1..] == packets;
  }

  lemma {:induction false} FramesAreFrames(s: seq<Byte>)
    ensures forall k :: 0 <= k < |Frames(s)| ==> IsFrame(Frames(s)[k])
  {
    var gaps := FramingAccountsForAllBytes(s);
  }
}
